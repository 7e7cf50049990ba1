/**
 The integer printing of alt_printf, by shifting, and of alt_log_private_printf, by division.
 */
module Printing {
  import opened Hal
  import opened Numerals
  import opened HexBits

  /** What has been read of a conversion: flags, base and width as alt_log_private_printf keeps them. */
  datatype Format = Format(leadingZero: bool, base: Base, signed: bool, upper: bool, width: int)

  // ----- What is to be printed -------------------------------------------------------------------

  function Negative(v: U32, f: Format): bool {
    f.signed && v >= 0x8000_0000
  }

  function Magnitude(v: U32, f: Format): U32 {
    if Negative(v, f) then 0x1_0000_0000 - v else v
  }

  function Sign(v: U32, f: Format): string {
    if Negative(v, f) then ['-'] else []
  }

  function Digits(v: U32, f: Format): string {
    Numeral(Magnitude(v, f), f.base, f.upper)
  }

  /** The whole field: the numeral and its sign, filled up to the width from the left. */
  function Printed(v: U32, f: Format): string {
    var pad := f.width - |Digits(v, f)| - |Sign(v, f)|;
    if f.leadingZero then Sign(v, f) + (Repeat('0', pad) + Digits(v, f))
    else Repeat(' ', pad) + (Sign(v, f) + Digits(v, f))
  }

  /** What comes before the digits, when `pad` is the width less their number. */
  function Leading(sign: bool, f: Format, pad: int): string {
    if f.leadingZero then (if sign then ['-'] + Repeat('0', pad - 1) else Repeat('0', pad))
    else (if sign then Repeat(' ', pad - 1) + ['-'] else Repeat(' ', pad))
  }

  lemma PrintedParts(v: U32, f: Format)
    ensures Printed(v, f) == Leading(Negative(v, f), f, f.width - |Digits(v, f)|) + Digits(v, f)
  {
    hide Digits, Repeat;
    var d, pad := Digits(v, f), f.width - |Digits(v, f)| - |Sign(v, f)|;
    Assoc(Sign(v, f), Repeat('0', pad), d);
    Assoc(Repeat(' ', pad), Sign(v, f), d);
    assert [] + Repeat('0', pad) == Repeat('0', pad) && Repeat(' ', pad) + [] == Repeat(' ', pad);
  }

  /** The parts of a field, in the terms of the code that prints them. */
  lemma ArgumentParts(v: U32, f: Format)
    ensures (
      var sign := f.signed && v >= 0x8000_0000;
      var m := if sign then (0xFFFF_FFFF - v + 1) % 0x1_0000_0000 else v;
      var n := DigitCount(m, f.base);
      && m < Pow(f.base, n) && Digits(v, f) == Fixed(m, n, f.base, f.upper)
      && Printed(v, f) == Leading(sign, f, f.width - n) + Digits(v, f))
  {
    var m := Magnitude(v, f);
    PrintedParts(v, f);
    NumeralIsFixed(m, f.base, f.upper);
    CountBounds(m, f.base);
    hide Leading, Printed, Pow, Fixed, Numeral, DigitCount;
  }

  /** Reading a field: blanks, a sign, digits. */
  function Read(s: string, b: Base): int {
    if s != [] && s[0] == ' ' then Read(s[1..], b)
    else if s != [] && s[0] == '-' then 0 - Value(s[1..], b)
    else Value(s, b)
  }

  // ----- Properties of the text --------------------------------------------------------------------

  /** The field is as wide as asked for, or as wide as the number needs. */
  lemma PrintedLength(v: U32, f: Format)
    ensures |Printed(v, f)| == (
      var need := if f.signed && v >= 0x8000_0000 then 1 + DigitCount(0x1_0000_0000 - v, f.base) else DigitCount(v, f.base);
      if f.width > need then f.width else need)
  {
    NumeralIsFixed(Magnitude(v, f), f.base, f.upper);
  }

  /** The digits of a field, place by place from the right. */
  lemma PrintedDigits(v: U32, f: Format, i: nat)
    requires i < DigitCount(if f.signed && v >= 0x8000_0000 then 0x1_0000_0000 - v else v, f.base)
    ensures (
      var s := Printed(v, f);
      var m := if f.signed && v >= 0x8000_0000 then 0x1_0000_0000 - v else v;
      i < |s| && s[|s| - 1 - i] == Digit(m / Pow(f.base, i) % f.base, f.upper))
  {
    var m := Magnitude(v, f);
    NumeralIsFixed(m, f.base, f.upper);
    NumeralAt(m, f.base, f.upper, i);
    PrintedParts(v, f);
    hide Printed, Numeral, Fixed, DigitCount, Pow, Digit, Leading;
  }

  /** What stands before the digits: a sign followed by zeros when zeros were asked for, blanks followed by a sign
      when they were not. */
  lemma PrintedFilling(v: U32, f: Format)
    ensures (
      var s := Printed(v, f);
      var sign := if f.signed && v >= 0x8000_0000 then 1 else 0;
      var first := |s| - DigitCount(if sign == 1 then 0x1_0000_0000 - v else v, f.base);
      && first >= sign
      && (if f.leadingZero
          then (sign == 1 ==> s[0] == '-') && (forall i :: sign <= i < first ==> s[i] == '0')
          else (sign == 1 ==> s[first - 1] == '-') && (forall i :: 0 <= i < first - sign ==> s[i] == ' ')))
  {
    NumeralIsFixed(Magnitude(v, f), f.base, f.upper);
    PrintedParts(v, f);
    hide Printed, Numeral, Fixed, DigitCount;
    var l := Leading(Negative(v, f), f, f.width - |Digits(v, f)|);
    assert Printed(v, f)[..|l|] == l;
  }

  lemma {:induction false} ReadBlanks(n: int, s: string, b: Base)
    ensures Read(Repeat(' ', n) + s, b) == Read(s, b)
    decreases if n < 0 then 0 else n
  {
    if n > 0 {
      assert (Repeat(' ', n) + s)[1..] == Repeat(' ', n - 1) + s;
      ReadBlanks(n - 1, s, b);
    } else {
      assert Repeat(' ', n) + s == s;
    }
  }

  lemma {:induction false} NumeralStarts(v: nat, b: Base, upper: bool)
    ensures Numeral(v, b, upper) != [] && Numeral(v, b, upper)[0] != ' ' && Numeral(v, b, upper)[0] != '-'
  {
    hide Quot, Rest, DigitValue;
    if v >= b {
      NumeralStarts(Quot(v, b), b, upper);
    }
  }

  /** Every field, whatever its width and filling, reads back to the argument it was made from. */
  lemma PrintedReadsBack(v: U32, f: Format)
    ensures Read(Printed(v, f), f.base) == if f.signed && v >= 0x8000_0000 then v - 0x1_0000_0000 else v
  {
    NumeralReadsBack(Magnitude(v, f), f.base, f.upper);
    NumeralStarts(Magnitude(v, f), f.base, f.upper);
    hide Numeral, Value, Repeat, Read;
    var d, g := Digits(v, f), Sign(v, f);
    var pad := f.width - |d| - |g|;
    assert Printed(v, f) == if f.leadingZero then g + (Repeat('0', pad) + d) else Repeat(' ', pad) + (g + d);
    hide Printed;
    if f.leadingZero {
      ZerosInFront(pad, d, f.base);
      ReadSigned(g, Repeat('0', pad) + d, f.base);
    } else {
      ReadBlanks(pad, g + d, f.base);
      ReadSigned(g, d, f.base);
    }
  }

  lemma ZerosInFront(n: int, d: string, b: Base)
    requires d != [] && d[0] != ' ' && d[0] != '-'
    ensures Value(Repeat('0', n) + d, b) == Value(d, b)
    ensures Repeat('0', n) + d != [] && (Repeat('0', n) + d)[0] != ' ' && (Repeat('0', n) + d)[0] != '-'
  {
    var m: nat := if n < 0 then 0 else n;
    assert Repeat('0', n) == Repeat('0', m);
    ZerosAddNothing(m, d, b);
    hide Value;
    assert (Repeat('0', n) + d)[0] == if m > 0 then '0' else d[0];
  }

  lemma ReadSigned(g: string, t: string, b: Base)
    requires g == [] || g == ['-']
    requires t != [] && t[0] != ' ' && t[0] != '-'
    ensures Read(g + t, b) == if g == [] then Value(t, b) else 0 - Value(t, b)
  {
    hide Value;
    if g == [] {
      assert g + t == t;
    } else {
      assert (g + t)[1..] == t;
    }
  }

  /** The %x of the log printer and the %x of alt_printf print the same text for every word, unless the log
      printer was asked for a field wider than the number. */
  lemma SameHexadecimal(w: bv32, leadingZero: bool, width: int)
    ensures Number(w) < M
    ensures Printed(Number(w), Format(leadingZero, 16, false, false, width)) == Numeral(Number(w), 16, false)
       <==> width <= DigitCount(Number(w), 16)
  {
    NumberBound(w);
    BitsOf32();
    var v := Number(w);
    hide Number;
    var f := Format(leadingZero, 16, false, false, width);
    PrintedLength(v, f);
    NumeralIsFixed(v, 16, false);
    hide Numeral, Fixed, DigitCount;
    var d := Digits(v, f);
    if width <= |d| {
      assert Repeat('0', width - |d|) == [] && Repeat(' ', width - |d|) == [];
      assert [] + d == d;
    }
  }

  /** The text of a word in hexadecimal, character by character from the right: the four bits they stand for. */
  lemma HexadecimalText(v: bv32, j: nat)
    requires j < |Numeral(Number(v), 16, false)|
    ensures j < 8 && |Numeral(Number(v), 16, false)| <= 8
    ensures Numeral(Number(v), 16, false)[|Numeral(Number(v), 16, false)| - 1 - j]
         == "0123456789abcdef"[(Shr(v, 4 * j) & 0xF) as nat]
  {
    NumberBound(v);
    BitsOf32();
    hide Low, Number;
    var n := Number(v);
    EightPlaces(n);
    NumeralIsFixed(n, 16, false);
    DigitAt(n, 16, false, j);
    hide Numeral, Fixed, DigitCount, Pow;
    NibbleIsDigit(v, j);
    Pick(v, j);
    DownIs(v, j);
    LowIsMask(Shr(v, 4 * j));
    DigitIsListed(Low(Shr(v, 4 * j)), false);
  }

  lemma EightPlaces(n: nat)
    requires n < Pow(16, 8)
    ensures DigitCount(n, 16) <= 8
  {
    CountBounds(n, 16);
    if DigitCount(n, 16) > 8 {
      PowGrows(8, DigitCount(n, 16) - 1);
    }
  }

  lemma {:induction false} PowGrows(i: nat, j: nat)
    requires i <= j
    ensures Pow(16, i) <= Pow(16, j)
    decreases j
  {
    if i < j {
      PowGrows(i, j - 1);
    }
  }

  lemma NumberBound(v: bv32)
    ensures Number(v) < Pow(16, 8)
  {
    NumBound(v, 8);
  }

  // ----- Hexadecimal by shifting -------------------------------------------------------------------

  /** Below the place above it, a digit is the leading one; it is zero only if the number lies below its place. */
  lemma NibbleLeads(v: bv32, j: nat)
    requires j < 8 && Number(v) < Pow(16, j + 1)
    ensures Low(NibbleAt(v, 4 * j)) == Quot(Number(v), Pow(16, j))
    ensures Masked(v, 4 * j) == 0 <==> Number(v) < Pow(16, j)
  {
    hide Low, NibbleAt, Masked, Number;
    NibbleIsDigit(v, j);
    EmptyIsZero(v, j);
    FixedFromLeft(Number(v), j, 16, false);
  }

  /** The low part of the number has the same digits. */
  lemma NibbleOfRest(v: bv32, j: nat)
    requires j < 8
    ensures Low(NibbleAt(v, 4 * j)) == Quot(Rest(Number(v), Pow(16, j + 1)), Pow(16, j))
  {
    hide Low, NibbleAt, Number;
    NibbleIsDigit(v, j);
    DigitOfRest(Number(v), j);
  }

  /** The last `j` + 1 digits: the one that mask and shift pick out, and the last `j`. */
  lemma NextNibble(v: bv32, j: nat)
    requires j < 8
    ensures Fixed(Rest(Number(v), Pow(16, j + 1)), j + 1, 16, false)
         == [Digit(Low(NibbleAt(v, 4 * j)), false)] + Fixed(Rest(Number(v), Pow(16, j)), j, 16, false)
  {
    hide Low, NibbleAt, Number, Fixed, Pow, Quot, Rest, Digit;
    NibbleOfRest(v, j);
    RestOfRest(Number(v), j);
    FixedFromLeft(Rest(Number(v), Pow(16, j + 1)), j, 16, false);
  }

  lemma DigitOfRest(v: nat, j: nat)
    ensures Rest(Quot(v, Pow(16, j)), 16) == Quot(Rest(v, Pow(16, j + 1)), Pow(16, j))
  {
    var q := Pow(16, j);
    assert Pow(16, j + 1) == 16 * q;
    hide Quot, Rest, Pow;
    var d, r := Quot(v, 16 * q), Rest(v, 16 * q);
    var s, t := Quot(r, q), Rest(r, q);
    QuotRest(v, 16 * q);
    QuotRest(r, q);
    Regroup(v, q, 16, d, s, t);
    DivUnique(v, q, d * 16 + s, t);
    Below(q, s, 16, t);
    DivUnique(d * 16 + s, 16, d, s);
  }

  lemma RestOfRest(v: nat, j: nat)
    ensures Rest(Rest(v, Pow(16, j + 1)), Pow(16, j)) == Rest(v, Pow(16, j))
  {
    var q := Pow(16, j);
    assert Pow(16, j + 1) == 16 * q;
    hide Quot, Rest, Pow;
    var d, r := Quot(v, 16 * q), Rest(v, 16 * q);
    var s, t := Quot(r, q), Rest(r, q);
    QuotRest(v, 16 * q);
    QuotRest(r, q);
    Regroup(v, q, 16, d, s, t);
    DivUnique(v, q, d * 16 + s, t);
  }

  /** A number of `k` digits without a leading zero. */
  lemma {:induction false} CountFromBounds(v: nat, b: Base, k: nat)
    requires v < Pow(b, k + 1) && (k > 0 ==> Pow(b, k) <= v)
    ensures DigitCount(v, b) == k + 1
  {
    hide Quot, Rest;
    if k == 0 {
      assert Pow(b, 1) == b * Pow(b, 0) == b;
    } else {
      var p := Pow(b, k - 1);
      assert Pow(b, k) == b * p && Pow(b, k + 1) == b * (b * p);
      Scale(b, 1, p);
      QuotRest(v, b);
      Below(b, Quot(v, b), b * p, Rest(v, b));
      Reached(b, p, Quot(v, b), Rest(v, b));
      CountFromBounds(Quot(v, b), b, k - 1);
    }
  }

  lemma Reached(b: nat, p: nat, q: nat, r: nat)
    requires b > 0 && b * p <= q * b + r && r < b
    ensures p <= q
  {
    Scale(b, q + 1, p);
    assert (q + 1) * b == q * b + b;
  }

  lemma Assoc(p: string, q: string, r: string)
    ensures p + (q + r) == p + q + r
  {}

  lemma BitsOf32()
    ensures Pow(16, 8) == 0x1_0000_0000 && Pow(16, 0) == 1
  {
    assert Pow(16, 2) == 16 * (16 * Pow(16, 0)) == 256;
    assert Pow(16, 4) == 16 * (16 * Pow(16, 2)) == 65536;
    assert Pow(16, 6) == 16 * (16 * Pow(16, 4)) == 16777216;
    assert Pow(16, 8) == 16 * (16 * Pow(16, 6));
  }

  lemma NextPlace(b: Base, k: nat)
    ensures Quot(Pow(b, k), b) == if k == 0 then 0 else Pow(b, k - 1)
  {
    if k > 0 {
      var q := Pow(b, k - 1);
      assert Pow(b, k) == q * b + 0;
      DivUnique(q * b, b, q, 0);
    }
  }

  lemma DigitByCode(q: nat, upper: bool)
    requires q < 16
    ensures (
      var d := q + '0' as int;
      var e := if d > '9' as int then d + (if upper then 'A' else 'a') as int - '0' as int - 10 else d;
      0 <= e < 0x80 && e as char == Digit(q, upper))
  {}

  /** There is room in `v` for the place value after `p` while something is left of `v`. */
  predicate Fits(p: nat, b: nat, shrink: nat, v: nat) {
    p * b * shrink <= v
  }

  lemma CountStarts(v: nat, b: Base)
    ensures Pow(b, 0) == 1 && Fits(1, b, Quot(v, b), v)
    ensures DigitCount(v, b) == 1 + if Quot(v, b) == 0 then 0 else DigitCount(Quot(v, b), b)
  {
    QuotRest(v, b);
    hide Quot, Rest;
    assert 1 * b * Quot(v, b) == Quot(v, b) * b;
  }

  lemma CountStep(v: nat, b: Base, p: nat, shrink: nat, k: nat)
    requires Fits(p, b, shrink, v) && shrink > 0 && p == Pow(b, k)
    ensures p * b == Pow(b, k + 1) <= v
    ensures Fits(p * b, b, Quot(shrink, b), v)
    ensures DigitCount(shrink, b) == 1 + if Quot(shrink, b) == 0 then 0 else DigitCount(Quot(shrink, b), b)
  {
    QuotRest(shrink, b);
    hide Quot, Rest;
    assert p * b == b * p;
    Monotone(p * b, 1, shrink);
    Monotone(p * b, Quot(shrink, b) * b, shrink);
    assert p * b * b * Quot(shrink, b) == (p * b) * (Quot(shrink, b) * b) by {
      Commute(p * b, b, Quot(shrink, b));
    }
  }

  lemma Commute(x: nat, b: nat, q: nat)
    ensures x * b * q == x * (q * b)
  {}

  lemma Monotone(p: nat, x: nat, y: nat)
    ensures x <= y ==> p * x <= p * y
  {
    if x <= y {
      assert p * (y - x) >= 0;
    }
  }

  // ----- The two printers --------------------------------------------------------------------------

  class Console {
    var out: string

    constructor ()
      ensures out == []
    {
      out := [];
    }

    /** alt_putchar and alt_log_txchar */
    method Put(c: char)
      modifies this
      ensures out == old(out) + [c]
    {
      out := out + [c];
    }

    /** alt_log_repchar */
    method Repeatedly(c: char, r: int)
      modifies this
      ensures out == old(out) + Repeat(c, r)
    {
      var n := r;
      while n > 0
        invariant r <= 0 ==> n == r
        invariant r > 0 ==> 0 <= n <= r
        invariant out == old(out) + Repeat(c, r - n)
      {
        Put(c);
        n := n - 1;
        assert Repeat(c, r - n) == Repeat(c, r - n - 1) + [c];
      }
      assert Repeat(c, r - n) == Repeat(c, r);
    }

    /** alt_printf, the conversion %x: the numeral in hexadecimal. */
    method PutHex(v: bv32)
      modifies this
      ensures out == old(out) + Numeral(Number(v), 16, false)
    {
      hide Masked, NibbleAt, Number;
      ZeroNumber(v);
      if v == 0 {
        Put('0');
        return;
      }
      ghost var j: nat;
      var digitShift;
      digitShift, j := FirstNibble(v);
      NibbleLeads(v, j);
      CountFromBounds(Number(v), 16, j);
      NumeralIsFixed(Number(v), 16, false);
      PutNibbles(v, digitShift, j);
    }

    /** Finds the first digit that is not zero. */
    method FirstNibble(v: bv32) returns (digitShift: nat, ghost j: nat)
      requires v != 0
      ensures j < 8 && digitShift == 4 * j && Number(v) < Pow(16, j + 1) && Masked(v, digitShift) != 0
    {
      hide Quot, Rest, Pow, Masked, NibbleAt, Low, Number;
      digitShift, j := 28, 7;
      ZeroNumber(v);
      NumberBound(v);
      BitsOf32();
      while Masked(v, digitShift) == 0
        invariant j <= 7 && digitShift == 4 * j && Number(v) < Pow(16, j + 1)
        decreases j
      {
        NibbleLeads(v, j);
        digitShift := digitShift - 4;
        j := j - 1;
      }
    }

    /** Prints the digits from one place down. */
    method PutNibbles(v: bv32, start: nat, ghost top: nat)
      requires top < 8 && start == 4 * top && Number(v) < Pow(16, top + 1)
      modifies this
      ensures out == old(out) + Fixed(Number(v), top + 1, 16, false)
    {
      var digitShift: int := start;
      ghost var j: int, n: nat := top, Number(v);
      assert Rest(n, Pow(16, top + 1)) == n;
      hide Quot, Rest, Pow, Fixed, Number, NibbleAt, Masked, Low, Digit;
      while digitShift >= 0
        invariant -1 <= j <= top && digitShift == 4 * j
        invariant out + Fixed(Rest(n, Pow(16, j + 1)), j + 1, 16, false) == old(out) + Fixed(n, top + 1, 16, false)
      {
        var c := HexChar(v, digitShift, j);
        ghost var before := out;
        NextNibble(v, j);
        Put(c);
        Assoc(before, [c], Fixed(Rest(n, Pow(16, j)), j, 16, false));
        digitShift := digitShift - 4;
        j := j - 1;
      }
      assert Fixed(Rest(n, Pow(16, 0)), 0, 16, false) == [];
    }

    /** The character of the digit at bit `digitShift`. */
    static method HexChar(v: bv32, digitShift: nat, ghost j: nat) returns (c: char)
      requires j < 8 && digitShift == 4 * j
      ensures c == Digit(Low(NibbleAt(v, digitShift)), false)
    {
      hide NibbleAt, Low;
      var digit := NibbleAt(v, digitShift);
      Small(v, j);
      DigitBranch(digit);
      if digit <= 9 {
        c := '0' + Low(digit) as char;
      } else {
        c := 'a' + Low(digit - 10) as char;
      }
    }

    /** alt_log_private_printf, the integer conversions. */
    method PutInteger(v: U32, f: Format)
      modifies this
      ensures out == old(out) + Printed(v, f)
    {
      ArgumentParts(v, f);
      hide *;
      var m, sign := v, false;
      if f.signed && v >= 0x8000_0000 {
        m := (0xFFFF_FFFF - v + 1) % 0x1_0000_0000;
        sign := true;
      }
      var p, digitCount := CountDigits(m, f.base);
      ghost var before := out;
      PutLeading(sign, f, f.width - digitCount);
      PutDigits(m, p, f.base, f.upper, digitCount);
      Assoc(before, Leading(sign, f, f.width - digitCount), Digits(v, f));
    }

    /** Counts the digits of `v` and finds its largest place value, which fits 32 bits. */
    method CountDigits(v: U32, b: Base) returns (p: U32, digitCount: nat)
      ensures digitCount == DigitCount(v, b)
      ensures p == Pow(b, digitCount - 1)
    {
      hide Quot, Pow, DigitCount, Fits;
      var vShrink: nat := v;
      p, digitCount := 1, 1;
      CountStarts(v, b);
      vShrink := Quot(vShrink, b);
      while vShrink > 0
        invariant DigitCount(v, b) == digitCount + if vShrink == 0 then 0 else DigitCount(vShrink, b)
        invariant digitCount >= 1 && p == Pow(b, digitCount - 1) && Fits(p, b, vShrink, v)
      {
        digitCount := digitCount + 1;
        CountStep(v, b, p, vShrink, digitCount - 2);
        p := p * b;
        vShrink := Quot(vShrink, b);
      }
    }

    /** Fills up to the width and prints the sign; `pad` is the width less the number of digits. */
    method PutLeading(sign: bool, f: Format, pad: int)
      modifies this
      ensures out == old(out) + Leading(sign, f, pad)
    {
      var before := pad;
      if f.leadingZero {
        if sign {
          Put('-');
          before := before - 1;
        }
        Repeatedly('0', before);
      } else {
        if sign {
          before := before - 1;
        }
        Repeatedly(' ', before);
        if sign {
          Put('-');
        }
      }
    }

    /** Prints the digits from the largest place down. */
    method PutDigits(v0: U32, place: U32, b: Base, upper: bool, ghost k: nat)
      requires k > 0 && place == Pow(b, k - 1) && v0 < Pow(b, k)
      modifies this
      ensures out == old(out) + Fixed(v0, k, b, upper)
    {
      var v: nat, p: nat := v0, place;
      hide Quot, Rest, Pow, Fixed, Digit;
      ghost var i := k;
      while p != 0
        invariant 0 <= i <= k && p == (if i == 0 then 0 else Pow(b, i - 1)) && v < Pow(b, i)
        invariant out + Fixed(v, i, b, upper) == old(out) + Fixed(v0, k, b, upper)
        decreases p
      {
        FixedFromLeft(v, i - 1, b, upper);
        var d := Quot(v, p) + '0' as int;
        DigitByCode(Quot(v, p), upper);
        if d > '9' as int {
          d := d + (if upper then 'A' else 'a') as int - '0' as int - 10;
        }
        ghost var before := out;
        Put(d as char);
        Assoc(before, [d as char], Fixed(Rest(v, p), i - 1, b, upper));
        NextPlace(b, i - 1);
        v := Rest(v, p);
        p := Quot(p, b);
        i := i - 1;
      }
    }
  }
}

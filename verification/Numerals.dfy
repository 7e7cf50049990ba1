/**
 Numerals in bases up to sixteen: what a printed number is, and how it reads back.
 */
module Numerals {

  type Base = b: int | 2 <= b <= 16 witness 10

  function Digit(d: nat, upper: bool): (c: char)
    requires d < 16
    ensures DigitValue(c) == d && c != '-' && c != ' '
  {
    if d <= 9 then '0' + d as char else (if upper then 'A' else 'a') + (d - 10) as char
  }

  lemma DigitIsListed(d: nat, upper: bool)
    requires d < 16
    ensures Digit(d, upper) == (if upper then "0123456789ABCDEF" else "0123456789abcdef")[d]
  {}

  function DigitValue(c: char): (d: nat)
    ensures d < 16
  {
    if '0' <= c <= '9' then c as nat - '0' as nat
    else if 'a' <= c <= 'f' then c as nat - 'a' as nat + 10
    else if 'A' <= c <= 'F' then c as nat - 'A' as nat + 10
    else 0
  }

  function Quot(v: nat, b: nat): (q: nat)
    requires b > 0
    ensures v < b ==> q == 0
    ensures b > 1 && v > 0 ==> q < v
    ensures v >= b ==> q > 0
  {
    SmallerQuotient(v, b);
    v / b
  }

  function Rest(v: nat, b: nat): (r: nat)
    requires b > 0
    ensures r < b
    ensures v < b ==> r == v
  {
    v % b
  }

  lemma SmallerQuotient(v: nat, b: nat)
    requires b > 0
    ensures v < b ==> v / b == 0
    ensures b > 1 && v > 0 ==> v / b < v
    ensures v >= b ==> v / b > 0
  {
    var q := v / b;
    assert q * b <= v < (q + 1) * b;
    Less(v, b, q);
    Smaller(v, b, q);
  }

  lemma Less(v: nat, b: nat, q: nat)
    requires q * b <= v
    ensures b > 1 && v > 0 ==> q < v
  {
    if b > 1 && q > 0 {
      assert q * b == q + q * (b - 1);
      assert q * (b - 1) >= 1;
    }
  }

  lemma Smaller(v: nat, b: nat, q: nat)
    requires b > 0 && v < (q + 1) * b
    ensures v >= b ==> q > 0
  {}

  lemma QuotRest(v: nat, b: nat)
    requires b > 0
    ensures v == Quot(v, b) * b + Rest(v, b)
  {}

  /** The numeral of `v`: no leading zeros, "0" for zero. */
  function Numeral(v: nat, b: Base, upper: bool): (s: string) {
    if v < b then [Digit(v, upper)] else Numeral(Quot(v, b), b, upper) + [Digit(Rest(v, b), upper)]
  }

  /** What a string of digits stands for. */
  function Value(s: string, b: Base): nat {
    if s == [] then 0 else Value(s[..|s| - 1], b) * b + DigitValue(s[|s| - 1])
  }

  lemma {:induction false} NumeralReadsBack(v: nat, b: Base, upper: bool)
    ensures Value(Numeral(v, b, upper), b) == v
  {
    hide Quot, Rest, Digit, DigitValue;
    var s := Numeral(v, b, upper);
    QuotRest(v, b);
    if v >= b {
      NumeralReadsBack(Quot(v, b), b, upper);
      assert s[..|s| - 1] == Numeral(Quot(v, b), b, upper);
    } else {
      assert s[..0] == [];
    }
  }

  lemma {:induction false} ZerosAddNothing(n: nat, s: string, b: Base)
    ensures Value(Repeat('0', n) + s, b) == Value(s, b)
    decreases |s| + n
  {
    var t := Repeat('0', n) + s;
    if s != [] {
      assert t[..|t| - 1] == Repeat('0', n) + s[..|s| - 1];
      ZerosAddNothing(n, s[..|s| - 1], b);
    } else if n > 0 {
      assert t[..|t| - 1] == Repeat('0', n - 1) + [];
      ZerosAddNothing(n - 1, [], b);
    }
  }

  function Repeat(c: char, n: int): (s: string)
    ensures |s| == if n < 0 then 0 else n
    ensures forall x <- s :: x == c
  {
    seq(if n < 0 then 0 else n, _ => c)
  }

  // ----- Digits from the left ----------------------------------------------------------------------

  function Pow(b: Base, k: nat): (p: nat)
    ensures p >= 1
  {
    if k == 0 then 1 else b * Pow(b, k - 1)
  }

  function DigitCount(v: nat, b: Base): (n: nat)
    ensures n >= 1
  {
    if v < b then 1 else 1 + DigitCount(Quot(v, b), b)
  }

  /** The last `k` digits of `v`. */
  function Fixed(v: nat, k: nat, b: Base, upper: bool): (s: string)
    ensures |s| == k
  {
    if k == 0 then [] else Fixed(Quot(v, b), k - 1, b, upper) + [Digit(Rest(v, b), upper)]
  }

  lemma {:induction false} NumeralIsFixed(v: nat, b: Base, upper: bool)
    ensures Numeral(v, b, upper) == Fixed(v, DigitCount(v, b), b, upper)
    ensures |Numeral(v, b, upper)| == DigitCount(v, b)
  {
    if v >= b {
      NumeralIsFixed(Quot(v, b), b, upper);
    } else {
      assert Fixed(Quot(v, b), 0, b, upper) == [];
    }
  }

  lemma DivUnique(x: nat, d: nat, q: nat, r: nat)
    requires d > 0 && x == q * d + r && r < d
    ensures Quot(x, d) == q && Rest(x, d) == r
  {
    QuotRest(x, d);
    hide Quot, Rest;
    Squeeze(d, Quot(x, d), q, Rest(x, d), r);
  }

  lemma Squeeze(d: int, a: int, b: int, r: int, s: int)
    requires d > 0 && a * d + r == b * d + s && 0 <= r < d && 0 <= s < d
    ensures a == b && r == s
  {
    Scale(d, a + 1, b);
    Scale(d, b + 1, a);
    assert (a + 1) * d == a * d + d && (b + 1) * d == b * d + d;
  }

  lemma Scale(d: int, x: int, y: int)
    requires d > 0
    ensures x <= y ==> x * d <= y * d
    ensures x * d < y * d ==> x < y
  {
    if x <= y {
      assert (y - x) * d >= 0;
    } else {
      assert (x - y) * d >= 0;
    }
  }

  /** The first of `k` + 1 digits is the quotient by the place value, and the others are those of the rest. */
  lemma {:induction false} FixedFromLeft(v: nat, k: nat, b: Base, upper: bool)
    requires v < Pow(b, k + 1)
    ensures Quot(v, Pow(b, k)) < b
    ensures Fixed(v, k + 1, b, upper)
         == [Digit(Quot(v, Pow(b, k)), upper)] + Fixed(Rest(v, Pow(b, k)), k, b, upper)
  {
    hide Quot, Rest, Digit;
    if k == 0 {
      assert v < b && Pow(b, 0) == 1;
      DivUnique(v, 1, v, 0);
      assert Fixed(v, 1, b, upper) == Fixed(Quot(v, b), 0, b, upper) + [Digit(Rest(v, b), upper)];
    } else {
      var q := Pow(b, k - 1);
      assert Pow(b, k) == b * q && Pow(b, k + 1) == b * (b * q);
      Places(v, q, b);
      FixedFromLeft(Quot(v, b), k - 1, b, upper);
      FixedStep(v, k, b, upper);
      FixedStep(Rest(v, b * q), k - 1, b, upper);
    }
  }

  lemma FixedStep(v: nat, k: nat, b: Base, upper: bool)
    ensures Fixed(v, k + 1, b, upper) == Fixed(Quot(v, b), k, b, upper) + [Digit(Rest(v, b), upper)]
  {}

  /** Division by a place value, one place up. */
  lemma Places(v: nat, q: nat, b: Base)
    requires q >= 1 && v < b * (b * q)
    ensures b * q > 0
    ensures Quot(v, b) < b * q
    ensures Quot(Quot(v, b), q) == Quot(v, b * q)
    ensures Rest(Rest(v, b * q), b) == Rest(v, b)
    ensures Quot(Rest(v, b * q), b) == Rest(Quot(v, b), q)
  {
    hide Quot, Rest;
    Scale(b, 1, q);
    var p := b * q;
    var d, r := Quot(v, p), Rest(v, p);
    var s, t := Quot(r, b), Rest(r, b);
    QuotRest(v, p);
    QuotRest(r, b);
    Regroup(v, b, q, d, s, t);
    DivUnique(v, b, d * q + s, t);
    Below(b, s, q, t);
    DivUnique(d * q + s, q, d, s);
    Below(b, Quot(v, b), p, t);
  }

  lemma Regroup(v: nat, b: nat, q: nat, d: nat, s: nat, t: nat)
    requires v == d * (b * q) + (s * b + t)
    ensures v == (d * q + s) * b + t
  {
    assert (d * q + s) * b == (d * q) * b + s * b;
    assert (d * q) * b == d * (b * q);
  }

  lemma Below(b: nat, s: nat, q: nat, t: nat)
    requires b > 0 && s * b + t < b * q
    ensures s < q
  {
    Scale(b, s, q);
  }

  /** Dividing twice. */
  lemma QuotTwice(n: nat, p: nat, q: nat)
    requires p > 0 && q > 0
    ensures p * q > 0 && Quot(n, p * q) == Quot(Quot(n, p), q)
  {
    hide Quot, Rest;
    var d, r := Quot(n, p), Rest(n, p);
    var e, f := Quot(d, q), Rest(d, q);
    QuotRest(n, p);
    QuotRest(d, q);
    Scale(p, 1, q);
    Together(n, p, q, e, f, r);
    DivUnique(n, p * q, e, f * p + r);
  }

  lemma Together(n: nat, p: nat, q: nat, e: nat, f: nat, r: nat)
    requires n == (e * q + f) * p + r && r < p && f < q
    ensures n == e * (p * q) + (f * p + r) && f * p + r < p * q
  {
    Scale(p, f + 1, q);
    assert (f + 1) * p == f * p + p;
    assert (e * q + f) * p == (e * q) * p + f * p;
    assert (e * q) * p == e * (p * q);
  }

  // ----- Place by place --------------------------------------------------------------------------------

  /** Counted from the right, character `i` of a numeral stands for the multiples of the base to the power `i`. */
  lemma NumeralAt(v: nat, b: Base, upper: bool, i: nat)
    requires i < |Numeral(v, b, upper)|
    ensures Numeral(v, b, upper)[|Numeral(v, b, upper)| - 1 - i] == Digit(v / Pow(b, i) % b, upper)
  {
    DigitAt(v, b, upper, i);
    hide Numeral, Digit, Pow;
  }

  lemma {:induction false} DigitAt(v: nat, b: Base, upper: bool, i: nat)
    requires i < |Numeral(v, b, upper)|
    ensures Numeral(v, b, upper)[|Numeral(v, b, upper)| - 1 - i] == Digit(Rest(Quot(v, Pow(b, i)), b), upper)
  {
    hide Quot, Rest, Digit;
    if i == 0 {
      assert v == v * 1 + 0;
      DivUnique(v, 1, v, 0);
    } else {
      DigitAt(Quot(v, b), b, upper, i - 1);
      QuotTwice(v, b, Pow(b, i - 1));
    }
  }

  /** A number has as many places as it needs, and no more. */
  lemma {:induction false} CountBounds(v: nat, b: Base)
    ensures v < Pow(b, DigitCount(v, b))
    ensures v > 0 ==> Pow(b, DigitCount(v, b) - 1) <= v
  {
    hide Quot, Rest;
    if v < b {
      assert Pow(b, 1) == b * Pow(b, 0) == b;
    } else {
      var q, n := Quot(v, b), DigitCount(v, b);
      CountBounds(q, b);
      QuotRest(v, b);
      assert n == 1 + DigitCount(q, b) && Pow(b, n) == b * Pow(b, n - 1) && Pow(b, n - 1) == b * Pow(b, n - 2);
      hide Pow, DigitCount;
      Above(b, q, Pow(b, n - 1), Rest(v, b));
      Scale(b, Pow(b, n - 2), q);
    }
  }

  lemma Above(b: nat, q: nat, p: nat, r: nat)
    requires q < p && r < b
    ensures q * b + r < b * p
  {
    Scale(b, q + 1, p);
    assert (q + 1) * b == q * b + b;
  }
}

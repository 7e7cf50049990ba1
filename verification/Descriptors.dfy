/**
 The file descriptor pool of the HAL as a value, the calls that change it, and what the exclusive lock of a
 device guarantees over every history of calls.
 */
module Descriptors {
  import opened Hal

  const MAX_FD: nat := 32
  const F_GETFL := 3
  const F_SETFL := 4
  const TIOCEXCL := 0x740d
  const TIOCNXCL := 0x740e

  // ----- Flag bits ---------------------------------------------------------------------------

  /** ALT_FD_EXCL */
  predicate Excl(flags: bv32) { flags & 0x8000_0000 != 0 }

  /** ALT_FD_DEV */
  predicate IsDev(flags: bv32) { flags & 0x4000_0000 != 0 }

  /** The flags of open() without the two bits kept for the pool. */
  function UserFlags(flags: bv32): bv32 { flags & !0xC000_0000 }

  /** F_GETFL */
  function Reported(flags: bv32): nat { UserFlags(flags) as nat }

  function AsDevice(flags: bv32): bv32 { flags | 0x4000_0000 }

  function Locking(flags: bv32): bv32 { flags | 0x8000_0000 }

  function Unlocking(flags: bv32): bv32 { flags & !0x8000_0000 }

  /** F_SETFL: O_APPEND and O_NONBLOCK come from the argument. */
  function Settled(flags: bv32, arg: bv32): bv32 { Merged(Masked(flags), arg) }

  function Masked(flags: bv32): bv32 { flags & !0x4008 }

  function Merged(flags: bv32, arg: bv32): bv32 { flags | (arg & 0x4008) }

  lemma OpenFlags(f: bv32)
    ensures !Excl(UserFlags(f))
    ensures !IsDev(UserFlags(f))
  {}

  lemma DeviceFlags(f: bv32)
    ensures IsDev(AsDevice(f))
    ensures Excl(AsDevice(f)) <==> Excl(f)
  {}

  lemma NoFlags()
    ensures !Excl(0) && !IsDev(0)
  {}

  lemma LockFlags(f: bv32)
    ensures Excl(Locking(f))
    ensures IsDev(Locking(f)) <==> IsDev(f)
  {}

  lemma UnlockFlags(f: bv32)
    ensures !Excl(Unlocking(f))
    ensures IsDev(Unlocking(f)) <==> IsDev(f)
  {}

  /** fcntl() cannot take or give up a lock, nor turn a file into a device. */
  lemma SettledFlags(f: bv32, g: bv32)
    ensures Excl(Settled(f, g)) <==> Excl(f)
    ensures IsDev(Settled(f, g)) <==> IsDev(f)
  {}

  /** Only O_APPEND and O_NONBLOCK change, and they become what was asked for. */
  lemma SettledBits(f: bv32, g: bv32)
    ensures Settled(f, g) & 0x4008 == g & 0x4008
    ensures Settled(f, g) & !0x4008 == f & !0x4008
  {}

  // ----- The pool ------------------------------------------------------------------------------

  /** A device structure by its address; zero for none. */
  type Device = nat

  datatype Slot = Slot(dev: Device, flags: bv32)

  /** alt_fd_list and alt_max_fd */
  datatype Pool = Pool(slots: seq<Slot>, max: int)

  /** The result of a call: the value returned, and errno where the call sets it. */
  datatype Answer = Answer(value: int, errno: int)

  /** What the search for a name comes up with: alt_find_dev, else alt_find_file. */
  datatype Found = Nothing | Device(dev: Device) | FileSystem(dev: Device)

  datatype Call =
    | Open(found: Found, flags: bv32, driver: int)      // `driver`: what the device's open() returns, or 0
    | Close(fd: int, closed: int)                       // `closed`: what its close() returns, or 0
    | Ioctl(fd: int, req: int, other: int)              // `other`: what its ioctl() returns, or -ENOTTY
    | GetFlags(fd: int)
    | SetFlags(fd: int, arg: bv32)
    | OtherFcntl(fd: int)
    | Redirect(std: int, found: Found, flags: bv32, driver: int)

  /** The first free slot, or the size of the pool. */
  function FirstFree(s: seq<Slot>): (k: nat)
    ensures k <= |s| && (k < |s| ==> s[k].dev == 0)
    ensures forall i :: 0 <= i < k ==> s[i].dev != 0
  {
    if s == [] || s[0].dev == 0 then 0 else 1 + FirstFree(s[1..])
  }

  /** alt_release_fd */
  function Release(s: seq<Slot>, fd: int): seq<Slot>
    requires fd < |s|
  {
    if fd > 2 then s[fd := Slot(0, 0)] else s
  }

  /** alt_file_locked, as seen from slot `fd`. */
  predicate LockedElsewhere(p: Pool, fd: nat)
    requires fd < |p.slots| && p.max < |p.slots|
  {
    exists i :: 0 <= i <= p.max && i != fd && p.slots[i].dev == p.slots[fd].dev && Excl(p.slots[i].flags)
  }

  /** alt_fd_lock: nobody below the top slot stands in the way. */
  predicate LockGranted(p: Pool, fd: nat)
    requires fd < |p.slots| && p.max < |p.slots|
  {
    forall i :: 0 <= i < p.max && i != fd ==> p.slots[i].dev != p.slots[fd].dev
  }

  /** alt_open after the search: a slot is taken, marked, and given back if anything fails. */
  function OpenSlot(p: Pool, found: Found, flags: bv32, driver: int): (Pool, Answer)
    requires |p.slots| == MAX_FD && p.max < MAX_FD
  {
    if found.Nothing? then (p, Answer(-1, ENODEV)) else
    var k := FirstFree(p.slots);
    if k == MAX_FD then (p, Answer(-1, EMFILE)) else
    var f := UserFlags(flags);
    var q := Pool(p.slots[k := Slot(found.dev, if found.Device? then AsDevice(f) else f)], if k > p.max then k else p.max);
    if found.Device? && LockedElsewhere(q, k) then (q.(slots := Release(q.slots, k)), Answer(-1, EACCES)) else
    if driver < 0 then (q.(slots := Release(q.slots, k)), Answer(-1, -driver)) else
    (q, Answer(k, 0))
  }

  function IoctlSlot(p: Pool, fd: nat, req: int, other: int): (Pool, int)
    requires |p.slots| == MAX_FD && p.max < MAX_FD && fd < MAX_FD
  {
    var s := p.slots[fd];
    if IsDev(s.flags) && req == TIOCEXCL then
      if LockGranted(p, fd) then (p.(slots := p.slots[fd := s.(flags := Locking(s.flags))]), 0) else (p, -EACCES)
    else if IsDev(s.flags) && req == TIOCNXCL then
      (p.(slots := p.slots[fd := s.(flags := Unlocking(s.flags))]), 0)
    else (p, other)
  }

  /** alt_fcntl by its command. */
  function Fcntl(fd: int, cmd: int, arg: bv32): Call {
    if cmd == F_GETFL then GetFlags(fd) else if cmd == F_SETFL then SetFlags(fd, arg) else OtherFcntl(fd)
  }

  /** What the source demands of its callers: descriptors in range, and open ones for close() and ioctl(). */
  predicate Allowed(p: Pool, c: Call)
    requires |p.slots| == MAX_FD
  {
    match c
    case Open(found, _, _) => found.Nothing? || found.dev != 0
    case Close(fd, _) => fd < MAX_FD && (fd >= 0 ==> p.slots[fd].dev != 0)
    case Ioctl(fd, _, _) => fd < MAX_FD && (fd >= 0 ==> p.slots[fd].dev != 0)
    case GetFlags(fd) => fd < MAX_FD
    case SetFlags(fd, _) => fd < MAX_FD
    case OtherFcntl(fd) => fd < MAX_FD
    case Redirect(std, found, _, _) => 0 <= std <= 2 && (found.Nothing? || found.dev != 0)
  }

  function Step(p: Pool, c: Call): (Pool, Answer)
    requires |p.slots| == MAX_FD && p.max < MAX_FD && Allowed(p, c)
  {
    match c
    case Open(found, flags, driver) => OpenSlot(p, found, flags, driver)
    case Close(fd, closed) =>
      if fd < 0 then (p, Answer(-1, EBADFD)) else
      (p.(slots := Release(p.slots, fd)), if closed < 0 then Answer(-1, -closed) else Answer(0, 0))
    case Ioctl(fd, req, other) =>
      if fd < 0 then (p, Answer(-EBADFD, EBADFD)) else
      var (q, rc) := IoctlSlot(p, fd, req, other);
      (q, Answer(rc, if rc < 0 then -rc else 0))
    case GetFlags(fd) =>
      if fd < 0 then (p, Answer(-1, EBADFD)) else
      (p, Answer(Reported(p.slots[fd].flags), 0))
    case SetFlags(fd, arg) =>
      if fd < 0 then (p, Answer(-1, EBADFD)) else
      (p.(slots := p.slots[fd := p.slots[fd].(flags := Settled(p.slots[fd].flags, arg))]), Answer(0, 0))
    case OtherFcntl(fd) => (p, Answer(-1, if fd < 0 then EBADFD else EINVAL))
    case Redirect(std, found, flags, driver) =>
      var (q, a) := OpenSlot(p, found, flags, driver);
      if a.value < 0 then (q, a) else
      (q.(slots := Release(q.slots[std := q.slots[a.value]], a.value)), a)
  }

  // ----- What every call keeps -------------------------------------------------------------------

  /** alt_fd_list and alt_max_fd before main() redirects the standard descriptors. */
  predicate Initial(p: Pool) {
    && |p.slots| == MAX_FD && p.max == -1
    && (forall i :: 0 <= i < MAX_FD ==> p.slots[i].flags == 0 && (p.slots[i].dev != 0 <==> i <= 2))
  }

  /** Which slots are in use, and which can be marked. */
  predicate Shape(p: Pool) {
    && |p.slots| == MAX_FD && (p.max == -1 || 2 < p.max < MAX_FD)
    && (forall i :: 0 <= i <= 2 ==> p.slots[i].dev != 0)
    && (forall i :: 2 < i < MAX_FD && p.slots[i].dev != 0 ==> i <= p.max)
    && (forall i :: 0 <= i < MAX_FD && IsDev(p.slots[i].flags) ==> i <= p.max && p.slots[i].dev != 0)
    && (forall i :: 0 <= i < MAX_FD && Excl(p.slots[i].flags) ==> IsDev(p.slots[i].flags))
  }

  /** No two descriptors of a device hold its lock. */
  predicate OneHolder(p: Pool) {
    forall i, j :: 0 <= i < j < |p.slots| && Excl(p.slots[i].flags) && Excl(p.slots[j].flags) ==>
      p.slots[i].dev != p.slots[j].dev
  }

  /** A holder in the top slot, which the scan for a lock does not look at, has its device to itself. */
  predicate TopAlone(p: Pool) {
    0 <= p.max < |p.slots| && Excl(p.slots[p.max].flags) ==>
      forall j :: 0 <= j < |p.slots| && j != p.max && IsDev(p.slots[j].flags) ==> p.slots[j].dev != p.slots[p.max].dev
  }

  predicate Inv(p: Pool) {
    Shape(p) && OneHolder(p) && TopAlone(p)
  }

  lemma InitialInv(p: Pool)
    requires Initial(p)
    ensures Inv(p)
  {
    OpenFlags(0);
  }

  lemma MarkKeeps(p: Pool, fd: nat, flags: bv32)
    requires Inv(p) && fd < MAX_FD && (IsDev(flags) <==> IsDev(p.slots[fd].flags)) && (Excl(flags) ==> IsDev(flags))
    requires Excl(flags) ==> Excl(p.slots[fd].flags) || LockGranted(p, fd)
    ensures Inv(p.(slots := p.slots[fd := p.slots[fd].(flags := flags)]))
  {
    hide Excl, IsDev;
    var q := p.(slots := p.slots[fd := p.slots[fd].(flags := flags)]);
    assert Shape(q);
    if Excl(flags) {
      forall i | 0 <= i < MAX_FD && i != fd && Excl(p.slots[i].flags) ensures p.slots[i].dev != p.slots[fd].dev {
        NoOther(p, fd, i);
      }
    }
  }

  /** A descriptor that holds the lock, or is granted it, shares its device with no other holder. */
  lemma NoOther(p: Pool, fd: nat, i: nat)
    requires Inv(p) && fd < MAX_FD && i < MAX_FD && i != fd && IsDev(p.slots[fd].flags) && Excl(p.slots[i].flags)
    requires Excl(p.slots[fd].flags) || LockGranted(p, fd)
    ensures p.slots[i].dev != p.slots[fd].dev
  {
    hide Excl, IsDev;
    assert i <= p.max;
  }

  lemma IoctlKeeps(p: Pool, fd: nat, req: int, other: int)
    requires Inv(p) && fd < MAX_FD
    ensures Inv(IoctlSlot(p, fd, req, other).0)
  {
    var f := p.slots[fd].flags;
    LockFlags(f);
    UnlockFlags(f);
    hide Excl, IsDev, Locking, Unlocking, Inv, LockGranted;
    if IsDev(f) && req == TIOCEXCL && LockGranted(p, fd) {
      MarkKeeps(p, fd, Locking(f));
    } else if IsDev(f) && req == TIOCNXCL {
      MarkKeeps(p, fd, Unlocking(f));
    }
  }

  lemma SetFlagsKeeps(p: Pool, fd: nat, arg: bv32)
    requires Inv(p) && fd < MAX_FD
    ensures Inv(p.(slots := p.slots[fd := p.slots[fd].(flags := Settled(p.slots[fd].flags, arg))]))
  {
    SettledFlags(p.slots[fd].flags, arg);
    hide Excl, IsDev, Settled, LockGranted;
    MarkKeeps(p, fd, Settled(p.slots[fd].flags, arg));
  }

  lemma ReleaseKeeps(p: Pool, fd: nat)
    requires Inv(p) && fd < MAX_FD
    ensures Inv(p.(slots := Release(p.slots, fd)))
  {
    NoFlags();
    hide Excl, IsDev;
  }

  /** A free slot taken for a descriptor that holds no lock. */
  lemma TakeKeeps(p: Pool, k: nat, s: Slot)
    requires Inv(p) && 2 < k < MAX_FD && p.slots[k].dev == 0 && s.dev != 0 && !Excl(s.flags)
    requires IsDev(s.flags) ==> forall i :: 0 <= i < MAX_FD && Excl(p.slots[i].flags) ==> p.slots[i].dev != s.dev
    ensures Inv(Pool(p.slots[k := s], if k > p.max then k else p.max))
  {
    hide Excl, IsDev;
  }

  /** A slot taken and given back again. */
  lemma GiveBackKeeps(p: Pool, k: nat)
    requires Inv(p) && 2 < k < MAX_FD && p.slots[k].dev == 0
    ensures Inv(Pool(p.slots[k := Slot(0, 0)], if k > p.max then k else p.max))
  {
    NoFlags();
    hide Excl, IsDev;
  }

  /** Once slot `k` has been taken for a device, the search for a lock on it sees every slot. */
  lemma LockSeen(p: Pool, k: nat, s: Slot)
    requires Shape(p) && k < MAX_FD && !Excl(s.flags)
    ensures LockedElsewhere(Pool(p.slots[k := s], if k > p.max then k else p.max), k)
       <==> exists i :: 0 <= i < MAX_FD && i != k && Excl(p.slots[i].flags) && p.slots[i].dev == s.dev
  {
    hide Excl, IsDev;
    var q := Pool(p.slots[k := s], if k > p.max then k else p.max);
    forall i | 0 <= i < MAX_FD && i != k && Excl(p.slots[i].flags) && p.slots[i].dev == s.dev
      ensures LockedElsewhere(q, k)
    {
      assert i <= q.max && q.slots[i] == p.slots[i];
    }
  }

  lemma OpenKeeps(p: Pool, found: Found, flags: bv32, driver: int)
    requires Inv(p) && (found.Nothing? || found.dev != 0)
    ensures Inv(OpenSlot(p, found, flags, driver).0)
  {
    var k := FirstFree(p.slots);
    if !found.Nothing? && k < MAX_FD {
      var f := UserFlags(flags);
      OpenFlags(flags);
      DeviceFlags(f);
      var s := Slot(found.dev, if found.Device? then AsDevice(f) else f);
      hide Excl, IsDev, UserFlags, AsDevice;
      GiveBackKeeps(p, k);
      LockSeen(p, k, s);
      assert p.slots[k := s][k := Slot(0, 0)] == p.slots[k := Slot(0, 0)];
      if !found.Device? || !LockedElsewhere(Pool(p.slots[k := s], if k > p.max then k else p.max), k) {
        TakeKeeps(p, k, s);
      }
    }
  }

  /** The middle of open(): a slot taken, and what the pool and the device say. */
  predicate Taken(p: Pool, found: Found, flags: bv32, driver: int, q: Pool, index: int, status: int)
    requires |p.slots| == MAX_FD && p.max < MAX_FD && !found.Nothing?
  {
    var k, f := FirstFree(p.slots), UserFlags(flags);
    if k == MAX_FD then index == status == -EMFILE && q == p else
    && index == k
    && q == Pool(p.slots[k := Slot(found.dev, if found.Device? then AsDevice(f) else f)], if k > p.max then k else p.max)
    && status == if found.Device? && LockedElsewhere(q, k) then -EACCES else driver
  }

  lemma NotFound(p: Pool, found: Found, flags: bv32, driver: int)
    requires |p.slots| == MAX_FD && p.max < MAX_FD
    ensures found.Nothing? ==> OpenSlot(p, found, flags, driver) == (p, Answer(-1, ENODEV))
  {}

  lemma Finishing(p: Pool, found: Found, flags: bv32, driver: int, q: Pool, index: int, status: int)
    requires |p.slots| == MAX_FD && p.max < MAX_FD && !found.Nothing? && Taken(p, found, flags, driver, q, index, status)
    ensures index < |q.slots|
    ensures OpenSlot(p, found, flags, driver) == (
      if status < 0 then (q.(slots := Release(q.slots, index)), Answer(-1, -status)) else (q, Answer(index, 0)))
  {
    hide Excl, IsDev, UserFlags, AsDevice, LockedElsewhere;
    assert q.(slots := q.slots) == q;
  }

  /** What a successful open() leaves: the slot it took, and no lock on the device it is for. */
  lemma OpenSucceeds(p: Pool, found: Found, flags: bv32, driver: int)
    requires Inv(p) && (found.Nothing? || found.dev != 0)
    requires OpenSlot(p, found, flags, driver).1.value >= 0
    ensures (
      var (q, a) := OpenSlot(p, found, flags, driver);
      && !found.Nothing? && a == Answer(FirstFree(p.slots), 0) && 2 < a.value < MAX_FD
      && q == Pool(p.slots[a.value := q.slots[a.value]], if a.value > p.max then a.value else p.max)
      && q.slots[a.value].dev == found.dev && !Excl(q.slots[a.value].flags)
      && (IsDev(q.slots[a.value].flags) <==> found.Device?)
      && (found.Device? ==> !Locked(p, found.dev)))
  {
    var k, f := FirstFree(p.slots), UserFlags(flags);
    OpenFlags(flags);
    DeviceFlags(f);
    hide Excl, IsDev, UserFlags, AsDevice;
    LockSeen(p, k, Slot(found.dev, if found.Device? then AsDevice(f) else f));
  }

  /** Somebody holds the lock of the device. */
  predicate Locked(p: Pool, d: Device) {
    exists i :: 0 <= i < |p.slots| && Excl(p.slots[i].flags) && p.slots[i].dev == d
  }

  /** A descriptor without a lock put in place of another. */
  lemma PutKeeps(p: Pool, k: nat, s: Slot)
    requires Inv(p) && k <= p.max && s.dev != 0 && !Excl(s.flags) && (IsDev(s.flags) ==> !Locked(p, s.dev))
    ensures Inv(p.(slots := p.slots[k := s]))
  {
    hide Excl, IsDev;
  }

  lemma RedirectKeeps(p: Pool, std: nat, found: Found, flags: bv32, driver: int)
    requires Inv(p) && std <= 2 && (found.Nothing? || found.dev != 0)
    ensures Inv(Step(p, Redirect(std, found, flags, driver)).0)
  {
    var (q, a) := OpenSlot(p, found, flags, driver);
    OpenKeeps(p, found, flags, driver);
    if a.value >= 0 {
      OpenSucceeds(p, found, flags, driver);
      var s := q.slots[a.value];
      assert IsDev(s.flags) ==> !Locked(q, s.dev) by {
        assert forall i :: 0 <= i < MAX_FD && i != a.value ==> q.slots[i] == p.slots[i];
      }
      hide OpenSlot, Excl, IsDev, Locked;
      PutKeeps(q, std, s);
      ReleaseKeeps(q.(slots := q.slots[std := s]), a.value);
    }
  }

  /** Every call keeps the invariant. */
  lemma StepKeeps(p: Pool, c: Call)
    requires Inv(p) && Allowed(p, c)
    ensures Inv(Step(p, c).0)
  {
    hide Inv, Release, IoctlSlot, OpenSlot;
    assert Shape(p) by { InvShape(p); }
    match c
    case Open(found, flags, driver) => OpenKeeps(p, found, flags, driver);
    case Close(fd, _) => if fd >= 0 { ReleaseKeeps(p, fd); }
    case Ioctl(fd, req, other) => if fd >= 0 { IoctlKeeps(p, fd, req, other); }
    case GetFlags(_) =>
    case SetFlags(fd, arg) => if fd >= 0 { SetFlagsKeeps(p, fd, arg); }
    case OtherFcntl(_) =>
    case Redirect(std, found, flags, driver) => RedirectKeeps(p, std, found, flags, driver);
  }

  lemma InvShape(p: Pool)
    requires Inv(p)
    ensures Shape(p)
  {}

  // ----- Histories -----------------------------------------------------------------------------

  /** The calls of a history are ones the pool may get. */
  predicate History(p: Pool, calls: seq<Call>)
    requires Inv(p)
    decreases |calls|
  {
    calls == [] || (Allowed(p, calls[0]) && History(Next(p, calls[0]), calls[1..]))
  }

  function Next(p: Pool, c: Call): (q: Pool)
    requires Inv(p) && Allowed(p, c)
    ensures Inv(q)
  {
    StepKeeps(p, c);
    Step(p, c).0
  }

  function After(p: Pool, calls: seq<Call>): (q: Pool)
    requires Inv(p) && History(p, calls)
    ensures Inv(q)
    decreases |calls|
  {
    if calls == [] then p else After(Next(p, calls[0]), calls[1..])
  }

  /** After any history from start-up at most one descriptor of a device holds its lock. */
  lemma AtMostOneHolder(p: Pool, calls: seq<Call>, i: nat, j: nat)
    requires Initial(p) && Inv(p) && History(p, calls) && i < MAX_FD && j < MAX_FD
    requires Excl(After(p, calls).slots[i].flags) && Excl(After(p, calls).slots[j].flags)
    requires After(p, calls).slots[i].dev == After(p, calls).slots[j].dev
    ensures i == j
  {
    assert OneHolder(After(p, calls));
  }

  /** While somebody holds the lock of a device every open of it fails, and leaves all descriptors as they were
      apart from clearing the flags of a free slot. */
  lemma OpenWhileLocked(p: Pool, d: Device, flags: bv32, driver: int)
    requires Inv(p) && d != 0 && Locked(p, d)
    ensures (
      var (q, a) := OpenSlot(p, Device(d), flags, driver);
      var k := FirstFree(p.slots);
      && a.value == -1 && a.errno == (if k == MAX_FD then EMFILE else EACCES)
      && q.slots == if k == MAX_FD then p.slots else p.slots[k := Slot(0, 0)])
  {
    var k, f := FirstFree(p.slots), UserFlags(flags);
    OpenFlags(flags);
    DeviceFlags(f);
    hide Excl, IsDev, UserFlags, AsDevice;
    if k < MAX_FD {
      LockSeen(p, k, Slot(d, AsDevice(f)));
      assert p.slots[k := Slot(d, AsDevice(f))][k := Slot(0, 0)] == p.slots[k := Slot(0, 0)];
    }
  }

  /** The calls by which a lock is given up or its slot is replaced. */
  predicate GivesUp(c: Call, x: nat) {
    match c
    case Close(fd, _) => fd == x
    case Ioctl(fd, req, _) => fd == x && req == TIOCNXCL
    case Redirect(std, _, _, _) => std == x
    case _ => false
  }

  /** From `p` to `q` the holder `x` kept its lock, and nobody else has come to the device. */
  predicate Kept(p: Pool, q: Pool, x: nat)
    requires |p.slots| == MAX_FD && |q.slots| == MAX_FD && x < MAX_FD
  {
    && Excl(q.slots[x].flags) && q.slots[x].dev == p.slots[x].dev
    && (forall i :: 0 <= i < MAX_FD && OpenFor(q, i, p.slots[x].dev) ==> OpenFor(p, i, p.slots[x].dev))
  }

  /** Descriptor `i` was opened for device `d`, as a device. */
  predicate OpenFor(p: Pool, i: nat, d: Device)
    requires i < |p.slots|
  {
    p.slots[i].dev == d && IsDev(p.slots[i].flags)
  }

  lemma MarkHeld(p: Pool, x: nat, fd: nat, flags: bv32)
    requires Inv(p) && x < MAX_FD && fd < MAX_FD && Excl(p.slots[x].flags)
    requires (IsDev(flags) <==> IsDev(p.slots[fd].flags)) && (fd == x ==> Excl(flags))
    ensures Kept(p, p.(slots := p.slots[fd := p.slots[fd].(flags := flags)]), x)
  {
    hide Excl, IsDev;
  }

  lemma IoctlHeld(p: Pool, x: nat, fd: nat, req: int, other: int)
    requires Inv(p) && x < MAX_FD && fd < MAX_FD && Excl(p.slots[x].flags) && !(fd == x && req == TIOCNXCL)
    ensures Kept(p, IoctlSlot(p, fd, req, other).0, x)
  {
    var f := p.slots[fd].flags;
    LockFlags(f);
    UnlockFlags(f);
    assert Kept(p, p, x);
    hide Excl, IsDev, Locking, Unlocking, Inv, LockGranted, Kept;
    if IsDev(f) && req == TIOCEXCL && LockGranted(p, fd) {
      MarkHeld(p, x, fd, Locking(f));
    } else if IsDev(f) && req == TIOCNXCL {
      MarkHeld(p, x, fd, Unlocking(f));
    }
  }

  /** Another slot freed, or taken by somebody who does not open the locked device. */
  lemma PutHeld(p: Pool, x: nat, k: nat, s: Slot, max: int)
    requires Inv(p) && x < MAX_FD && k < MAX_FD && k != x && Excl(p.slots[x].flags)
    requires s.dev != p.slots[x].dev || !IsDev(s.flags)
    ensures Kept(p, Pool(p.slots[k := s], max), x)
  {
    hide Excl, IsDev;
  }

  lemma OpenFails(p: Pool, found: Found, flags: bv32, driver: int)
    requires Inv(p) && (found.Nothing? || found.dev != 0)
    requires OpenSlot(p, found, flags, driver).1.value < 0
    ensures (
      var q, k := OpenSlot(p, found, flags, driver).0, FirstFree(p.slots);
      && (q == p || (2 < k < MAX_FD && q.slots == p.slots[k := Slot(0, 0)])))
  {
    hide Excl, IsDev, UserFlags, AsDevice, LockedElsewhere;
    var k := FirstFree(p.slots);
    if !found.Nothing? && k < MAX_FD {
      var f := UserFlags(flags);
      var s := Slot(found.dev, if found.Device? then AsDevice(f) else f);
      assert p.slots[k := s][k := Slot(0, 0)] == p.slots[k := Slot(0, 0)];
    }
  }

  lemma OpenHeld(p: Pool, x: nat, found: Found, flags: bv32, driver: int)
    requires Inv(p) && (found.Nothing? || found.dev != 0) && x < MAX_FD && Excl(p.slots[x].flags)
    ensures Kept(p, OpenSlot(p, found, flags, driver).0, x)
    ensures OpenSlot(p, found, flags, driver).1.value != x
  {
    var (q, a) := OpenSlot(p, found, flags, driver);
    var k := FirstFree(p.slots);
    assert k != x && Kept(p, p, x) && p.slots[x].dev != 0;
    NoFlags();
    if a.value < 0 {
      OpenFails(p, found, flags, driver);
      hide OpenSlot, Kept, Excl, IsDev, Inv;
      if q != p { PutHeld(p, x, k, Slot(0, 0), q.max); }
    } else {
      OpenSucceeds(p, found, flags, driver);
      assert found.Device? ==> found.dev != p.slots[x].dev;
      hide OpenSlot, Kept, Excl, IsDev, Inv;
      PutHeld(p, x, k, q.slots[k], q.max);
    }
  }

  lemma KeptOn(p: Pool, q: Pool, r: Pool, x: nat)
    requires |p.slots| == MAX_FD && |q.slots| == MAX_FD && |r.slots| == MAX_FD && x < MAX_FD
    requires Kept(p, q, x) && Kept(q, r, x)
    ensures Kept(p, r, x)
  {
    hide Excl, OpenFor;
  }

  lemma RedirectHeld(p: Pool, x: nat, std: nat, found: Found, flags: bv32, driver: int)
    requires Inv(p) && std <= 2 && (found.Nothing? || found.dev != 0) && x < MAX_FD && Excl(p.slots[x].flags) && std != x
    ensures Kept(p, Next(p, Redirect(std, found, flags, driver)), x)
  {
    var (q, a) := OpenSlot(p, found, flags, driver);
    OpenKeeps(p, found, flags, driver);
    OpenHeld(p, x, found, flags, driver);
    NoFlags();
    if a.value >= 0 {
      OpenSucceeds(p, found, flags, driver);
      var s := q.slots[a.value];
      var r := q.(slots := q.slots[std := s]);
      assert s.dev != p.slots[x].dev || !IsDev(s.flags);
      assert Inv(r) by {
        assert IsDev(s.flags) ==> !Locked(q, s.dev) by {
          assert forall i :: 0 <= i < MAX_FD && i != a.value ==> q.slots[i] == p.slots[i];
        }
        PutKeeps(q, std, s);
      }
      assert Excl(q.slots[x].flags) && q.slots[x].dev == p.slots[x].dev != 0;
      hide OpenSlot, Excl, IsDev, Kept, Inv, Locked;
      PutHeld(q, x, std, s, q.max);
      assert r.slots[x] == q.slots[x];
      PutHeld(r, x, a.value, Slot(0, 0), r.max);
      KeptOn(p, q, r, x);
      KeptOn(p, r, Next(p, Redirect(std, found, flags, driver)), x);
    }
  }

  /** One call, seen from a descriptor `x` that holds the lock of its device. */
  lemma HolderStep(p: Pool, c: Call, x: nat)
    requires Inv(p) && Allowed(p, c) && x < MAX_FD && Excl(p.slots[x].flags) && !GivesUp(c, x)
    ensures Kept(p, Next(p, c), x)
  {
    assert Kept(p, p, x) && p.slots[x].dev != 0;
    NoFlags();
    hide Inv, IoctlSlot, OpenSlot, Kept, Excl, IsDev;
    match c
    case Open(found, flags, driver) => OpenHeld(p, x, found, flags, driver);
    case Close(fd, _) => if fd > 2 { PutHeld(p, x, fd, Slot(0, 0), p.max); }
    case Ioctl(fd, req, other) => if fd >= 0 { IoctlHeld(p, x, fd, req, other); }
    case GetFlags(_) =>
    case SetFlags(fd, arg) =>
      if fd >= 0 {
        SettledFlags(p.slots[fd].flags, arg);
        hide Settled;
        MarkHeld(p, x, fd, Settled(p.slots[fd].flags, arg));
      }
    case OtherFcntl(_) =>
    case Redirect(std, found, flags, driver) => RedirectHeld(p, x, std, found, flags, driver);
  }

  /** A lock, once held, stays with its holder until the holder gives it up; meanwhile nobody new gets to the
      device, whatever is opened, closed, locked, unlocked or set. */
  lemma {:induction false} HolderKeeps(p: Pool, calls: seq<Call>, x: nat)
    requires Inv(p) && History(p, calls) && x < MAX_FD && Excl(p.slots[x].flags)
    requires forall c <- calls :: !GivesUp(c, x)
    ensures Kept(p, After(p, calls), x)
    decreases |calls|
  {
    if calls != [] {
      var q := Next(p, calls[0]);
      assert !GivesUp(calls[0], x) && forall c <- calls[1..] :: c in calls;
      HolderStep(p, calls[0], x);
      assert Excl(q.slots[x].flags);
      hide Excl, IsDev, GivesUp, Allowed, Next, Kept;
      HolderKeeps(q, calls[1..], x);
      KeptOn(p, q, After(p, calls), x);
    }
  }

  // ----- When a lock is granted and when it goes ------------------------------------------------

  /** No other descriptor refers to the device. */
  predicate SoleOpener(p: Pool, fd: nat)
    requires fd < |p.slots|
  {
    forall i :: 0 <= i < |p.slots| && i != fd ==> p.slots[i].dev != p.slots[fd].dev
  }

  /** Another descriptor of the device sits in the top slot. */
  predicate OtherOnTop(p: Pool, fd: nat)
    requires fd < |p.slots| && p.max < |p.slots|
  {
    0 <= p.max && p.max != fd && p.slots[p.max].dev == p.slots[fd].dev
  }

  /** And so does some descriptor that is not in the top slot. */
  predicate OtherBelow(p: Pool, fd: nat)
    requires fd < |p.slots|
  {
    exists i :: 0 <= i < |p.slots| && i != fd && i != p.max && p.slots[i].dev == p.slots[fd].dev
  }

  /** The lock is meant for a sole opener. It goes to one, and to nobody else, unless the only other descriptor of
      the device sits in the top slot, where the scan does not look. */
  lemma LockExact(p: Pool, fd: nat)
    requires Inv(p) && fd < MAX_FD && IsDev(p.slots[fd].flags)
    ensures LockGranted(p, fd) <==> !OtherBelow(p, fd)
    ensures (LockGranted(p, fd) <==> SoleOpener(p, fd)) <==> !OtherOnTop(p, fd) || OtherBelow(p, fd)
  {
    hide Excl, IsDev;
  }

  lemma OpenFresh(p: Pool, d: Device, k: nat)
    requires Inv(p) && d != 0 && !Locked(p, d) && k == FirstFree(p.slots) < MAX_FD
    ensures (
      var q := Next(p, Open(Device(d), 0, 0));
      && q.slots == p.slots[k := q.slots[k]] && q.max == (if k > p.max then k else p.max)
      && OpenFor(q, k, d) && !Locked(q, d))
  {
    var f := UserFlags(0);
    OpenFlags(0);
    DeviceFlags(f);
    hide Excl, IsDev, UserFlags, AsDevice;
    LockSeen(p, k, Slot(d, AsDevice(f)));
  }

  /** Such a case: a device opened twice from start-up, and locked through the first descriptor. */
  lemma LockOfTwo(p: Pool, d: Device)
    requires Initial(p) && Inv(p) && d != 0 && forall i :: 0 <= i <= 2 ==> p.slots[i].dev != d
    ensures (
      var first, second, lock := Open(Device(d), 0, 0), Open(Device(d), 0, 0), Ioctl(3, TIOCEXCL, 0);
      && Allowed(p, first) && Allowed(Next(p, first), second) && Allowed(Next(Next(p, first), second), lock)
      && (var q := Next(Next(Next(p, first), second), lock);
          Excl(q.slots[3].flags) && OpenFor(q, 3, d) && OpenFor(q, 4, d)))
  {
    NoFlags();
    var open, lock := Open(Device(d), 0, 0), Ioctl(3, TIOCEXCL, 0);
    assert !Locked(p, d) && p.slots[3].dev == 0;
    assert forall i :: 0 <= i <= 2 ==> p.slots[i].dev != 0;
    OpenFresh(p, d, 3);
    var q := Next(p, open);
    assert q.slots[4].dev == 0 && q.slots[3].dev == d;
    OpenFresh(q, d, 4);
    var r := Next(q, open);
    LockFlags(r.slots[3].flags);
    hide Excl, IsDev, Locking, OpenSlot, Inv;
    assert r.max == 4 && OpenFor(r, 3, d);
    assert LockGranted(r, 3);
  }

  /** close() gives the lock up exactly when the descriptor is not one of the three standard ones. */
  lemma CloseUnlocks(p: Pool, fd: nat, closed: int)
    requires Inv(p) && fd < MAX_FD && Excl(p.slots[fd].flags)
    ensures Allowed(p, Close(fd, closed))
    ensures !Locked(Next(p, Close(fd, closed)), p.slots[fd].dev) <==> fd > 2
  {
    NoFlags();
    hide Excl, IsDev;
    if fd <= 2 { assert Release(p.slots, fd)[fd] == p.slots[fd]; }
  }

  /** Such a case: standard output redirected to a device at start-up, locked, and closed; the lock is still there
      and the device cannot be opened. */
  lemma StandardKeepsLock(p: Pool, d: Device, flags: bv32)
    requires Initial(p) && Inv(p) && d != 0 && forall i :: 0 <= i <= 2 ==> p.slots[i].dev != d
    ensures (
      var redirect, lock, close := Redirect(1, Device(d), flags, 0), Ioctl(1, TIOCEXCL, 0), Close(1, 0);
      && Allowed(p, redirect) && Allowed(Next(p, redirect), lock) && Allowed(Next(Next(p, redirect), lock), close)
      && (var q := Next(Next(Next(p, redirect), lock), close);
          && Excl(q.slots[1].flags) && OpenFor(q, 1, d)
          && OpenSlot(q, Device(d), flags, 0).1 == Answer(-1, EACCES)))
  {
    NoFlags();
    var redirect, lock, close := Redirect(1, Device(d), flags, 0), Ioctl(1, TIOCEXCL, 0), Close(1, 0);
    assert !Locked(p, d) && p.slots[3].dev == 0 && forall i :: 0 <= i <= 2 ==> p.slots[i].dev != 0;
    OpenUnlocked(p, d, flags);
    var q := Next(p, redirect);
    assert q.max == 3 && OpenFor(q, 1, d) && forall i :: 0 <= i < MAX_FD && i != 1 ==> q.slots[i].dev != d;
    LockFlags(q.slots[1].flags);
    hide Excl, IsDev, Locking, OpenSlot, Inv;
    assert LockGranted(q, 1);
    var r := Next(q, lock);
    assert Excl(r.slots[1].flags) && r.slots[1].dev == d && Locked(r, d);
    assert r.slots[4].dev == 0 && FirstFree(r.slots) < MAX_FD;
    assert Next(r, close) == r;
    OpenWhileLocked(r, d, flags, 0);
  }

  lemma OpenUnlocked(p: Pool, d: Device, flags: bv32)
    requires Inv(p) && d != 0 && !Locked(p, d) && FirstFree(p.slots) < MAX_FD
    ensures (
      var (q, a) := OpenSlot(p, Device(d), flags, 0);
      var k := FirstFree(p.slots);
      && a == Answer(k, 0) && q == Pool(p.slots[k := q.slots[k]], if k > p.max then k else p.max)
      && OpenFor(q, k, d) && !Excl(q.slots[k].flags))
  {
    var k, f := FirstFree(p.slots), UserFlags(flags);
    OpenFlags(flags);
    DeviceFlags(f);
    hide Excl, IsDev, UserFlags, AsDevice;
    LockSeen(p, k, Slot(d, AsDevice(f)));
  }
}

/**
 What a caller sees of each call on descriptors: the value, errno, and every slot of the pool bit by bit.
 */
module DescriptorLaws {
  import opened Hal
  import opened Descriptors

  /** All slots but one are as they were. */
  predicate OnlyAt(p: Pool, q: Pool, k: int)
    requires |p.slots| == |q.slots| == MAX_FD
  {
    forall i :: 0 <= i < MAX_FD && i != k ==> q.slots[i] == p.slots[i]
  }

  // ----- The flags -----------------------------------------------------------------------------------

  lemma UserBits(f: bv32)
    ensures UserFlags(f) == f & 0x3fff_ffff
  {}

  lemma DeviceBits(f: bv32)
    ensures AsDevice(UserFlags(f)) == (f & 0x3fff_ffff) | 0x4000_0000
    ensures UserFlags(AsDevice(UserFlags(f))) == f & 0x3fff_ffff
  {}

  lemma LockBit(f: bv32)
    ensures Locking(f) == f | 0x8000_0000
    ensures Unlocking(f) == f & 0x7fff_ffff
  {}

  lemma SettledIs(f: bv32, g: bv32)
    ensures Settled(f, g) == (f & 0xffff_bff7) | (g & 0x4008)
    ensures UserFlags(Settled(f, g)) == (UserFlags(f) & 0xffff_bff7) | (g & 0x4008)
  {}

  // ----- open() --------------------------------------------------------------------------------------

  /** What open() needs: a name that is known, a free slot, no lock on the device, and a driver that agrees. */
  predicate CanOpen(p: Pool, found: Found, driver: int)
    requires |p.slots| == MAX_FD
  {
    && !found.Nothing? && FirstFree(p.slots) < MAX_FD
    && !(found.Device? && Locked(p, found.dev)) && driver >= 0
  }

  /** The slot of a descriptor just opened. */
  function Opened(found: Found, flags: bv32): Slot
    requires !found.Nothing?
  {
    Slot(found.dev, if found.Device? then (flags & 0x3fff_ffff) | 0x4000_0000 else flags & 0x3fff_ffff)
  }

  lemma OpenLaw(p: Pool, found: Found, flags: bv32, driver: int)
    requires Inv(p) && (found.Nothing? || found.dev != 0)
    ensures (
      var (q, a) := Step(p, Open(found, flags, driver));
      var k := FirstFree(p.slots);
      && |q.slots| == MAX_FD && OnlyAt(p, q, k)
      && (if CanOpen(p, found, driver)
          then a == Answer(k, 0) && k > 2 && q.slots[k] == Opened(found, flags)
          else && a == Answer(-1, if found.Nothing? then ENODEV else if k == MAX_FD then EMFILE
                                  else if found.Device? && Locked(p, found.dev) then EACCES else -driver)
               && (k < MAX_FD ==> q.slots[k] == if found.Nothing? then p.slots[k] else Slot(0, 0))))
  {
    var k, f := FirstFree(p.slots), UserFlags(flags);
    UserBits(flags);
    DeviceBits(flags);
    OpenFlags(flags);
    DeviceFlags(f);
    hide Excl, IsDev, UserFlags, AsDevice;
    if !found.Nothing? && k < MAX_FD {
      LockSeen(p, k, Slot(found.dev, if found.Device? then AsDevice(f) else f));
    }
  }

  /** What open() was given is what F_GETFL reports, without the two bits kept for the pool. */
  lemma OpenThenGetFlags(p: Pool, found: Found, flags: bv32, driver: int)
    requires Inv(p) && (found.Nothing? || found.dev != 0) && CanOpen(p, found, driver)
    ensures (
      var q := Next(p, Open(found, flags, driver));
      var fd := FirstFree(p.slots);
      Step(q, Fcntl(fd, F_GETFL, 0)) == (q, Answer((flags & 0x3fff_ffff) as nat, 0)))
  {
    OpenLaw(p, found, flags, driver);
    DeviceBits(flags);
    UserBits(flags);
    ReportedIs(flags & 0x3fff_ffff);
    hide Inv, OpenSlot, UserFlags, AsDevice, CanOpen, OnlyAt, Reported;
  }

  // ----- close() -------------------------------------------------------------------------------------

  /** close() frees any descriptor but the three standard ones, whatever the driver answers; the answer is the driver's. */
  lemma CloseLaw(p: Pool, fd: int, closed: int)
    requires Inv(p) && Allowed(p, Close(fd, closed))
    ensures (
      var (q, a) := Step(p, Close(fd, closed));
      && |q.slots| == MAX_FD && OnlyAt(p, q, fd)
      && (fd >= 0 ==> q.slots[fd] == if fd > 2 then Slot(0, 0) else p.slots[fd])
      && a == if fd < 0 then Answer(-1, EBADFD) else if closed < 0 then Answer(-1, -closed) else Answer(0, 0))
  {}

  /** A descriptor that is closed can be had again. */
  lemma CloseThenOpen(p: Pool, fd: int, closed: int, found: Found, flags: bv32)
    requires Inv(p) && Allowed(p, Close(fd, closed)) && fd > 2
    requires !found.Nothing? && found.dev != 0 && !(found.Device? && Locked(p, found.dev))
    ensures (
      var q := Next(p, Close(fd, closed));
      var (r, a) := Step(q, Open(found, flags, 0));
      0 <= a.value <= fd && a.errno == 0 && r.slots[a.value] == Opened(found, flags))
  {
    var q := Next(p, Close(fd, closed));
    CloseLaw(p, fd, closed);
    OpenLaw(q, found, flags, 0);
    NoFlags();
    hide Excl, IsDev;
    assert FirstFree(q.slots) <= fd;
    assert forall i :: 0 <= i < MAX_FD && i != fd ==> q.slots[i] == p.slots[i];
  }

  // ----- ioctl() -------------------------------------------------------------------------------------

  /** TIOCEXCL on a device: granted, the lock bit is set; refused, nothing changes. */
  lemma LockLaw(p: Pool, fd: nat, other: int)
    requires Inv(p) && Allowed(p, Ioctl(fd, TIOCEXCL, other)) && IsDev(p.slots[fd].flags)
    ensures (
      var (q, a) := Step(p, Ioctl(fd, TIOCEXCL, other));
      && |q.slots| == MAX_FD && OnlyAt(p, q, fd) && q.slots[fd].dev == p.slots[fd].dev
      && (if LockGranted(p, fd)
          then a == Answer(0, 0) && q.slots[fd].flags == p.slots[fd].flags | 0x8000_0000 && Locked(q, p.slots[fd].dev)
          else a == Answer(-EACCES, EACCES) && q == p))
  {
    LockBit(p.slots[fd].flags);
    LockFlags(p.slots[fd].flags);
    hide Excl, IsDev, Locking, LockGranted;
    var q := Step(p, Ioctl(fd, TIOCEXCL, other)).0;
    assert LockGranted(p, fd) ==> Excl(q.slots[fd].flags);
  }

  /** TIOCNXCL on a device: the lock bit is cleared and nothing else changes; a device whose lock was held through
      this descriptor can be opened again. */
  lemma UnlockLaw(p: Pool, fd: nat, other: int)
    requires Inv(p) && Allowed(p, Ioctl(fd, TIOCNXCL, other)) && IsDev(p.slots[fd].flags)
    ensures (
      var (q, a) := Step(p, Ioctl(fd, TIOCNXCL, other));
      && |q.slots| == MAX_FD && OnlyAt(p, q, fd) && q.slots[fd].dev == p.slots[fd].dev && a == Answer(0, 0)
      && q.slots[fd].flags == p.slots[fd].flags & 0x7fff_ffff && !Excl(q.slots[fd].flags)
      && (Excl(p.slots[fd].flags) ==> !Locked(q, p.slots[fd].dev)))
  {
    LockBit(p.slots[fd].flags);
    UnlockFlags(p.slots[fd].flags);
    hide Excl, IsDev, Unlocking;
  }

  lemma UnlockThenOpen(p: Pool, fd: nat, other: int, flags: bv32)
    requires Inv(p) && Allowed(p, Ioctl(fd, TIOCNXCL, other)) && IsDev(p.slots[fd].flags) && Excl(p.slots[fd].flags)
    requires FirstFree(p.slots) < MAX_FD
    ensures (
      var q := Next(p, Ioctl(fd, TIOCNXCL, other));
      var (r, a) := Step(q, Open(Device(p.slots[fd].dev), flags, 0));
      a == Answer(FirstFree(p.slots), 0) && r.slots[a.value] == Opened(Device(p.slots[fd].dev), flags))
  {
    var q := Next(p, Ioctl(fd, TIOCNXCL, other));
    UnlockLaw(p, fd, other);
    OpenLaw(q, Device(p.slots[fd].dev), flags, 0);
    hide Excl, IsDev, Locked;
    SameFree(p.slots, q.slots);
  }

  /** Any other request, and any request on a file, is the driver's. */
  lemma OtherLaw(p: Pool, fd: int, req: int, other: int)
    requires Inv(p) && Allowed(p, Ioctl(fd, req, other))
    requires fd >= 0 ==> !IsDev(p.slots[fd].flags) || (req != TIOCEXCL && req != TIOCNXCL)
    ensures Step(p, Ioctl(fd, req, other))
         == (p, if fd < 0 then Answer(-EBADFD, EBADFD) else Answer(other, if other < 0 then -other else 0))
  {}

  // ----- fcntl() -------------------------------------------------------------------------------------

  lemma ReportedIs(f: bv32)
    ensures Reported(f) == (f & 0x3fff_ffff) as nat
  {
    UserBits(f);
    hide UserFlags;
  }

  /** F_GETFL reports all flags but the two kept for the pool, and changes nothing. */
  lemma GetFlagsLaw(p: Pool, fd: int, arg: bv32)
    requires Inv(p) && fd < MAX_FD
    ensures Step(p, Fcntl(fd, F_GETFL, arg))
         == (p, if fd < 0 then Answer(-1, EBADFD) else Answer((p.slots[fd].flags & 0x3fff_ffff) as nat, 0))
  {
    if fd >= 0 {
      ReportedIs(p.slots[fd].flags);
    }
    hide Inv, Reported;
  }

  /** F_SETFL gives O_APPEND and O_NONBLOCK the values asked for and changes nothing else. */
  lemma SetFlagsLaw(p: Pool, fd: int, arg: bv32)
    requires Inv(p) && fd < MAX_FD
    ensures (
      var (q, a) := Step(p, Fcntl(fd, F_SETFL, arg));
      && |q.slots| == MAX_FD && OnlyAt(p, q, fd) && a == (if fd < 0 then Answer(-1, EBADFD) else Answer(0, 0))
      && (fd >= 0 ==> q.slots[fd] == Slot(p.slots[fd].dev, (p.slots[fd].flags & 0xffff_bff7) | (arg & 0x4008))))
  {
    if fd >= 0 {
      SettledIs(p.slots[fd].flags, arg);
    }
    hide Inv, Settled, UserFlags;
  }

  /** F_GETFL after F_SETFL. */
  lemma SetThenGetFlags(p: Pool, fd: nat, arg: bv32)
    requires Inv(p) && fd < MAX_FD
    ensures Step(Next(p, Fcntl(fd, F_SETFL, arg)), Fcntl(fd, F_GETFL, arg)).1
         == Answer(((p.slots[fd].flags & 0x3fff_bff7) | (arg & 0x4008)) as nat, 0)
  {
    var f := p.slots[fd].flags;
    var q := Next(p, SetFlags(fd, arg));
    assert q.slots[fd].flags == Settled(f, arg) by { hide Inv, Settled; }
    assert Step(q, GetFlags(fd)).1 == Answer(Reported(Settled(f, arg)), 0) by { hide Inv, Settled, Reported; }
    SettledReported(f, arg);
    hide *;
  }

  lemma SettledReported(f: bv32, g: bv32)
    ensures Reported(Settled(f, g)) == ((f & 0x3fff_bff7) | (g & 0x4008)) as nat
  {
    assert UserFlags(Settled(f, g)) == (f & 0x3fff_bff7) | (g & 0x4008);
  }

  lemma OtherFcntlLaw(p: Pool, fd: int, cmd: int, arg: bv32)
    requires Inv(p) && fd < MAX_FD && cmd != F_GETFL && cmd != F_SETFL
    ensures Step(p, Fcntl(fd, cmd, arg)) == (p, Answer(-1, if fd < 0 then EBADFD else EINVAL))
  {}

  // ----- Redirection ---------------------------------------------------------------------------------

  lemma {:induction false} SameFree(s: seq<Slot>, t: seq<Slot>)
    requires |s| == |t| && forall i :: 0 <= i < |s| ==> (s[i].dev == 0 <==> t[i].dev == 0)
    ensures FirstFree(s) == FirstFree(t)
  {
    if s != [] {
      SameFree(s[1..], t[1..]);
    }
  }

  lemma RedirectSlots(p: Pool, std: nat, found: Found, flags: bv32, driver: int)
    requires Inv(p) && Allowed(p, Redirect(std, found, flags, driver))
    ensures (
      var (q, a) := Step(p, Redirect(std, found, flags, driver));
      var k := FirstFree(p.slots);
      && a == Step(p, Open(found, flags, driver)).1 && |q.slots| == MAX_FD
      && q.slots[std] == (if CanOpen(p, found, driver) then Opened(found, flags) else p.slots[std])
      && (k < MAX_FD && !found.Nothing? ==> q.slots[k] == Slot(0, 0))
      && (forall i :: 0 <= i < MAX_FD && i != std && i != k ==> q.slots[i] == p.slots[i]))
  {
    OpenLaw(p, found, flags, driver);
    assert FirstFree(p.slots) > 2;
    hide OpenSlot, Excl, IsDev, CanOpen, Inv, Opened;
  }

  /** Redirection moves a descriptor: the standard one becomes what was opened, and the one that open() took is free
      again. A redirection that fails leaves the standard descriptor as it was. */
  lemma RedirectLaw(p: Pool, std: nat, found: Found, flags: bv32, driver: int)
    requires Inv(p) && Allowed(p, Redirect(std, found, flags, driver))
    ensures (
      var (q, a) := Step(p, Redirect(std, found, flags, driver));
      var k := FirstFree(p.slots);
      && a == Step(p, Open(found, flags, driver)).1
      && |q.slots| == MAX_FD && FirstFree(q.slots) == k
      && q.slots[std] == (if CanOpen(p, found, driver) then Opened(found, flags) else p.slots[std])
      && (k < MAX_FD && !found.Nothing? ==> q.slots[k] == Slot(0, 0))
      && (forall i :: 0 <= i < MAX_FD && i != std && i != k ==> q.slots[i] == p.slots[i]))
  {
    RedirectSlots(p, std, found, flags, driver);
    assert p.slots[std].dev != 0;
    hide Step, Excl, IsDev, CanOpen;
    SameFree(p.slots, Step(p, Redirect(std, found, flags, driver)).0.slots);
  }

  /** The three redirections before main() use no descriptor up, whether they succeed or not: the first open() that
      succeeds in main() gets 3. */
  lemma FirstDescriptor(p: Pool, stdout: Call, stdin: Call, stderr: Call, found: Found, flags: bv32)
    requires Inv(p) && Initial(p)
    requires stdout.Redirect? && stdin.Redirect? && stderr.Redirect? && stdout.std == 1 && stdin.std == 0 && stderr.std == 2
    requires Allowed(p, stdout) && Allowed(Next(p, stdout), stdin) && Allowed(Next(Next(p, stdout), stdin), stderr)
    requires found.Nothing? || found.dev != 0
    ensures (
      var q := Next(Next(Next(p, stdout), stdin), stderr);
      CanOpen(q, found, 0) ==> Step(q, Open(found, flags, 0)).1 == Answer(3, 0))
  {
    assert p.slots[0].dev != 0 && p.slots[1].dev != 0 && p.slots[2].dev != 0 && p.slots[3].dev == 0;
    assert FirstFree(p.slots) == 3;
    hide Initial, Inv, CanOpen, Opened;
    var q := Next(p, stdout);
    var r := Next(q, stdin);
    RedirectLaw(p, 1, stdout.found, stdout.flags, stdout.driver);
    RedirectLaw(q, 0, stdin.found, stdin.flags, stdin.driver);
    RedirectLaw(r, 2, stderr.found, stderr.flags, stderr.driver);
    OpenLaw(Next(r, stderr), found, flags, 0);
    hide *;
  }
}

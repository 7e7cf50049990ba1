/**
 The file descriptor pool as the HAL keeps it: an array of descriptors that its functions search and change in
 place. Every call is proved to be a step of the pool in module Descriptors.
 */
module DescriptorPool {
  import opened Hal
  import opened Descriptors

  class FileTable {
    const list: array<Slot>   // alt_fd_list
    var max: int              // alt_max_fd
    var errno: int

    ghost predicate Valid()
      reads this, list
    {
      list.Length == MAX_FD && Inv(State())
    }

    ghost function State(): Pool
      reads this, list
    {
      Pool(list[..], max)
    }

    constructor (devNull: Device)
      requires devNull != 0
      ensures Valid() && Initial(State())
    {
      list := new Slot[MAX_FD](i => Slot(if i <= 2 then devNull else 0, 0));
      max, errno := -1, 0;
      new;
      InitialInv(State());
    }

    /** alt_get_fd */
    method GetFd(dev: Device) returns (rc: int)
      requires Valid()
      modifies this`max, list
      ensures (
        var p, k := old(State()), FirstFree(old(list[..]));
        if k == MAX_FD then rc == -EMFILE && State() == p else
        && rc == k
        && State() == Pool(p.slots[k := Slot(dev, p.slots[k].flags)], if k > p.max then k else p.max))
    {
      for i := 0 to MAX_FD
        invariant State() == old(State())
        invariant forall j :: 0 <= j < i ==> list[j].dev != 0
      {
        if list[i].dev == 0 {
          assert i == FirstFree(list[..]);
          list[i] := Slot(dev, list[i].flags);
          if i > max {
            max := i;
          }
          return i;
        }
      }
      return -EMFILE;
    }

    /** alt_release_fd */
    method ReleaseFd(fd: int)
      requires list.Length == MAX_FD && fd < MAX_FD
      modifies list
      ensures list[..] == Release(old(list[..]), fd)
    {
      if fd > 2 {
        list[fd] := Slot(list[fd].dev, 0);
        list[fd] := Slot(0, list[fd].flags);
      }
    }

    /** alt_file_locked, with the comparison of `i` and alt_max_fd unsigned as in the source. */
    method FileLocked(fd: nat) returns (status: int)
      requires list.Length == MAX_FD && 0 <= max < MAX_FD && fd < MAX_FD
      modifies list
      ensures list[..] == old(list[..])[fd := Slot(old(list[fd].dev), AsDevice(old(list[fd].flags)))]
      ensures status == if LockedElsewhere(State(), fd) then -EACCES else 0
    {
      list[fd] := Slot(list[fd].dev, AsDevice(list[fd].flags));
      ghost var s := list[..];
      var i := 0;
      while i <= max
        invariant 0 <= i <= max + 1 && list[..] == s
        invariant forall j :: 0 <= j < i && j != fd ==> !(list[j].dev == list[fd].dev && Excl(list[j].flags))
      {
        if list[i].dev == list[fd].dev && Excl(list[i].flags) && i != fd {
          return -EACCES;
        }
        i := i + 1;
      }
      return 0;
    }

    /** alt_open, for a name that was found: takes a slot and asks the pool and the device. */
    method Take(found: Found, flags: bv32, driver: int) returns (index: int, status: int)
      requires Valid() && !found.Nothing?
      modifies this`max, list
      ensures (
        var p := old(State());
        p.max < MAX_FD && Taken(p, found, flags, driver, State(), index, status))
    {
      assert max < MAX_FD;
      hide Excl, IsDev, UserFlags, AsDevice, Inv, LockedElsewhere, FirstFree;
      index := GetFd(found.dev);
      if index < 0 {
        return index, index;
      }
      status := 0;
      list[index] := Slot(list[index].dev, UserFlags(flags));
      if found.Device? {
        status := FileLocked(index);
      }
      if found.FileSystem? || status >= 0 {
        status := driver;
      }
    }

    /** alt_open, after the search for the name. */
    method Open(found: Found, flags: bv32, driver: int) returns (r: int)
      requires Valid() && (found.Nothing? || found.dev != 0)
      modifies this, list
      ensures Valid()
      ensures (
        var (q, a) := OpenSlot(old(State()), found, flags, driver);
        State() == q && r == a.value && errno == if a.errno == 0 then old(errno) else a.errno)
    {
      ghost var p := State();
      assert p.max < MAX_FD;
      hide Excl, IsDev, UserFlags, AsDevice, Inv, LockedElsewhere, FirstFree, OpenSlot;
      OpenKeeps(p, found, flags, driver);
      NotFound(p, found, flags, driver);
      var index, status := -1, -ENODEV;
      if !found.Nothing? {
        index, status := Take(found, flags, driver);
        Finishing(p, found, flags, driver, State(), index, status);
      }
      if status < 0 {
        ReleaseFd(index);
        errno := -status;
        assert State() == OpenSlot(p, found, flags, driver).0;
        return -1;
      }
      return index;
    }

    /** alt_fd_lock */
    method FdLock(fd: nat) returns (rc: int)
      requires list.Length == MAX_FD && max < MAX_FD && fd < MAX_FD
      modifies list
      ensures rc == if old(LockGranted(State(), fd)) then 0 else -EACCES
      ensures list[..] == (if rc < 0 then old(list[..]) else
                old(list[..])[fd := Slot(old(list[fd].dev), Locking(old(list[fd].flags)))])
    {
      var i := 0;
      while i < max
        invariant 0 <= i && list[..] == old(list[..])
        invariant forall j :: 0 <= j < i && j < max && j != fd ==> list[j].dev != list[fd].dev
      {
        if i != fd && list[i].dev == list[fd].dev {
          return -EACCES;
        }
        i := i + 1;
      }
      list[fd] := Slot(list[fd].dev, Locking(list[fd].flags));
      return 0;
    }

    /** alt_fd_unlock */
    method FdUnlock(fd: nat) returns (rc: int)
      requires list.Length == MAX_FD && fd < MAX_FD
      modifies list
      ensures rc == 0
      ensures list[..] == old(list[..])[fd := Slot(old(list[fd].dev), Unlocking(old(list[fd].flags)))]
    {
      list[fd] := Slot(list[fd].dev, Unlocking(list[fd].flags));
      return 0;
    }

    /** alt_close */
    method Close(fd: int, driver: int) returns (r: int)
      requires Valid() && Allowed(State(), Call.Close(fd, driver))
      modifies this, list
      ensures Valid()
      ensures (
        var (q, a) := Step(old(State()), Call.Close(fd, driver));
        State() == q && r == a.value && errno == if a.errno == 0 then old(errno) else a.errno)
    {
      StepKeeps(State(), Call.Close(fd, driver));
      hide Inv;
      if fd >= 0 {
        ReleaseFd(fd);
        if driver < 0 {
          errno := -driver;
          return -1;
        }
        return 0;
      } else {
        errno := EBADFD;
        return -1;
      }
    }

    /** alt_ioctl; `driver` is what the device's own ioctl() would return, or -ENOTTY without one. */
    method Ioctl(fd: int, req: int, driver: int) returns (r: int)
      requires Valid() && Allowed(State(), Call.Ioctl(fd, req, driver))
      modifies this, list
      ensures Valid()
      ensures (
        var (q, a) := Step(old(State()), Call.Ioctl(fd, req, driver));
        State() == q && r == a.value && errno == if a.errno == 0 then old(errno) else a.errno)
    {
      StepKeeps(State(), Call.Ioctl(fd, req, driver));
      hide Inv, Excl, IsDev, Locking, Unlocking, LockGranted;
      if fd >= 0 {
        if IsDev(list[fd].flags) && req == TIOCEXCL {
          r := FdLock(fd);
        } else if IsDev(list[fd].flags) && req == TIOCNXCL {
          r := FdUnlock(fd);
        } else {
          r := driver;
        }
      } else {
        r := -EBADFD;
      }
      if r < 0 {
        errno := -r;
      }
    }

    /** The two assignments of F_SETFL. */
    method Settle(fd: nat, arg: bv32)
      requires list.Length == MAX_FD && fd < MAX_FD
      modifies list
      ensures list[..] == old(list[..])[fd := Slot(old(list[fd].dev), Settled(old(list[fd].flags), arg))]
    {
      hide Masked, Merged;
      list[fd] := Slot(list[fd].dev, Masked(list[fd].flags));
      list[fd] := Slot(list[fd].dev, Merged(list[fd].flags, arg));
    }

    /** alt_fcntl */
    method Fcntl(fd: int, cmd: int, arg: bv32) returns (r: int)
      requires Valid() && fd < MAX_FD
      modifies this, list
      ensures Valid()
      ensures (
        var (q, a) := Step(old(State()), Descriptors.Fcntl(fd, cmd, arg));
        State() == q && r == a.value && errno == if a.errno == 0 then old(errno) else a.errno)
    {
      StepKeeps(State(), Descriptors.Fcntl(fd, cmd, arg));
      hide Inv, Settled, Reported, Excl, IsDev, UserFlags;
      if fd >= 0 {
        if cmd == F_GETFL {
          return Reported(list[fd].flags);
        } else if cmd == F_SETFL {
          Settle(fd, arg);
          return 0;
        } else {
          errno := EINVAL;
          return -1;
        }
      }
      errno := EBADFD;
      return -1;
    }

    /** alt_open_fd: opens `found` and moves the descriptor to one of the standard ones. */
    method Redirect(std: nat, found: Found, flags: bv32, driver: int)
      requires Valid() && Allowed(State(), Call.Redirect(std, found, flags, driver))
      modifies this, list
      ensures Valid()
      ensures (
        var (q, a) := Step(old(State()), Call.Redirect(std, found, flags, driver));
        State() == q && errno == if a.errno == 0 then old(errno) else a.errno)
    {
      StepKeeps(State(), Call.Redirect(std, found, flags, driver));
      ghost var p := State();
      var r := Open(found, flags, driver);
      if r >= 0 {
        OpenSucceeds(p, found, flags, driver);
        hide Inv, OpenSlot;
        list[std] := list[r];
        ReleaseFd(r);
      }
    }
  }
}

// The descriptor calls as they run, in place on the table: each one does to it
// exactly what FdTable says.

module FdCalls {
  import opened FdTable
  import opened Words

  class FdPool {
    const list: array<Fd>
    var maxFd: int

    ghost predicate Valid()
      reads this
    {
      list.Length == MAX_FD && -1 <= maxFd < MAX_FD
    }

    ghost function T(): Table
      reads this, list
    {
      Table(list[..], maxFd)
    }

    constructor ()
      ensures Valid() && fresh(list)
      ensures T() == Table(seq(MAX_FD, i => if i < 3 then Fd(Some(Device(0, false)), 0, 0) else FREE), -1)
    {
      list := new Fd[MAX_FD](i => if i < 3 then Fd(Some(Device(0, false)), 0, 0) else FREE);
      maxFd := -1;
    }

    /** alt_get_fd */
    method AllocateFd(dev: Device) returns (rc: int)
      requires Valid()
      modifies this`maxFd, list
      ensures Valid() && (T(), rc) == GetFd(old(T()), dev)
    {
      rc := -1;
      var i := 0;
      while i < MAX_FD
        invariant 0 <= i <= MAX_FD && rc == -1
        invariant unchanged(this) && unchanged(list)
        invariant FirstFree(list[..], 0) == FirstFree(list[..], i)
      {
        if list[i].dev.None? {
          ghost var fds := list[..];
          list[i] := list[i].(dev := Some(dev));
          assert list[..] == fds[i := fds[i].(dev := Some(dev))];
          if i > maxFd {
            maxFd := i;
          }
          rc := i;
          return;
        }
        i := i + 1;
      }
    }

    /** alt_fd_lock */
    method LockFd(fd: int) returns (granted: bool)
      requires Valid() && InTable(T(), fd)
      modifies list
      ensures Valid() && (T(), granted) == Lock(old(T()), fd)
    {
      var i := 0;
      while i < maxFd
        invariant 0 <= i && (i <= maxFd || i == 0) && unchanged(list)
        invariant !OtherBelow(T(), fd, i)
      {
        if i != fd && list[i].dev == list[fd].dev {
          assert T().fds[i].dev == T().fds[fd].dev;
          return false;
        }
        i := i + 1;
      }
      ghost var fds := list[..];
      list[fd] := list[fd].(flags := SetExcl(list[fd].flags));
      assert list[..] == fds[fd := fds[fd].(flags := SetExcl(fds[fd].flags))];
      granted := true;
    }

    /** alt_fd_unlock */
    method UnlockFd(fd: int)
      requires Valid() && InTable(T(), fd)
      modifies list
      ensures Valid() && T() == Unlock(old(T()), fd)
    {
      ghost var fds := list[..];
      list[fd] := list[fd].(flags := ClearExcl(list[fd].flags));
      assert list[..] == fds[fd := fds[fd].(flags := ClearExcl(fds[fd].flags))];
    }

    /** alt_file_locked: mark the descriptor as a device's, then look for a holder. */
    method FileLocked(fd: int) returns (held: bool)
      requires Valid() && InTable(T(), fd) && maxFd >= 0   // the C scan compares unsigned
      modifies list
      ensures Valid()
      ensures T() == With(old(T()), fd, old(list[fd]).(flags := MarkDevice(old(list[fd]).flags)))
      ensures held == HeldByOther(T(), fd)
    {
      ghost var fds := list[..];
      list[fd] := list[fd].(flags := MarkDevice(list[fd].flags));
      assert list[..] == fds[fd := fds[fd].(flags := MarkDevice(fds[fd].flags))];
      label marked:
      var i := 0;
      while i <= maxFd
        invariant 0 <= i <= maxFd + 1 && unchanged@marked(list)
        invariant forall j | 0 <= j < i ::
                    !(T().fds[j].dev == T().fds[fd].dev && IsExcl(T().fds[j]) && j != fd)
      {
        if list[i].dev == list[fd].dev && IsExcl(list[i]) && i != fd {
          assert T().fds[i].dev == T().fds[fd].dev && IsExcl(T().fds[i]);
          return true;
        }
        i := i + 1;
      }
      held := false;
    }

    /** alt_release_fd */
    method ReleaseFd(fd: int)
      requires Valid() && fd < MAX_FD
      modifies list
      ensures Valid() && T() == Release(old(T()), fd)
    {
      if fd > 2 {
        ghost var fds := list[..];
        list[fd] := list[fd].(flags := 0);
        list[fd] := list[fd].(dev := None);
        assert list[..] == fds[fd := fds[fd].(flags := 0, dev := None)];
      }
    }

    /** open */
    method OpenFile(found: Option<Device>, flags: bv32, driver: DriverOpen) returns (r: Outcome)
      requires Valid()
      modifies this`maxFd, list
      ensures Valid() && (T(), r) == Open(old(T()), found, flags, driver)
    {
      if found.None? {
        return Err(ENODEV);
      }
      var dev := found.value;
      var index := AllocateFd(dev);
      if index < 0 {
        return Err(EMFILE);
      }
      ghost var t1 := T();
      list[index] := list[index].(flags := OpenFlags(flags));
      assert T() == With(t1, index, t1.fds[index].(flags := OpenFlags(flags)));
      var held := false;
      if !dev.isFilesystem {
        held := FileLocked(index);
        assert T() == With(t1, index, t1.fds[index].(flags := MarkDevice(OpenFlags(flags))));
      }
      if held {
        ReleaseFd(index);
        return Err(EACCES);
      }
      ghost var t2 := T();
      list[index] := list[index].(priv := driver.priv);
      assert T() == With(t2, index, t2.fds[index].(priv := driver.priv));
      if driver.status < 0 {
        ReleaseFd(index);
        return Err(Driver(-driver.status));
      }
      r := Ok(index);
    }

    /** alt_open_fd */
    method RedirectFd(slot: int, found: Option<Device>, flags: bv32, driver: DriverOpen)
      requires Valid() && InTable(T(), slot)
      modifies this`maxFd, list
      ensures Valid() && T() == Redirect(old(T()), slot, found, flags, driver)
    {
      var old' := OpenFile(found, flags, driver);
      if old'.Ok? {
        ghost var t1 := T();
        list[slot] := list[old'.value];
        assert T() == With(t1, slot, t1.fds[old'.value]);
        ReleaseFd(old'.value);
      }
    }

    /** alt_io_redirect: standard out, then in, then error. */
    method IoRedirect(out: Option<Device>, inn: Option<Device>, err: Option<Device>,
                      wrOnly: bv32, rdOnly: bv32, d1: DriverOpen, d0: DriverOpen, d2: DriverOpen)
      requires Valid()
      modifies this`maxFd, list
      ensures Valid()
      ensures T() == Redirect(Redirect(Redirect(old(T()), 1, out, wrOnly, d1), 0, inn, rdOnly, d0), 2, err, wrOnly, d2)
    {
      RedirectFd(1, out, wrOnly, d1);
      RedirectFd(0, inn, rdOnly, d0);
      RedirectFd(2, err, wrOnly, d2);
    }

    /** close */
    method CloseFile(fd: int, status: int) returns (r: Outcome)
      requires Valid() && fd < MAX_FD && (fd >= 0 ==> list[fd].dev.Some?)
      modifies list
      ensures Valid() && (T(), r) == Close(old(T()), fd, status)
    {
      if fd < 0 {
        return Err(EBADFD);
      }
      ReleaseFd(fd);
      if status < 0 {
        return Err(Driver(-status));
      }
      r := Ok(0);
    }

    /** ioctl */
    method IoctlFile(fd: int, req: Request, driver: Outcome) returns (r: Outcome)
      requires Valid() && fd < MAX_FD && (fd >= 0 ==> list[fd].dev.Some?)
      modifies list
      ensures Valid() && (T(), r) == Ioctl(old(T()), fd, req, driver)
    {
      if fd < 0 {
        return Err(EBADFD);
      }
      if IsDev(list[fd]) {
        if req == TIOCEXCL {
          var granted := LockFd(fd);
          return if granted then Ok(0) else Err(EACCES);
        } else if req == TIOCNXCL {
          UnlockFd(fd);
          return Ok(0);
        }
      }
      r := driver;
    }

    /** F_SETFL: clear the two user flags, then set those asked for. */
    method SetFlags(fd: int, arg: bv32)
      requires Valid() && InTable(T(), fd)
      modifies list
      ensures Valid() && T() == With(old(T()), fd, old(list[fd]).(flags := FcntlFlags(old(list[fd]).flags, arg)))
    {
      var f := list[fd];
      list[fd] := f.(flags := f.flags & !FCNTL_MASK);
      list[fd] := list[fd].(flags := list[fd].flags | (arg & FCNTL_MASK));
      assert list[fd] == f.(flags := FcntlFlags(f.flags, arg));
      assert list[..] == old(list[..])[fd := list[fd]];
    }

    /** fcntl */
    method FcntlFile(fd: int, cmd: Command, arg: bv32) returns (r: Outcome)
      requires Valid() && fd < MAX_FD
      modifies list
      ensures Valid() && (T(), r) == Fcntl(old(T()), fd, cmd, arg)
    {
      if fd < 0 {
        return Err(EBADFD);
      }
      match cmd
      case GetFl =>
        r := OkFlags(list[fd].flags & !FLAGS_MASK);
      case SetFl =>
        SetFlags(fd, arg);
        r := Ok(0);
      case OtherCommand =>
        r := Err(EINVAL);
    }
  }
}

// What each descriptor call answers, what it changes, and what it leaves alone.

module FdEffects {
  import opened FdLocking
  import opened FdTable
  import opened Words

  /** Nothing but entry k is different. */
  ghost predicate OnlyAt(t: Table, t': Table, k: int)
  {
    |t'.fds| == |t.fds| && forall i | 0 <= i < |t.fds| && i != k :: t'.fds[i] == t.fds[i]
  }

  /** The flags of an opened descriptor: the caller's, without the two internal bits,
      and the device bit for a device. */
  function FlagsOpened(found: Device, flags: bv32): bv32
  {
    if found.isFilesystem then flags & 0x3fff_ffff else (flags & 0x3fff_ffff) | 0x4000_0000
  }

  lemma FlagsOpenedAre(flags: bv32)
    ensures OpenFlags(flags) == flags & 0x3fff_ffff
    ensures MarkDevice(OpenFlags(flags)) == (flags & 0x3fff_ffff) | 0x4000_0000
  {
  }

  /** Every outcome of open, in the order in which the errors take precedence. */
  lemma OpenAnswers(t: Table, found: Option<Device>, flags: bv32, driver: DriverOpen)
    requires Sound(t)
    ensures Open(t, found, flags, driver).1
         == if found.None? then Err(ENODEV)
            else if FirstFree(t.fds, 0) == 32 then Err(EMFILE)
            else if Held(t, found) then Err(EACCES)
            else if driver.status < 0 then Err(Driver(-driver.status))
            else Ok(FirstFree(t.fds, 0))
  {
    if found.Some? {
      GetFdEffect(t, found.value);
      if GetFd(t, found.value).1 >= 0 {
        if Held(t, found) {
          HolderIsSeen(t, found);
        } else {
          NobodyIsSeen(t, found, flags);
        }
      }
    }
  }

  lemma NobodyIsSeen(t: Table, found: Option<Device>, flags: bv32)
    requires Sound(t) && found.Some? && !Held(t, found) && GetFd(t, found.value).1 >= 0
    ensures var (t1, k) := GetFd(t, found.value);
      forall f: Fd | f.dev == found :: !HeldByOther(With(t1, k, f), k)
  {
    GetFdEffect(t, found.value);
  }

  /** A successful open fills the first free entry, completely, and no other. */
  lemma OpenFills(t: Table, found: Option<Device>, flags: bv32, driver: DriverOpen)
    requires Sound(t) && Open(t, found, flags, driver).1.Ok?
    ensures var (t1, r) := Open(t, found, flags, driver);
      && r.value == FirstFree(t.fds, 0) && 3 <= r.value < 32 && found.Some?
      && OnlyAt(t, t1, r.value) && t1.maxFd == (if r.value > t.maxFd then r.value else t.maxFd)
      && t1.fds[r.value] == Fd(found, driver.priv, FlagsOpened(found.value, flags))
  {
    GetFdEffect(t, found.value);
    FlagsOpenedAre(flags);
  }

  /** A redirection that opens moves the descriptor to its slot and leaves the entry
      it was opened in free; one that does not changes no descriptor. */
  lemma RedirectMoves(t: Table, slot: int, found: Option<Device>, flags: bv32, driver: DriverOpen)
    requires Sound(t) && 0 <= slot < 3
    ensures var t2 := Redirect(t, slot, found, flags, driver);
      match Open(t, found, flags, driver).1
      case Ok(k) =>
        && found.Some? && 3 <= k < MAX_FD && |t2.fds| == MAX_FD
        && t2.fds[slot] == Fd(found, driver.priv, FlagsOpened(found.value, flags))
        && t2.fds[k].dev.None? && t2.fds[k].flags == 0
        && (forall i | 0 <= i < MAX_FD && i != slot && i != k :: t2.fds[i] == t.fds[i])
      case _ => Alike(t.fds, t2.fds)
  {
    if Open(t, found, flags, driver).1.Ok? {
      OpenFills(t, found, flags, driver);
    } else {
      OpenEffect(t, found, flags, driver);
    }
  }

  /** The three standard entries on their devices and every other entry free. */
  ghost predicate Redirected(t: Table, out: Device, inn: Device, err: Device)
  {
    && |t.fds| == MAX_FD
    && t.fds[0].dev == Some(inn) && t.fds[1].dev == Some(out) && t.fds[2].dev == Some(err)
    && forall i | 3 <= i < MAX_FD :: t.fds[i].dev.None?
  }

  /** A table that holds no device exclusively and has only the standard entries. */
  ghost predicate Fresh(t: Table)
  {
    && Sound(t) && (forall i | 0 <= i < MAX_FD :: !IsExcl(t.fds[i]))
    && (forall i | 3 <= i < MAX_FD :: t.fds[i].dev.None?)
  }

  lemma FreshRedirect(t: Table, slot: int, found: Device, flags: bv32, driver: DriverOpen)
    requires Fresh(t) && 0 <= slot < 3 && driver.status >= 0
    ensures var t2 := Redirect(t, slot, Some(found), flags, driver);
      && Fresh(t2) && t2.fds[slot].dev == Some(found)
      && (forall i | 0 <= i < 3 && i != slot :: t2.fds[i] == t.fds[i])
  {
    var t2 := Redirect(t, slot, Some(found), flags, driver);
    assert FirstFree(t.fds, 0) == 3 by {
      assert FirstFree(t.fds, 3) == FirstFree(t.fds, 2) == FirstFree(t.fds, 1);
    }
    OpenAnswers(t, Some(found), flags, driver);
    RedirectMoves(t, slot, Some(found), flags, driver);
    RedirectIsSound(t, slot, Some(found), flags, driver);
    FlagsOpenedAre(flags);
    FlagUpdates(flags, 0);
    FlagUpdates(OpenFlags(flags), 0);
    forall i | 0 <= i < MAX_FD
      ensures !IsExcl(t2.fds[i])
    {
    }
  }

  /** If the three names resolve and the drivers agree, standard output, input and
      error end up on their devices and nothing else is open. */
  lemma AllRedirected(t: Table, out: Device, inn: Device, err: Device, wr: bv32, rd: bv32,
                      d1: DriverOpen, d0: DriverOpen, d2: DriverOpen)
    requires Fresh(t) && d1.status >= 0 && d0.status >= 0 && d2.status >= 0
    ensures Redirected(Redirect(Redirect(Redirect(t, 1, Some(out), wr, d1), 0, Some(inn), rd, d0), 2, Some(err), wr, d2),
                       out, inn, err)
  {
    FreshRedirect(t, 1, out, wr, d1);
    var t1 := Redirect(t, 1, Some(out), wr, d1);
    FreshRedirect(t1, 0, inn, rd, d0);
    FreshRedirect(Redirect(t1, 0, Some(inn), rd, d0), 2, err, wr, d2);
  }

  lemma StartRedirects(out: Device, inn: Device, err: Device, wr: bv32, rd: bv32,
                       d1: DriverOpen, d0: DriverOpen, d2: DriverOpen)
    requires d1.status >= 0 && d0.status >= 0 && d2.status >= 0
    ensures Redirected(Redirect(Redirect(Redirect(START, 1, Some(out), wr, d1), 0, Some(inn), rd, d0), 2, Some(err), wr, d2),
                       out, inn, err)
  {
    StartIsSound();
    AllRedirected(START, out, inn, err, wr, rd, d1, d0, d2);
  }

  /** Closing frees a descriptor of the pool, whatever the driver answers. */
  lemma CloseFrees(t: Table, fd: int, status: int)
    requires fd < |t.fds|
    ensures var (t1, r) := Close(t, fd, status);
      && OnlyAt(t, t1, fd) && t1.maxFd == t.maxFd
      && (fd > 2 ==> t1.fds[fd].dev.None? && t1.fds[fd].flags == 0)
      && (fd <= 2 ==> t1 == t)
      && r == if fd < 0 then Err(EBADFD) else if status < 0 then Err(Driver(-status)) else Ok(0)
  {
  }

  /** g is f with its lock bit as given. */
  predicate LockBitSet(f: bv32, locked: bool, g: bv32)
  {
    g == if locked then f | 0x8000_0000 else f & 0x7fff_ffff
  }

  lemma LockBits(f: bv32)
    ensures LockBitSet(f, true, SetExcl(f)) && LockBitSet(f, false, ClearExcl(f))
  {
  }

  /** The two user bits of g are those of arg, and its other bits those of f. */
  predicate UserBitsSet(f: bv32, arg: bv32, g: bv32)
  {
    g & 0x4008 == arg & 0x4008 && g & 0xffff_bff7 == f & 0xffff_bff7
  }

  lemma FcntlBits(f: bv32, arg: bv32)
    ensures UserBitsSet(f, arg, FcntlFlags(f, arg))
  {
  }

  /** The lock requests of a device descriptor are answered here and change its lock
      bit alone; every other request is the driver's and changes nothing. */
  lemma IoctlLocks(t: Table, fd: int, req: Request, driver: Outcome)
    requires 0 <= fd < |t.fds|
    ensures var (t1, r) := Ioctl(t, fd, req, driver);
      && OnlyAt(t, t1, fd) && t1.maxFd == t.maxFd
      && t1.fds[fd].dev == t.fds[fd].dev && t1.fds[fd].priv == t.fds[fd].priv
      && if !IsDev(t.fds[fd]) || req == OtherRequest then
           t1 == t && r == driver
         else if req == TIOCNXCL then
           LockBitSet(t.fds[fd].flags, false, t1.fds[fd].flags) && r == Ok(0)
         else if OtherBelow(t, fd, t.maxFd) then
           t1 == t && r == Err(EACCES)
         else
           LockBitSet(t.fds[fd].flags, true, t1.fds[fd].flags) && r == Ok(0)
  {
    var f := t.fds[fd];
    assert LockBitSet(f.flags, true, SetExcl(f.flags)) && LockBitSet(f.flags, false, ClearExcl(f.flags)) by {
      LockBits(f.flags);
    }
    assert Unlock(t, fd).fds[fd].flags == ClearExcl(f.flags);
    assert Lock(t, fd).1 ==> Lock(t, fd).0.fds[fd].flags == SetExcl(f.flags);
  }

  /** F_GETFL shows all but the two internal bits; F_SETFL sets exactly O_APPEND and
      O_NONBLOCK, whatever else is asked for. */
  lemma FcntlSets(t: Table, fd: int, cmd: Command, arg: bv32)
    requires 0 <= fd < |t.fds|
    ensures var (t1, r) := Fcntl(t, fd, cmd, arg);
      && OnlyAt(t, t1, fd) && t1.maxFd == t.maxFd
      && t1.fds[fd].dev == t.fds[fd].dev && t1.fds[fd].priv == t.fds[fd].priv
      && match cmd
         case GetFl => t1 == t && r == OkFlags(t.fds[fd].flags & 0x3fff_ffff)
         case SetFl => r == Ok(0) && UserBitsSet(t.fds[fd].flags, arg, t1.fds[fd].flags)
         case OtherCommand => t1 == t && r == Err(EINVAL)
  {
    var f := t.fds[fd].flags;
    match cmd
    case GetFl => FlagsOpenedAre(f);
    case SetFl =>
      var g := FcntlFlags(f, arg);
      assert UserBitsSet(f, arg, g) by { FcntlBits(f, arg); }
      assert Fcntl(t, fd, cmd, arg).0.fds[fd].flags == g;
    case OtherCommand =>
  }
}

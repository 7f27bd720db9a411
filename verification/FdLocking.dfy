// Exclusive locking over whole runs of the descriptor calls: why at most one
// descriptor can hold a device exclusively although the scan that grants the lock
// stops one entry short.

module FdLocking {
  import opened FdTable
  import opened Words

  /** The table at start-up: the three standard entries on the null device. */
  const NULL_DEVICE := Device(0, false)
  const START := Table(seq(MAX_FD, i => if i < 3 then Fd(Some(NULL_DEVICE), 0, 0) else FREE), -1)

  /** One call. The driver parts are the callbacks' results, which may be anything. */
  datatype Call =
    | OpenCall(found: Option<Device>, flags: bv32, result: DriverOpen)
    | RedirectCall(slot: int, target: Option<Device>, mode: bv32, reresult: DriverOpen)
    | CloseCall(fd: int, status: int)
    | IoctlCall(fd: int, req: Request, answer: Outcome)
    | FcntlCall(fd: int, cmd: Command, arg: bv32)

  /** What the calls ask of their callers: no descriptor beyond the table, and an
      open one where the driver is consulted. Negative descriptors are handled. */
  predicate Allowed(t: Table, c: Call)
  {
    match c
    case OpenCall(_, _, _) => true
    case RedirectCall(slot, _, _, _) => 0 <= slot < 3 && slot < |t.fds|
    case CloseCall(fd, _) => fd < |t.fds| && (fd >= 0 ==> t.fds[fd].dev.Some?)
    case IoctlCall(fd, _, _) => fd < |t.fds| && (fd >= 0 ==> t.fds[fd].dev.Some?)
    case FcntlCall(fd, _, _) => fd < |t.fds|
  }

  function Step(t: Table, c: Call): Table
    requires Allowed(t, c)
  {
    match c
    case OpenCall(found, flags, driver) => Open(t, found, flags, driver).0
    case RedirectCall(slot, found, flags, driver) => Redirect(t, slot, found, flags, driver)
    case CloseCall(fd, status) => Close(t, fd, status).0
    case IoctlCall(fd, req, driver) => Ioctl(t, fd, req, driver).0
    case FcntlCall(fd, cmd, arg) => Fcntl(t, fd, cmd, arg).0
  }

  /** What every run keeps. The heart of it is the last clause: a holder has the
      smallest index among the descriptors of its device. */
  ghost predicate Sound(t: Table)
  {
    && |t.fds| == MAX_FD
    && (t.maxFd == -1 || 3 <= t.maxFd < MAX_FD)
    && (forall i | 0 <= i < 3 :: t.fds[i].dev.Some?)
    && (forall i | 0 <= i < MAX_FD :: Entry(t, i))
    && (forall i, j | 0 <= i < MAX_FD && 0 <= j < MAX_FD && i != j ::
          IsExcl(t.fds[i]) && t.fds[i].dev == t.fds[j].dev ==> i < j)
  }

  ghost predicate Entry(t: Table, i: int)
    requires 0 <= i < |t.fds|
  {
    var f := t.fds[i];
    && (f.dev.None? ==> !IsExcl(f) && !IsDev(f))
    && (f.dev.Some? && i >= 3 ==> i <= t.maxFd)
    && (IsExcl(f) ==> IsDev(f))
    && (IsDev(f) ==> t.maxFd >= 3 && !f.dev.value.isFilesystem)
  }

  lemma StartIsSound()
    ensures Sound(START)
  {
  }

  /** The table with one entry replaced by one that holds nothing. */
  lemma ReplaceIsSound(t: Table, k: int, f: Fd, maxFd: int)
    requires Sound(t) && 0 <= k < MAX_FD
    requires t.maxFd <= maxFd && (maxFd == -1 || 3 <= maxFd < MAX_FD)
    requires k < 3 ==> f.dev.Some?
    requires !IsExcl(f) && Entry(Table(t.fds[k := f], maxFd), k)
    requires forall i | 0 <= i < MAX_FD && i != k && IsExcl(t.fds[i]) && f.dev.Some? :: t.fds[i].dev != f.dev
    ensures Sound(Table(t.fds[k := f], maxFd))
  {
    var t1 := Table(t.fds[k := f], maxFd);
    forall i | 0 <= i < MAX_FD
      ensures Entry(t1, i)
    {
      assert Entry(t, i);
    }
    forall i, j | 0 <= i < MAX_FD && 0 <= j < MAX_FD && i != j && IsExcl(t1.fds[i]) && t1.fds[i].dev == t1.fds[j].dev
      ensures i < j
    {
      assert Entry(t, i);
    }
  }

  /** Another descriptor holds the device. */
  ghost predicate Held(t: Table, d: Option<Device>)
  {
    exists i | 0 <= i < |t.fds| :: IsExcl(t.fds[i]) && t.fds[i].dev == d
  }

  lemma GetFdEffect(t: Table, d: Device)
    requires Sound(t)
    ensures var (t1, k) := GetFd(t, d);
            && t.maxFd <= t1.maxFd < MAX_FD
            && (k < 0 ==> t1 == t)
            && (k >= 0 ==> 3 <= k <= t1.maxFd && t.fds[k].dev.None?
                           && t1.fds == t.fds[k := t.fds[k].(dev := Some(d))])
  {
    var k := FirstFree(t.fds, 0);
    if k < MAX_FD {
      assert Entry(t, k);
    }
  }

  /** The same open descriptors; free entries stay free and hold nothing. */
  ghost predicate Alike(s: seq<Fd>, s': seq<Fd>)
  {
    && |s'| == |s|
    && forall i | 0 <= i < |s| ::
         s'[i] == s[i] || (s[i].dev.None? && s'[i].dev.None? && !IsExcl(s'[i]) && !IsDev(s'[i]))
  }

  lemma FailedOpen(t: Table, found: Option<Device>, flags: bv32, driver: DriverOpen)
    requires Sound(t) && Open(t, found, flags, driver).1.Err?
    ensures Alike(t.fds, Open(t, found, flags, driver).0.fds)
    ensures t.maxFd <= Open(t, found, flags, driver).0.maxFd
  {
    if found.Some? {
      GetFdEffect(t, found.value);
    }
  }

  lemma SuccessfulOpen(t: Table, found: Option<Device>, flags: bv32, driver: DriverOpen)
    requires Sound(t) && Open(t, found, flags, driver).1.Ok?
    ensures Opened(t, Open(t, found, flags, driver).0, found, Open(t, found, flags, driver).1.value, driver)
  {
    GetFdEffect(t, found.value);
    FlagUpdates(flags, 0);
    FlagUpdates(OpenFlags(flags), 0);
    if Held(t, found) {
      HolderIsSeen(t, found);
    }
  }

  /** An open that fails leaves every descriptor as it was; one that succeeds
      takes a free entry of the pool, on a device that nobody holds. */
  lemma OpenEffect(t: Table, found: Option<Device>, flags: bv32, driver: DriverOpen)
    requires Sound(t)
    ensures var (t1, r) := Open(t, found, flags, driver);
            && t.maxFd <= t1.maxFd < MAX_FD && (t1.maxFd == -1 || t1.maxFd >= 3)
            && (r.Err? ==> Alike(t.fds, t1.fds))
            && (r.Ok? ==> Opened(t, t1, found, r.value, driver))
  {
    if found.Some? {
      GetFdEffect(t, found.value);
    }
    if Open(t, found, flags, driver).1.Ok? {
      SuccessfulOpen(t, found, flags, driver);
    } else {
      FailedOpen(t, found, flags, driver);
    }
  }

  ghost predicate Opened(t: Table, t1: Table, found: Option<Device>, k: int, driver: DriverOpen)
  {
    && |t.fds| == |t1.fds| == MAX_FD
    && 3 <= k <= t1.maxFd < MAX_FD && t.fds[k].dev.None? && found.Some?
    && t1.fds == t.fds[k := t1.fds[k]]
    && t1.fds[k].dev == found && t1.fds[k].priv == driver.priv
    && !IsExcl(t1.fds[k]) && (IsDev(t1.fds[k]) <==> !found.value.isFilesystem)
    && !Held(t, found)
  }

  /** The scan of alt_file_locked reaches every holder, and no filesystem has one. */
  lemma HolderIsSeen(t: Table, found: Option<Device>)
    requires Sound(t) && found.Some? && Held(t, found) && GetFd(t, found.value).1 >= 0
    ensures !found.value.isFilesystem
    ensures var (t1, k) := GetFd(t, found.value);
            forall f: Fd | f.dev == found :: HeldByOther(With(t1, k, f), k)
  {
    GetFdEffect(t, found.value);
    var (t1, k) := GetFd(t, found.value);
    var i :| 0 <= i < |t.fds| && IsExcl(t.fds[i]) && t.fds[i].dev == found;
    assert Entry(t, i);
    forall f: Fd | f.dev == found
      ensures HeldByOther(With(t1, k, f), k)
    {
      assert With(t1, k, f).fds[i] == t.fds[i];
    }
  }

  lemma AlikeIsSound(t: Table, t1: Table)
    requires Sound(t) && Alike(t.fds, t1.fds)
    requires t.maxFd <= t1.maxFd && (t1.maxFd == -1 || 3 <= t1.maxFd < MAX_FD)
    ensures Sound(t1)
  {
    forall i | 0 <= i < MAX_FD
      ensures Entry(t1, i)
    {
      assert Entry(t, i);
    }
  }

  lemma OpenIsSound(t: Table, found: Option<Device>, flags: bv32, driver: DriverOpen)
    requires Sound(t)
    ensures Sound(Open(t, found, flags, driver).0)
  {
    OpenEffect(t, found, flags, driver);
    var (t1, r) := Open(t, found, flags, driver);
    if r.Err? {
      AlikeIsSound(t, t1);
    } else {
      ReplaceIsSound(t, r.value, t1.fds[r.value], t1.maxFd);
    }
  }

  lemma ReleaseIsSound(t: Table, fd: int)
    requires Sound(t) && fd < MAX_FD
    ensures Sound(Release(t, fd))
  {
    if fd > 2 {
      ReplaceIsSound(t, fd, t.fds[fd].(flags := 0, dev := None), t.maxFd);
    }
  }

  /** The copied descriptor holds nothing and its device is held by nobody, so
      putting it at a small index is harmless. */
  lemma RedirectIsSound(t: Table, slot: int, found: Option<Device>, flags: bv32, driver: DriverOpen)
    requires Sound(t) && 0 <= slot < 3
    ensures Sound(Redirect(t, slot, found, flags, driver))
  {
    OpenEffect(t, found, flags, driver);
    OpenIsSound(t, found, flags, driver);
    var (t1, r) := Open(t, found, flags, driver);
    if r.Ok? {
      var f := t1.fds[r.value];
      assert Entry(t1, r.value);
      ReplaceIsSound(t1, slot, f, t1.maxFd);
      ReleaseIsSound(With(t1, slot, f), r.value);
    }
  }

  /** Granting a lock keeps holders first on their device, although the scan does
      not look at the high-water entry itself. */
  lemma LockIsSound(t: Table, fd: int)
    requires Sound(t) && 0 <= fd < MAX_FD && IsDev(t.fds[fd])
    ensures Sound(Lock(t, fd).0)
  {
    var (t1, granted) := Lock(t, fd);
    if granted {
      FlagUpdates(t.fds[fd].flags, 0);
      assert Entry(t, fd);
      forall i | 0 <= i < MAX_FD
        ensures Entry(t1, i)
      {
        assert Entry(t, i);
      }
      forall i, j | 0 <= i < MAX_FD && 0 <= j < MAX_FD && i != j && IsExcl(t1.fds[i]) && t1.fds[i].dev == t1.fds[j].dev
        ensures i < j
      {
        assert Entry(t, i) && Entry(t, j);
      }
    }
  }

  lemma UnlockIsSound(t: Table, fd: int)
    requires Sound(t) && 0 <= fd < MAX_FD
    ensures Sound(Unlock(t, fd))
  {
    FlagUpdates(t.fds[fd].flags, 0);
    assert Entry(t, fd);
    SameFlagsIsSound(t, fd, ClearExcl(t.fds[fd].flags));
  }

  lemma SameFlagsIsSound(t: Table, fd: int, flags: bv32)
    requires Sound(t) && 0 <= fd < MAX_FD
    requires flags & DEV == t.fds[fd].flags & DEV && (flags & EXCL != 0 ==> t.fds[fd].flags & EXCL != 0)
    ensures Sound(With(t, fd, t.fds[fd].(flags := flags)))
  {
    var t1 := With(t, fd, t.fds[fd].(flags := flags));
    forall i | 0 <= i < MAX_FD
      ensures Entry(t1, i)
    {
      assert Entry(t, i);
    }
  }

  /** Every call keeps the table sound. */
  lemma StepIsSound(t: Table, c: Call)
    requires Sound(t) && Allowed(t, c)
    ensures Sound(Step(t, c))
  {
    match c
    case OpenCall(found, flags, driver) => OpenIsSound(t, found, flags, driver);
    case RedirectCall(slot, found, flags, driver) => RedirectIsSound(t, slot, found, flags, driver);
    case CloseCall(fd, status) => ReleaseIsSound(t, fd);
    case IoctlCall(fd, req, driver) =>
      if fd >= 0 && IsDev(t.fds[fd]) {
        LockIsSound(t, fd);
        FlagUpdates(t.fds[fd].flags, 0);
        UnlockIsSound(t, fd);
      }
    case FcntlCall(fd, cmd, arg) =>
      if fd >= 0 {
        FlagUpdates(t.fds[fd].flags, arg);
        SameFlagsIsSound(t, fd, FcntlFlags(t.fds[fd].flags, arg));
      }
  }

  // ------------------------------------------------------------- whole runs

  ghost predicate AllowedRun(t: Table, calls: seq<Call>)
    decreases calls
  {
    calls != [] ==> Allowed(t, calls[0]) && AllowedRun(Step(t, calls[0]), calls[1..])
  }

  ghost function Run(t: Table, calls: seq<Call>): Table
    requires AllowedRun(t, calls)
    decreases calls
  {
    if calls == [] then t else Run(Step(t, calls[0]), calls[1..])
  }

  lemma {:induction false} RunIsSound(t: Table, calls: seq<Call>)
    requires Sound(t) && AllowedRun(t, calls)
    ensures Sound(Run(t, calls))
    decreases calls
  {
    if calls != [] {
      StepIsSound(t, calls[0]);
      RunIsSound(Step(t, calls[0]), calls[1..]);
    }
  }

  /** After any calls from start-up, no device has two exclusive holders. */
  lemma AtMostOneHolder(calls: seq<Call>, i: int, j: int)
    requires AllowedRun(START, calls)
    requires InTable(Run(START, calls), i) && InTable(Run(START, calls), j)
    requires IsExcl(Run(START, calls).fds[i]) && IsExcl(Run(START, calls).fds[j])
    requires Run(START, calls).fds[i].dev == Run(START, calls).fds[j].dev
    ensures i == j
  {
    StartIsSound();
    RunIsSound(START, calls);
  }

  lemma HeldDeviceIsNotOpened(t: Table, found: Option<Device>, flags: bv32, driver: DriverOpen)
    requires Sound(t) && found.Some? && Held(t, found)
    ensures Alike(t.fds, Open(t, found, flags, driver).0.fds)
    ensures Open(t, found, flags, driver).1 == Err(if FirstFree(t.fds, 0) == MAX_FD then EMFILE else EACCES)
  {
    GetFdEffect(t, found.value);
    if GetFd(t, found.value).1 >= 0 {
      HolderIsSeen(t, found);
    }
  }

  /** Opening or redirecting to a held device fails and changes no descriptor. */
  lemma HeldDeviceIsClosed(t: Table, found: Option<Device>, flags: bv32, driver: DriverOpen, slot: int)
    requires Sound(t) && found.Some? && Held(t, found) && 0 <= slot < 3
    ensures Alike(t.fds, Open(t, found, flags, driver).0.fds)
    ensures Open(t, found, flags, driver).1 == Err(if FirstFree(t.fds, 0) == MAX_FD then EMFILE else EACCES)
    ensures Alike(t.fds, Redirect(t, slot, found, flags, driver).fds)
  {
    HeldDeviceIsNotOpened(t, found, flags, driver);
  }

  /** While a device is held, no call gives it a new descriptor. */
  lemma HeldDeviceOnlyLoses(t: Table, c: Call, d: Option<Device>, i: int)
    requires Sound(t) && Allowed(t, c) && d.Some? && Held(t, d)
    requires 0 <= i < MAX_FD && |Step(t, c).fds| == MAX_FD && Step(t, c).fds[i].dev == d
    ensures t.fds[i].dev == d
  {
    match c
    case OpenCall(found, flags, driver) => OpenEffect(t, found, flags, driver);
    case RedirectCall(slot, found, flags, driver) => OpenEffect(t, found, flags, driver);
    case CloseCall(_, _) =>
    case IoctlCall(_, _, _) =>
    case FcntlCall(_, _, _) =>
  }

  ghost predicate HeldThroughout(t: Table, calls: seq<Call>, d: Option<Device>)
    requires AllowedRun(t, calls)
    decreases calls
  {
    Held(t, d) && (calls != [] ==> HeldThroughout(Step(t, calls[0]), calls[1..], d))
  }

  /** Over any run during which a device stays held, its descriptors only go. */
  lemma {:induction false} HeldDeviceOnlyShrinks(t: Table, calls: seq<Call>, d: Option<Device>, i: int)
    requires Sound(t) && AllowedRun(t, calls) && d.Some? && HeldThroughout(t, calls, d)
    requires InTable(Run(t, calls), i) && Run(t, calls).fds[i].dev == d
    ensures 0 <= i < MAX_FD && t.fds[i].dev == d
    decreases calls
  {
    if calls != [] {
      StepIsSound(t, calls[0]);
      HeldDeviceOnlyShrinks(Step(t, calls[0]), calls[1..], d, i);
      HeldDeviceOnlyLoses(t, calls[0], d, i);
    }
  }

  // --------------------------------- where the documentation promises more

  /** The high-water entry, and no entry below it, shares fd's device. */
  predicate TopIsOnlyOther(t: Table, fd: int)
    requires InTable(t, fd)
  {
    && InTable(t, t.maxFd) && fd != t.maxFd && t.fds[t.maxFd].dev == t.fds[fd].dev
    && !OtherBelow(t, fd, t.maxFd)
  }

  /** The lock is documented to be granted exactly when no other descriptor is
      open on the device. That is so exactly unless the high-water entry is the
      only other one: the scan does not look at it. */
  lemma LockVerdict(t: Table, fd: int)
    requires Sound(t) && 0 <= fd < MAX_FD && t.fds[fd].dev.Some? && IsDev(t.fds[fd])
    ensures (Lock(t, fd).1 <==> !OtherBelow(t, fd, MAX_FD))
            <==> !TopIsOnlyOther(t, fd)
  {
    assert Entry(t, fd);
    forall i | t.maxFd < i < MAX_FD
      ensures t.fds[i].dev != t.fds[fd].dev
    {
      assert Entry(t, i);
    }
  }

  lemma RunOfThree(t: Table, a: Call, b: Call, c: Call)
    requires Allowed(t, a) && Allowed(Step(t, a), b) && Allowed(Step(Step(t, a), b), c)
    ensures AllowedRun(t, [a, b, c]) && Run(t, [a, b, c]) == Step(Step(Step(t, a), b), c)
  {
    var t1, t2 := Step(t, a), Step(Step(t, a), b);
    assert [c][1..] == [] && [b, c][1..] == [c] && [a, b, c][1..] == [b, c];
    assert AllowedRun(t2, [c]) && Run(t2, [c]) == Step(t2, c);
    assert AllowedRun(t1, [b, c]) && Run(t1, [b, c]) == Step(t2, c);
  }

  const UART := Some(Device(1, false))
  const OPEN_UART := OpenCall(UART, 0, DriverOpen(0, 0))
  const LOCK_3 := IoctlCall(3, TIOCEXCL, Ok(0))

  /** It does happen: two opens and a lock leave a holder that is not alone. */
  lemma LockPromiseFails()
    ensures AllowedRun(START, [OPEN_UART, OPEN_UART, LOCK_3])
    ensures var t := Run(START, [OPEN_UART, OPEN_UART, LOCK_3]);
            |t.fds| == MAX_FD && IsExcl(t.fds[3]) && t.fds[3].dev == UART && t.fds[4].dev == UART
  {
    assert FirstFree(START.fds, 0) == 3 by {
      assert FirstFree(START.fds, 3) == FirstFree(START.fds, 2) == FirstFree(START.fds, 1);
    }
    var t1 := Step(START, OPEN_UART);
    assert t1 == Table(START.fds[3 := Fd(UART, 0, DEV)], 3);
    assert FirstFree(t1.fds, 0) == 4 by {
      assert FirstFree(t1.fds, 4) == FirstFree(t1.fds, 3) == FirstFree(t1.fds, 2) == FirstFree(t1.fds, 1);
    }
    assert Step(t1, OPEN_UART) == Table(t1.fds[4 := Fd(UART, 0, DEV)], 4);
    RunOfThree(START, OPEN_UART, OPEN_UART, LOCK_3);
  }

  const REDIRECT_OUT := RedirectCall(1, UART, 0, DriverOpen(0, 0))
  const LOCK_1 := IoctlCall(1, TIOCEXCL, Ok(0))
  const CLOSE_1 := CloseCall(1, 0)

  /** It does happen: standard output on the UART, locked and closed, still holds it. */
  lemma ClosePromiseFails()
    ensures AllowedRun(START, [REDIRECT_OUT, LOCK_1, CLOSE_1])
    ensures Held(Run(START, [REDIRECT_OUT, LOCK_1, CLOSE_1]), UART)
  {
    assert FirstFree(START.fds, 0) == 3 by {
      assert FirstFree(START.fds, 3) == FirstFree(START.fds, 2) == FirstFree(START.fds, 1);
    }
    var t1 := Step(START, REDIRECT_OUT);
    assert t1.fds[1] == Fd(UART, 0, DEV) && |t1.fds| == MAX_FD && t1.maxFd == 3;
    assert t1.fds[0] == START.fds[0] && t1.fds[2] == START.fds[2] && !OtherBelow(t1, 1, 3);
    var t2 := Step(t1, LOCK_1);
    assert IsExcl(t2.fds[1]) && t2.fds[1].dev == UART;
    RunOfThree(START, REDIRECT_OUT, LOCK_1, CLOSE_1);
  }

  /** Closing a descriptor is documented to release its lock. It does so exactly
      for descriptors of the pool: standard in, out and error keep theirs. */
  lemma CloseReleasesTheLock(t: Table, fd: int, status: int)
    requires Sound(t) && 0 <= fd < MAX_FD && t.fds[fd].dev.Some? && IsExcl(t.fds[fd])
    ensures !Held(Close(t, fd, status).0, t.fds[fd].dev) <==> fd > 2
  {
    var t1 := Close(t, fd, status).0;
    if fd <= 2 {
      assert IsExcl(t1.fds[fd]) && t1.fds[fd].dev == t.fds[fd].dev;
    }
  }
}

// The file-descriptor table as a value, and every descriptor call as a function
// on it.

module FdTable {
  import opened Words

  const MAX_FD := 32
  const EXCL: bv32 := 0x8000_0000
  const DEV: bv32 := 0x4000_0000
  const FLAGS_MASK: bv32 := 0xC000_0000
  const FCNTL_MASK: bv32 := 0x0000_4008   // O_APPEND | O_NONBLOCK

  /** A registered device, or a filesystem mount point. */
  datatype Device = Device(id: nat, isFilesystem: bool)

  datatype Fd = Fd(dev: Option<Device>, priv: int, flags: bv32)

  const FREE := Fd(None, 0, 0)

  datatype Table = Table(fds: seq<Fd>, maxFd: int)

  datatype Errno = ENODEV | EMFILE | EACCES | EBADFD | ENOTTY | EINVAL | Driver(code: nat)

  datatype Outcome = Ok(value: int) | OkFlags(flags: bv32) | Err(error: Errno)

  datatype Request = TIOCEXCL | TIOCNXCL | OtherRequest
  datatype Command = GetFl | SetFl | OtherCommand

  predicate IsExcl(f: Fd) { f.flags & EXCL != 0 }
  predicate IsDev(f: Fd) { f.flags & DEV != 0 }

  predicate InTable(t: Table, fd: int) { 0 <= fd < |t.fds| }

  function With(t: Table, fd: int, f: Fd): Table
    requires InTable(t, fd)
  {
    t.(fds := t.fds[fd := f])
  }

  // ------------------------------------------------------ the flag updates

  function OpenFlags(flags: bv32): bv32 { flags & !FLAGS_MASK }
  function MarkDevice(flags: bv32): bv32 { flags | DEV }
  function SetExcl(flags: bv32): bv32 { flags | EXCL }
  function ClearExcl(flags: bv32): bv32 { flags & !EXCL }
  function FcntlFlags(flags: bv32, arg: bv32): bv32 { (flags & !FCNTL_MASK) | (arg & FCNTL_MASK) }

  /** No call but lock and unlock can forge or clear the lock bit. */
  lemma FlagUpdates(flags: bv32, arg: bv32)
    ensures OpenFlags(flags) & EXCL == 0 && OpenFlags(flags) & DEV == 0
    ensures MarkDevice(flags) & EXCL == flags & EXCL && MarkDevice(flags) & DEV != 0
    ensures SetExcl(flags) & EXCL != 0 && SetExcl(flags) & DEV == flags & DEV
    ensures ClearExcl(flags) & EXCL == 0 && ClearExcl(flags) & DEV == flags & DEV
    ensures FcntlFlags(flags, arg) & EXCL == flags & EXCL && FcntlFlags(flags, arg) & DEV == flags & DEV
  {
  }

  // --------------------------------------------------------------- the calls

  /** The first free entry at or after i, or the table's size. */
  function FirstFree(fds: seq<Fd>, i: nat): (k: nat)
    requires i <= |fds|
    ensures i <= k <= |fds|
    ensures forall j | i <= j < k :: fds[j].dev.Some?
    ensures k < |fds| ==> fds[k].dev.None?
    decreases |fds| - i
  {
    if i == |fds| || fds[i].dev.None? then i else FirstFree(fds, i + 1)
  }

  /** alt_get_fd: the first free entry, and the high-water mark; -1 if none. */
  function GetFd(t: Table, dev: Device): (r: (Table, int))
    ensures |r.0.fds| == |t.fds| && r.1 < |t.fds|
  {
    var k: int := FirstFree(t.fds, 0);
    if k == |t.fds| then (t, -1)
    else (Table(t.fds[k := t.fds[k].(dev := Some(dev))], if k > t.maxFd then k else t.maxFd), k)
  }

  /** Another descriptor on the same device below `bound`. */
  predicate OtherBelow(t: Table, fd: int, bound: int)
    requires InTable(t, fd)
  {
    exists i | 0 <= i < bound && i < |t.fds| :: i != fd && t.fds[i].dev == t.fds[fd].dev
  }

  /** alt_fd_lock looks at the entries below the high-water mark. */
  function Lock(t: Table, fd: int): (Table, bool)
    requires InTable(t, fd)
  {
    if OtherBelow(t, fd, t.maxFd) then (t, false)
    else (With(t, fd, t.fds[fd].(flags := SetExcl(t.fds[fd].flags))), true)
  }

  function Unlock(t: Table, fd: int): Table
    requires InTable(t, fd)
  {
    With(t, fd, t.fds[fd].(flags := ClearExcl(t.fds[fd].flags)))
  }

  /** alt_file_locked looks up to and including the high-water mark. */
  predicate HeldByOther(t: Table, fd: int)
    requires InTable(t, fd)
  {
    exists i | 0 <= i <= t.maxFd && i < |t.fds| ::
      t.fds[i].dev == t.fds[fd].dev && IsExcl(t.fds[i]) && i != fd
  }

  /** alt_release_fd: standard in, out and error are never released. */
  function Release(t: Table, fd: int): Table
    requires fd < |t.fds|
  {
    if fd > 2 then With(t, fd, t.fds[fd].(flags := 0, dev := None)) else t
  }

  /** What the driver's open callback does: a status, and its private data. */
  datatype DriverOpen = DriverOpen(status: int, priv: int)

  /** open: `found` is what the name resolves to. */
  function Open(t: Table, found: Option<Device>, flags: bv32, driver: DriverOpen): (r: (Table, Outcome))
    ensures |r.0.fds| == |t.fds| && (r.1.Ok? ==> InTable(t, r.1.value))
  {
    if found.None? then (t, Err(ENODEV))
    else
      var (t1, k) := GetFd(t, found.value);
      if k < 0 then (t1, Err(EMFILE))
      else
        var fs := found.value.isFilesystem;
        var fl := OpenFlags(flags);
        var t2 := With(t1, k, t1.fds[k].(flags := if fs then fl else MarkDevice(fl)));
        if !fs && HeldByOther(t2, k) then (Release(t2, k), Err(EACCES))
        else
          var t3 := With(t2, k, t2.fds[k].(priv := driver.priv));
          if driver.status < 0 then (Release(t3, k), Err(Driver(-driver.status)))
          else (t3, Ok(k))
  }

  /** alt_open_fd: open, copy the descriptor into `slot`, release the original. */
  function Redirect(t: Table, slot: int, found: Option<Device>, flags: bv32, driver: DriverOpen): Table
    requires InTable(t, slot)
  {
    var (t1, r) := Open(t, found, flags, driver);
    if r.Ok? then Release(With(t1, slot, t1.fds[r.value]), r.value) else t1
  }

  /** close: `status` is what the driver's close callback returns (0 if none). */
  function Close(t: Table, fd: int, status: int): (Table, Outcome)
    requires fd < |t.fds|
  {
    if fd < 0 then (t, Err(EBADFD))
    else (Release(t, fd), if status < 0 then Err(Driver(-status)) else Ok(0))
  }

  /** ioctl: the lock requests of a device descriptor, or the driver's answer. */
  function Ioctl(t: Table, fd: int, req: Request, driver: Outcome): (Table, Outcome)
    requires fd < |t.fds|
  {
    if fd < 0 then (t, Err(EBADFD))
    else if IsDev(t.fds[fd]) && req == TIOCEXCL then
      var (t1, granted) := Lock(t, fd);
      (t1, if granted then Ok(0) else Err(EACCES))
    else if IsDev(t.fds[fd]) && req == TIOCNXCL then (Unlock(t, fd), Ok(0))
    else (t, driver)
  }

  /** fcntl: F_GETFL hides the two internal bits, F_SETFL cannot change them. */
  function Fcntl(t: Table, fd: int, cmd: Command, arg: bv32): (Table, Outcome)
    requires fd < |t.fds|
  {
    if fd < 0 then (t, Err(EBADFD))
    else match cmd
      case GetFl => (t, OkFlags(t.fds[fd].flags & !FLAGS_MASK))
      case SetFl => (With(t, fd, t.fds[fd].(flags := FcntlFlags(t.fds[fd].flags, arg))), Ok(0))
      case OtherCommand => (t, Err(EINVAL))
  }
}

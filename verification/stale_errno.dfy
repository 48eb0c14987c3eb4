/** `ltell` as bintail.cc writes it tests `errno` after `lseek(fd, 0, SEEK_CUR)`
    instead of the value `lseek` returned. No library call clears `errno`, so a
    failure that the program survives earlier leaves it set, and the next
    `reopen` ends the process although its `lseek` succeeded. */
module StaleErrno {
  import opened Outcomes
  import opened Files

  /** The value `lseek` stores in `errno` when it refuses a negative offset. */
  const EINVAL: int := 22

  /** `lseek(fd, off, SEEK_SET)` together with `errno`: a refused offset sets
      it to EINVAL; a call that succeeds leaves it as it was. */
  function SeekSetErrno(h: Handle, off: int, errno: int): (r: (Handle, int, int))
    ensures (r.0, r.1) == SeekSet(h, off)
    ensures off < 0 ==> r.2 == EINVAL
    ensures off >= 0 ==> r.2 == errno
    ensures errno != 0 ==> r.2 != 0
  {
    var (h', at) := SeekSet(h, off);
    (h', at, if at < 0 then EINVAL else errno)
  }

  /** `ltell` as written: whatever `lseek` returned, a nonzero `errno` is fatal. */
  function LtellAsWritten(h: Handle, errno: int): (r: Outcome<int>)
    ensures r.Died? <==> errno != 0
    ensures r.Ok? ==> r == Ltell(h)
  {
    var (_, at) := SeekCur(h);
    if errno != 0 then Died(IoError("")) else Ok(at)
  }

  /** `reopen` over `LtellAsWritten`; otherwise the same steps as `Files.Reopen`. */
  function ReopenAsWritten(h: Handle, errno: int, newFd: int): (r: Outcome<Handle>)
    ensures errno != 0 ==> r == Died(IoError(""))
    ensures errno == 0 ==> r == Reopen(h, newFd)
  {
    match LtellAsWritten(h, errno)
    case Died(f) => Died(f)
    case Ok(pos) =>
      match Open(h.path, newFd)
      case Died(f) => Died(f)
      case Ok(again) => Ok(SeekSet(again, pos).0)
  }

  /** A negative starting offset: the raw `lseek` of `main` refuses it and sets
      `errno`; the first growth then calls `reopen`, whose `ltell` ends the
      process with an I/O error although its `lseek` succeeded, before the
      file is closed or opened again. With the result-checking `Ltell` the
      same reopen keeps the cursor at 0. */
  lemma NegativeStartKillsFirstReopen(path: string, fd: nat, start: int, newFd: nat)
    requires start < 0
    ensures var (h, at, errno) := SeekSetErrno(Handle(path, fd, 0), start, 0);
            && at == -1 && errno == EINVAL
            && ReopenAsWritten(h, errno, newFd) == Died(IoError(""))
            && Reopen(h, newFd) == Ok(Handle(path, newFd, 0))
  {
  }

}

/** The file handle of bintail and the helpers of bintail.cc that position it:
    `fsize`, `ltell`, `absseek`, `relseek` and `reopen`.
    The system calls are answers supplied by the environment: `fstat` gives a
    size or fails, `open` gives a descriptor or a negative number, and
    `lseek(…, SEEK_SET)` follows POSIX for a regular file. */
module Files {
  import opened Outcomes

  /** An open descriptor on `path` together with its I/O cursor. */
  datatype Handle = Handle(path: string, fd: nat, pos: nat)

  /** `lseek(fd, off, SEEK_SET)` on a regular file: a negative offset is refused
      (the call returns -1 and the cursor stays where it was); any other offset,
      including one past the end of the file, becomes the cursor and is returned. */
  function SeekSet(h: Handle, off: int): (r: (Handle, int))
    ensures r.1 < 0 <==> off < 0
    ensures r.1 < 0 ==> r.0 == h && r.1 == -1
    ensures r.1 >= 0 ==> r.0 == h.(pos := off) && r.1 == off
  {
    if off < 0 then (h, -1) else (h.(pos := off), off)
  }

  /** `fsize`: the size reported by `fstat`, or `ioerror` when `fstat` fails. */
  function Fsize(stat: Option<nat>): (r: Outcome<nat>)
    ensures r.Died? <==> stat.None?
    ensures r.Died? ==> r.failure == IoError("")
    ensures r.Ok? ==> stat == Some(r.value)
  {
    match stat
    case None => Died(IoError(""))
    case Some(size) => Ok(size)
  }

  /** `lseek(fd, 0, SEEK_CUR)` on an open descriptor: answers the cursor. */
  function SeekCur(h: Handle): (r: (Handle, int))
    ensures r.0 == h && r.1 == h.pos
  {
    (h, h.pos)
  }

  /** `ltell`, with its failure test made on the result of `lseek` (-1), as
      intended; the program tests `errno` instead, see module StaleErrno.
      `lseek(fd, 0, SEEK_CUR)` on an open descriptor cannot fail in this
      model (`SeekCur` answers the cursor, a `nat`), so the test never fires
      and `ltell` always answers the cursor. */
  function Ltell(h: Handle): (r: Outcome<int>)
    ensures r == Ok(h.pos)
  {
    var (_, at) := SeekCur(h);
    if at < 0 then Died(IoError("")) else Ok(at)
  }

  /** The clipping shared by `absseek` and `relseek`: two sequential tests,
      first against 0, then against the edge of the file. */
  function Clip(where: int, edge: nat): (r: nat)
    ensures r == Max(0, Min(where, edge))
    ensures 0 <= where <= edge ==> r == where
  {
    var w := if where < 0 then 0 else where;
    if w > edge then edge else w
  }

  /** `absseek(fd, howfar)`: seek to `howfar` clipped into [0, size of the file];
      answers the new absolute offset. */
  function AbsSeek(h: Handle, stat: Option<nat>, howfar: int): (r: Outcome<(Handle, int)>)
    ensures r.Died? <==> stat.None?
    ensures r.Died? ==> r.failure == IoError("")
    ensures r.Ok? ==> r.value.0 == h.(pos := Max(0, Min(howfar, stat.value)))
    ensures r.Ok? ==> r.value.1 == r.value.0.pos && 0 <= r.value.1 <= stat.value
    ensures r.Ok? && 0 <= howfar <= stat.value ==> r.value.1 == howfar
  {
    match Fsize(stat)
    case Died(f) => Died(f)
    case Ok(edge) => Ok(SeekSet(h, Clip(howfar, edge)))
  }

  /** `relseek(fd, howfar)`: seek `howfar` bytes from the cursor, clipped into
      [0, size of the file]; answers the new absolute offset. */
  function RelSeek(h: Handle, stat: Option<nat>, howfar: int): (r: Outcome<(Handle, int)>)
    ensures r.Died? <==> stat.None?
    ensures r.Died? ==> r.failure == IoError("")
    ensures r.Ok? ==> r.value.0 == h.(pos := Max(0, Min(h.pos + howfar, stat.value)))
    ensures r.Ok? ==> r.value.1 == r.value.0.pos && 0 <= r.value.1 <= stat.value
    ensures r.Ok? && howfar == 0 && h.pos <= stat.value ==> r.value == (h, h.pos)
    ensures r.Ok? && howfar == 0 && h.pos > stat.value ==> r.value.1 == stat.value < h.pos
  {
    match Ltell(h)
    case Died(f) => Died(f)
    case Ok(now) =>
      match Fsize(stat)
      case Died(f) => Died(f)
      case Ok(edge) => Ok(SeekSet(h, Clip(now + howfar, edge)))
  }

  /** `open(path, O_RDONLY)`: `newFd` is the descriptor the system returned;
      a negative one is `badfile`. A fresh descriptor starts at offset 0. */
  function Open(path: string, newFd: int): (r: Outcome<Handle>)
    ensures r.Died? <==> newFd < 0
    ensures r.Died? ==> r.failure == BadFile(path)
    ensures r.Ok? ==> r.value.path == path && r.value.fd == newFd && r.value.pos == 0
  {
    if newFd < 0 then Died(BadFile(path)) else Ok(Handle(path, newFd, 0))
  }

  /** `reopen(fd, fn, md)`: note the cursor, close the descriptor, open the
      path again (`newFd` is what that `open` returned) and seek the new
      descriptor back to the noted cursor. Either the open failed and the
      process ends naming the path, or only the descriptor has changed. */
  function Reopen(h: Handle, newFd: int): (r: Outcome<Handle>)
    ensures r.Died? <==> newFd < 0
    ensures r.Died? ==> r.failure == BadFile(h.path)
    ensures r.Ok? ==> r.value == h.(fd := newFd)
  {
    match Ltell(h)
    case Died(f) => Died(f)
    case Ok(pos) =>
      match Open(h.path, newFd)
      case Died(f) => Died(f)
      case Ok(again) => Ok(SeekSet(again, pos).0)
  }

  /** The seek of the starting offset in `main` is a raw `lseek`, not `absseek`:
      a negative offset is refused and leaves the fresh cursor at 0, and an
      offset past the end of the file is kept as it is, unlike `AbsSeek`. */
  lemma StartOffsetNotClipped(h: Handle, stat: nat, start: int)
    requires h.pos == 0
    ensures start < 0 ==> SeekSet(h, start) == (h, -1)
    ensures start >= 0 ==> SeekSet(h, start).0.pos == start
    ensures start > stat ==> AbsSeek(h, Some(stat), start).Ok?
                             && AbsSeek(h, Some(stat), start).value.0.pos == stat < SeekSet(h, start).0.pos
  {
  }
}

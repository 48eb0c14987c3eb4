# bintail in Dafny

bintail follows a file that another process keeps appending to. It copies
the new bytes to standard output, starting either at the beginning of the
file or at a byte offset given on the command line. This project models the
program's core, `bintail.cc`, and proves properties of that model:

- **Offset clipping.** `absseek` and `relseek` clip a requested offset into
  `[0, size of the file]`.
- **Reopening.** `reopen` closes the file, opens it again and puts the cursor
  back where it was.
- **The follow loop of `main`.** It polls the file size until it changes,
  reopens the file, then relays data. Each relay step is one `read` of at most
  `BUFSZ` (1024) bytes followed by `write` calls until the count read is used
  up. It goes back to polling when a read returns 0.

The file is a byte sequence (`seq<bv8>`) read through a handle with a cursor.
Standard output is the byte sequence written so far. The system calls are
answers supplied by the environment:

- `fstat` gives a size or fails.
- `open` gives a descriptor, or a negative number when it fails.
- `read` on a regular file gives the bytes available from the cursor, at most
  `BUFSZ`, or fails.
- Each `write` gets an integer from the sink. A negative one is a failed
  call. Any other is the largest number of bytes the sink takes this time.
- `select` either reports the file readable or wakes up with nothing to do.

The program never ends on its own: its loops run until the process is killed.
Each unbounded loop is therefore bounded by the number of answers it is given,
and it reports when those run out. `usage`, `badfile` and `ioerror` print a
message and exit with status 1. Here they are a `Died`/`Dead` outcome that
names the kind of failure and the path.

Modules: `Outcomes` (the failure kinds), `Files` (the handle, seeking and
reopening), `StaleErrno` (the `errno` test in `ltell`), `Relay` (read and
write loop) and `Follow` (the polling/drain state machine). The class
`Follow.Follower` holds `main`'s variables and the 1024-byte buffer. Its
loop methods `Poll`, `Drain`, `Round` and `Follow` run the program's loops,
and each one is proved equal to a specification function on the value
`Tail`; `Refresh`, `Read` and the constructor `Start` are specified by
`Reopen`, `ReadCount` and their fields.

Where the program and its description disagree, the model follows the
program, with one exception: the follow loop uses the corrected `ltell` (see
Findings and "Left out").

- **The start offset is not clipped.** `main` seeks to it with a raw `lseek`
  (bintail.cc:174) and never calls `absseek`. A negative offset is refused and
  the cursor stays at 0. An offset past the end is kept, so the bytes before
  it are never shown (`Files.StartOffsetNotClipped`,
  `Follow.FirstReadOutcomes`).
- **Polling ends on any change of size**, a shrink included (bintail.cc:187).
- **A chunk is not reliably written whole.** After a partial write, the next
  write starts again at the first byte of the buffer (see Findings).
- **Standard input is never read.** The `select` on it only wakes the loop.

## Model

| member | source | states |
|---|---|---|
| `Files.SeekSet` | bintail.cc:174 | `lseek(…, SEEK_SET)` on a regular file: a negative offset is refused with -1 and the handle is left as it was; any other offset, past the end included, becomes the cursor and is returned |
| `Files.Fsize` | bintail.cc:51-61 | ends with an I/O error exactly when `fstat` fails; otherwise answers the size `fstat` reported |
| `Files.Clip` | bintail.cc:86-93 | the clipped offset is `max(0, min(where, edge))`, so it lies in `[0, edge]`, and an offset already in range is returned unchanged |
| `Files.AbsSeek` | bintail.cc:82-100 | ends with an I/O error exactly when `fstat` fails; otherwise the new cursor and the value returned are `max(0, min(howfar, size))`, within `[0, size]`, equal to `howfar` when it is in range, and nothing but the cursor changes |
| `Files.RelSeek` | bintail.cc:106-127 | ends with an I/O error exactly when `fstat` fails; otherwise the cursor goes to `max(0, min(cursor + howfar, size))`; a move of 0 leaves a cursor inside the file where it is and pulls a cursor past the end back to the end |
| `Files.SeekCur` | bintail.cc:71 | `lseek(fd, 0, SEEK_CUR)` on an open descriptor leaves the handle as it is and answers the cursor |
| `Files.Ltell` | bintail.cc:66-77 | with the failure test made on `lseek`'s result, asking an open descriptor for its position never fails and answers the cursor (`SEEK_CUR` on an open descriptor cannot fail in this model, so the test never fires) |
| `Files.Open` | bintail.cc:150-153 | ends with `badfile` naming the path exactly when `open` returns a negative descriptor; otherwise the handle is on that path and descriptor at offset 0 |
| `Files.Reopen` | bintail.cc:132-140 | ends with `badfile` naming the path exactly when the new `open` fails; otherwise the new handle differs from the old one only in its descriptor, so the cursor is kept |
| `Files.StartOffsetNotClipped` | bintail.cc:166-174 | the starting seek refuses a negative offset and leaves the cursor at 0, and it keeps an offset past the end of the file where `absseek` would have clipped it to the size |
| `StaleErrno.LtellAsWritten` | bintail.cc:66-77 | the program's `ltell` ends the process exactly when `errno` is nonzero, whatever `lseek` answered; when it goes on it agrees with `Files.Ltell` |
| `StaleErrno.SeekSetErrno` | bintail.cc:174 | the seek of `main` together with `errno`: a refused negative offset sets `errno` to EINVAL, a successful seek leaves it as it was, so a nonzero `errno` stays nonzero |
| `StaleErrno.ReopenAsWritten` | bintail.cc:132-140 | the program's `reopen`: with `errno` nonzero it ends with an I/O error naming no path, in `ltell`, before the file is closed or opened again; with `errno` clear it agrees with `Files.Reopen` |
| `StaleErrno.NegativeStartKillsFirstReopen` | bintail.cc:166-200 | a negative start offset makes `lseek` set `errno` to EINVAL; the first `reopen` then ends with an I/O error although its `lseek` succeeded, before the file is closed or opened again, where `Files.Reopen` keeps the cursor at 0 |
| `Relay.ReadCount` | bintail.cc:217 | a read returns -1 exactly when it fails, never more than `BUFSZ`, 0 exactly when the cursor is at or past the end of the file, otherwise everything available from the cursor up to `BUFSZ` bytes (a full buffer when that many are available), never reaching past the end |
| `Relay.Accepted` | bintail.cc:224 | one `write(1, buffer, n)`: it returns -1 exactly when the sink fails the call; otherwise between 0 and `n` bytes and no more than the sink takes, and all `n` when the sink takes at least `n` |
| `Relay.WriteLoop` | bintail.cc:220-231 | the write loop as written: bytes written plus the count left equal the count read, it ends `Done` exactly when the count reaches 0, and it stalls only after using every answer |
| `Relay.WriteLoopStopsAtFirstFailure` | bintail.cc:220-231 | the write loop ends `Failed` exactly when the last `write` it made returned a negative count, and every `write` before that one succeeded |
| `Relay.WriteAll` | bintail.cc:220-231 | the loop over the buffer produces exactly the run `WriteLoop` describes for the bytes read |
| `Relay.WholeWriteEchoesChunk` | bintail.cc:222-227 | when the sink takes nothing a few times and then the whole count, the chunk reaches the output exactly once, in order, after that many calls |
| `Relay.ZeroWritesSpin` | bintail.cc:222-231 | writes that return 0 make no progress: the count stays and nothing is output, however many calls are made |
| `Relay.PartialWriteRepeatsHead` | bintail.cc:222-227 | after a first write of `k` of `n` bytes, the second write outputs the first `n - k` bytes of the chunk again, not its last `n - k` |
| `Relay.RepeatingHeadHidesPartialWrite` | bintail.cc:222-227 | when the chunk's first `n - k` bytes equal its bytes from `k` to `n`, a first write of `k` followed by the rest still outputs the chunk in order, so the repeated head goes unseen |
| `Relay.PartialWritesReorderOutput` | bintail.cc:222-227 | the chunk 1, 2, 3, 4 written two bytes at a time comes out as 1, 2, 1, 2 |
| `Relay.WriteTail` | bintail.cc:220-231 | with each write starting at the first unwritten byte, the output is always the chunk's bytes in order, without repetition or gap, and the loop is `Done` exactly when the whole chunk is out |
| `Relay.WriteTailAgreesOnWholeWrites` | bintail.cc:220-231 | the corrected loop and the program's loop agree whenever the first positive write takes the whole count |
| `Follow.PollSpec` | bintail.cc:187-197 | polling reads and writes nothing and keeps the cursor; it ends exactly when the size differs from `lastsize`, which then takes the new size (the last `fstat` reported it); if the samples run out first, the state is unchanged |
| `Follow.IdlePollingIsQuiet` | bintail.cc:187-194 | while every `fstat` fails or reports `lastsize`, polling consumes every sample and leaves the whole state as it was |
| `Follow.PollEndsAtFirstChange` | bintail.cc:187-197 | polling stops at the first `fstat` that reports another size, larger or smaller, and `lastsize` takes that size |
| `Follow.Cycle` | bintail.cc:217-236 | one readable wake-up moves the cursor forward by at most `BUFSZ` and only extends the output; a fatal end always names the file; going on means bytes were read |
| `Follow.CycleDiesOnFailure` | bintail.cc:217-236 | a failed read ends the process naming the file with nothing else changed; a wake-up ends the process exactly when its read fails or its write loop ends `Failed` (which `Relay.WriteLoopStopsAtFirstFailure` ties to a negative `write`); a first `write` that fails ends it naming the file with nothing written |
| `Follow.DrainSpec` | bintail.cc:203-239 | the drain loop changes only the cursor (forward) and the output (extended); a fatal end names the file; it only stops waiting after using every wake-up |
| `Follow.FirstReadOutcomes` | bintail.cc:232-236 | a failed read ends the process naming the file; a read at or past the end returns 0 and goes back to polling, not to a failure, with nothing written |
| `Follow.WholeChunkStep` | bintail.cc:217-227 | a read of `n > 0` bytes whose first write answer is at least `n`, so that the first `write` takes them all, appends exactly those file bytes to the output and moves the cursor by `n` |
| `Follow.DrainLeavesAtEnd` | bintail.cc:232-236 | the drain loop returns to polling only from a read that succeeded at or past the end of the file as that read saw it |
| `Follow.CooperativeCycle` | bintail.cc:217-236 | on a file that only grows, when no read fails and each wake-up's first write answer is at least `BUFSZ`, a wake-up either returns to polling or appends the file's bytes from the old cursor to the new one |
| `Follow.DrainCopiesInOrder` | bintail.cc:203-239 | on a file that only grows, when no read fails and each wake-up's first write answer is at least `BUFSZ`, the output gains exactly the file's bytes from the old cursor to the new one, in order, and nothing ends the process |
| `Follow.DrainDeliversWholeFile` | bintail.cc:203-239 | on a file that stays as it is, when no read fails and each wake-up's first write answer is at least `BUFSZ`, and with enough wake-ups, one per `BUFSZ` bytes plus one, the drain loop writes everything from the cursor to the end of the file and returns to polling with the cursor at the end |
| `Follow.GrowthIsRelayed` | bintail.cc:186-239 | idle samples, then a new size, a successful reopen, and wake-ups on a fixed file when no read fails and each wake-up's first write answer is at least `BUFSZ`: the pass updates `lastsize`, reopens, writes the file from the cursor to its end and returns to polling |
| `Follow.RoundSpec` | bintail.cc:186-239 | one pass keeps the path, never moves the cursor back, only extends the output, ends fatally only with a `badfile` after a failed `open` or an I/O error naming the file, and when it returns to polling `lastsize` equals the new size |
| `Follow.FollowSpec` | bintail.cc:185-240 | the outer loop keeps the path, never moves the cursor back, only extends the output, ends fatally only with a `badfile` or an I/O error naming the file, stops before its passes run out only when a pass does not return to polling, and after a pass that returns to polling `lastsize` equals the size |
| `Follow.Follower.Start` | bintail.cc:159-183 | the cursor is the start offset unclipped (0 for a negative one), `sb.st_size` is the first `fstat` size or 0, `lastsize` is 0 and nothing has been written |
| `Follow.Follower.Poll` | bintail.cc:187-197 | the polling loop over the fields ends in the state and with the result `PollSpec` gives |
| `Follow.Follower.Refresh` | bintail.cc:200 | the handle becomes what `Reopen` gives, or stays when the open fails |
| `Follow.Follower.Read` | bintail.cc:217 | returns `ReadCount`; the first `n` bytes of the buffer become the file bytes at the cursor, and the cursor moves by `n` |
| `Follow.Follower.Drain` | bintail.cc:203-239 | the drain loop over the fields and buffer ends as `DrainSpec` says |
| `Follow.Follower.Round` | bintail.cc:186-239 | one pass of the outer loop ends as `RoundSpec` says |
| `Follow.Follower.Follow` | bintail.cc:185-240 | the outer loop over successive passes ends as `FollowSpec` says |

## Findings

| source | as written | input that shows it | evidently intended | confidence | as-written member | corrected member |
|---|---|---|---|---|---|---|
| bintail.cc:224 | each `write(1, buffer, n)` starts at `buffer[0]`, even after a partial write | the 4 bytes 1, 2, 3, 4 are read and the sink takes 2 bytes per call: the output is 1, 2, 1, 2 | write from `buffer + (count - n)` | high; not executed | `Relay.PartialWritesReorderOutput` | `Relay.WriteTail` |
| bintail.cc:72 | `ltell` tests `errno`, which no successful call clears | start offset -50: the `lseek` at line 174 fails with EINVAL, and at the first growth `reopen` calls `ltell`, which ends the process although its `lseek` succeeded; a failed `fstat` while polling (line 189) does the same | test whether `lseek` returned -1 | medium; not executed | `StaleErrno.NegativeStartKillsFirstReopen` | `Files.Ltell` |

The follow loop keeps the program's write loop (`Relay.WriteLoop`), because
the drain state machine models what the program does. `Relay.WriteTail` is the
corrected loop. `Relay.WriteTailAgreesOnWholeWrites` proves the two agree in
the one case where the program's output is in order whatever bytes the chunk
holds: the first positive write takes the whole count. A chunk whose head
repeats hides the bug (`Relay.RepeatingHeadHidesPartialWrite`): four zero
bytes written two at a time still come out as four zero bytes. The order-preservation lemmas of `Follow` rely
on a narrower case: `Follow.Cooperative` asks the very first `write` of each
wake-up to take at least `BUFSZ` bytes, so leading zero-length writes are
excluded there. `Files.Reopen` and `Files.RelSeek` use the corrected `Ltell`.

## Left out

- Argument checking and parsing (`usage`, `atol`, bintail.cc:147-169) are command-line glue. The start offset is an integer parameter of `Follower.Start`, and the initial `open` is `Files.Open`.
- `select` on the file and on standard input (bintail.cc:205-216) is a blocking wait. Each wake-up is an `Event`: the file is readable, or nothing happens. Standard input is never read.
- `usleep` (bintail.cc:182, 193) is timing only.
- Diagnostic text, `strerror` and the exit status are left out. A fatal report is a `Dead`/`Died` outcome naming the failure kind and path, and a failed `fstat` while polling is a sample that leaves the size as it was.
- `close` and its result, and the open mode (always `O_RDONLY`), are not modelled.
- Files.RelSeek: `now + howfar` is computed on unbounded integers. An overflow of the 64-bit `off_t`, which is undefined in C, is not modelled. It also uses the corrected `Ltell`, so it does not capture that the program's `relseek` dies when `errno` is stale (`main` never calls `relseek`).
- Relay.ReadCount: models a regular file, where `read` returns everything available up to `BUFSZ`. Short reads from pipes or from an interrupted call are not modelled.
- The bytes the file holds are supplied with each wake-up. A file replaced on disk is whatever bytes the next wake-up brings. The model does not track which inode the old descriptor still sees.
- Loops that never end in the program are bounded by their inputs. They end `Spinning` when a write loop runs out of sink answers, and `Waiting` when the `fstat` samples or `select` wake-ups run out. `Follower.Follow` runs one pass per element of its input.
- Files.Reopen / Follow.RoundSpec: the follow loop reopens with the corrected `ltell`, so it does not carry `errno`. In the program, any earlier failure that set `errno`, such as a refused start seek (bintail.cc:174) or a failed `fstat` (bintail.cc:180, 189), makes the next `reopen` end with an I/O error naming no path. The `RoundSpec` clause that a fatal end names the file holds only for the corrected `ltell`. The program's behaviour is `StaleErrno.ReopenAsWritten`.
- Follow.DrainCopiesInOrder: proved only when no read fails and each wake-up's first write answer is at least `BUFSZ` (`Follow.Cooperative`); `Follow.DrainDeliversWholeFile` and `Follow.GrowthIsRelayed` carry the same condition. With partial writes the program duplicates bytes (see Findings).

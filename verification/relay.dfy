/** The stream relay of `main` in bintail.cc: one `read` of at most BUFSZ
    bytes into the buffer, then `write` calls to standard output until the
    count read is used up.

    The sink is described by its answers: on each `write(1, buffer, n)` the
    environment supplies an integer; a negative one is a failing call, any
    other is the most bytes the sink takes this time, so the call returns
    `Min(answer, n)`. A loop that the program runs for as long as the sink
    refuses bytes is bounded here by the number of answers supplied. */
module Relay {
  import opened Outcomes

  /** `BUFSZ`: the size of the transfer buffer. */
  const BUFSZ: nat := 1024

  /** What `read(fd, buffer, BUFSZ)` returns on a regular file whose bytes are
      `file` when the cursor is at `pos`; `fails` says whether the call fails. */
  function ReadCount(file: seq<bv8>, pos: nat, fails: bool): (n: int)
    ensures fails <==> n == -1
    ensures -1 <= n <= BUFSZ
    ensures n > 0 ==> pos + n <= |file|
    ensures n == 0 <==> !fails && |file| <= pos
    ensures !fails && pos + BUFSZ <= |file| ==> n == BUFSZ
    ensures !fails && pos < |file| ==> n == Min(BUFSZ, |file| - pos)
  {
    if fails then -1 else if |file| <= pos then 0 else Min(BUFSZ, |file| - pos)
  }

  /** What `write(1, buffer, n)` returns when the sink answers `answer`. */
  function Accepted(answer: int, n: nat): (w: int)
    ensures w < 0 <==> answer < 0
    ensures w < 0 ==> w == -1
    ensures answer >= 0 ==> 0 <= w <= n && w <= answer
    ensures answer >= n ==> w == n
  {
    if answer < 0 then -1 else Min(answer, n)
  }

  datatype WriteStatus =
    | Done     // the count reached 0
    | Failed   // a write returned a negative count: `ioerror`
    | Stalled  // the answers ran out while bytes were left; the program keeps writing

  /** One run of the write loop: how it ended, the bytes that reached the
      sink in order, the number of `write` calls made and the count left. */
  datatype WriteRun = WriteRun(status: WriteStatus, emitted: seq<bv8>, calls: nat, left: nat)

  /** The write loop as the program has it: every call passes `buffer` itself,
      so each write starts again at the first byte of the chunk, whatever the
      calls before it have written. `n` is the count still to write. */
  function WriteLoop(chunk: seq<bv8>, n: nat, answers: seq<int>): (r: WriteRun)
    requires n <= |chunk|
    ensures |r.emitted| + r.left == n
    ensures r.calls <= |answers|
    ensures r.status == Done <==> r.left == 0
    ensures r.status == Stalled ==> r.calls == |answers|
    decreases |answers|
  {
    if n == 0 then WriteRun(Done, [], 0, 0)
    else if answers == [] then WriteRun(Stalled, [], 0, n)
    else
      var written := Accepted(answers[0], n);
      if written < 0 then WriteRun(Failed, [], 1, n)
      else
        var rest := WriteLoop(chunk, n - written, answers[1..]);
        WriteRun(rest.status, chunk[..written] + rest.emitted, rest.calls + 1, rest.left)
  }

  /** A failing `write` ends the loop: it fails exactly when the last call it
      made got a negative answer, and every call before that one succeeded. */
  lemma {:induction false} WriteLoopStopsAtFirstFailure(chunk: seq<bv8>, n: nat, answers: seq<int>)
    requires n <= |chunk|
    ensures var r := WriteLoop(chunk, n, answers);
            && (r.status == Failed <==> 0 < r.calls && answers[r.calls - 1] < 0)
            && forall i :: 0 <= i < r.calls - 1 ==> answers[i] >= 0
    decreases |answers|
  {
    if n > 0 && answers != [] && Accepted(answers[0], n) >= 0 {
      var written := Accepted(answers[0], n);
      WriteLoopStopsAtFirstFailure(chunk, n - written, answers[1..]);
      var rest := WriteLoop(chunk, n - written, answers[1..]);
      assert forall i :: 1 <= i <= rest.calls ==> answers[i] == answers[1..][i - 1];
    }
  }

  /** `rest` preceded by bytes already emitted and calls already made. */
  function After(emitted: seq<bv8>, calls: nat, rest: WriteRun): WriteRun
  {
    rest.(emitted := emitted + rest.emitted, calls := calls + rest.calls)
  }

  /** One `write` call of the loop: what is left after it, preceded by what it wrote. */
  lemma WriteLoopStep(chunk: seq<bv8>, n: nat, answers: seq<int>, emitted: seq<bv8>, calls: nat)
    requires 0 < n <= |chunk| && answers != []
    requires 0 <= Accepted(answers[0], n)
    ensures var written := Accepted(answers[0], n);
            After(emitted, calls, WriteLoop(chunk, n, answers))
            == After(emitted + chunk[..written], calls + 1, WriteLoop(chunk, n - written, answers[1..]))
  {
    var written := Accepted(answers[0], n);
    var rest := WriteLoop(chunk, n - written, answers[1..]);
    assert WriteLoop(chunk, n, answers) == WriteRun(rest.status, chunk[..written] + rest.emitted, rest.calls + 1, rest.left);
    assert emitted + (chunk[..written] + rest.emitted) == (emitted + chunk[..written]) + rest.emitted;
  }

  /** The loop's exits: a failing call, a count used up, answers run out. */
  lemma WriteLoopExits(chunk: seq<bv8>, n: nat, answers: seq<int>)
    requires n <= |chunk|
    ensures n > 0 && answers != [] && Accepted(answers[0], n) < 0 ==> WriteLoop(chunk, n, answers) == WriteRun(Failed, [], 1, n)
    ensures n == 0 ==> WriteLoop(chunk, n, answers) == WriteRun(Done, [], 0, 0)
    ensures n > 0 && answers == [] ==> WriteLoop(chunk, n, answers) == WriteRun(Stalled, [], 0, n)
  {
  }

  /** The write loop of `main` over the buffer: `count` bytes were read. */
  method WriteAll(buffer: array<bv8>, count: nat, answers: seq<int>) returns (r: WriteRun)
    requires 0 < count <= buffer.Length
    ensures r == WriteLoop(buffer[..count], count, answers)
  {
    ghost var chunk := buffer[..count];
    var n: nat := count;
    var emitted: seq<bv8> := [];
    var calls := 0;
    while n > 0 && calls < |answers|
      invariant n <= count && calls <= |answers|
      invariant WriteLoop(chunk, count, answers) == After(emitted, calls, WriteLoop(chunk, n, answers[calls..]))
      decreases |answers| - calls
    {
      var written := Accepted(answers[calls], n);
      if written < 0 {
        WriteLoopExits(chunk, n, answers[calls..]);
        return WriteRun(Failed, emitted, calls + 1, n);
      }
      WriteLoopStep(chunk, n, answers[calls..], emitted, calls);
      assert answers[calls..][1..] == answers[calls + 1..];
      if written > 0 {
        assert chunk[..written] == buffer[..written];
        emitted := emitted + buffer[..written];
        n := n - written;
      } else {
        assert emitted + chunk[..written] == emitted;
      }
      calls := calls + 1;
    }
    WriteLoopExits(chunk, n, answers[calls..]);
    r := WriteRun(if n == 0 then Done else Stalled, emitted, calls, n);
  }

  /** When the sink refuses nothing but zero-length writes before taking the
      whole count at once, the chunk reaches the sink exactly, in order. */
  lemma {:induction false} WholeWriteEchoesChunk(chunk: seq<bv8>, n: nat, answers: seq<int>, k: nat)
    requires 0 < n <= |chunk| && k < |answers|
    requires forall i :: 0 <= i < k ==> answers[i] == 0
    requires answers[k] >= n
    ensures WriteLoop(chunk, n, answers) == WriteRun(Done, chunk[..n], k + 1, 0)
    decreases k
  {
    if k > 0 {
      WholeWriteEchoesChunk(chunk, n, answers[1..], k - 1);
    }
  }

  /** A write that returns 0 makes no progress: a sink that keeps taking
      nothing keeps the loop writing forever, with the count unchanged. */
  lemma {:induction false} ZeroWritesSpin(chunk: seq<bv8>, n: nat, answers: seq<int>)
    requires 0 < n <= |chunk|
    requires forall i :: 0 <= i < |answers| ==> answers[i] == 0
    ensures WriteLoop(chunk, n, answers) == WriteRun(Stalled, [], |answers|, n)
    decreases |answers|
  {
    if answers != [] {
      ZeroWritesSpin(chunk, n, answers[1..]);
    }
  }

  /** After a partial first write of `k` bytes, the second write sends the
      first `n - k` bytes of the chunk again instead of its last `n - k`. */
  lemma PartialWriteRepeatsHead(chunk: seq<bv8>, n: nat, k: nat, answers: seq<int>)
    requires 0 < k < n <= |chunk| && |answers| >= 2
    requires answers[0] == k && answers[1] >= n - k
    ensures WriteLoop(chunk, n, answers) == WriteRun(Done, chunk[..k] + chunk[..n - k], 2, 0)
  {
    var second := WriteLoop(chunk, n - k, answers[1..]);
    assert WriteLoop(chunk, 0, answers[2..]) == WriteRun(Done, [], 0, 0);
    assert answers[1..][1..] == answers[2..];
    assert second == WriteRun(Done, chunk[..n - k], 1, 0);
  }

  /** The repetition goes unseen when the head of the chunk repeats: if the
      first `n - k` bytes equal the `n - k` after the first `k`, a partial
      first write of `k` still leaves the chunk in order. */
  lemma RepeatingHeadHidesPartialWrite(chunk: seq<bv8>, n: nat, k: nat, answers: seq<int>)
    requires 0 < k < n <= |chunk| && |answers| >= 2
    requires answers[0] == k && answers[1] >= n - k
    requires chunk[..n - k] == chunk[k .. n]
    ensures WriteLoop(chunk, n, answers) == WriteRun(Done, chunk[..n], 2, 0)
  {
    PartialWriteRepeatsHead(chunk, n, k, answers);
    assert chunk[..k] + chunk[k .. n] == chunk[..n];
  }

  /** Four bytes read, a sink that takes two bytes at a time: the sink
      receives 1, 2, 1, 2 where the file holds 1, 2, 3, 4. */
  lemma PartialWritesReorderOutput()
    ensures WriteLoop([1, 2, 3, 4], 4, [2, 2]).status == Done
    ensures WriteLoop([1, 2, 3, 4], 4, [2, 2]).emitted == [1, 2, 1, 2]
    ensures WriteLoop([1, 2, 3, 4], 4, [2, 2]).emitted != [1, 2, 3, 4]
  {
    PartialWriteRepeatsHead([1, 2, 3, 4], 4, 2, [2, 2]);
  }

  /** The write loop as evidently intended: each call starts at the first byte
      not yet written, `buffer + (count - n)`. Whatever the sink answers, what
      reached it is the chunk's bytes in order, without repetition or gap. */
  function WriteTail(chunk: seq<bv8>, n: nat, answers: seq<int>): (r: WriteRun)
    requires n <= |chunk|
    ensures r.left <= n && |r.emitted| + r.left == n
    ensures r.emitted == chunk[|chunk| - n .. |chunk| - r.left]
    ensures r.status == Done <==> r.left == 0
    decreases |answers|
  {
    if n == 0 then WriteRun(Done, [], 0, 0)
    else if answers == [] then WriteRun(Stalled, [], 0, n)
    else
      var written := Accepted(answers[0], n);
      if written < 0 then WriteRun(Failed, [], 1, n)
      else
        var from := |chunk| - n;
        var rest := WriteTail(chunk, n - written, answers[1..]);
        assert chunk[from .. from + written] + rest.emitted == chunk[from .. |chunk| - rest.left];
        WriteRun(rest.status, chunk[from .. from + written] + rest.emitted, rest.calls + 1, rest.left)
  }

  /** The intended loop agrees with the program's whenever the first
      positive write takes the whole count. */
  lemma {:induction false} WriteTailAgreesOnWholeWrites(chunk: seq<bv8>, answers: seq<int>, k: nat)
    requires 0 < |chunk| && k < |answers|
    requires forall i :: 0 <= i < k ==> answers[i] == 0
    requires answers[k] >= |chunk|
    ensures WriteTail(chunk, |chunk|, answers) == WriteLoop(chunk, |chunk|, answers)
    decreases k
  {
    WholeWriteEchoesChunk(chunk, |chunk|, answers, k);
    if k > 0 {
      WriteTailAgreesOnWholeWrites(chunk, answers[1..], k - 1);
    }
  }
}

/** The follow loop of `main` in bintail.cc: poll the size of the file until
    it changes, reopen the file at the same cursor, then relay what can be
    read until a read returns 0, and poll again.

    `select` is an event supplied by the environment: either the file is
    readable, with the bytes the file holds at that moment, whether the read
    fails and the answers of the sink to the writes that follow, or it is not
    (an interrupted wait, or only standard input ready), and nothing happens.
    Every loop that the program runs without end is bounded by the number of
    answers or events supplied. */
module Follow {
  import opened Outcomes
  import opened Files
  import opened Relay

  /** The variables of `main` that outlive one step: the descriptor `input`
      and its cursor, `sb.st_size`, `lastsize`, and every byte written to
      standard output so far. */
  datatype Tail = Tail(input: Handle, size: nat, lastsize: nat, out: seq<bv8>)

  /** One wake-up of `select` in the drain loop. */
  datatype Event =
    | Quiet
    | Readable(file: seq<bv8>, readFails: bool, answers: seq<int>)

  /** Where a loop of the model stopped. */
  datatype Exit =
    | Polling         // a read returned 0: back to size polling
    | Dead(failure: Failure)  // the process ended with status 1
    | Spinning        // a write loop ran out of answers: the program keeps writing
    | Waiting         // the fstat answers or select events ran out

  datatype PollRun = PollRun(grew: bool, used: nat, tail: Tail)

  datatype DrainRun = DrainRun(exit: Exit, used: nat, tail: Tail)

  /** The polling loop `while (sb.st_size == lastsize)` followed by
      `lastsize = sb.st_size`. Each element of `stats` answers one `fstat`:
      a failing call is reported and leaves `sb` as it was. */
  function PollSpec(t: Tail, stats: seq<Option<nat>>): (r: PollRun)
    ensures r.tail.input == t.input && r.tail.out == t.out
    ensures r.used <= |stats|
    ensures r.grew <==> r.tail.size != t.lastsize
    ensures r.grew ==> r.tail.lastsize == r.tail.size
    ensures r.grew && r.used == 0 ==> r.tail.size == t.size
    ensures r.grew && r.used > 0 ==> stats[r.used - 1] == Some(r.tail.size)
    ensures !r.grew ==> r.used == |stats| && r.tail == t
    decreases |stats|
  {
    if t.size != t.lastsize then PollRun(true, 0, t.(lastsize := t.size))
    else if stats == [] then PollRun(false, 0, t)
    else
      var sampled := match stats[0] case None => t case Some(size) => t.(size := size);
      var r := PollSpec(sampled, stats[1..]);
      r.(used := r.used + 1)
  }

  /** Where one wake-up of the drain loop leaves it. */
  datatype Step = Continue(tail: Tail) | Stop(exit: Exit, tail: Tail)

  /** One readable wake-up: `read` into the buffer, then the write loop over
      the count read. A read returning 0 leaves for polling; a negative read
      or a failing write ends the process naming the file. */
  function Cycle(t: Tail, file: seq<bv8>, readFails: bool, answers: seq<int>): (r: Step)
    ensures r.tail == t.(input := r.tail.input, out := r.tail.out)
    ensures r.tail.input == t.input.(pos := r.tail.input.pos)
    ensures t.input.pos <= r.tail.input.pos <= t.input.pos + BUFSZ
    ensures t.out <= r.tail.out
    ensures r.Stop? && r.exit.Dead? ==> r.exit.failure == IoError(t.input.path)
    ensures r.Stop? ==> r.exit != Waiting
    ensures r.Continue? ==> t.input.pos < r.tail.input.pos
  {
    var pos := t.input.pos;
    var n := ReadCount(file, pos, readFails);
    if n > 0 then
      var w := WriteLoop(file[pos .. pos + n], n, answers);
      var t' := t.(input := t.input.(pos := pos + n), out := t.out + w.emitted);
      match w.status
      case Failed => Stop(Dead(IoError(t.input.path)), t')
      case Stalled => Stop(Spinning, t')
      case Done => Continue(t')
    else if n < 0 then Stop(Dead(IoError(t.input.path)), t)
    else Stop(Polling, t)
  }

  /** The drain loop: one `select` per event, and a `Cycle` for each
      readable one, until a read returns 0 or the process ends. */
  function DrainSpec(t: Tail, events: seq<Event>): (r: DrainRun)
    ensures r.used <= |events|
    ensures r.tail == t.(input := r.tail.input, out := r.tail.out)
    ensures r.tail.input == t.input.(pos := r.tail.input.pos)
    ensures t.input.pos <= r.tail.input.pos
    ensures t.out <= r.tail.out
    ensures r.exit.Dead? ==> r.exit.failure == IoError(t.input.path)
    ensures r.exit == Waiting ==> r.used == |events|
    decreases |events|
  {
    if events == [] then DrainRun(Waiting, 0, t)
    else
      var next :=
        match events[0]
        case Quiet => Continue(t)
        case Readable(file, readFails, answers) => Cycle(t, file, readFails, answers);
      match next
      case Stop(exit, t') => DrainRun(exit, 1, t')
      case Continue(t') =>
        var r := DrainSpec(t', events[1..]);
        r.(used := r.used + 1)
  }

  /** What one pass of the outer `while (true)` of `main` uses. */
  datatype RoundInput = RoundInput(stats: seq<Option<nat>>, newFd: int, events: seq<Event>)

  datatype RoundRun = RoundRun(exit: Exit, tail: Tail)

  /** One pass of the outer loop: poll, reopen, drain. The reopen is
      `Files.Reopen`, with the corrected `ltell`; the program's own `reopen`
      can also end with an I/O error naming no path when an earlier failure
      left `errno` set (module StaleErrno). */
  function RoundSpec(t: Tail, inp: RoundInput): (r: RoundRun)
    ensures r.tail.input.path == t.input.path
    ensures t.out <= r.tail.out
    ensures r.exit.Dead? ==> r.exit.failure in {BadFile(t.input.path), IoError(t.input.path)}
    ensures r.exit.Dead? && r.exit.failure == BadFile(t.input.path) ==> inp.newFd < 0
    ensures r.exit == Polling ==> r.tail.lastsize == r.tail.size != t.lastsize
    ensures t.input.pos <= r.tail.input.pos
  {
    var p := PollSpec(t, inp.stats);
    if !p.grew then RoundRun(Waiting, p.tail)
    else match Reopen(p.tail.input, inp.newFd)
      case Died(f) => RoundRun(Dead(f), p.tail)
      case Ok(h) =>
        var d := DrainSpec(p.tail.(input := h), inp.events);
        RoundRun(d.exit, d.tail)
  }

  datatype FollowRun = FollowRun(exit: Exit, rounds: nat, tail: Tail)

  /** The outer loop of `main` over successive passes, for as long as each
      pass goes back to polling. */
  function FollowSpec(t: Tail, rounds: seq<RoundInput>): (r: FollowRun)
    ensures r.rounds <= |rounds|
    ensures r.tail.input.path == t.input.path
    ensures t.out <= r.tail.out
    ensures r.exit == Polling ==> r.rounds == |rounds|
    ensures r.exit != Polling ==> 0 < r.rounds
    ensures r.exit.Dead? ==> r.exit.failure in {BadFile(t.input.path), IoError(t.input.path)}
    ensures r.exit == Polling && rounds != [] ==> r.tail.lastsize == r.tail.size
    ensures t.input.pos <= r.tail.input.pos
    decreases |rounds|
  {
    if rounds == [] then FollowRun(Polling, 0, t)
    else
      var first := RoundSpec(t, rounds[0]);
      if first.exit != Polling then FollowRun(first.exit, 1, first.tail)
      else
        var r := FollowSpec(first.tail, rounds[1..]);
        r.(rounds := r.rounds + 1)
  }

  /** An `fstat` answer that leaves the polling loop where it is. */
  predicate Unchanged(stat: Option<nat>, lastsize: nat)
  {
    stat == None || stat == Some(lastsize)
  }

  /** Idle polling: while `fstat` fails or reports `lastsize`, the loop goes
      on sampling; nothing is read or written and the cursor does not move. */
  lemma {:induction false} IdlePollingIsQuiet(t: Tail, idle: seq<Option<nat>>)
    requires t.size == t.lastsize
    requires forall i :: 0 <= i < |idle| ==> Unchanged(idle[i], t.lastsize)
    ensures PollSpec(t, idle) == PollRun(false, |idle|, t)
    decreases |idle|
  {
    if idle != [] {
      IdlePollingIsQuiet(t, idle[1..]);
    }
  }

  /** The polling loop ends at the first `fstat` that reports a size other
      than `lastsize`, larger or smaller, and `lastsize` takes that size. */
  lemma {:induction false} PollEndsAtFirstChange(t: Tail, idle: seq<Option<nat>>, size: nat, later: seq<Option<nat>>)
    requires t.size == t.lastsize != size
    requires forall i :: 0 <= i < |idle| ==> Unchanged(idle[i], t.lastsize)
    ensures PollSpec(t, idle + [Some(size)] + later) == PollRun(true, |idle| + 1, t.(size := size, lastsize := size))
    decreases |idle|
  {
    if idle == [] {
      assert ([] + [Some(size)] + later)[1..] == later;
    } else {
      assert (idle + [Some(size)] + later)[1..] == idle[1..] + [Some(size)] + later;
      PollEndsAtFirstChange(t, idle[1..], size, later);
    }
  }

  /** The outcome of the first read of the drain loop: a failing read ends the
      process naming the file; a read at or past the end of the file returns 0
      and goes back to polling, with nothing written and the cursor unmoved. */
  lemma FirstReadOutcomes(t: Tail, file: seq<bv8>, readFails: bool, answers: seq<int>, rest: seq<Event>)
    ensures readFails ==>
              DrainSpec(t, [Readable(file, readFails, answers)] + rest) == DrainRun(Dead(IoError(t.input.path)), 1, t)
    ensures !readFails && |file| <= t.input.pos ==>
              DrainSpec(t, [Readable(file, readFails, answers)] + rest) == DrainRun(Polling, 1, t)
  {
  }

  /** A wake-up ends the process exactly when its read fails or its write
      loop meets a failing `write`; in particular a first `write` that fails
      ends it naming the file, with nothing written and the cursor past the
      bytes read. */
  lemma CycleDiesOnFailure(t: Tail, file: seq<bv8>, readFails: bool, answers: seq<int>)
    ensures readFails ==> Cycle(t, file, readFails, answers) == Stop(Dead(IoError(t.input.path)), t)
    ensures var pos, n := t.input.pos, ReadCount(file, t.input.pos, readFails);
            var c := Cycle(t, file, readFails, answers);
            && (c.Stop? && c.exit.Dead?
                <==> n < 0 || (n > 0 && WriteLoop(file[pos .. pos + n], n, answers).status == Failed))
            && (n > 0 && answers != [] && answers[0] < 0
                ==> c == Stop(Dead(IoError(t.input.path)), t.(input := t.input.(pos := pos + n))))
  {
    var pos, n := t.input.pos, ReadCount(file, t.input.pos, readFails);
    if n > 0 && answers != [] && answers[0] < 0 {
      assert WriteLoop(file[pos .. pos + n], n, answers) == WriteRun(Failed, [], 1, n);
      assert t.out + [] == t.out;
    }
  }

  /** Two adjacent slices of the file appended to the output one after the
      other are the slice that spans both. */
  lemma JoinSlices(out: seq<bv8>, s: seq<bv8>, i: nat, j: nat, k: nat)
    requires i <= j <= k <= |s|
    ensures out + s[i .. j] + s[j .. k] == out + s[i .. k]
  {
    assert s[i .. j] + s[j .. k] == s[i .. k];
  }

  /** A wake-up after which the drain loop goes on: the rest of the loop
      starts from the state that wake-up left. */
  lemma DrainContinues(t: Tail, events: seq<Event>, t': Tail)
    requires events != []
    requires events[0].Quiet? ==> t' == t
    requires events[0].Readable? ==> Cycle(t, events[0].file, events[0].readFails, events[0].answers) == Continue(t')
    ensures var r := DrainSpec(t', events[1..]);
            DrainSpec(t, events) == r.(used := r.used + 1)
  {
  }

  /** A wake-up after which the relay loses nothing: either the file is not
      readable, or the read succeeds on a file that is a prefix of `whole`
      and the first write takes any count a read can give. */
  predicate Cooperative(e: Event, whole: seq<bv8>)
  {
    e.Quiet? || (!e.readFails && e.file <= whole && e.answers != [] && e.answers[0] >= BUFSZ)
  }

  /** A wake-up on which the read gives `n > 0` bytes and the first write
      takes them all: the chunk is appended to the output, the cursor moves
      past it, and the drain loop goes on. */
  lemma WholeChunkStep(t: Tail, file: seq<bv8>, answers: seq<int>)
    requires answers != [] && answers[0] >= ReadCount(file, t.input.pos, false)
    requires ReadCount(file, t.input.pos, false) > 0
    ensures var pos := t.input.pos;
            var n := ReadCount(file, pos, false);
            Cycle(t, file, false, answers)
            == Continue(t.(input := t.input.(pos := pos + n), out := t.out + file[pos .. pos + n]))
  {
    var pos := t.input.pos;
    var n := ReadCount(file, pos, false);
    var chunk := file[pos .. pos + n];
    WholeWriteEchoesChunk(chunk, n, answers, 0);
    assert chunk[..n] == chunk;
  }

  /** The drain loop goes back to polling only from a read that returned 0:
      the last wake-up it used was readable, its read succeeded, and the
      cursor stood at or past the end of the file as that read saw it. */
  lemma {:induction false} DrainLeavesAtEnd(t: Tail, events: seq<Event>)
    ensures var r := DrainSpec(t, events);
            r.exit == Polling ==> && 0 < r.used
                                  && events[r.used - 1].Readable? && !events[r.used - 1].readFails
                                  && |events[r.used - 1].file| <= r.tail.input.pos
    decreases |events|
  {
    if events != [] {
      var next := match events[0]
        case Quiet => Continue(t)
        case Readable(file, readFails, answers) => Cycle(t, file, readFails, answers);
      if next.Continue? {
        DrainLeavesAtEnd(next.tail, events[1..]);
        var r' := DrainSpec(next.tail, events[1..]);
        if r'.exit == Polling {
          assert events[r'.used] == events[1..][r'.used - 1];
        }
      }
    }
  }

  /** A cooperative readable wake-up either reads nothing and leaves for
      polling, or appends to the output the file's bytes it read. */
  lemma CooperativeCycle(t: Tail, e: Event, whole: seq<bv8>)
    requires e.Readable? && Cooperative(e, whole) && t.input.pos <= |whole|
    ensures var c := Cycle(t, e.file, e.readFails, e.answers);
            || c == Stop(Polling, t)
            || (&& c.Continue? && c.tail.input.pos <= |whole|
                && c.tail.out == t.out + whole[t.input.pos .. c.tail.input.pos])
  {
    var pos := t.input.pos;
    var n := ReadCount(e.file, pos, false);
    if n > 0 {
      WholeChunkStep(t, e.file, e.answers);
      assert e.file[pos .. pos + n] == whole[pos .. pos + n];
    }
  }

  /** Order preservation on a file that only grows: when no read fails and
      the first sink answer of each wake-up is at least BUFSZ (`Cooperative`),
      what the drain loop adds to the output is exactly the file's bytes from
      the old cursor to the new one. When it goes back to
      polling, `DrainLeavesAtEnd` says the cursor has reached the end of the
      file as last read. */
  lemma {:induction false} DrainCopiesInOrder(t: Tail, events: seq<Event>, whole: seq<bv8>)
    requires t.input.pos <= |whole|
    requires forall i :: 0 <= i < |events| ==> Cooperative(events[i], whole)
    ensures var r := DrainSpec(t, events);
            && (r.exit == Polling || r.exit == Waiting)
            && r.tail.input.pos <= |whole|
            && r.tail.out == t.out + whole[t.input.pos .. r.tail.input.pos]
    decreases |events|
  {
    if events == [] {
      return;
    }
    var next := match events[0]
      case Quiet => Continue(t)
      case Readable(file, readFails, answers) => Cycle(t, file, readFails, answers);
    if events[0].Readable? {
      CooperativeCycle(t, events[0], whole);
    }
    if next.Continue? {
      var t' := next.tail;
      assert forall i :: 0 <= i < |events| - 1 ==> events[1..][i] == events[i + 1];
      DrainCopiesInOrder(t', events[1..], whole);
      DrainContinues(t, events, t');
      var r' := DrainSpec(t', events[1..]);
      JoinSlices(t.out, whole, t.input.pos, t'.input.pos, r'.tail.input.pos);
    }
  }

  /** No loss: on a file that stays as it is, when no read fails, the first
      sink answer of each wake-up is at least BUFSZ (`Cooperative`), and with
      enough wake-ups to read it all (one per BUFSZ bytes and
      one more for the read that returns 0), the drain loop writes everything
      from the cursor to the end of the file and goes back to polling. */
  lemma {:induction false} DrainDeliversWholeFile(t: Tail, events: seq<Event>, file: seq<bv8>)
    requires t.input.pos <= |file|
    requires |file| - t.input.pos <= (|events| - 1) * BUFSZ
    requires forall i :: 0 <= i < |events| ==> events[i].Readable? && events[i].file == file
                                                && Cooperative(events[i], file)
    ensures var r := DrainSpec(t, events);
            && r.exit == Polling && r.used <= |events|
            && r.tail.input.pos == |file|
            && r.tail.out == t.out + file[t.input.pos ..]
    decreases |events|
  {
    var pos := t.input.pos;
    assert events != [];
    var answers := events[0].answers;
    var n := ReadCount(file, pos, false);
    if n > 0 {
      WholeChunkStep(t, file, answers);
      var t' := t.(input := t.input.(pos := pos + n), out := t.out + file[pos .. pos + n]);
      var rest := events[1..];
      assert forall i :: 0 <= i < |rest| ==> rest[i] == events[i + 1];
      assert (|events| - 1) * BUFSZ == (|rest| - 1) * BUFSZ + BUFSZ;
      DrainDeliversWholeFile(t', rest, file);
      DrainContinues(t, events, t');
      JoinSlices(t.out, file, pos, pos + n, |file|);
      assert file[pos + n ..] == file[pos + n .. |file|] && file[pos ..] == file[pos .. |file|];
    } else {
      assert Cycle(t, file, false, answers) == Stop(Polling, t);
      assert file[pos ..] == [];
    }
  }

  /** Scenario of a growth: after idle samples, `fstat` reports a new size,
      the file reopens, no read fails and the first sink answer of each
      wake-up is at least BUFSZ (`Cooperative`); the pass ends
      back in polling with the file's bytes from the cursor to its end
      appended to the output, the cursor at the end and `lastsize` updated. */
  lemma GrowthIsRelayed(t: Tail, idle: seq<Option<nat>>, size: nat, newFd: nat, events: seq<Event>, file: seq<bv8>)
    requires t.size == t.lastsize != size
    requires forall i :: 0 <= i < |idle| ==> Unchanged(idle[i], t.lastsize)
    requires t.input.pos <= |file|
    requires |file| - t.input.pos <= (|events| - 1) * BUFSZ
    requires forall i :: 0 <= i < |events| ==> events[i].Readable? && events[i].file == file
                                                && Cooperative(events[i], file)
    ensures RoundSpec(t, RoundInput(idle + [Some(size)], newFd, events))
            == RoundRun(Polling, Tail(t.input.(fd := newFd, pos := |file|), size, size, t.out + file[t.input.pos ..]))
  {
    assert idle + [Some(size)] == idle + [Some(size)] + [];
    PollEndsAtFirstChange(t, idle, size, []);
    var p := t.(size := size, lastsize := size);
    DrainDeliversWholeFile(p.(input := p.input.(fd := newFd)), events, file);
  }

  /** The state of `main` once the file is open, with the transfer buffer. */
  class Follower {
    const buffer: array<bv8>
    var input: Handle
    var size: nat
    var lastsize: nat
    var out: seq<bv8>

    ghost predicate Valid()
    {
      buffer.Length == BUFSZ
    }

    function State(): Tail
      reads this
    {
      Tail(input, size, lastsize, out)
    }

    /** Setting up after `open` returned `fd`: the starting offset goes to a
        raw `lseek`, `sb.st_size` starts at 0 and takes the size of the first
        `fstat` when that call succeeds, and `lastsize` starts at 0. */
    constructor Start(path: string, fd: nat, start: int, stat: Option<nat>)
      ensures Valid() && fresh(buffer)
      ensures input == SeekSet(Handle(path, fd, 0), start).0
      ensures input.pos == if start < 0 then 0 else start
      ensures size == (match stat case None => 0 case Some(s) => s)
      ensures lastsize == 0 && out == []
    {
      buffer := new bv8[BUFSZ];
      var (h, _) := SeekSet(Handle(path, fd, 0), start);
      input := h;
      size := match stat case None => 0 case Some(s) => s;
      lastsize := 0;
      out := [];
    }

    /** The polling loop; `grew` says whether it ended because the size
        differs from `lastsize`, in which case `lastsize` takes the new size. */
    method Poll(stats: seq<Option<nat>>) returns (grew: bool, used: nat)
      modifies this
      ensures PollRun(grew, used, State()) == PollSpec(old(State()), stats)
    {
      used := 0;
      while size == lastsize && used < |stats|
        invariant used <= |stats|
        invariant input == old(input) && out == old(out) && lastsize == old(lastsize)
        invariant var r := PollSpec(State(), stats[used..]);
                  r.(used := r.used + used) == PollSpec(old(State()), stats)
        decreases |stats| - used
      {
        assert stats[used..][1..] == stats[used + 1..];
        match stats[used] {
          case None =>
          case Some(s) => size := s;
        }
        used := used + 1;
      }
      grew := size != lastsize;
      if grew {
        lastsize := size;
      }
    }

    /** `input = reopen(input, argv[1], O_RDONLY)`. */
    method Refresh(newFd: int) returns (ok: bool)
      modifies this`input
      ensures ok <==> Reopen(old(input), newFd).Ok?
      ensures ok ==> input == Reopen(old(input), newFd).value
      ensures !ok ==> input == old(input)
    {
      match Reopen(input, newFd)
      case Died(_) => ok := false;
      case Ok(h) => ok := true; input := h;
    }

    /** `read(input, buffer, sizeof(buffer))` on the file holding `file`. */
    method Read(file: seq<bv8>, readFails: bool) returns (n: int)
      requires Valid()
      modifies this`input, buffer
      ensures n == ReadCount(file, old(input.pos), readFails)
      ensures n > 0 ==> input == old(input).(pos := old(input.pos) + n)
      ensures n > 0 ==> buffer[..n] == file[old(input.pos) .. old(input.pos) + n]
      ensures n <= 0 ==> input == old(input)
    {
      var pos := input.pos;
      n := ReadCount(file, pos, readFails);
      if n > 0 {
        forall i | 0 <= i < n {
          buffer[i] := file[pos + i];
        }
        input := input.(pos := pos + n);
      }
    }

    /** The drain loop of `main`. */
    method Drain(events: seq<Event>) returns (exit: Exit, used: nat)
      requires Valid()
      modifies this, buffer
      ensures DrainRun(exit, used, State()) == DrainSpec(old(State()), events)
    {
      used := 0;
      while used < |events|
        invariant used <= |events|
        invariant var r := DrainSpec(State(), events[used..]);
                  r.(used := r.used + used) == DrainSpec(old(State()), events)
        decreases |events| - used
      {
        assert events[used..][1..] == events[used + 1..];
        match events[used]
        case Quiet =>
          used := used + 1;
        case Readable(file, readFails, answers) =>
          var n := Read(file, readFails);
          used := used + 1;
          if n > 0 {
            var w := WriteAll(buffer, n, answers);
            out := out + w.emitted;
            if w.status == Failed {
              return Dead(IoError(input.path)), used;
            } else if w.status == Stalled {
              return Spinning, used;
            }
          } else if n < 0 {
            return Dead(IoError(input.path)), used;
          } else {
            return Polling, used;
          }
      }
      exit := Waiting;
    }

    /** One pass of the outer loop of `main`. */
    method Round(inp: RoundInput) returns (exit: Exit)
      requires Valid()
      modifies this, buffer
      ensures RoundRun(exit, State()) == RoundSpec(old(State()), inp)
    {
      var grew, sampled := Poll(inp.stats);
      if !grew {
        return Waiting;
      }
      var ok := Refresh(inp.newFd);
      if !ok {
        return Dead(BadFile(input.path));
      }
      var used;
      exit, used := Drain(inp.events);
    }

    /** The outer `while (true)` of `main`, one pass per element of `rounds`. */
    method Follow(rounds: seq<RoundInput>) returns (exit: Exit, done: nat)
      requires Valid()
      modifies this, buffer
      ensures FollowRun(exit, done, State()) == FollowSpec(old(State()), rounds)
    {
      exit, done := Polling, 0;
      while done < |rounds|
        invariant done <= |rounds| && exit == Polling
        invariant var r := FollowSpec(State(), rounds[done..]);
                  r.(rounds := r.rounds + done) == FollowSpec(old(State()), rounds)
        decreases |rounds| - done
      {
        assert rounds[done..][1..] == rounds[done + 1..];
        exit := Round(rounds[done]);
        done := done + 1;
        if exit != Polling {
          return;
        }
      }
    }
  }
}

/**
 * The blocking monitor: one sandbox, a poll loop with a limit for each stream,
 * and a final drain. Everything it meets (clock readings, polls, answers of
 * reads, what waiting reports and when) is a schedule of any length, so that a
 * run is a function of its schedule; the imperative monitor is proved against
 * that function, and the results are about it.
 */
module Monitor {
  import opened Words
  import opened Outputs

  datatype PollResult =
    | Interrupted
    | PollFailed
    | Ready(stdoutIn: bool, stderrIn: bool, exitIn: bool, stdoutHup: bool, stderrHup: bool)
  {
    /** Both pipes hung up while the process still ran. */
    predicate OnlyHungUp() {
      Ready? && !exitIn && stdoutHup && stderrHup
    }

    /** The loop goes on to wait for the process. */
    predicate Ends() {
      Ready? && (exitIn || (stdoutHup && stderrHup))
    }
  }

  /** One turn of the loop: the clock at its top and when the poll returns, and what waiting would report and when. */
  datatype Tick = Tick(now: int, poll: PollResult, polled: int, wait: WaitResult, waited: int)

  type Script = s: seq<ReadResult> | forall r :: r in s ==> ValidRead(r) witness []

  /** The pipes' scripts answer their reads in turn; once over there is nothing more to read. */
  datatype Schedule = Schedule(
    start: int, timeout: nat, max: u64, nonblocking: bool,
    ticks: seq<Tick>, stdout: Script, stderr: Script, end: int)
  {
    function Deadline(): int { start + timeout }
  }

  /** The chunk whose arrival would have exceeded the limit of its stream. */
  datatype Trip = Trip(at: nat, len: nat)

  /**
   * One stream: what was kept, what was read, what is still to be read, whether the last read found nothing, and
   * the chunk that tripped the limit.
   */
  datatype Side = Side(buf: Bytes, taken: Bytes, script: Script, dry: bool, trip: Option<Trip>)
  {
    function Head(): ReadResult { if script == [] then WouldBlock else script[0] }

    function Rest(): Script {
      if script == [] then []
      else
        assert forall r :: r in script[1..] ==> r in script;
        script[1..]
    }
  }

  datatype Phase =
    | Running
    | Stopped(status: Status, exitCode: Option<i32>, signal: Option<i32>, ended: int)
    | Broken

  datatype State = State(out: Side, err: Side, phase: Phase)

  datatype Outcome = Finished(output: Output, ended: int) | IoError | StillRunning

  // ---- The run of a schedule ----

  /** A read in the loop: the chunk is kept, unless it would exceed the limit. */
  function ReadSide(s: Side, max: nat): Side {
    var r := s.Head();
    if !r.Data? then s.(script := s.Rest(), dry := true)
    else
      var t := s.(taken := s.taken + r.bytes, script := s.Rest(), dry := false);
      if |s.buf| + |r.bytes| > max then t.(trip := Some(Trip(|s.buf|, |r.bytes|)))
      else t.(buf := s.buf + r.bytes)
  }

  /** SIGKILL and a wait whose report is dropped. */
  function Kill(status: Status, tick: Tick): Phase {
    if tick.wait.WaitFailed? then Broken else Stopped(status, None, None, tick.waited)
  }

  function Reap(tick: Tick): Phase {
    if tick.wait.WaitFailed? then Broken
    else
      var signal := tick.wait.Signal();
      Stopped(if signal.Some? then Signaled else Exited, tick.wait.ExitCode(), signal, tick.waited)
  }

  function Turn(st: State, tick: Tick, deadline: int, max: nat): State {
    if tick.now >= deadline then st.(phase := Kill(Status.Timeout, tick))
    else
      match tick.poll
      case Interrupted => st
      case PollFailed => st.(phase := Broken)
      case Ready(stdoutIn, stderrIn, _, _, _) =>
        var out := if stdoutIn then ReadSide(st.out, max) else st.out;
        if out.trip.Some? then State(out, st.err, Kill(OutputLimitExceeded, tick))
        else
          var err := if stderrIn then ReadSide(st.err, max) else st.err;
          if err.trip.Some? then State(out, err, Kill(OutputLimitExceeded, tick))
          else State(out, err, if tick.poll.Ends() then Reap(tick) else Running)
  }

  function Loop(st: State, ticks: seq<Tick>, deadline: int, max: nat): State
    decreases |ticks|
  {
    if ticks == [] || !st.phase.Running? then st
    else Loop(Turn(st, ticks[0], deadline, max), ticks[1..], deadline, max)
  }

  /** The part of a stream that fits the limit. */
  function Fit(data: Bytes, limit: nat): Bytes {
    if |data| <= limit then data else data[..limit]
  }

  /** Reads on until the pipe has no more or the buffer is full, cutting the last chunk at the limit. */
  function Drain(s: Side, max: nat): Side
    decreases |s.script|
  {
    if |s.buf| >= max then s
    else if !s.Head().Data? then s.(script := s.Rest(), dry := true)
    else
      var data := s.script[0].bytes;
      Drain(s.(buf := Fit(s.buf + data, max), taken := s.taken + data, script := s.Rest(), dry := false), max)
  }

  function Begin(w: Schedule): State {
    State(Side([], [], w.stdout, false, None), Side([], [], w.stderr, false, None), Running)
  }

  function AfterLoop(w: Schedule): State {
    Loop(Begin(w), w.ticks, w.Deadline(), w.max)
  }

  function Run(w: Schedule): Outcome {
    if !w.nonblocking then IoError
    else
      var st := AfterLoop(w);
      match st.phase
      case Running => StillRunning
      case Broken => IoError
      case Stopped(status, exitCode, signal, ended) =>
        var out, err := Drain(st.out, w.max).buf, Drain(st.err, w.max).buf;
        Finished(Output(out, err, status, w.end - w.start, exitCode, signal), ended)
  }

  // ---- The monitor ----

  /** The reading end of a non-blocking pipe. */
  class Pipe {
    var script: Script
    ghost var taken: Bytes
    ghost var dry: bool

    method Read() returns (r: ReadResult)
      modifies this
      ensures r == if old(script) == [] then WouldBlock else old(script)[0]
      ensures script == if old(script) == [] then [] else old(script)[1..]
      ensures taken == old(taken) + (if r.Data? then r.bytes else []) && dry == !r.Data?
    {
      if script == [] {
        r := WouldBlock;
      } else {
        r := script[0];
        assert forall x :: x in script[1..] ==> x in script;
        script := script[1..];
      }
      taken, dry := taken + if r.Data? then r.bytes else [], !r.Data?;
    }

    ghost function View(buf: Bytes, trip: Option<Trip>): Side
      reads this
    {
      Side(buf, taken, script, dry, trip)
    }
  }

  method DrainRemaining(pipe: Pipe, buffer: Bytes, max: nat, ghost trip: Option<Trip>) returns (output: Bytes)
    modifies pipe
    ensures pipe.View(output, trip) == Drain(old(pipe.View(buffer, trip)), max)
  {
    output := buffer;
    while |output| < max
      invariant Drain(pipe.View(output, trip), max) == Drain(old(pipe.View(buffer, trip)), max)
      decreases max - |output|
    {
      ghost var before := pipe.View(output, trip);
      var r := pipe.Read();
      if !r.Data? {
        assert pipe.View(output, trip) == Drain(before, max);
        break;
      }
      assert r in before.script;
      var remaining := max - |output|;
      var toAdd := if |r.bytes| < remaining then |r.bytes| else remaining;
      assert output + r.bytes[..toAdd] == Fit(output + r.bytes, max);
      output := output + r.bytes[..toAdd];
    }
  }

  /** One read of the loop; `tripped` when its chunk would exceed the limit. */
  method Collect(pipe: Pipe, buffer: Bytes, max: nat) returns (output: Bytes, tripped: bool, ghost trip: Option<Trip>)
    modifies pipe
    ensures pipe.View(output, trip) == ReadSide(old(pipe.View(buffer, None)), max) && tripped == trip.Some?
  {
    output, tripped, trip := buffer, false, None;
    var r := pipe.Read();
    if r.Data? {
      if |output| + |r.bytes| > max {
        tripped, trip := true, Some(Trip(|output|, |r.bytes|));
      } else {
        output := output + r.bytes;
      }
    }
  }

  lemma LoopStep(st: State, ticks: seq<Tick>, i: nat, deadline: int, max: nat)
    requires i < |ticks| && st.phase.Running?
    ensures Loop(st, ticks[i..], deadline, max)
      == Loop(Turn(st, ticks[i], deadline, max), ticks[i + 1..], deadline, max)
  {
    assert ticks[i..][1..] == ticks[i + 1..];
  }

  lemma LoopOver(st: State, ticks: seq<Tick>, deadline: int, max: nat)
    requires !st.phase.Running? || ticks == []
    ensures Loop(st, ticks, deadline, max) == st
  {
  }

  /** One turn of the loop body; the phase says whether and how it ended. */
  method TakeTurn(tick: Tick, deadline: int, max: nat, stdout: Pipe, stderr: Pipe, out: Bytes, err: Bytes)
    returns (stdoutBuf: Bytes, stderrBuf: Bytes, phase: Phase, ghost outTrip: Option<Trip>, ghost errTrip: Option<Trip>)
    requires stdout != stderr
    modifies stdout, stderr
    ensures State(stdout.View(stdoutBuf, outTrip), stderr.View(stderrBuf, errTrip), phase)
      == Turn(old(State(stdout.View(out, None), stderr.View(err, None), Running)), tick, deadline, max)
  {
    hide ReadSide;
    stdoutBuf, stderrBuf, phase, outTrip, errTrip := out, err, Running, None, None;
    if tick.now >= deadline {
      // SIGKILL; its own failure is ignored, here and below.
      phase := if tick.wait.WaitFailed? then Broken else Stopped(Status.Timeout, None, None, tick.waited);
      return;
    }
    if tick.poll.Interrupted? { return; }
    if tick.poll.PollFailed? {
      phase := Broken;
      return;
    }
    if tick.poll.stdoutIn {
      var tripped;
      stdoutBuf, tripped, outTrip := Collect(stdout, stdoutBuf, max);
      if tripped {
        phase := if tick.wait.WaitFailed? then Broken else Stopped(OutputLimitExceeded, None, None, tick.waited);
        return;
      }
    }
    if tick.poll.stderrIn {
      var tripped;
      stderrBuf, tripped, errTrip := Collect(stderr, stderrBuf, max);
      if tripped {
        phase := if tick.wait.WaitFailed? then Broken else Stopped(OutputLimitExceeded, None, None, tick.waited);
        return;
      }
    }
    if tick.poll.exitIn || (tick.poll.stdoutHup && tick.poll.stderrHup) {
      if tick.wait.WaitFailed? {
        phase := Broken;
        return;
      }
      var signal := tick.wait.Signal();
      phase := Stopped(if signal.Some? then Signaled else Exited, tick.wait.ExitCode(), signal, tick.waited);
    }
  }

  /** A turn that goes on has tripped no limit. */
  lemma StillWithin(st: State, tick: Tick, deadline: int, max: nat)
    requires st.phase.Running? && st.out.trip.None? && st.err.trip.None?
    ensures Turn(st, tick, deadline, max).phase.Running? ==>
      Turn(st, tick, deadline, max).out.trip.None? && Turn(st, tick, deadline, max).err.trip.None?
  {
  }

  method Monitor(w: Schedule, stdout: Pipe, stderr: Pipe) returns (r: Outcome)
    requires stdout != stderr && stdout.View([], None) == Begin(w).out && stderr.View([], None) == Begin(w).err
    modifies stdout, stderr
    ensures r == Run(w)
  {
    hide Loop, Turn, Drain;
    if !w.nonblocking { return IoError; }
    var deadline := w.start + w.timeout;
    var stdoutBuf: Bytes, stderrBuf: Bytes, phase := [], [], Running;
    ghost var outTrip: Option<Trip>, errTrip: Option<Trip> := None, None;
    var i := 0;
    assert w.ticks[0..] == w.ticks;
    while i < |w.ticks| && phase.Running?
      invariant i <= |w.ticks| && (phase.Running? ==> outTrip == errTrip == None)
      invariant AfterLoop(w) == Loop(
        State(stdout.View(stdoutBuf, outTrip), stderr.View(stderrBuf, errTrip), phase),
        w.ticks[i..], deadline, w.max)
    {
      ghost var st := State(stdout.View(stdoutBuf, outTrip), stderr.View(stderrBuf, errTrip), phase);
      LoopStep(st, w.ticks, i, deadline, w.max);
      StillWithin(st, w.ticks[i], deadline, w.max);
      stdoutBuf, stderrBuf, phase, outTrip, errTrip :=
        TakeTurn(w.ticks[i], deadline, w.max, stdout, stderr, stdoutBuf, stderrBuf);
      i := i + 1;
    }
    LoopOver(
      State(stdout.View(stdoutBuf, outTrip), stderr.View(stderrBuf, errTrip), phase), w.ticks[i..], deadline, w.max);
    match phase {
      case Running => r := StillRunning;
      case Broken => r := IoError;
      case Stopped(status, exitCode, signal, ended) =>
        stdoutBuf := DrainRemaining(stdout, stdoutBuf, w.max, outTrip);
        stderrBuf := DrainRemaining(stderr, stderrBuf, w.max, errTrip);
        r := Finished(Output(stdoutBuf, stderrBuf, status, w.end - w.start, exitCode, signal), ended);
    }
  }

  // ---- What a run returns ----

  /** All the data of a script, in order. */
  function Data(script: seq<ReadResult>): Bytes {
    if script == [] then []
    else (if script[0].Data? then script[0].bytes else []) + Data(script[1..])
  }

  /** `data` without the `len` bytes at `at`. */
  function Without(data: Bytes, at: nat, len: nat): Bytes
    requires at + len <= |data|
  {
    data[..at] + data[at + len..]
  }

  /** In the loop a buffer holds all that was read, except the chunk that tripped the limit at its end. */
  predicate Pending(s: Side, max: nat) {
    match s.trip
    case None => s.buf == s.taken && |s.taken| <= max
    case Some(t) => 1 <= t.len <= BUFFER_SIZE && t.at <= max < t.at + t.len == |s.taken| && s.buf == s.taken[..t.at]
  }

  /** At the end: all that was read up to the limit, without the chunk that tripped it, if one did. */
  predicate Collected(s: Side, max: nat) {
    match s.trip
    case None => s.buf == Fit(s.taken, max)
    case Some(t) =>
      && 1 <= t.len <= BUFFER_SIZE && t.at <= max < t.at + t.len <= |s.taken|
      && s.buf == Fit(Without(s.taken, t.at, t.len), max)
  }

  /** The buffer is in order, and nothing that the pipe delivers is lost from sight. */
  predicate Sound(s: Side, max: nat, all: Bytes) {
    Pending(s, max) && s.taken + Data(s.script) == all
  }

  lemma ReadKeeps(s: Side, max: nat, all: Bytes)
    requires Sound(s, max, all) && s.trip.None?
    ensures Sound(ReadSide(s, max), max, all)
  {
    if s.script != [] { assert s.script[0] in s.script; }
  }

  lemma TurnKeeps(st: State, tick: Tick, deadline: int, max: nat, out: Bytes, err: Bytes)
    requires st.phase.Running? && BothSound(st, max, out, err) && st.out.trip.None? && st.err.trip.None?
    ensures BothSound(Turn(st, tick, deadline, max), max, out, err)
  {
    hide Sound, ReadSide, Kill, Reap;
    ReadKeeps(st.out, max, out);
    ReadKeeps(st.err, max, err);
  }

  lemma TurnSettles(st: State, tick: Tick, deadline: int, max: nat)
    requires st.phase.Running? && st.out.trip.None? && st.err.trip.None?
    ensures Settled(Turn(st, tick, deadline, max))
  {
    hide ReadSide;
  }

  predicate BothSound(st: State, max: nat, out: Bytes, err: Bytes) {
    Sound(st.out, max, out) && Sound(st.err, max, err)
  }

  /** At most one stream trips, and exactly when the run is stopped for it or the wait after it fails. */
  predicate Settled(st: State) {
    && (st.phase.Running? ==> st.out.trip.None? && st.err.trip.None?)
    && (st.out.trip.None? || st.err.trip.None?)
    && (st.phase.Stopped? ==>
      && (st.phase.status == OutputLimitExceeded <==> st.out.trip.Some? || st.err.trip.Some?)
      && (st.phase.status == Signaled <==> st.phase.signal.Some?)
      && (st.phase.exitCode.Some? ==> st.phase.status == Exited))
  }

  lemma {:induction false} LoopKeeps(st: State, ticks: seq<Tick>, deadline: int, max: nat, out: Bytes, err: Bytes)
    requires BothSound(st, max, out, err) && Settled(st)
    ensures var t := Loop(st, ticks, deadline, max); BothSound(t, max, out, err) && Settled(t)
    decreases |ticks|
  {
    hide BothSound, Turn;
    if ticks != [] && st.phase.Running? {
      TurnKeeps(st, ticks[0], deadline, max, out, err);
      TurnSettles(st, ticks[0], deadline, max);
      LoopKeeps(Turn(st, ticks[0], deadline, max), ticks[1..], deadline, max, out, err);
    }
  }

  /** The drain completes the buffer; it is full unless the pipe has nothing more. */
  lemma {:induction false} DrainCollects(s: Side, max: nat, all: Bytes)
    requires Collected(s, max) && s.taken + Data(s.script) == all
    ensures var t := Drain(s, max);
      Collected(t, max) && t.trip == s.trip && t.taken + Data(t.script) == all && (|t.buf| == max || t.dry)
    decreases |s.script|
  {
    if |s.buf| < max && s.script != [] && s.script[0].Data? {
      var data := s.script[0].bytes;
      assert s.script[0] in s.script;
      var next := s.(buf := Fit(s.buf + data, max), taken := s.taken + data, script := s.Rest(), dry := false);
      if s.trip.Some? {
        var t := s.trip.value;
        assert Without(next.taken, t.at, t.len) == Without(s.taken, t.at, t.len) + data;
      }
      DrainCollects(next, max, all);
    }
  }

  /** The two streams at the end of a run. */
  function Stdout(w: Schedule): Side { Drain(AfterLoop(w).out, w.max) }

  function Stderr(w: Schedule): Side { Drain(AfterLoop(w).err, w.max) }

  /** Signaled exactly with a signal, an exit code only when exited, neither after a kill by the monitor. */
  predicate Coherent(o: Output) {
    && (o.status == Signaled <==> o.signal.Some?)
    && (o.exitCode.Some? ==> o.status == Exited)
    && (o.status == Status.Timeout || o.status == OutputLimitExceeded ==> o.exitCode.None? && o.signal.None?)
  }

  lemma PendingCollected(s: Side, max: nat)
    requires Pending(s, max)
    ensures Collected(s, max)
  {
    if s.trip.Some? {
      var t := s.trip.value;
      assert Without(s.taken, t.at, t.len) == s.taken[..t.at];
    }
  }

  lemma SideCollects(s: Side, max: nat, all: Bytes)
    requires Pending(s, max) && s.taken + Data(s.script) == all
    ensures var t := Drain(s, max); Collected(t, max) && t.trip == s.trip && t.taken <= all && (|t.buf| == max || t.dry)
  {
    PendingCollected(s, max);
    DrainCollects(s, max, all);
  }

  /**
   * Every schedule: each stream comes back as what was read of it up to the
   * limit, without the one chunk that tripped it, if one did; it fills the limit
   * unless its pipe had nothing more. The status is that of a tripped limit
   * exactly if one of the two streams tripped, and never both do.
   */
  lemma RunCollects(w: Schedule)
    requires Run(w).Finished?
    ensures Coherent(Run(w).output)
    ensures Run(w).output.stdout == Stdout(w).buf && Run(w).output.stderr == Stderr(w).buf
    ensures Collected(Stdout(w), w.max) && Stdout(w).taken <= Data(w.stdout)
    ensures Collected(Stderr(w), w.max) && Stderr(w).taken <= Data(w.stderr)
    ensures (|Stdout(w).buf| == w.max || Stdout(w).dry) && (|Stderr(w).buf| == w.max || Stderr(w).dry)
    ensures Run(w).output.status == OutputLimitExceeded <==> Stdout(w).trip.Some? || Stderr(w).trip.Some?
    ensures Stdout(w).trip.None? || Stderr(w).trip.None?
  {
    hide Pending, Collected, Drain, Loop;
    var st := AfterLoop(w);
    assert BothSound(Begin(w), w.max, Data(w.stdout), Data(w.stderr)) by { BeginsSound(w); }
    LoopKeeps(Begin(w), w.ticks, w.Deadline(), w.max, Data(w.stdout), Data(w.stderr));
    SideCollects(st.out, w.max, Data(w.stdout));
    SideCollects(st.err, w.max, Data(w.stderr));
  }

  lemma BeginsSound(w: Schedule)
    ensures BothSound(Begin(w), w.max, Data(w.stdout), Data(w.stderr))
  {
    assert [] + Data(w.stdout) == Data(w.stdout) && [] + Data(w.stderr) == Data(w.stderr);
  }

  // ---- When a stream is a prefix of what was written ----

  /** From the trip on, the returned bytes repeat those the lost chunk stood in front of. */
  predicate AgreesShifted(s: Side) {
    s.trip.Some? ==>
      var t := s.trip.value;
      forall i :: t.at <= i < |s.buf| && i + t.len < |s.taken| ==> s.taken[i] == s.taken[i + t.len]
  }

  /**
   * A returned stream is a prefix of what was written exactly if it did not trip
   * the limit or the bytes agree under the shift by the lost chunk. That is so
   * in particular if the buffer was full when it tripped, or nothing was read
   * afterwards.
   */
  lemma PrefixExactly(s: Side, max: nat)
    requires Collected(s, max)
    ensures s.buf <= s.taken <==> AgreesShifted(s)
    ensures s.trip.Some? && (s.trip.value.at == max || s.trip.value.at + s.trip.value.len == |s.taken|) ==>
      s.buf <= s.taken
  {
    CollectedMeaning(s, max);
    if s.trip.Some? {
      hide Collected;
      var t := s.trip.value;
      assert forall i :: 0 <= i < t.at ==> s.buf[i] == s.taken[..t.at][i];
      if AgreesShifted(s) {
        assert forall i :: 0 <= i < |s.buf| ==> s.buf[i] == s.taken[i];
      } else {
        var i :| t.at <= i < |s.buf| && i + t.len < |s.taken| && s.taken[i] != s.taken[i + t.len];
        assert s.buf[i] != s.taken[i];
      }
    }
  }

  /** The lost chunk and what is kept: the bytes before it, and those right after it, up to the limit. */
  lemma CollectedMeaning(s: Side, max: nat)
    requires Collected(s, max)
    ensures |s.buf| <= max && (s.trip.None? ==> s.buf <= s.taken)
    ensures s.trip.Some? ==>
      var t := s.trip.value;
      && s.taken[..t.at] <= s.buf
      && (forall i :: t.at <= i < |s.buf| ==> i + t.len < |s.taken| && s.buf[i] == s.taken[i + t.len])
      && 1 <= t.len <= 4096 && t.at <= max < t.at + t.len <= |s.taken| && t.at <= |s.buf|
      && |s.buf| == if |s.taken| - t.len < max then |s.taken| - t.len else max
  {
  }

  /** A side that reads at most the limit keeps all of it, and at most one byte more, a prefix. */
  lemma SmallSide(s: Side, max: nat)
    requires Collected(s, max)
    ensures |s.taken| <= max ==> s.trip.None? && s.buf == s.taken
    ensures |s.taken| <= max + 1 ==> s.buf <= s.taken
  {
  }

  /**
   * What a caller can rely on: a program that writes at most the limit to a
   * stream loses nothing of what was read, and one that writes at most a byte
   * more gets a prefix back.
   */
  lemma SmallOutput(w: Schedule)
    requires Run(w).Finished?
    ensures |Data(w.stdout)| <= w.max ==> Run(w).output.stdout == Stdout(w).taken
    ensures |Data(w.stderr)| <= w.max ==> Run(w).output.stderr == Stderr(w).taken
    ensures |Data(w.stdout)| <= w.max + 1 ==> Run(w).output.stdout <= Data(w.stdout)
    ensures |Data(w.stderr)| <= w.max + 1 ==> Run(w).output.stderr <= Data(w.stderr)
  {
    hide Run, Collected, Data, Drain;
    RunCollects(w);
    SmallSide(Stdout(w), w.max);
    SmallSide(Stderr(w), w.max);
  }

  const CHUNKS: seq<ReadResult> := [ReadResult.Data([1, 2]), ReadResult.Data([3, 4]), ReadResult.Data([5])]

  const READABLE := Ready(true, false, false, false, false)

  /** Two reads of standard output, with a limit of three bytes, and more to read after them. */
  const GAP_SCHEDULE := Schedule(0, 10, 3, true,
    [Tick(0, READABLE, 0, KilledBy(9), 0), Tick(1, READABLE, 1, KilledBy(9), 1)], CHUNKS, [], 2)

  /** Two bytes more than the limit can leave a gap: the run of this schedule returns 1 2 5 of 1 2 3 4 5. */
  lemma GapRun()
    ensures Data(GAP_SCHEDULE.stdout) == [1, 2, 3, 4, 5]
    ensures Run(GAP_SCHEDULE).Finished? && Run(GAP_SCHEDULE).output.stdout == [1, 2, 5]
    ensures !([1, 2, 5] <= [1, 2, 3, 4, 5])
  {
    var c := CHUNKS;
    var w := GAP_SCHEDULE;
    ChunkData();
    hide Data;
    var s0: State := Begin(w);
    var s1 := State(Side([1, 2], [1, 2], c[1..], false, None), s0.err, Running);
    var s2 := State(Side([1, 2], [1, 2, 3, 4], c[2..], false, Some(Trip(2, 2))), s0.err,
      Stopped(OutputLimitExceeded, None, None, 1));
    FirstTurn(s0);
    GapTurn(s1);
    hide Turn, Drain, Loop;
    assert w.ticks[0..] == w.ticks;
    LoopStep(s0, w.ticks, 0, 10, 3);
    LoopStep(s1, w.ticks, 1, 10, 3);
    LoopOver(s2, w.ticks[2..], 10, 3);
    GapDrain(s2.out);
    assert [1, 2, 5][2] != [1, 2, 3, 4, 5][2];
  }

  lemma ChunkData()
    ensures Data(CHUNKS) == [1, 2, 3, 4, 5]
  {
    assert Data(CHUNKS[2..]) == [5] by { assert Data(CHUNKS[2..][1..]) == []; }
    assert Data(CHUNKS[1..]) == [3, 4, 5] by {
      assert CHUNKS[1..][1..] == CHUNKS[2..];
      assert [3, 4] + [5] == [3, 4, 5];
    }
    assert Data(CHUNKS) == [1, 2] + Data(CHUNKS[1..]);
  }

  lemma FirstTurn(st: State)
    requires st.phase.Running? && st.out == Side([], [], CHUNKS, false, None) && st.err.trip.None?
    ensures Turn(st, GAP_SCHEDULE.ticks[0], 10, 3) == st.(out := Side([1, 2], [1, 2], CHUNKS[1..], false, None))
  {
    assert [] + [1, 2] == [1, 2];
  }

  lemma GapTurn(st: State)
    requires st.phase.Running? && st.out == Side([1, 2], [1, 2], CHUNKS[1..], false, None)
    ensures Turn(st, GAP_SCHEDULE.ticks[1], 10, 3)
      == State(Side([1, 2], [1, 2, 3, 4], CHUNKS[2..], false, Some(Trip(2, 2))), st.err,
        Stopped(OutputLimitExceeded, None, None, 1))
  {
    assert CHUNKS[1..][1..] == CHUNKS[2..] && [1, 2] + [3, 4] == [1, 2, 3, 4];
  }

  lemma GapDrain(s: Side)
    requires s.buf == [1, 2] && s.script == [ReadResult.Data([5])]
    ensures Drain(s, 3).buf == [1, 2, 5]
  {
    assert [1, 2] + [5] == [1, 2, 5];
    assert Fit(s.buf + [5], 3) == [1, 2, 5];
  }

  // ---- How much a program may write ----

  /** Every finished run with this limit whose script of a stream has `n` bytes returns a prefix of them. */
  ghost predicate AlwaysPrefix(max: u64, n: nat, stream: Stream) {
    forall w: Schedule :: w.max == max && |Data(ScriptOf(w, stream))| == n && Run(w).Finished? ==>
      ReturnsPrefix(w, stream)
  }

  function ScriptOf(w: Schedule, stream: Stream): Script {
    if stream == Stream.Stdout then w.stdout else w.stderr
  }

  predicate ReturnsPrefix(w: Schedule, stream: Stream)
    requires Run(w).Finished?
  {
    (if stream == Stream.Stdout then Run(w).output.stdout else Run(w).output.stderr) <= Data(ScriptOf(w, stream))
  }

  /**
   * What a caller can rely on is exact: a program that writes `n` bytes to a
   * stream always gets a prefix of them back if and only if that is at most one
   * byte more than the limit, or the limit is zero.
   */
  lemma PrefixAlwaysExactly(max: u64, n: nat, stream: Stream)
    ensures AlwaysPrefix(max, n, stream) <==> n <= max + 1 || max == 0
  {
    hide Run, Data;
    if n <= max + 1 || max == 0 {
      forall w: Schedule | w.max == max && |Data(ScriptOf(w, stream))| == n && Run(w).Finished?
        ensures ReturnsPrefix(w, stream)
      {
        if max == 0 { NothingReturned(w); } else { SmallOutput(w); }
      }
    } else {
      LongScheduleGap(max, n, stream);
    }
  }

  lemma NothingReturned(w: Schedule)
    requires w.max == 0 && Run(w).Finished?
    ensures Run(w).output.stdout == [] && Run(w).output.stderr == []
  {
    hide Run, Drain;
    RunCollects(w);
    CollectedMeaning(Stdout(w), 0);
    CollectedMeaning(Stderr(w), 0);
  }

  /** `k` chunks of a single zero each. */
  function Zeros(k: nat): Script {
    seq(k, _ => ReadResult.Data([0]))
  }

  const ODD := ReadResult.Data([1, 0])

  /** All but one byte of the limit, then a chunk of two that trips it, then the rest of `n` bytes. */
  function LongScript(max: nat, n: nat): Script
    requires 1 <= max && max + 1 < n
  {
    Zeros(max - 1) + [ODD] + Zeros(n - max - 1)
  }

  function LongTick(stream: Stream): Tick {
    Tick(0, Ready(stream == Stream.Stdout, stream == Stream.Stderr, false, false, false), 0, KilledBy(9), 0)
  }

  /** Reads of the long script until the limit trips. */
  function LongSchedule(max: u64, n: nat, stream: Stream): Schedule
    requires 1 <= max && max + 1 < n
  {
    var script, none: Script := LongScript(max, n), [];
    Schedule(0, 10, max, true, seq(max, _ => LongTick(stream)),
      if stream == Stream.Stdout then script else none, if stream == Stream.Stderr then script else none, 0)
  }

  function SideOf(st: State, stream: Stream): Side {
    if stream == Stream.Stdout then st.out else st.err
  }

  lemma {:induction false} ZeroData(k: nat, rest: Script)
    ensures |Data(Zeros(k) + rest)| == k + |Data(rest)|
    decreases k
  {
    if k == 0 {
      assert Zeros(0) + rest == rest;
    } else {
      assert (Zeros(k) + rest)[1..] == Zeros(k - 1) + rest;
      ZeroData(k - 1, rest);
    }
  }

  lemma LongScriptLength(max: nat, n: nat)
    requires 1 <= max && max + 1 < n
    ensures |Data(LongScript(max, n))| == n
  {
    var rest: Script := Zeros(n - max - 1);
    var odd: Script := [ODD] + rest;
    assert LongScript(max, n) == Zeros(max - 1) + odd;
    ZeroData(max - 1, odd);
    assert odd[1..] == rest && Data(odd) == [1, 0] + Data(rest);
    assert rest + [] == rest;
    ZeroData(n - max - 1, []);
  }

  /** One turn of the long schedule reads one chunk of its stream. */
  lemma LongTurn(st: State, stream: Stream, max: nat)
    requires st.phase.Running? && st.out.trip.None? && st.err.trip.None?
    ensures
      var t, side := Turn(st, LongTick(stream), 10, max), ReadSide(SideOf(st, stream), max);
      && SideOf(t, stream) == side
      && t.out.trip.None? == (stream == Stream.Stderr || side.trip.None?)
      && t.err.trip.None? == (stream == Stream.Stdout || side.trip.None?)
      && t.phase == if side.trip.Some? then Stopped(OutputLimitExceeded, None, None, 0) else Running
  {
    hide ReadSide;
  }

  /** With `k` zeros to go before the odd chunk, `k + 1` turns end in the trip. */
  lemma {:induction false} LongLoop(st: State, stream: Stream, k: nat, rest: Script, max: nat)
    requires st.phase.Running? && st.out.trip.None? && st.err.trip.None?
    requires
      var s := SideOf(st, stream);
      s.script == Zeros(k) + [ODD] + rest && s.buf == s.taken && |s.buf| + k + 1 == max
    ensures
      var t := Loop(st, seq(k + 1, _ => LongTick(stream)), 10, max);
      var s := SideOf(t, stream);
      && t.phase == Stopped(OutputLimitExceeded, None, None, 0)
      && |s.buf| == max - 1 && s.taken == s.buf + [1, 0] && s.script == rest
    decreases k
  {
    var ticks := seq(k + 1, _ => LongTick(stream));
    var s, t := SideOf(st, stream), Turn(st, ticks[0], 10, max);
    LongTurn(st, stream, max);
    assert ticks[1..] == seq(k, _ => LongTick(stream));
    if k == 0 {
      assert s.script[0] == ODD && s.script[1..] == rest;
      LoopOver(t, ticks[1..], 10, max);
    } else {
      assert s.script[0] == ReadResult.Data([0]);
      assert s.script[1..] == Zeros(k - 1) + [ODD] + rest;
      hide Turn;
      LongLoop(t, stream, k - 1, rest, max);
    }
  }

  /** The drain fills the buffer with the zero after the lost chunk, where a one was written. */
  lemma LongDrain(s: Side, max: nat, k: nat)
    requires |s.buf| == max - 1 && s.taken == s.buf + [1, 0] && s.script == Zeros(k) && k >= 1
    ensures
      var t := Drain(s, max);
      |t.buf| == max && t.buf[max - 1] == 0 && max <= |t.taken| && t.taken[max - 1] == 1
  {
    assert s.script[0] == ReadResult.Data([0]);
    assert Fit(s.buf + [0], max) == s.buf + [0];
  }

  lemma LongScheduleGap(max: u64, n: nat, stream: Stream)
    requires max != 0 && max + 1 < n
    ensures !AlwaysPrefix(max, n, stream)
  {
    hide Loop, Drain, Data, LongScript, Run;
    var w := LongSchedule(max, n, stream);
    LongScriptLength(max, n);
    LongRun(max, n, stream);
    RunCollects(w);
    var s := if stream == Stream.Stdout then Stdout(w) else Stderr(w);
    assert s.taken <= Data(ScriptOf(w, stream)) && s.taken[max - 1] == 1 && s.buf[max - 1] == 0;
    assert !ReturnsPrefix(w, stream);
  }

  lemma LongRun(max: u64, n: nat, stream: Stream)
    requires max != 0 && max + 1 < n
    ensures
      var w := LongSchedule(max, n, stream);
      var s := if stream == Stream.Stdout then Stdout(w) else Stderr(w);
      && Run(w).Finished?
      && |s.buf| == max && s.buf[max - 1] == 0 && max <= |s.taken| && s.taken[max - 1] == 1
  {
    hide Loop, Drain;
    var w, rest: Script := LongSchedule(max, n, stream), Zeros(n - max - 1);
    LongLoop(Begin(w), stream, max - 1, rest, max);
    LongDrain(SideOf(AfterLoop(w), stream), max, n - max - 1);
  }

  // ---- When a run outlives its deadline ----

  /** How many turns the loop takes. */
  function Turns(st: State, ticks: seq<Tick>, deadline: int, max: nat): nat
    decreases |ticks|
  {
    if ticks == [] || !st.phase.Running? then 0
    else 1 + Turns(Turn(st, ticks[0], deadline, max), ticks[1..], deadline, max)
  }

  /** What a report of waiting means for an output. */
  predicate Reports(wait: WaitResult, status: Status, exitCode: Option<i32>, signal: Option<i32>) {
    match wait
    case ExitedWith(code) => status == Exited && exitCode == Some(code) && signal == None
    case KilledBy(sig) => status == Signaled && exitCode == None && signal == Some(sig)
    case OtherChange => status == Exited && exitCode == None && signal == None
    case WaitFailed => false
  }

  /** How a turn ends the loop. */
  predicate EndsWith(tick: Tick, deadline: int, phase: Phase) {
    && (phase.Stopped? ==>
      && !tick.wait.WaitFailed? && phase.ended == tick.waited
      && (phase.status == Status.Timeout <==> tick.now >= deadline)
      && (phase.status == Exited || phase.status == Signaled ==>
           Leaves(tick) && Reports(tick.wait, phase.status, phase.exitCode, phase.signal)))
    && (phase.Broken? ==> tick.wait.WaitFailed? || (tick.now < deadline && tick.poll.PollFailed?))
  }

  /** The poll saw the process end, or both pipes hung up. */
  predicate Leaves(tick: Tick) {
    match tick.poll
    case Ready(_, _, exitIn, stdoutHup, stderrHup) => exitIn || (stdoutHup && stderrHup)
    case _ => false
  }

  /** Nothing in a turn ends the loop but for the limit. */
  predicate GoesOn(tick: Tick, deadline: int) {
    tick.now < deadline && !tick.poll.PollFailed? && !Leaves(tick)
  }

  lemma TurnEnds(st: State, tick: Tick, deadline: int, max: nat)
    requires st.phase.Running?
    ensures EndsWith(tick, deadline, Turn(st, tick, deadline, max).phase)
    ensures Turn(st, tick, deadline, max).phase.Running? ==> GoesOn(tick, deadline)
  {
    hide ReadSide;
  }

  /** A turn reads a stream only if the poll found it readable. */
  lemma TurnReads(st: State, tick: Tick, deadline: int, max: nat)
    requires st.phase.Running? && st.out.trip.None? && st.err.trip.None?
    ensures
      var t := Turn(st, tick, deadline, max);
      && (t.out == st.out || (tick.now < deadline && tick.poll.Ready? && tick.poll.stdoutIn))
      && (t.err == st.err || (tick.now < deadline && tick.poll.Ready? && tick.poll.stderrIn))
      && (t.phase.Running? && tick.poll.Ready? && tick.poll.stdoutIn ==> t.out == ReadSide(st.out, max))
      && (t.phase.Running? && tick.poll.Ready? && tick.poll.stderrIn ==> t.err == ReadSide(st.err, max))
  {
    hide ReadSide;
  }

  lemma {:induction false} LoopEnds(st: State, ticks: seq<Tick>, deadline: int, max: nat)
    requires st.phase.Running? && !Loop(st, ticks, deadline, max).phase.Running?
    ensures var k := Turns(st, ticks, deadline, max) - 1;
      && 0 <= k < |ticks|
      && (forall i :: 0 <= i < k ==> GoesOn(ticks[i], deadline))
      && EndsWith(ticks[k], deadline, Loop(st, ticks, deadline, max).phase)
    decreases |ticks|
  {
    hide Turn, EndsWith, GoesOn;
    var next := Turn(st, ticks[0], deadline, max);
    TurnEnds(st, ticks[0], deadline, max);
    if next.phase.Running? {
      LoopEnds(next, ticks[1..], deadline, max);
    } else {
      LoopOver(next, ticks[1..], deadline, max);
    }
  }

  lemma {:induction false} LoopGoesOn(st: State, ticks: seq<Tick>, deadline: int, max: nat)
    requires st.phase.Running? && Loop(st, ticks, deadline, max).phase.Running?
    ensures forall i :: 0 <= i < |ticks| ==> GoesOn(ticks[i], deadline)
    decreases |ticks|
  {
    hide Turn, GoesOn;
    if ticks != [] {
      TurnEnds(st, ticks[0], deadline, max);
      LoopGoesOn(Turn(st, ticks[0], deadline, max), ticks[1..], deadline, max);
    }
  }

  /** The turn that ended a finished run. */
  function Last(w: Schedule): int {
    Turns(Begin(w), w.ticks, w.Deadline(), w.max) - 1
  }

  /**
   * A timeout is the first clock reading at or past the deadline. Without a kill the
   * run ended because the process ended or both pipes hung up, for the first time, and
   * its status, exit code and signal are what waiting reported: the process's own exit
   * code, or the signal that killed it. A run ends when its wait for the process has
   * returned, and never without one that succeeded.
   */
  lemma RunEnds(w: Schedule)
    requires Run(w).Finished?
    ensures 0 <= Last(w) < |w.ticks|
    ensures forall i :: 0 <= i < Last(w) ==> GoesOn(w.ticks[i], w.start + w.timeout)
    ensures var o, tick := Run(w).output, w.ticks[Last(w)];
      && !tick.wait.WaitFailed? && Run(w).ended == tick.waited && o.duration == w.end - w.start
      && (o.status == Status.Timeout <==> tick.now >= w.start + w.timeout)
      && (o.status == Exited || o.status == Signaled ==>
           Leaves(tick) && Reports(tick.wait, o.status, o.exitCode, o.signal))
  {
    hide Loop, Turns, Reports, Leaves, GoesOn;
    LoopEnds(Begin(w), w.ticks, w.Deadline(), w.max);
  }

  /** So an exit code of the process comes back as it was reported, and so does the signal that killed it. */
  lemma RunReports(w: Schedule)
    requires Run(w).Finished? && (Run(w).output.status == Exited || Run(w).output.status == Signaled)
    ensures 0 <= Last(w) < |w.ticks|
    ensures
      var o := Run(w).output;
      match w.ticks[Last(w)].wait
      case ExitedWith(code) => o.status == Exited && o.exitCode == Some(code) && o.signal == None
      case KilledBy(sig) => o.status == Signaled && o.exitCode == None && o.signal == Some(sig)
      case OtherChange => o.status == Exited && o.exitCode == None && o.signal == None
      case WaitFailed => false
  {
    hide Run, Last;
    RunEnds(w);
  }

  /**
   * A run fails only if the pipes cannot be made non-blocking, a poll fails before
   * the deadline, or the last wait does; it is still running only if nothing in its
   * schedule could end it but the limit.
   */
  lemma RunFails(w: Schedule)
    ensures Run(w).IoError? && w.nonblocking ==>
      && 0 <= Last(w) < |w.ticks|
      && (forall i :: 0 <= i < Last(w) ==> GoesOn(w.ticks[i], w.start + w.timeout))
      && var tick := w.ticks[Last(w)];
      tick.wait.WaitFailed? || (tick.now < w.start + w.timeout && tick.poll.PollFailed?)
    ensures Run(w).StillRunning? ==> forall i :: 0 <= i < |w.ticks| ==> GoesOn(w.ticks[i], w.start + w.timeout)
    ensures !w.nonblocking ==> Run(w).IoError?
  {
    hide Loop, Turns, GoesOn;
    if w.nonblocking {
      if AfterLoop(w).phase.Running? {
        LoopGoesOn(Begin(w), w.ticks, w.Deadline(), w.max);
      } else {
        LoopEnds(Begin(w), w.ticks, w.Deadline(), w.max);
      }
    }
  }

  /** Time passes, and a process that has been seen to end is waited for at once. */
  predicate Timely(tick: Tick) {
    tick.now <= tick.polled <= tick.waited && (tick.poll.Ready? && tick.poll.exitIn ==> tick.waited == tick.polled)
  }

  /** A run that the monitor did not kill and that ends at its deadline or later. */
  predicate Outlives(w: Schedule) {
    && Run(w).Finished? && Run(w).ended >= w.Deadline()
    && (Run(w).output.status == Exited || Run(w).output.status == Signaled)
  }

  /** The same schedule, but for the time one wait takes. */
  function Delayed(w: Schedule, k: nat, waited: int): Schedule
    requires k < |w.ticks|
  {
    w.(ticks := w.ticks[k := w.ticks[k].(waited := waited)])
  }

  /** The time of the last wait changes nothing but when the run ends. */
  lemma {:induction false} LoopDelayed(st: State, ticks: seq<Tick>, k: nat, deadline: int, max: nat, waited: int)
    requires st.phase.Running? && Loop(st, ticks, deadline, max).phase.Stopped?
    requires k == Turns(st, ticks, deadline, max) - 1 && k < |ticks|
    ensures var delayed := ticks[k := ticks[k].(waited := waited)];
      && var t := Loop(st, ticks, deadline, max);
      Loop(st, delayed, deadline, max) == t.(phase := t.phase.(ended := waited))
    decreases |ticks|
  {
    var delayed := ticks[k := ticks[k].(waited := waited)];
    var next := Turn(st, ticks[0], deadline, max);
    if next.phase.Running? {
      assert delayed[1..] == ticks[1..][k - 1 := ticks[k].(waited := waited)];
      hide Turn;
      LoopDelayed(next, ticks[1..], k - 1, deadline, max, waited);
    } else {
      LoopOver(next, ticks[1..], deadline, max);
      LoopOver(Turn(st, delayed[0], deadline, max), delayed[1..], deadline, max);
    }
  }

  /**
   * A run can outlive its deadline exactly in two ways: its last poll returned
   * late, or the loop was left because both pipes hung up while the process still
   * ran, and then blocks until the process ends, however long that takes.
   */
  lemma OutlivesExactly(w: Schedule)
    requires Run(w).Finished? && (Run(w).output.status == Exited || Run(w).output.status == Signaled)
    requires 0 <= Last(w) < |w.ticks| && w.ticks[Last(w)].now <= w.ticks[Last(w)].polled
    ensures var tick := w.ticks[Last(w)];
      (exists t :: Timely(tick.(waited := t)) && Outlives(Delayed(w, Last(w), t)))
      <==> tick.polled >= w.start + w.timeout || (match tick.poll
           case Ready(_, _, exitIn, stdoutHup, stderrHup) => !exitIn && stdoutHup && stderrHup
           case _ => false)
  {
    var k, tick := Last(w), w.ticks[Last(w)];
    RunEnds(w);
    forall t ensures Outlives(Delayed(w, k, t)) <==> t >= w.Deadline() {
      DelayedRun(w, t);
    }
    var late := if tick.polled >= w.Deadline() then tick.polled else w.Deadline();
    if tick.polled >= w.Deadline() || !tick.poll.exitIn {
      assert Timely(tick.(waited := late)) && Outlives(Delayed(w, k, late));
    }
  }

  lemma DelayedRun(w: Schedule, t: int)
    requires Run(w).Finished? && 0 <= Last(w) < |w.ticks|
    ensures Run(Delayed(w, Last(w), t)) == Run(w).(ended := t)
  {
    hide Loop, Turns, Drain;
    LoopDelayed(Begin(w), w.ticks, Last(w), w.Deadline(), w.max, t);
  }
}

/**
 * The concurrent executor's state next to what the kernel has seen of it: for
 * every sandbox the bytes its pipes delivered, the readiness and end-of-file
 * reports, the signals sent and the clock reading its end was classified by.
 * `Inv` relates the two; one lemma per atomic action shows that it is kept.
 */
module Ledger {
  import opened Words
  import opened Outputs

  datatype Sandbox = Sandbox(
    deadline: int, start: int, stdout: Bytes, stderr: Bytes, maxOutput: u64,
    pidfdReady: bool, stdoutClosed: bool, stderrClosed: bool)
  {
    predicate IsDone() {
      pidfdReady && stdoutClosed && stderrClosed
    }

    function Total(): nat { |stdout| + |stderr| }

    function Append(s: Stream, data: Bytes): Sandbox {
      if s == Stdout then this.(stdout := stdout + data) else this.(stderr := stderr + data)
    }

    function Close(s: Stream): Sandbox {
      if s == Stdout then this.(stdoutClosed := true) else this.(stderrClosed := true)
    }
  }

  datatype Event =
    | Completed(id: nat, output: Output)
    | Timeout(id: nat, output: Output)
    | StdoutData(id: nat, data: Bytes)
    | StderrData(id: nat, data: Bytes)
  {
    predicate Terminal() { Completed? || Timeout? }
  }

  function DataEvent(id: nat, s: Stream, data: Bytes): Event {
    if s == Stdout then StdoutData(id, data) else StderrData(id, data)
  }

  /** Why the executor sends SIGKILL: the output limit, or the deadline at a clock reading. */
  datatype Cause = Limit | Deadline(now: int)

  /** The kernel's record of one sandbox. */
  datatype Account = Account(
    deadline: int, maxOutput: u64,
    stdout: Bytes, stderr: Bytes,           // delivered by the pipes, in order
    stdoutEnded: bool, stderrEnded: bool,   // a read reported end of file or an error
    stdoutDry: bool, stderrDry: bool,       // the last read delivered nothing
    exited: bool,                           // the pidfd was reported readable
    limitKills: nat,                        // SIGKILLs sent while reading
    deadlineKill: Option<int>,              // when the deadline branch sent SIGKILL
    waited: Option<WaitResult>,             // what waiting for the process reported
    collected: Option<int>)                 // the clock reading that classified the end
  {
    function Total(): nat { |stdout| + |stderr| }

    /** Nothing is left unread in this stream, or its sandbox has exceeded the limit and been killed. */
    predicate Drained(s: Stream) {
      (if s == Stdout then stdoutDry else stderrDry) || Total() > maxOutput
    }

    function AfterKill(cause: Cause): Account {
      match cause
      case Limit => this.(limitKills := limitKills + 1)
      case Deadline(now) => this.(deadlineKill := Some(now))
    }

    function AfterRead(s: Stream, r: ReadResult): Account {
      if r.Data? then
        if s == Stdout then this.(stdout := stdout + r.bytes, stdoutDry := false)
        else this.(stderr := stderr + r.bytes, stderrDry := false)
      else
        var ended := !r.WouldBlock?;
        if s == Stdout then this.(stdoutDry := true, stdoutEnded := stdoutEnded || ended)
        else this.(stderrDry := true, stderrEnded := stderrEnded || ended)
    }
  }

  datatype State = State(
    sandboxes: map<nat, Sandbox>,
    history: seq<Event>,            // every event handed out so far
    world: map<nat, Account>,       // one account per successful spawn
    dropped: set<nat>,              // removed by a poll that returned an error
    nextId: nat,
    clock: int)

  /** The concatenated data of a sandbox's events for one stream. */
  function Emitted(h: seq<Event>, id: nat, s: Stream): Bytes {
    if h == [] then []
    else
      Emitted(h[..|h| - 1], id, s) + DataOf(h[|h| - 1], id, s)
  }

  /** The data an event carries for one stream of one sandbox. */
  function DataOf(e: Event, id: nat, s: Stream): Bytes {
    if e.id == id && ((s == Stdout && e.StdoutData?) || (s == Stderr && e.StderrData?)) then e.data else []
  }

  /** Ids with a terminal event. */
  function Finished(h: seq<Event>): set<nat> {
    set k | 0 <= k < |h| && h[k].Terminal() :: h[k].id
  }

  ghost predicate LiveOk(st: Sandbox, w: Account, clock: int) {
    && st.stdout == w.stdout && st.stderr == w.stderr
    && st.stdoutClosed == w.stdoutEnded && st.stderrClosed == w.stderrEnded
    && st.pidfdReady == (w.exited || w.deadlineKill.Some?)
    && st.deadline == w.deadline && st.maxOutput == w.maxOutput
    && (w.deadlineKill.Some? ==> w.deadline <= w.deadlineKill.value <= clock)
    && w.collected.None?
  }

  /** Classification of an ended sandbox: the deadline first, then a signal, then the size of its output. */
  function Classify(timedOut: bool, signal: Option<i32>, size: nat, maxOutput: u64): Status {
    if timedOut then Status.Timeout
    else if signal.Some? then Signaled
    else if size > maxOutput then OutputLimitExceeded
    else Exited
  }

  /** What a terminal event says about its sandbox. */
  ghost predicate FinalOk(e: Event, w: Account)
    requires e.Terminal()
  {
    && e.output.stdout == w.stdout && e.output.stderr == w.stderr
    && w.stdoutEnded && w.stderrEnded && (w.exited || w.deadlineKill.Some?)
    && w.collected.Some? && w.waited.Some? && !w.waited.value.WaitFailed?
    && e.output.exitCode == w.waited.value.ExitCode() && e.output.signal == w.waited.value.Signal()
    && (e.Timeout? <==> w.collected.value >= w.deadline)
    && e.output.status == Classify(e.Timeout?, e.output.signal, e.output.Size(), w.maxOutput)
    && (w.deadlineKill.Some? ==> e.Timeout?)
  }

  /** Never more than the limit plus one read per SIGKILL sent for exceeding it, and no such SIGKILL without excess. */
  ghost predicate Bounded(w: Account) {
    && w.Total() <= w.maxOutput + BUFFER_SIZE * w.limitKills
    && (w.limitKills > 0 <==> w.Total() > w.maxOutput)
  }

  /** Every id is active, finished or dropped, and only one of these. */
  ghost predicate Partition(s: State) {
    && (forall id :: id in s.world <==> id in s.sandboxes || id in Finished(s.history) || id in s.dropped)
    && (forall id :: id in s.sandboxes ==> id !in Finished(s.history) && id !in s.dropped)
    && (forall id :: id in s.dropped ==> id !in Finished(s.history))
    && (forall id :: id in s.world ==> id < s.nextId)
  }

  /** The event's sandbox is known; a terminal event tells the truth and is its sandbox's last. */
  ghost predicate EventOk(h: seq<Event>, world: map<nat, Account>, k: nat)
    requires k < |h|
  {
    && h[k].id in world
    && (h[k].Terminal() ==>
          && FinalOk(h[k], world[h[k].id])
          && forall j :: k < j < |h| ==> h[j].id != h[k].id)
  }

  ghost predicate EventsOk(s: State) {
    forall k :: 0 <= k < |s.history| ==> EventOk(s.history, s.world, k)
  }

  /** A sandbox's account agrees with its state while active, and with its events at all times. */
  ghost predicate AccountOk(s: State, id: nat)
    requires id in s.world
  {
    && (id in s.sandboxes ==> LiveOk(s.sandboxes[id], s.world[id], s.clock))
    && Bounded(s.world[id])
    && Emitted(s.history, id, Stdout) == s.world[id].stdout
    && Emitted(s.history, id, Stderr) == s.world[id].stderr
  }

  ghost predicate AccountsOk(s: State) {
    && (forall id :: id in s.world ==> AccountOk(s, id))
    && (forall id :: id !in s.world ==> Emitted(s.history, id, Stdout) == Emitted(s.history, id, Stderr) == [])
  }

  ghost predicate Inv(s: State) {
    Partition(s) && EventsOk(s) && AccountsOk(s)
  }

  lemma InvInit(clock: int)
    ensures Inv(State(map[], [], map[], {}, 0, clock))
  {
  }

  lemma EmittedAppend(h: seq<Event>, e: Event, id: nat)
    ensures Emitted(h + [e], id, Stdout) == Emitted(h, id, Stdout) + DataOf(e, id, Stdout)
    ensures Emitted(h + [e], id, Stderr) == Emitted(h, id, Stderr) + DataOf(e, id, Stderr)
  {
    assert (h + [e])[..|h|] == h;
  }

  lemma FinishedAppend(h: seq<Event>, e: Event)
    ensures Finished(h + [e]) == Finished(h) + if e.Terminal() then {e.id} else {}
  {
    var g := h + [e];
    forall id | id in Finished(h) + if e.Terminal() then {e.id} else {} ensures id in Finished(g) {
      if id in Finished(h) {
        var k :| 0 <= k < |h| && h[k].Terminal() && h[k].id == id;
        assert g[k] == h[k];
      } else {
        assert g[|h|] == e;
      }
    }
  }

  lemma ActiveIsKnown(s: State, id: nat)
    requires Inv(s) && id in s.sandboxes
    ensures id in s.world && s.world[id].deadline == s.sandboxes[id].deadline
    ensures s.world[id].maxOutput == s.sandboxes[id].maxOutput && s.world[id].Total() == s.sandboxes[id].Total()
  {
  }

  lemma AllActiveKnown(s: State)
    requires Inv(s)
    ensures forall id :: id in s.sandboxes ==> id in s.world && id < s.nextId
    ensures forall id :: id in s.sandboxes && s.sandboxes[id].pidfdReady ==>
      s.world[id].exited || s.world[id].deadlineKill.Some?
  {
    forall id | id in s.sandboxes && s.sandboxes[id].pidfdReady
      ensures id in s.world && (s.world[id].exited || s.world[id].deadlineKill.Some?)
    {
      assert AccountOk(s, id);
    }
  }

  // ---- The atomic actions ----

  lemma KeptByTick(s: State, clock: int)
    requires Inv(s) && s.clock <= clock
    ensures Inv(s.(clock := clock))
  {
  }

  /** A spawn takes the next id whether or not it succeeds. */
  lemma KeptByFailedSpawn(s: State)
    requires Inv(s)
    ensures Inv(s.(nextId := s.nextId + 1))
  {
  }

  ghost function AfterSpawn(s: State, deadline: int, start: int, maxOutput: u64): State {
    s.(sandboxes := s.sandboxes[s.nextId := Sandbox(deadline, start, [], [], maxOutput, false, false, false)],
       world := s.world[s.nextId :=
         Account(deadline, maxOutput, [], [], false, false, false, false, false, 0, None, None, None)],
       nextId := s.nextId + 1)
  }

  lemma KeptBySpawn(s: State, deadline: int, start: int, maxOutput: u64)
    requires Inv(s)
    ensures s.nextId !in s.world
    ensures Inv(AfterSpawn(s, deadline, start, maxOutput))
  {
    var id, t := s.nextId, AfterSpawn(s, deadline, start, maxOutput);
    forall k | 0 <= k < |s.history| ensures EventOk(t.history, t.world, k) {
      assert EventOk(s.history, s.world, k);
    }
    forall i | i in t.world ensures AccountOk(t, i) {
      assert i != id ==> AccountOk(s, i);
    }
  }

  /** A change to the account of an unfinished sandbox leaves the past events true. */
  lemma EventsKept(s: State, t: State, id: nat)
    requires EventsOk(s) && id in s.world && id !in Finished(s.history)
    requires t.history == s.history && id in t.world && t.world == s.world[id := t.world[id]]
    ensures EventsOk(t)
  {
    forall k | 0 <= k < |t.history| ensures EventOk(t.history, t.world, k) {
      assert EventOk(s.history, s.world, k);
      assert s.history[k].Terminal() ==> s.history[k].id in Finished(s.history);
    }
  }

  /** So does an event of an unfinished sandbox, if it is true itself. */
  lemma EventsExtended(h: seq<Event>, world: map<nat, Account>, e: Event)
    requires forall k :: 0 <= k < |h| ==> EventOk(h, world, k)
    requires e.id in world && e.id !in Finished(h) && (e.Terminal() ==> FinalOk(e, world[e.id]))
    ensures forall k :: 0 <= k < |h + [e]| ==> EventOk(h + [e], world, k)
  {
    forall k | 0 <= k < |h + [e]| ensures EventOk(h + [e], world, k) {
      if k < |h| {
        assert EventOk(h, world, k);
        assert h[k].Terminal() ==> h[k].id in Finished(h);
      }
    }
  }

  /** Nor does it touch the account of another sandbox. */
  lemma OthersKept(s: State, t: State, id: nat, e: Event)
    requires AccountsOk(s) && id in s.world && id in t.world && e.id == id
    requires t.history == s.history + [e] && s.clock <= t.clock
    requires t.world == s.world[id := t.world[id]] && t.sandboxes - {id} == s.sandboxes - {id}
    requires AccountOk(t, id)
    ensures AccountsOk(t)
  {
    forall i | i != id
      ensures i in t.world ==> AccountOk(t, i)
      ensures i !in t.world ==> Emitted(t.history, i, Stdout) == Emitted(t.history, i, Stderr) == []
    {
      EmittedAppend(s.history, e, i);
      if i in t.world {
        assert AccountOk(s, i);
        assert i in t.sandboxes ==> i in t.sandboxes - {id};
      }
    }
  }

  ghost function AfterUpdate(s: State, id: nat, st: Sandbox, w: Account): State {
    s.(sandboxes := s.sandboxes[id := st], world := s.world[id := w])
  }

  lemma UpdateAccounts(s: State, id: nat, st: Sandbox, w: Account)
    requires AccountsOk(s) && id in s.world
    requires LiveOk(st, w, s.clock) && Bounded(w)
    requires w.stdout == s.world[id].stdout && w.stderr == s.world[id].stderr
    ensures AccountsOk(AfterUpdate(s, id, st, w))
  {
    hide LiveOk, Bounded, Emitted;
    var t := AfterUpdate(s, id, st, w);
    forall i | i in t.world ensures AccountOk(t, i) {
      assert AccountOk(s, i);
    }
  }

  /** An active sandbox changes its flags and its account agrees. */
  lemma KeptByUpdate(s: State, id: nat, st: Sandbox, w: Account)
    requires Inv(s) && id in s.sandboxes
    requires LiveOk(st, w, s.clock) && Bounded(w)
    requires w.stdout == s.world[id].stdout && w.stderr == s.world[id].stderr
    ensures Inv(AfterUpdate(s, id, st, w))
  {
    hide AccountsOk, EventsOk, LiveOk, Bounded;
    UpdateAccounts(s, id, st, w);
    EventsKept(s, AfterUpdate(s, id, st, w), id);
  }

  /** What an active sandbox's account says. */
  lemma ActiveIsLive(s: State, id: nat)
    requires Inv(s) && id in s.sandboxes
    ensures id in s.world && LiveOk(s.sandboxes[id], s.world[id], s.clock) && Bounded(s.world[id])
  {
    hide EventsOk, LiveOk, Bounded;
    assert AccountOk(s, id);
  }

  /** The pidfd of an active sandbox is reported readable. */
  lemma KeptByReady(s: State, id: nat)
    requires Inv(s) && id in s.sandboxes
    ensures Inv(s.(
      sandboxes := s.sandboxes[id := s.sandboxes[id].(pidfdReady := true)],
      world := s.world[id := s.world[id].(exited := true)]))
  {
    ActiveIsLive(s, id);
    hide Inv;
    KeptByUpdate(s, id, s.sandboxes[id].(pidfdReady := true), s.world[id].(exited := true));
  }

  function ChunkCharge(st: Sandbox, w: Account, stream: Stream, data: Bytes): Account {
    var v := w.AfterRead(stream, Data(data));
    if st.Append(stream, data).Total() > st.maxOutput then v.AfterKill(Limit) else v
  }

  /** A chunk is read, appended and handed out; beyond the limit a SIGKILL is sent. */
  ghost function AfterChunk(s: State, id: nat, stream: Stream, data: Bytes): State
    requires id in s.sandboxes && id in s.world
  {
    s.(sandboxes := s.sandboxes[id := s.sandboxes[id].Append(stream, data)],
       history := s.history + [DataEvent(id, stream, data)],
       world := s.world[id := ChunkCharge(s.sandboxes[id], s.world[id], stream, data)])
  }

  lemma ChunkEvents(s: State, id: nat, stream: Stream, data: Bytes)
    requires Inv(s) && id in s.sandboxes
    ensures Partition(AfterChunk(s, id, stream, data)) && EventsOk(AfterChunk(s, id, stream, data))
  {
    var t := AfterChunk(s, id, stream, data);
    var e := DataEvent(id, stream, data);
    FinishedAppend(s.history, e);
    EventsKept(s, t.(history := s.history), id);
    EventsExtended(s.history, t.world, e);
  }

  lemma ChunkLive(st: Sandbox, w: Account, clock: int, stream: Stream, data: Bytes)
    requires LiveOk(st, w, clock)
    ensures LiveOk(st.Append(stream, data), ChunkCharge(st, w, stream, data), clock)
  {
  }

  lemma ChunkTotals(st: Sandbox, w: Account, stream: Stream, data: Bytes)
    requires st.stdout == w.stdout && st.stderr == w.stderr
    ensures st.Append(stream, data).Total() == st.Total() + |data| && st.Total() == w.Total()
    ensures ChunkCharge(st, w, stream, data).Total() == w.Total() + |data|
  {
  }

  lemma ChunkBounded(st: Sandbox, w: Account, stream: Stream, data: Bytes)
    requires st.stdout == w.stdout && st.stderr == w.stderr && st.maxOutput == w.maxOutput
    requires Bounded(w) && |data| <= BUFFER_SIZE
    ensures Bounded(ChunkCharge(st, w, stream, data))
  {
    ChunkTotals(st, w, stream, data);
    var v := ChunkCharge(st, w, stream, data);
    assert v.limitKills == w.limitKills + if w.Total() + |data| > w.maxOutput then 1 else 0;
    assert v.maxOutput == w.maxOutput;
    hide ChunkCharge;
  }

  lemma ChunkDelivered(st: Sandbox, w: Account, stream: Stream, data: Bytes)
    ensures ChunkCharge(st, w, stream, data).stdout == w.stdout + if stream == Stdout then data else []
    ensures ChunkCharge(st, w, stream, data).stderr == w.stderr + if stream == Stderr then data else []
  {
    assert w.stdout + [] == w.stdout && w.stderr + [] == w.stderr;
  }

  lemma EmittedChunk(h: seq<Event>, id: nat, stream: Stream, data: Bytes)
    ensures Emitted(h + [DataEvent(id, stream, data)], id, Stdout)
         == Emitted(h, id, Stdout) + if stream == Stdout then data else []
    ensures Emitted(h + [DataEvent(id, stream, data)], id, Stderr)
         == Emitted(h, id, Stderr) + if stream == Stderr then data else []
  {
    hide Emitted;
    EmittedAppend(h, DataEvent(id, stream, data), id);
  }

  lemma ChunkAccount(s: State, id: nat, stream: Stream, data: Bytes)
    requires id in s.sandboxes && id in s.world && AccountOk(s, id) && ValidRead(Data(data))
    ensures AccountOk(AfterChunk(s, id, stream, data), id)
  {
    var st, w, t := s.sandboxes[id], s.world[id], AfterChunk(s, id, stream, data);
    assert LiveOk(st, w, s.clock) && Bounded(w);
    assert Emitted(s.history, id, Stdout) == w.stdout && Emitted(s.history, id, Stderr) == w.stderr;
    assert t.history == s.history + [DataEvent(id, stream, data)] && t.clock == s.clock;
    assert t.sandboxes[id] == st.Append(stream, data) && t.world[id] == ChunkCharge(st, w, stream, data);
    ChunkLive(st, w, s.clock, stream, data);
    ChunkBounded(st, w, stream, data);
    ChunkDelivered(st, w, stream, data);
    EmittedChunk(s.history, id, stream, data);
    hide LiveOk, Bounded, Emitted, ChunkCharge, AfterChunk, DataEvent;
  }

  lemma KeptByChunk(s: State, id: nat, stream: Stream, data: Bytes)
    requires Inv(s) && id in s.sandboxes && ValidRead(Data(data))
    ensures Inv(AfterChunk(s, id, stream, data))
  {
    ChunkEvents(s, id, stream, data);
    assert AccountOk(s, id);
    ChunkAccount(s, id, stream, data);
    OthersKept(s, AfterChunk(s, id, stream, data), id, DataEvent(id, stream, data));
  }

  /** A read reports end of file or an error. */
  lemma KeptByEnd(s: State, id: nat, stream: Stream, r: ReadResult)
    requires Inv(s) && id in s.sandboxes && (r.Eof? || r.Failed?)
    ensures Inv(s.(
      sandboxes := s.sandboxes[id := s.sandboxes[id].Close(stream)],
      world := s.world[id := s.world[id].AfterRead(stream, r)]))
  {
    ActiveIsLive(s, id);
    hide Inv;
    KeptByUpdate(s, id, s.sandboxes[id].Close(stream), s.world[id].AfterRead(stream, r));
  }

  lemma ReadLive(st: Sandbox, w: Account, clock: int, stream: Stream)
    requires LiveOk(st, w, clock) && Bounded(w)
    ensures LiveOk(st, w.AfterRead(stream, WouldBlock), clock) && Bounded(w.AfterRead(stream, WouldBlock))
  {
  }

  lemma WaitLive(st: Sandbox, w: Account, clock: int, r: WaitResult)
    requires LiveOk(st, w, clock) && Bounded(w)
    ensures LiveOk(st, w.(waited := Some(r)), clock) && Bounded(w.(waited := Some(r)))
  {
  }

  /** A read finds nothing yet. */
  lemma KeptByDry(s: State, id: nat, stream: Stream)
    requires Inv(s) && id in s.sandboxes
    ensures Inv(s.(world := s.world[id := s.world[id].AfterRead(stream, WouldBlock)]))
  {
    ActiveIsLive(s, id);
    ReadLive(s.sandboxes[id], s.world[id], s.clock, stream);
    hide Inv, LiveOk, Bounded;
    KeptByUpdate(s, id, s.sandboxes[id], s.world[id].AfterRead(stream, WouldBlock));
    assert s.sandboxes[id := s.sandboxes[id]] == s.sandboxes;
  }

  /** The deadline branch: SIGKILL, and the sandbox counts as exited. */
  lemma KeptByDeadline(s: State, id: nat, now: int)
    requires Inv(s) && id in s.sandboxes && s.sandboxes[id].deadline <= now <= s.clock && !s.sandboxes[id].pidfdReady
    ensures Inv(s.(
      sandboxes := s.sandboxes[id := s.sandboxes[id].(pidfdReady := true)],
      world := s.world[id := s.world[id].(deadlineKill := Some(now))]))
  {
    ActiveIsLive(s, id);
    hide Inv;
    KeptByUpdate(s, id, s.sandboxes[id].(pidfdReady := true), s.world[id].(deadlineKill := Some(now)));
  }

  /** Waiting for a sandbox's process. */
  lemma KeptByWait(s: State, id: nat, r: WaitResult)
    requires Inv(s) && id in s.sandboxes
    ensures Inv(s.(world := s.world[id := s.world[id].(waited := Some(r))]))
  {
    ActiveIsLive(s, id);
    WaitLive(s.sandboxes[id], s.world[id], s.clock, r);
    hide Inv, LiveOk, Bounded;
    KeptByUpdate(s, id, s.sandboxes[id], s.world[id].(waited := Some(r)));
    assert s.sandboxes[id := s.sandboxes[id]] == s.sandboxes;
  }

  /** A finished sandbox leaves with its terminal event. */
  ghost function AfterFinish(s: State, id: nat, e: Event, now: int): State
    requires id in s.world
  {
    s.(sandboxes := s.sandboxes - {id},
       history := s.history + [e],
       world := s.world[id := s.world[id].(collected := Some(now))],
       clock := now)
  }

  lemma FinishEvents(s: State, id: nat, e: Event, now: int)
    requires Partition(s) && EventsOk(s) && id in s.sandboxes && e.Terminal() && e.id == id
    requires FinalOk(e, s.world[id].(collected := Some(now)))
    ensures Partition(AfterFinish(s, id, e, now)) && EventsOk(AfterFinish(s, id, e, now))
  {
    var t := AfterFinish(s, id, e, now);
    FinishedAppend(s.history, e);
    EventsKept(s, t.(history := s.history), id);
    EventsExtended(s.history, t.world, e);
  }

  lemma FinishAccount(s: State, id: nat, e: Event, now: int)
    requires id in s.world && AccountOk(s, id) && e.Terminal() && e.id == id
    ensures AccountOk(AfterFinish(s, id, e, now), id)
  {
    hide LiveOk, Emitted;
    EmittedAppend(s.history, e, id);
  }

  lemma FinishIsTrue(s: State, id: nat, e: Event, now: int)
    requires id in s.sandboxes && s.sandboxes[id].IsDone() && id in s.world
      && LiveOk(s.sandboxes[id], s.world[id], s.clock)
    requires s.clock <= now && s.world[id].waited.Some? && !s.world[id].waited.value.WaitFailed?
    requires e.Terminal() && (e.Timeout? <==> now >= s.sandboxes[id].deadline)
    requires e.output.exitCode == s.world[id].waited.value.ExitCode()
      && e.output.signal == s.world[id].waited.value.Signal()
    requires e.output.stdout == s.sandboxes[id].stdout && e.output.stderr == s.sandboxes[id].stderr
    requires e.output.status == Classify(e.Timeout?, e.output.signal, e.output.Size(), s.sandboxes[id].maxOutput)
    ensures FinalOk(e, s.world[id].(collected := Some(now)))
  {
    hide Classify;
  }

  lemma KeptByFinish(s: State, id: nat, e: Event, now: int)
    requires Inv(s) && id in s.sandboxes && s.sandboxes[id].IsDone()
    requires s.clock <= now && id in s.world && s.world[id].waited.Some? && !s.world[id].waited.value.WaitFailed?
    requires e.Terminal() && e.id == id && (e.Timeout? <==> now >= s.sandboxes[id].deadline)
    requires e.output.exitCode == s.world[id].waited.value.ExitCode()
      && e.output.signal == s.world[id].waited.value.Signal()
    requires e.output.stdout == s.sandboxes[id].stdout && e.output.stderr == s.sandboxes[id].stderr
    requires e.output.status == Classify(e.Timeout?, e.output.signal, e.output.Size(), s.sandboxes[id].maxOutput)
    ensures Inv(AfterFinish(s, id, e, now))
  {
    ActiveIsLive(s, id);
    FinishIsTrue(s, id, e, now);
    hide LiveOk, FinalOk, EventsOk, Bounded, Classify;
    assert AccountOk(s, id);
    FinishEvents(s, id, e, now);
    FinishAccount(s, id, e, now);
    OthersKept(s, AfterFinish(s, id, e, now), id, e);
  }

  /** A finished sandbox whose wait failed leaves without an event. */
  lemma KeptByDrop(s: State, id: nat)
    requires Inv(s) && id in s.sandboxes
    ensures Inv(s.(sandboxes := s.sandboxes - {id}, dropped := s.dropped + {id}))
  {
  }

  // ---- What holds in every state that satisfies the invariant ----

  lemma {:induction false} NothingEmittedAfter(h: seq<Event>, k: nat, id: nat)
    requires k <= |h| && forall j :: k <= j < |h| ==> h[j].id != id || h[j].Terminal()
    ensures Emitted(h, id, Stdout) == Emitted(h[..k], id, Stdout)
    ensures Emitted(h, id, Stderr) == Emitted(h[..k], id, Stderr)
  {
    if k == |h| {
      assert h[..k] == h;
    } else {
      var g := h[..|h| - 1];
      assert g[..k] == h[..k];
      NothingEmittedAfter(g, k, id);
    }
  }

  /**
   * Stream refinement: the buffers in a terminal event are the concatenated
   * data of the events before it and the bytes the pipes delivered; nothing
   * about its sandbox follows.
   */
  lemma StreamRefinement(s: State, k: nat)
    requires Inv(s) && k < |s.history| && s.history[k].Terminal()
    ensures var e := s.history[k];
      && e.id in s.world
      && e.output.stdout == Emitted(s.history[..k], e.id, Stdout) == s.world[e.id].stdout
      && e.output.stderr == Emitted(s.history[..k], e.id, Stderr) == s.world[e.id].stderr
      && forall j :: k < j < |s.history| ==> s.history[j].id != e.id
  {
    var e := s.history[k];
    assert EventOk(s.history, s.world, k);
    assert AccountOk(s, e.id);
    NothingEmittedAfter(s.history, k, e.id);
  }

  function TerminalCount(h: seq<Event>): nat {
    if h == [] then 0
    else TerminalCount(h[..|h| - 1]) + if h[|h| - 1].Terminal() then 1 else 0
  }

  lemma {:induction false} OneTerminalEach(h: seq<Event>)
    requires forall j, k :: 0 <= j < k < |h| && h[j].Terminal() ==> h[j].id != h[k].id
    ensures TerminalCount(h) == |Finished(h)|
  {
    if h == [] {
      assert Finished(h) == {};
    } else {
      var g, e := h[..|h| - 1], h[|h| - 1];
      assert h == g + [e];
      OneTerminalEach(g);
      FinishedAppend(g, e);
    }
  }

  /** Conservation: successful spawns = active sandboxes + terminal events + sandboxes dropped by an error. */
  lemma Conservation(s: State)
    requires Inv(s)
    ensures |s.world| == |s.sandboxes| + TerminalCount(s.history) + |s.dropped|
  {
    hide Partition;
    hide EventsOk;
    hide AccountsOk;
    OneTerminalEachId(s);
    PartitionKeys(s);
    DisjointSizes(s.sandboxes.Keys, Finished(s.history), s.dropped);
    assert |s.sandboxes| == |s.sandboxes.Keys| && |s.world| == |s.world.Keys|;
  }

  lemma PartitionKeys(s: State)
    requires Partition(s)
    ensures s.world.Keys == s.sandboxes.Keys + Finished(s.history) + s.dropped
    ensures s.sandboxes.Keys !! Finished(s.history) && (s.sandboxes.Keys + Finished(s.history)) !! s.dropped
  {
  }

  lemma OneTerminalEachId(s: State)
    requires EventsOk(s)
    ensures TerminalCount(s.history) == |Finished(s.history)|
  {
    forall j, k | 0 <= j < k < |s.history| && s.history[j].Terminal() ensures s.history[j].id != s.history[k].id {
      assert EventOk(s.history, s.world, j);
    }
    OneTerminalEach(s.history);
  }

  lemma DisjointSizes(a: set<nat>, b: set<nat>, c: set<nat>)
    requires a !! b && (a + b) !! c
    ensures |a + b + c| == |a| + |b| + |c|
  {
    assert |a + b| == |a| + |b|;
    assert |(a + b) + c| == |a + b| + |c|;
  }

  /**
   * Deadlines and limits: an end is reported only after both pipes ended and
   * the process was seen to exit or was killed for its deadline. It is a
   * timeout, in event and in status, exactly when it was classified at or
   * after the deadline, which covers every deadline kill. The two buffers
   * together exceed the limit exactly when SIGKILL was sent for it, and then by
   * at most one read of 4096 bytes for each.
   */
  lemma TerminalMeaning(s: State, k: nat)
    requires Inv(s) && k < |s.history| && s.history[k].Terminal()
    ensures var e := s.history[k];
      && e.id in s.world
      && var w := s.world[e.id];
      && w.stdoutEnded && w.stderrEnded && (w.exited || w.deadlineKill.Some?)
      && w.collected.Some?
      && (e.Timeout? <==> e.output.status == Status.Timeout)
      && (e.Timeout? <==> w.collected.value >= w.deadline)
      && (w.deadlineKill.Some? ==> e.Timeout? && !e.Completed?)
      && |e.output.stdout| + |e.output.stderr| <= w.maxOutput + 4096 * w.limitKills
      && (w.limitKills > 0 <==> |e.output.stdout| + |e.output.stderr| > w.maxOutput)
  {
    assert EventOk(s.history, s.world, k);
    assert AccountOk(s, s.history[k].id);
  }

  /**
   * What a terminal event says of the process is what waiting reported: its own exit
   * code, or the signal that killed it, or neither. Unless it is a timeout, its status is
   * Signaled exactly after a signal, OutputLimitExceeded exactly if there was none and
   * the two buffers together exceed the limit, and Exited exactly otherwise.
   */
  lemma TerminalStatus(s: State, k: nat)
    requires Inv(s) && k < |s.history| && s.history[k].Terminal()
    ensures s.history[k].id in s.world && s.world[s.history[k].id].waited.Some?
    ensures
      var o := s.history[k].output;
      match s.world[s.history[k].id].waited.value
      case ExitedWith(code) => o.exitCode == Some(code) && o.signal == None
      case KilledBy(sig) => o.signal == Some(sig) && o.exitCode == None
      case OtherChange => o.exitCode == None && o.signal == None
      case WaitFailed => false
    ensures
      var e, w := s.history[k], s.world[s.history[k].id];
      e.Completed? ==>
        && (e.output.status == Signaled <==> w.waited.value.KilledBy?)
        && (e.output.status == OutputLimitExceeded <==> !w.waited.value.KilledBy? && w.limitKills > 0)
        && (e.output.status == OutputLimitExceeded <==>
              !w.waited.value.KilledBy? && |e.output.stdout| + |e.output.stderr| > w.maxOutput)
        && (e.output.status == Exited <==>
              !w.waited.value.KilledBy? && |e.output.stdout| + |e.output.stderr| <= w.maxOutput)
  {
    hide Emitted;
    assert EventOk(s.history, s.world, k);
    assert AccountOk(s, s.history[k].id);
  }

  // ---- What the bookkeeping functions mean ----

  /** A data event adds its bytes to its own stream of its own sandbox, and nothing else adds any. */
  lemma EmittedExactly(h: seq<Event>, e: Event, id: nat)
    ensures Emitted([], id, Stdout) == [] && Emitted([], id, Stderr) == []
    ensures
      var out, err := Emitted(h + [e], id, Stdout), Emitted(h + [e], id, Stderr);
      && out == Emitted(h, id, Stdout) + (match e case StdoutData(i, data) => if i == id then data else [] case _ => [])
      && err == Emitted(h, id, Stderr) + (match e case StderrData(i, data) => if i == id then data else [] case _ => [])
  {
    EmittedAppend(h, e, id);
  }

  /** A stream ends with a read that reports end of file or an error, and only so; a read without data leaves it dry. */
  lemma ReadMeans(w: Account, s: Stream, r: ReadResult)
    ensures
      var v, data := w.AfterRead(s, r), if r.Data? then r.bytes else [];
      if s == Stdout then
        && v.stdout == w.stdout + data && v.stderr == w.stderr
        && v.stdoutEnded == (w.stdoutEnded || r.Eof? || r.Failed?) && v.stderrEnded == w.stderrEnded
        && v.stdoutDry == !r.Data? && v.stderrDry == w.stderrDry
      else
        && v.stderr == w.stderr + data && v.stdout == w.stdout
        && v.stderrEnded == (w.stderrEnded || r.Eof? || r.Failed?) && v.stdoutEnded == w.stdoutEnded
        && v.stderrDry == !r.Data? && v.stdoutDry == w.stdoutDry
  {
    assert w.stdout + [] == w.stdout && w.stderr + [] == w.stderr;
  }
}

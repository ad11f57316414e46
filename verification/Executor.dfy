/**
 * The concurrent executor: `Spawn` and `Poll` over any number of sandboxes. The
 * kernel is an adversary: it may report any tokens, deliver any chunks, fail any
 * call and let any amount of time pass between two clock readings.
 */
module Executor {
  import opened Words
  import opened Outputs
  import opened Tokens
  import opened Ledger

  class Os {
    ghost var world: map<nat, Account>
    var clock: int

    constructor (now: int)
      ensures world == map[] && clock == now
    {
      world, clock := map[], now;
    }

    /** The monotone clock. */
    method Now() returns (now: int)
      modifies this
      ensures now == clock >= old(clock) && world == old(world)
    {
      var reading: int := *;
      if reading > clock { clock := reading; }
      now := clock;
    }

    /** Any fallible call whose effect is not part of the model. */
    method Attempt() returns (ok: bool)
      modifies this
      ensures world == old(world) && clock >= old(clock)
    {
      ok := *;
      var _ := Now();
    }

    method Read(id: nat, stream: Stream) returns (r: ReadResult)
      requires id in world
      modifies this
      ensures ValidRead(r) && clock == old(clock)
      ensures world == old(world)[id := old(world)[id].AfterRead(stream, r)]
    {
      r := *;
      if !ValidRead(r) { r := Eof; }
      world := world[id := world[id].AfterRead(stream, r)];
    }

    method Wait(id: nat) returns (r: WaitResult)
      requires id in world
      modifies this
      ensures world == old(world)[id := old(world)[id].(waited := Some(r))] && clock >= old(clock)
    {
      r := *;
      var _ := Now();
      world := world[id := world[id].(waited := Some(r))];
    }

    /** SIGKILL; the call's own failure is ignored. */
    method Kill(id: nat, cause: Cause)
      requires id in world
      modifies this`world
      ensures world == old(world)[id := old(world)[id].AfterKill(cause)]
    {
      world := world[id := world[id].AfterKill(cause)];
    }

    /** Notes in an account what became known. */
    ghost method Note(id: nat, account: Account)
      modifies this`world
      ensures world == old(world)[id := account]
    {
      world := world[id := account];
    }
  }

  /**
   * The readiness queue. It may report any registered tokens, repeated ones and
   * those of sandboxes that are gone or never came to be included.
   */
  class Registry {
    var registered: set<u64>

    constructor ()
      ensures registered == {}
    {
      registered := {};
    }

    method Register(os: Os, token: u64) returns (ok: bool)
      modifies this, os
      ensures registered == if ok then old(registered) + {token} else old(registered)
      ensures os.world == old(os.world) && os.clock >= old(os.clock)
    {
      ok := os.Attempt();
      if ok { registered := registered + {token}; }
    }

    method Wait(os: Os, timeout: Option<nat>) returns (tokens: Option<seq<u64>>)
      modifies os
      ensures tokens.Some? ==> forall t :: t in tokens.value ==> t in registered
      ensures os.world == old(os.world) && os.clock >= old(os.clock)
    {
      tokens := *;
      if tokens.Some? && exists t :: t in tokens.value && t !in registered { tokens := None; }
      var _ := os.Attempt();
    }
  }

  /** The tokens under which a sandbox's three descriptors are registered. */
  function TokensOf(id: nat): set<u64> {
    {Encode(id, TOKEN_TYPE_PIDFD), Encode(id, TOKEN_TYPE_STDOUT), Encode(id, TOKEN_TYPE_STDERR)}
  }

  /** No two of the first 2^62 ids share a token. */
  lemma TokensDisjoint(a: nat, b: nat)
    requires a < ID_LIMIT && b < ID_LIMIT && a != b
    ensures TokensOf(a) !! TokensOf(b)
  {
    forall j: Kind, k: Kind ensures Encode(a, j) != Encode(b, k) {
      DistinctTokens(a, j, b, k);
    }
  }

  /** A token is reported for a sandbox exactly when its own registered token is. */
  lemma ReportedExactly(tokens: seq<u64>, id: nat, kind: Kind)
    requires id < ID_LIMIT
    ensures Reported(tokens, id, kind) <==> Encode(id, kind) in tokens
  {
    RoundTrip(id, kind);
    forall t | t in tokens && Decode(t) == (id, kind) ensures t == Encode(id, kind) {
      EncodeDecode(t);
    }
  }

  /** A wait that ends at the deadline, or no wait if that has passed. */
  predicate Fills(wait: nat, deadline: int, now: int) {
    now + wait == deadline || (now >= deadline && wait == 0)
  }

  /** The time left, never negative. */
  function Left(deadline: int, now: int): nat {
    if deadline > now then deadline - now else 0
  }

  /** What the deadline branch does to one sandbox. */
  function Expire(st: Sandbox, now: int): Sandbox {
    if now >= st.deadline && !st.pidfdReady then st.(pidfdReady := true) else st
  }

  /** And what it notes: SIGKILL for the deadline. */
  function Charge(st: Sandbox, w: Account, now: int): Account {
    if now >= st.deadline && !st.pidfdReady then w.AfterKill(Deadline(now)) else w
  }

  /** All but the sandboxes still to do went through the deadline branch. */
  ghost predicate Swept(todo: set<nat>, before: map<nat, Sandbox>, after: map<nat, Sandbox>,
                        world: map<nat, Account>, world': map<nat, Account>, now: int) {
    && before.Keys == after.Keys && after.Keys <= world.Keys == world'.Keys
    && (forall id :: id in after ==> after[id] == if id in todo then before[id] else Expire(before[id], now))
    && (forall id :: id in world' ==>
         world'[id] == if id in after && id !in todo then Charge(before[id], world[id], now) else world[id])
  }

  lemma SweptNothing(sandboxes: map<nat, Sandbox>, world: map<nat, Account>, now: int)
    requires sandboxes.Keys <= world.Keys
    ensures Swept(sandboxes.Keys, sandboxes, sandboxes, world, world, now)
  {
  }

  lemma SweptOn(todo: set<nat>, before: map<nat, Sandbox>, after: map<nat, Sandbox>,
                world: map<nat, Account>, world': map<nat, Account>, now: int, id: nat)
    requires Swept(todo, before, after, world, world', now) && id in todo && id in after
    ensures id in world'
    ensures Swept(
      todo - {id}, before, after[id := Expire(after[id], now)],
      world, world'[id := Charge(after[id], world'[id], now)], now)
  {
    hide Expire, Charge;
  }

  /** The sweep reads nothing, so what was drained stays so. */
  lemma SweptKeepsDrained(before: map<nat, Sandbox>, after: map<nat, Sandbox>,
                          world: map<nat, Account>, world': map<nat, Account>, now: int)
    requires Swept({}, before, after, world, world', now)
    ensures KeepsDrained(world, world')
    ensures forall id :: id in after ==> id in before && AtMostExpired(before[id], after[id], now)
    ensures forall id :: id in after && after[id].deadline <= now ==> after[id].pidfdReady
  {
    forall id, s | IsDrained(world, id, s) ensures IsDrained(world', id, s) {
      assert world'[id].stdoutDry == world[id].stdoutDry && world'[id].stderrDry == world[id].stderrDry;
    }
  }

  ghost predicate TerminalFor(events: seq<Event>, known: map<nat, Sandbox>) {
    forall e :: e in events ==> e.Terminal() && e.id in known
  }

  lemma NoTerminals(known: map<nat, Sandbox>)
    ensures TerminalFor([], known)
  {
  }

  lemma MoreTerminals(events: seq<Event>, more: seq<Event>, id: nat, known: map<nat, Sandbox>)
    requires TerminalFor(events, known)
    requires forall e :: e in more ==> e.Terminal() && e.id == id && id in known
    ensures TerminalFor(events + more, known)
  {
  }

  /** Some ids taken out of a map. */
  function Minus(m: map<nat, Sandbox>, ids: seq<nat>): map<nat, Sandbox> {
    if ids == [] then m else Minus(m, ids[..|ids| - 1]) - {ids[|ids| - 1]}
  }

  lemma {:induction false} MinusMeans(m: map<nat, Sandbox>, ids: seq<nat>)
    ensures forall id :: id in Minus(m, ids) <==> id in m && id !in ids
    ensures forall id :: id in Minus(m, ids) ==> Minus(m, ids)[id] == m[id]
  {
    if ids != [] {
      MinusMeans(m, ids[..|ids| - 1]);
      assert ids == ids[..|ids| - 1] + [ids[|ids| - 1]];
    }
  }

  predicate AtMostExpired(before: Sandbox, after: Sandbox, clock: int) {
    after == before || (before.deadline <= clock && after == before.(pidfdReady := true))
  }

  /** Some reported token decodes to this sandbox and kind. */
  ghost predicate Reported(tokens: seq<u64>, id: nat, kind: Kind) {
    exists t :: t in tokens && Decode(t) == (id, kind)
  }

  /** A poll changes a sandbox that stays active only as its own tokens, or its deadline, say. */
  ghost predicate Routed(tokens: seq<u64>, id: nat, before: Sandbox, after: Sandbox, clock: int) {
    && after.deadline == before.deadline && after.start == before.start && after.maxOutput == before.maxOutput
    && (before.pidfdReady || Reported(tokens, id, TOKEN_TYPE_PIDFD) ==> after.pidfdReady)
    && (after.pidfdReady ==> before.pidfdReady || Reported(tokens, id, TOKEN_TYPE_PIDFD) || before.deadline <= clock)
    && (!Reported(tokens, id, TOKEN_TYPE_STDOUT) ==>
         after.stdout == before.stdout && after.stdoutClosed == before.stdoutClosed)
    && (!Reported(tokens, id, TOKEN_TYPE_STDERR) ==>
         after.stderr == before.stderr && after.stderrClosed == before.stderrClosed)
  }

  /** Data is handed out only for a sandbox and stream that was reported. */
  ghost predicate Caused(tokens: seq<u64>, e: Event) {
    && (e.StdoutData? ==> Reported(tokens, e.id, TOKEN_TYPE_STDOUT))
    && (e.StderrData? ==> Reported(tokens, e.id, TOKEN_TYPE_STDERR))
  }

  /** A sandbox none of whose own three tokens is reported changes by its deadline at most, and yields no data. */
  ghost predicate OnlyOwnTokens(
    tokens: seq<u64>, before: map<nat, Sandbox>, after: map<nat, Sandbox>, events: seq<Event>, clock: int) {
    && (forall id :: id in after && id in before && (forall t :: t in tokens ==> t !in TokensOf(id)) ==>
         after[id] == before[id] || (before[id].deadline <= clock && after[id] == before[id].(pidfdReady := true)))
    && (forall e :: e in events && e.StdoutData? ==> Encode(e.id, TOKEN_TYPE_STDOUT) in tokens)
    && (forall e :: e in events && e.StderrData? ==> Encode(e.id, TOKEN_TYPE_STDERR) in tokens)
  }

  lemma OnlyOwn(
    tokens: seq<u64>, nextId: nat, before: map<nat, Sandbox>, after: map<nat, Sandbox>, events: seq<Event>,
    clock: int)
    requires forall id :: id in before ==> id < nextId
    requires forall id :: id in after ==> id in before && Routed(tokens, id, before[id], after[id], clock)
    requires forall e :: e in events ==> e.id in before && Caused(tokens, e)
    ensures nextId <= ID_LIMIT ==> OnlyOwnTokens(tokens, before, after, events, clock)
  {
    hide Encode, Reported;
    if nextId <= ID_LIMIT {
      forall e | e in events
        ensures e.StdoutData? ==> Encode(e.id, TOKEN_TYPE_STDOUT) in tokens
        ensures e.StderrData? ==> Encode(e.id, TOKEN_TYPE_STDERR) in tokens
      {
        ReportedExactly(tokens, e.id, TOKEN_TYPE_STDOUT);
        ReportedExactly(tokens, e.id, TOKEN_TYPE_STDERR);
      }
      forall id | id in after && forall t :: t in tokens ==> t !in TokensOf(id)
        ensures AtMostExpired(before[id], after[id], clock)
      {
        ReportedExactly(tokens, id, TOKEN_TYPE_PIDFD);
        ReportedExactly(tokens, id, TOKEN_TYPE_STDOUT);
        ReportedExactly(tokens, id, TOKEN_TYPE_STDERR);
      }
    }
  }

  lemma NothingRouted(sandboxes: map<nat, Sandbox>, clock: int)
    ensures forall id :: id in sandboxes ==> Routed([], id, sandboxes[id], sandboxes[id], clock)
  {
  }

  /** Reading one stream changes that stream's buffer and flag only, and never opens it again. */
  predicate OnlyStream(stream: Stream, before: Sandbox, after: Sandbox) {
    && (before.stdoutClosed ==> after.stdoutClosed) && (before.stderrClosed ==> after.stderrClosed)
    && after == if stream == Stdout
      then before.(stdout := after.stdout, stdoutClosed := after.stdoutClosed)
      else before.(stderr := after.stderr, stderrClosed := after.stderrClosed)
  }

  ghost predicate IsDrained(world: map<nat, Account>, id: nat, stream: Stream) {
    id in world && world[id].Drained(stream)
  }

  /** No drained stream is left undrained. */
  ghost predicate KeepsDrained(before: map<nat, Account>, after: map<nat, Account>) {
    forall id, s :: IsDrained(before, id, s) ==> IsDrained(after, id, s)
  }

  lemma KeepsDrainedOn(a: map<nat, Account>, b: map<nat, Account>, c: map<nat, Account>)
    requires KeepsDrained(a, b) && KeepsDrained(b, c)
    ensures KeepsDrained(a, c)
  {
    hide IsDrained;
  }

  lemma KeptByNote(before: map<nat, Account>, id: nat, account: Account)
    requires id in before && account.stdoutDry == before[id].stdoutDry && account.stderrDry == before[id].stderrDry
    requires account.Total() == before[id].Total() && account.maxOutput == before[id].maxOutput
    ensures KeepsDrained(before, before[id := account])
  {
  }

  function Other(stream: Stream): Stream {
    if stream == Stdout then Stderr else Stdout
  }

  /** The pidfds of the listed sandboxes are ready, and nothing else changed. */
  ghost predicate Marked(ids: seq<nat>, before: map<nat, Sandbox>, after: map<nat, Sandbox>) {
    && before.Keys == after.Keys
    && (forall id :: id in after ==> after[id] == if id in ids then before[id].(pidfdReady := true) else before[id])
  }

  lemma NothingMarked(sandboxes: map<nat, Sandbox>, world: map<nat, Account>)
    ensures Marked([], sandboxes, sandboxes) && KeepsDrained(world, world)
  {
  }

  lemma MarkedOn(ids: seq<nat>, i: nat, before: map<nat, Sandbox>, mid: map<nat, Sandbox>, after: map<nat, Sandbox>)
    requires i < |ids| && Marked(ids[..i], before, mid)
    requires after == if ids[i] in mid then mid[ids[i] := mid[ids[i]].(pidfdReady := true)] else mid
    ensures Marked(ids[..i + 1], before, after)
  {
    assert ids[..i + 1] == ids[..i] + [ids[i]];
  }

  /** Only this stream of the listed sandboxes was read. */
  ghost predicate ReadFor(ids: seq<nat>, stream: Stream, before: map<nat, Sandbox>, after: map<nat, Sandbox>) {
    && before.Keys == after.Keys
    && (forall id :: id in after ==>
         OnlyStream(stream, before[id], after[id]) && (id !in ids ==> after[id] == before[id]))
  }

  lemma ReadForOn(
    ids: seq<nat>, stream: Stream, before: map<nat, Sandbox>, mid: map<nat, Sandbox>, id: nat, st: Sandbox)
    requires ReadFor(ids, stream, before, mid) && id in ids && id in mid && OnlyStream(stream, mid[id], st)
    ensures ReadFor(ids, stream, before, mid[id := st])
  {
  }

  ghost predicate DataFor(ids: seq<nat>, stream: Stream, known: map<nat, Sandbox>, events: seq<Event>) {
    forall e :: e in events ==>
      e.id in ids && e.id in known && (if stream == Stdout then e.StdoutData? else e.StderrData?)
  }

  ghost predicate AllDrained(ids: seq<nat>, stream: Stream, known: map<nat, Sandbox>, world: map<nat, Account>) {
    forall id :: id in ids && id in known ==> IsDrained(world, id, stream)
  }

  lemma AllDrainedOn(ids: seq<nat>, i: nat, stream: Stream, known: map<nat, Sandbox>, known': map<nat, Sandbox>,
                     before: map<nat, Account>, after: map<nat, Account>)
    requires i < |ids| && known.Keys == known'.Keys && KeepsDrained(before, after)
    requires AllDrained(ids[..i], stream, known, before)
    requires ids[i] in known ==> IsDrained(after, ids[i], stream)
    ensures AllDrained(ids[..i + 1], stream, known', after)
  {
    hide IsDrained;
    assert ids[..i + 1] == ids[..i] + [ids[i]];
  }

  lemma NothingRead(ids: seq<nat>, stream: Stream, sandboxes: map<nat, Sandbox>, world: map<nat, Account>)
    ensures ReadFor(ids, stream, sandboxes, sandboxes) && KeepsDrained(world, world)
  {
  }

  ghost predicate AreData(events: seq<Event>, id: nat, stream: Stream) {
    forall e :: e in events ==> e.id == id && (if stream == Stdout then e.StdoutData? else e.StderrData?)
  }

  /** What marking and reading do to one sandbox: exactly what its tokens say. */
  ghost predicate ReadBy(tokens: seq<u64>, id: nat, before: Sandbox, after: Sandbox) {
    && after.deadline == before.deadline && after.start == before.start && after.maxOutput == before.maxOutput
    && after.pidfdReady == (before.pidfdReady || Reported(tokens, id, TOKEN_TYPE_PIDFD))
    && (before.stdoutClosed ==> after.stdoutClosed) && (before.stderrClosed ==> after.stderrClosed)
    && (!Reported(tokens, id, TOKEN_TYPE_STDOUT) ==>
         after.stdout == before.stdout && after.stdoutClosed == before.stdoutClosed)
    && (!Reported(tokens, id, TOKEN_TYPE_STDERR) ==>
         after.stderr == before.stderr && after.stderrClosed == before.stderrClosed)
  }

  ghost predicate AllReadBy(tokens: seq<u64>, before: map<nat, Sandbox>, after: map<nat, Sandbox>) {
    after.Keys == before.Keys && forall id :: id in after ==> ReadBy(tokens, id, before[id], after[id])
  }

  /** Marking and the two rounds of reading together do so. */
  lemma StagesRead(
    tokens: seq<u64>, ready: seq<nat>, out: seq<nat>, err: seq<nat>,
    m0: map<nat, Sandbox>, m1: map<nat, Sandbox>, m2: map<nat, Sandbox>, m3: map<nat, Sandbox>)
    requires Marked(ready, m0, m1) && ReadFor(out, Stdout, m1, m2) && ReadFor(err, Stderr, m2, m3)
    requires forall id :: id in ready <==> id in m0 && Reported(tokens, id, TOKEN_TYPE_PIDFD)
    requires forall id :: id in out <==> id in m0 && Reported(tokens, id, TOKEN_TYPE_STDOUT)
    requires forall id :: id in err <==> id in m0 && Reported(tokens, id, TOKEN_TYPE_STDERR)
    ensures AllReadBy(tokens, m0, m3)
  {
    hide Reported;
  }

  lemma SameKeys(
    tokens: seq<u64>, ready: seq<nat>, out: seq<nat>, err: seq<nat>,
    m0: map<nat, Sandbox>, m1: map<nat, Sandbox>, m2: map<nat, Sandbox>, m3: map<nat, Sandbox>)
    requires Marked(ready, m0, m1) && ReadFor(out, Stdout, m1, m2) && ReadFor(err, Stderr, m2, m3)
    ensures m0.Keys == m1.Keys == m2.Keys == m3.Keys
  {
  }

  /** The last read of a reported stream brought no data, unless its sandbox is over the limit. */
  ghost predicate ReportedDrained(tokens: seq<u64>, known: map<nat, Sandbox>, world: map<nat, Account>) {
    && (forall id :: id in known && Reported(tokens, id, TOKEN_TYPE_STDOUT) ==>
         id in world && (world[id].stdoutDry || OverLimit(world[id])))
    && (forall id :: id in known && Reported(tokens, id, TOKEN_TYPE_STDERR) ==>
         id in world && (world[id].stderrDry || OverLimit(world[id])))
  }

  predicate OverLimit(w: Account) {
    |w.stdout| + |w.stderr| > w.maxOutput
  }

  lemma DrainedMeans(
    tokens: seq<u64>, out: seq<nat>, err: seq<nat>, known: map<nat, Sandbox>, world: map<nat, Account>)
    requires forall id :: id in out <==> id in known && Reported(tokens, id, TOKEN_TYPE_STDOUT)
    requires forall id :: id in err <==> id in known && Reported(tokens, id, TOKEN_TYPE_STDERR)
    requires AllDrained(out, Stdout, known, world) && AllDrained(err, Stderr, known, world)
    ensures ReportedDrained(tokens, known, world)
  {
    hide Reported;
    forall id | id in out ensures IsDrained(world, id, Stdout) {}
    forall id | id in err ensures IsDrained(world, id, Stderr) {}
  }

  lemma DrainedOn(
    ids: seq<nat>, stream: Stream, known: map<nat, Sandbox>, known': map<nat, Sandbox>,
    before: map<nat, Account>, after: map<nat, Account>)
    requires AllDrained(ids, stream, known, before) && KeepsDrained(before, after) && known.Keys == known'.Keys
    ensures AllDrained(ids, stream, known', after)
  {
    hide IsDrained;
  }

  /** What is left of `read` by the sweep at `now`. */
  ghost predicate LeftBySweep(read: map<nat, Sandbox>, now: int, left: map<nat, Sandbox>) {
    forall id :: id in left ==> id in read && left[id] == Expire(read[id], now)
  }

  /** Taking everything done out of what the sweep saw leaves exactly the rest. */
  lemma SweepLeaves(
    before: map<nat, Sandbox>, swept: map<nat, Sandbox>, world: map<nat, Account>, world': map<nat, Account>,
    now: int, done: seq<nat>)
    requires Swept({}, before, swept, world, world', now)
    requires forall id :: id in done <==> id in swept && swept[id].IsDone()
    ensures LeftBySweep(before, now, swept)
    ensures LeftBySweep(before, now, Minus(swept, done)) && before.Keys == swept.Keys
    ensures CollectsDone(before, before, now, Minus(swept, done))
  {
    MinusMeans(swept, done);
    hide Minus, Expire;
  }

  lemma LeavesLess(before: map<nat, Sandbox>, swept: map<nat, Sandbox>, now: int, done: seq<nat>, k: nat)
    requires LeftBySweep(before, now, swept) && k <= |done|
    ensures LeftBySweep(before, now, Minus(swept, done[..k]))
  {
    MinusMeans(swept, done[..k]);
    hide Minus, Expire;
  }

  lemma StillDone(swept: map<nat, Sandbox>, done: seq<nat>, i: nat)
    requires i < |done| && forall id :: id in done && id in swept ==> swept[id].IsDone()
    ensures done[i] in Minus(swept, done[..i]) ==>
      done[i] in swept && Minus(swept, done[..i])[done[i]].IsDone()
  {
    MinusMeans(swept, done[..i]);
  }

  lemma TerminalsKnown(events: seq<Event>, known: map<nat, Sandbox>, known': map<nat, Sandbox>)
    requires TerminalFor(events, known') && known'.Keys == known.Keys
    ensures TerminalFor(events, known)
  {
  }

  lemma MinusStep(m: map<nat, Sandbox>, ids: seq<nat>)
    requires ids != []
    ensures Minus(m, ids) == Minus(m, ids[..|ids| - 1]) - {ids[|ids| - 1]} && Minus(m, []) == m
  {
  }

  /** With the sweep what stays is routed as claimed. */
  lemma SweepRoutes(
    tokens: seq<u64>, before: map<nat, Sandbox>, read: map<nat, Sandbox>, now: int,
    left: map<nat, Sandbox>, clock: int)
    requires AllReadBy(tokens, before, read) && LeftBySweep(read, now, left) && now <= clock
    ensures forall id :: id in left ==> id in before && Routed(tokens, id, before[id], left[id], clock)
    ensures forall id :: id in left && left[id].deadline <= now ==> left[id].pidfdReady
  {
    hide Reported;
  }

  // ---- When a poll collects a sandbox ----

  /** Exactly what is done after the reads and the deadline branch is collected. */
  ghost predicate CollectsDone(before: map<nat, Sandbox>, read: map<nat, Sandbox>, now: int, after: map<nat, Sandbox>) {
    before.Keys == read.Keys && forall id :: id in read ==> (id !in after <==> Expire(read[id], now).IsDone())
  }

  /**
   * So a poll collects a sandbox exactly when its exit has been reported or its
   * deadline has passed, and each of its streams had ended before or is reported
   * and found to end.
   */
  lemma CollectedExactly(
    tokens: seq<u64>, before: map<nat, Sandbox>, read: map<nat, Sandbox>, now: int, after: map<nat, Sandbox>, id: nat)
    requires AllReadBy(tokens, before, read) && CollectsDone(before, read, now, after) && id in before
    ensures id !in after <==>
      && (before[id].pidfdReady || Reported(tokens, id, TOKEN_TYPE_PIDFD) || before[id].deadline <= now)
      && (before[id].stdoutClosed || (Reported(tokens, id, TOKEN_TYPE_STDOUT) && read[id].stdoutClosed))
      && (before[id].stderrClosed || (Reported(tokens, id, TOKEN_TYPE_STDERR) && read[id].stderrClosed))
  {
    hide Reported;
    assert ReadBy(tokens, id, before[id], read[id]);
  }

  lemma CollectsFrom(before: map<nat, Sandbox>, read: map<nat, Sandbox>, now: int, after: map<nat, Sandbox>)
    requires before.Keys == read.Keys
    ensures CollectsDone(read, read, now, after) ==> CollectsDone(before, read, now, after)
  {
  }

  lemma NothingDoneStays(before: map<nat, Sandbox>, read: map<nat, Sandbox>, now: int, after: map<nat, Sandbox>)
    requires LeftBySweep(read, now, after)
    ensures CollectsDone(before, read, now, after) ==> forall id :: id in after ==> !after[id].IsDone()
  {
  }

  lemma NothingReported(sandboxes: map<nat, Sandbox>, world: map<nat, Account>)
    ensures AllReadBy([], sandboxes, sandboxes) && ReportedDrained([], sandboxes, world)
    ensures sandboxes == map[] ==> forall now :: CollectsDone(sandboxes, sandboxes, now, sandboxes)
  {
  }

  /** What the states and events of a dispatch come to. */
  lemma DispatchMeans(
    tokens: seq<u64>, nextId: nat, before: map<nat, Sandbox>, read: map<nat, Sandbox>, now: int,
    after: map<nat, Sandbox>, events: seq<Event>, s: State)
    requires Inv(s) && s.sandboxes == after && now <= s.clock
    requires AllReadBy(tokens, before, read) && LeftBySweep(read, now, after)
    requires forall id :: id in before ==> id < nextId
    requires forall e :: e in events ==> e.id in before && Caused(tokens, e)
    ensures forall id :: id in after ==> id in before && Routed(tokens, id, before[id], after[id], s.clock)
    ensures nextId <= ID_LIMIT ==> OnlyOwnTokens(tokens, before, after, events, s.clock)
    ensures CollectsDone(before, read, now, after) ==> forall id :: id in after ==> !after[id].IsDone()
    ensures forall id :: id in after && after[id].deadline <= now ==>
      id in s.world && (s.world[id].exited || s.world[id].deadlineKill.Some?)
  {
    hide Inv, Routed, Caused, AllReadBy, LeftBySweep, CollectsDone, OnlyOwnTokens;
    SweepRoutes(tokens, before, read, now, after, s.clock);
    NothingDoneStays(before, read, now, after);
    AllActiveKnown(s);
    OnlyOwn(tokens, nextId, before, after, events, s.clock);
  }

  /** One poll as seen by one sandbox: the tokens, its state after the reads, and the time of the sweep. */
  datatype Round = Round(tokens: seq<u64>, read: Sandbox, now: int)

  ghost predicate Follows(id: nat, st: Sandbox, rounds: seq<Round>)
    decreases |rounds|
  {
    rounds == [] ||
    (var r := rounds[0];
     ReadBy(r.tokens, id, st, r.read) && Follows(id, Expire(r.read, r.now), rounds[1..]))
  }

  /**
   * A stream that is left open, as after a read that stopped at the limit, keeps
   * its sandbox active for good unless it is reported again: over any number of
   * polls, deadlines notwithstanding.
   */
  lemma {:induction false} StaysForGood(id: nat, st: Sandbox, rounds: seq<Round>, k: nat, stream: Stream)
    requires Follows(id, st, rounds) && k < |rounds|
    requires if stream == Stdout then !st.stdoutClosed else !st.stderrClosed
    requires forall r :: r in rounds ==>
      !Reported(r.tokens, id, if stream == Stdout then TOKEN_TYPE_STDOUT else TOKEN_TYPE_STDERR)
    ensures !Expire(rounds[k].read, rounds[k].now).IsDone()
    decreases k
  {
    hide Reported;
    assert rounds[0] in rounds;
    if k > 0 {
      assert forall r :: r in rounds[1..] ==> r in rounds;
      StaysForGood(id, Expire(rounds[0].read, rounds[0].now), rounds[1..], k - 1, stream);
    }
  }

  class Executor {
    const os: Os
    const registry: Registry
    var sandboxes: map<nat, Sandbox>
    var nextId: nat
    ghost var history: seq<Event>
    ghost var dropped: set<nat>

    ghost function View(): State
      reads this, os
    {
      State(sandboxes, history, os.world, dropped, nextId, os.clock)
    }

    ghost predicate Valid()
      reads this, os
    {
      Inv(View())
    }

    /** Every registered token was made for some id handed out, and an active sandbox has all three of its own. */
    ghost predicate Wired()
      reads this, registry
    {
      && (forall t :: t in registry.registered ==> exists id: nat :: id < nextId && t in TokensOf(id))
      && (forall id :: id in sandboxes ==> TokensOf(id) <= registry.registered)
    }

    constructor (now: int)
      ensures Valid() && Wired() && fresh(os) && fresh(registry)
      ensures history == [] && sandboxes == map[] && nextId == 0
    {
      os := new Os(now);
      registry := new Registry();
      sandboxes, nextId, history, dropped := map[], 0, [], {};
      new;
      InvInit(os.clock);
    }

    /**
     * The id is taken before anything can fail, so ids are never handed out twice;
     * neither are tokens, as long as no more than 2^62 ids are.
     */
    method Spawn(timeout: nat, maxOutput: u64) returns (r: Option<nat>)
      requires Valid() && Wired()
      modifies this, os, registry
      ensures Valid() && Wired() && history == old(history) && dropped == old(dropped)
      ensures nextId == old(nextId) + 1
      ensures r.None? ==> sandboxes == old(sandboxes) && os.world == old(os.world)
      ensures r.Some? ==>
        && r.value == old(nextId) && r.value !in old(os.world) && r.value in sandboxes
        && old(os.clock) + timeout <= sandboxes[r.value].deadline <= os.clock + timeout
        && old(os.clock) <= sandboxes[r.value].start <= os.clock
        && sandboxes[r.value]
          == Sandbox(sandboxes[r.value].deadline, sandboxes[r.value].start, [], [], maxOutput, false, false, false)
        && sandboxes == old(sandboxes)[r.value := sandboxes[r.value]]
        && os.world.Keys == old(os.world).Keys + {r.value}
      ensures old(registry.registered) <= registry.registered <= old(registry.registered) + TokensOf(old(nextId))
      ensures r.Some? ==> TokensOf(old(nextId)) <= registry.registered
      ensures nextId <= ID_LIMIT ==> TokensOf(old(nextId)) !! old(registry.registered)
    {
      hide Inv;
      var id := nextId;
      NewTokens(registry.registered, id);
      nextId := nextId + 1;
      ghost var before := old(View());
      KeptByFailedSpawn(before);

      var spawned := os.Attempt();
      KeptByTick(before.(nextId := nextId), os.clock);
      if !spawned { return None; }
      var registered := RegisterAll(id);
      KeptByTick(before.(nextId := nextId), os.clock);
      if !registered { return None; }

      Activate(id, timeout, maxOutput, before);
      return Some(id);
    }

    /** The registered sandbox gets its deadline and becomes active. */
    method Activate(id: nat, timeout: nat, maxOutput: u64, ghost before: State)
      requires Inv(before) && before.nextId == id && before.clock <= os.clock
      requires View() == before.(nextId := id + 1, clock := os.clock)
      modifies this`sandboxes, os
      ensures id !in before.world && os.clock >= old(os.clock) && id in sandboxes
      ensures old(os.clock) + timeout <= sandboxes[id].deadline <= os.clock + timeout
      ensures old(os.clock) <= sandboxes[id].start <= os.clock
      ensures View() == AfterSpawn(before.(clock := os.clock), sandboxes[id].deadline, sandboxes[id].start, maxOutput)
      ensures Valid()
    {
      hide Inv;
      var deadline := os.Now();
      deadline := deadline + timeout;
      var start := os.Now();
      KeptByTick(before, os.clock);
      KeptBySpawn(before.(clock := os.clock), deadline, start, maxOutput);
      sandboxes := sandboxes[id := Sandbox(deadline, start, [], [], maxOutput, false, false, false)];
      os.Note(id, Account(deadline, maxOutput, [], [], false, false, false, false, false, 0, None, None, None));
    }

    lemma NewTokens(registered: set<u64>, id: nat)
      requires id < ID_LIMIT ==> forall t :: t in registered ==> exists a: nat :: a < id && t in TokensOf(a)
      ensures id < ID_LIMIT ==> TokensOf(id) !! registered
    {
      forall t | t in registered && id < ID_LIMIT ensures t !in TokensOf(id) {
        var a: nat :| a < id && t in TokensOf(a);
        TokensDisjoint(a, id);
      }
    }

    /** Pidfd, stdout and stderr, up to the first failure. */
    method RegisterAll(id: nat) returns (ok: bool)
      modifies os, registry
      ensures os.world == old(os.world) && os.clock >= old(os.clock)
      ensures old(registry.registered) <= registry.registered <= old(registry.registered) + TokensOf(id)
      ensures ok ==> TokensOf(id) <= registry.registered
    {
      hide Encode;
      ok := registry.Register(os, Encode(id, TOKEN_TYPE_PIDFD));
      if !ok { return; }
      ok := registry.Register(os, Encode(id, TOKEN_TYPE_STDOUT));
      if !ok { return; }
      ok := registry.Register(os, Encode(id, TOKEN_TYPE_STDERR));
    }

    /** The blocking time of one poll: the caller's timeout, cut at the nearest deadline. */
    method CalculateTimeout(userTimeout: Option<nat>) returns (r: Option<nat>)
      modifies os
      ensures os.world == old(os.world) && os.clock >= old(os.clock)
      ensures r.None? <==> userTimeout.None? && sandboxes == map[]
      // No longer than the caller wants, nor than any deadline leaves; and as long as one of these allows.
      ensures r.Some? && userTimeout.Some? ==> r.value <= userTimeout.value
      ensures r.Some? ==> forall id :: id in sandboxes ==> r.value == 0 || os.clock + r.value <= sandboxes[id].deadline
      ensures r.Some? && r != userTimeout ==>
        exists id :: id in sandboxes && Fills(r.value, sandboxes[id].deadline, os.clock)
    {
      var now := os.Now();
      r := userTimeout;
      var todo := sandboxes.Keys;
      while todo != {}
        invariant todo <= sandboxes.Keys
        invariant r.None? ==> userTimeout.None? && todo == sandboxes.Keys
        invariant r.Some? ==> userTimeout.Some? || todo != sandboxes.Keys
        invariant r.Some? && userTimeout.Some? ==> r.value <= userTimeout.value
        invariant forall id :: id in sandboxes.Keys - todo ==>
          r.Some? && (now + r.value <= sandboxes[id].deadline || r.value == 0)
        invariant r == userTimeout ||
          (r.Some? && exists id :: id in sandboxes && r.value == Left(sandboxes[id].deadline, now))
      {
        var id :| id in todo;
        todo := todo - {id};
        var left := Left(sandboxes[id].deadline, now);
        if r.None? || left < r.value {
          r := Some(left);
        }
      }
    }

    /** One turn of the read loop; `again` when data came and the limit still holds. */
    method ReadOnce(id: nat, stream: Stream) returns (emitted: seq<Event>, again: bool)
      requires Valid() && id in sandboxes
      modifies this, os
      ensures Valid() && history == old(history) + emitted && AreData(emitted, id, stream)
      ensures nextId == old(nextId) && dropped == old(dropped) && os.clock == old(os.clock)
      ensures id in sandboxes && sandboxes == old(sandboxes)[id := sandboxes[id]]
      ensures OnlyStream(stream, old(sandboxes)[id], sandboxes[id])
      ensures again ==> old(sandboxes)[id].Total() < sandboxes[id].Total() <= sandboxes[id].maxOutput
      ensures id in old(os.world) && id in os.world && os.world == old(os.world)[id := os.world[id]]
      ensures !again ==> IsDrained(os.world, id, stream)
      ensures IsDrained(old(os.world), id, Other(stream)) ==> IsDrained(os.world, id, Other(stream))
    {
      hide Inv;
      ghost var before := View();
      ActiveIsKnown(before, id);
      emitted, again := [], false;
      var r := os.Read(id, stream);
      match r {
        case WouldBlock =>
          KeptByDry(before, id, stream);
        case Data(data) =>
          KeptByChunk(before, id, stream, data);
          sandboxes := sandboxes[id := sandboxes[id].Append(stream, data)];
          emitted := [DataEvent(id, stream, data)];
          history := history + emitted;
          again := sandboxes[id].Total() <= sandboxes[id].maxOutput;
          if !again {
            os.Kill(id, Limit);
          }
          assert View() == AfterChunk(before, id, stream, data);
        case _ =>
          KeptByEnd(before, id, stream, r);
          sandboxes := sandboxes[id := sandboxes[id].Close(stream)];
      }
    }

    /** Reads one pipe until it has nothing more, ends, or the sandbox exceeds its output limit. */
    method ReadPipe(id: nat, stream: Stream) returns (emitted: seq<Event>)
      requires Valid()
      modifies this, os
      ensures Valid() && history == old(history) + emitted && AreData(emitted, id, stream)
      ensures nextId == old(nextId) && dropped == old(dropped) && os.clock == old(os.clock)
      ensures id !in old(sandboxes) ==> emitted == [] && sandboxes == old(sandboxes)
      ensures id in old(sandboxes) ==>
        && id in sandboxes && sandboxes == old(sandboxes)[id := sandboxes[id]]
        && OnlyStream(stream, old(sandboxes)[id], sandboxes[id])
        && IsDrained(os.world, id, stream)
      ensures KeepsDrained(old(os.world), os.world)
    {
      hide Inv;
      emitted := [];
      if id !in sandboxes { return; }
      var again := true;
      while again
        invariant Valid() && history == old(history) + emitted && AreData(emitted, id, stream)
        invariant nextId == old(nextId) && dropped == old(dropped) && os.clock == old(os.clock)
        invariant id in sandboxes && sandboxes == old(sandboxes)[id := sandboxes[id]]
        invariant OnlyStream(stream, old(sandboxes)[id], sandboxes[id])
        invariant !again ==> IsDrained(os.world, id, stream)
        invariant forall i: nat, s :: (i, s) != (id, stream) && IsDrained(old(os.world), i, s) ==>
          IsDrained(os.world, i, s)
        decreases again, sandboxes[id].maxOutput - sandboxes[id].Total()
      {
        var chunk: seq<Event>;
        chunk, again := ReadOnce(id, stream);
        emitted := emitted + chunk;
      }
    }

    /** The deadline branch for one sandbox. */
    method SweepOne(id: nat, now: int)
      requires Valid() && id in sandboxes && now == os.clock
      modifies this, os
      ensures Valid() && history == old(history) && nextId == old(nextId) && dropped == old(dropped)
        && os.clock == old(os.clock)
      ensures sandboxes == old(sandboxes)[id := Expire(old(sandboxes)[id], now)]
      ensures id in old(os.world) && os.world == old(os.world)[id := Charge(old(sandboxes)[id], old(os.world)[id], now)]
    {
      hide Inv;
      ghost var before := View();
      ActiveIsKnown(before, id);
      if now >= sandboxes[id].deadline && !sandboxes[id].pidfdReady {
        KeptByDeadline(before, id, now);
        sandboxes := sandboxes[id := sandboxes[id].(pidfdReady := true)];
        os.Kill(id, Deadline(now));
      }
    }

    /** The sweep's first loop: deadline kills, and the list of what is done. */
    method Sweep() returns (now: int, toRemove: seq<nat>)
      requires Valid()
      modifies this, os
      ensures Valid() && history == old(history) && nextId == old(nextId) && dropped == old(dropped)
      ensures now == os.clock >= old(os.clock)
      ensures Swept({}, old(sandboxes), sandboxes, old(os.world), os.world, now)
      ensures forall id :: id in toRemove <==> id in sandboxes && sandboxes[id].IsDone()
    {
      hide Inv, Swept, Expire, Charge;
      ghost var start := View();
      now := os.Now();
      KeptByTick(start, os.clock);
      AllActiveKnown(start);
      toRemove := [];
      var todo := sandboxes.Keys;
      SweptNothing(sandboxes, os.world, now);
      while todo != {}
        invariant Valid() && history == old(history) && nextId == old(nextId) && dropped == old(dropped)
          && os.clock == now
        invariant sandboxes.Keys == old(sandboxes).Keys && todo <= sandboxes.Keys
        invariant Swept(todo, old(sandboxes), sandboxes, old(os.world), os.world, now)
        invariant forall id :: id in toRemove <==> id in sandboxes && id !in todo && sandboxes[id].IsDone()
      {
        var id :| id in todo;
        SweptOn(todo, old(sandboxes), sandboxes, old(os.world), os.world, now, id);
        todo := todo - {id};
        SweepOne(id, now);
        if sandboxes[id].IsDone() {
          toRemove := toRemove + [id];
        }
      }
    }

    /**
     * Kills what has passed its deadline and hands out the terminal events of
     * everything that is done. A failed wait stops the sweep: that sandbox is
     * lost, the ones behind it stay for the next poll.
     */
    method CheckCompletions() returns (ok: bool, emitted: seq<Event>, ghost now: int)
      requires Valid()
      modifies this, os
      ensures Valid() && history == old(history) + emitted && nextId == old(nextId) && os.clock >= old(os.clock)
      ensures TerminalFor(emitted, old(sandboxes))
      ensures old(os.clock) <= now <= os.clock && LeftBySweep(old(sandboxes), now, sandboxes)
      ensures ok ==> dropped == old(dropped) && CollectsDone(old(sandboxes), old(sandboxes), now, sandboxes)
      ensures KeepsDrained(old(os.world), os.world)
    {
      hide Inv, IsDrained;
      emitted := [];
      var sweep, toRemove := Sweep();
      now := sweep;
      ghost var swept, world := sandboxes, os.world;
      SweptKeepsDrained(old(sandboxes), swept, old(os.world), world, now);
      SweepLeaves(old(sandboxes), swept, old(os.world), world, now, toRemove);
      hide KeepsDrained, Swept, TerminalFor, Minus, Expire, LeftBySweep, CollectsDone;
      ghost var k;
      ok, emitted, k := FinishAll(toRemove);
      KeepsDrainedOn(old(os.world), world, os.world);
      TerminalsKnown(emitted, old(sandboxes), swept);
      LeavesLess(old(sandboxes), swept, now, toRemove, k);
      assert toRemove[..|toRemove|] == toRemove;
    }

    /** The sweep's second loop, up to the first wait that fails. */
    method FinishAll(done: seq<nat>) returns (ok: bool, emitted: seq<Event>, ghost k: nat)
      requires Valid() && forall id :: id in done && id in sandboxes ==> sandboxes[id].IsDone()
      modifies this, os
      ensures Valid() && history == old(history) + emitted && nextId == old(nextId) && os.clock >= old(os.clock)
      ensures TerminalFor(emitted, old(sandboxes))
      ensures k <= |done| && sandboxes == Minus(old(sandboxes), done[..k])
      ensures ok ==> dropped == old(dropped) && k == |done|
      ensures KeepsDrained(old(os.world), os.world)
    {
      hide Inv, IsDrained;
      emitted := [];
      k := 0;
      NoTerminals(sandboxes);
      NothingMarked(sandboxes, os.world);
      ghost var start := sandboxes;
      assert Minus(start, done[..0]) == start;
      hide KeepsDrained, TerminalFor, Minus;
      for i := 0 to |done|
        invariant Valid() && history == old(history) + emitted && nextId == old(nextId)
        invariant dropped == old(dropped) && os.clock >= old(os.clock)
        invariant TerminalFor(emitted, start)
        invariant k == i && sandboxes == Minus(start, done[..k])
        invariant KeepsDrained(old(os.world), os.world)
      {
        assert done[..i + 1][..i] == done[..i];
        MinusStep(start, done[..i + 1]);
        StillDone(start, done, i);
        ghost var before := os.world;
        var finished, e := Finish(done[i]);
        KeepsDrainedOn(old(os.world), before, os.world);
        MoreTerminals(emitted, e, done[i], start);
        emitted := emitted + e;
        k := k + 1;
        if !finished {
          return false, emitted, k;
        }
      }
      return true, emitted, k;
    }

    /** Classifies the end of a sandbox that was waited for. */
    method Conclude(id: nat, state: Sandbox, waited: WaitResult) returns (e: Event, now: int)
      modifies os
      ensures os.world == old(os.world) && now == os.clock >= old(os.clock)
      ensures e.Terminal() && e.id == id && (e.Timeout? <==> now >= state.deadline)
      ensures e.output.stdout == state.stdout && e.output.stderr == state.stderr
      ensures old(os.clock) - state.start <= e.output.duration <= now - state.start
      ensures e.output.exitCode == waited.ExitCode() && e.output.signal == waited.Signal()
      ensures e.output.status == Classify(e.Timeout?, e.output.signal, e.output.Size(), state.maxOutput)
    {
      var elapsed := os.Now();
      now := os.Now();
      var timedOut := now >= state.deadline;
      var signal := waited.Signal();
      var status := Classify(timedOut, signal, |state.stdout| + |state.stderr|, state.maxOutput);
      var output := Output(state.stdout, state.stderr, status, elapsed - state.start, waited.ExitCode(), signal);
      e := if timedOut then Event.Timeout(id, output) else Completed(id, output);
    }

    /** Removes one finished sandbox, waits for it and classifies its end. */
    method Finish(id: nat) returns (ok: bool, emitted: seq<Event>)
      requires Valid() && (id in sandboxes ==> sandboxes[id].IsDone())
      modifies this, os
      ensures Valid() && history == old(history) + emitted && nextId == old(nextId) && os.clock >= old(os.clock)
      ensures sandboxes == old(sandboxes) - {id}
      ensures forall e :: e in emitted ==> e.Terminal() && e.id == id && id in old(sandboxes)
      ensures |emitted| == if ok && id in old(sandboxes) then 1 else 0
      ensures emitted != [] ==>
        old(os.clock) <= old(sandboxes)[id].start + emitted[0].output.duration <= os.clock
      ensures ok ==> dropped == old(dropped)
      ensures !ok ==> emitted == [] && dropped == old(dropped) + {id}
      ensures KeepsDrained(old(os.world), os.world)
    {
      hide Inv, IsDrained, KeepsDrained;
      NothingMarked(sandboxes, os.world);
      ok, emitted := true, [];
      if id in sandboxes {
        ghost var before := View();
        ActiveIsKnown(before, id);
        var state := sandboxes[id];
        sandboxes := sandboxes - {id};
        var waited := os.Wait(id);
        KeptByWait(before, id, waited);
        KeptByNote(before.world, id, os.world[id]);
        ghost var after := before.(world := os.world);
        KeptByTick(after, os.clock);
        if waited.WaitFailed? {
          KeptByDrop(after.(clock := os.clock), id);
          dropped := dropped + {id};
          return false, [];
        }
        var e, now := Conclude(id, state, waited);
        KeptByTick(after, os.clock);
        ghost var ticked := after.(clock := os.clock);
        KeptByFinish(ticked, id, e, now);
        os.Note(id, os.world[id].(collected := Some(now)));
        assert os.world == before.world[id := os.world[id]];
        KeptByNote(before.world, id, os.world[id]);
        emitted := [e];
        history := history + emitted;
        assert View() == AfterFinish(ticked, id, e, now);
      }
    }

    /** The active sandboxes that a kind of token was reported for. */
    method Select(tokens: seq<u64>, kind: Kind) returns (ids: seq<nat>)
      ensures forall id :: id in ids <==> id in sandboxes && Reported(tokens, id, kind)
    {
      ids := [];
      for i := 0 to |tokens|
        invariant forall id :: id in ids <==> id in sandboxes && Reported(tokens[..i], id, kind)
      {
        assert tokens[..i + 1] == tokens[..i] + [tokens[i]];
        var (id, k) := Decode(tokens[i]);
        if id in sandboxes && k == kind {
          ids := ids + [id];
          assert Reported(tokens[..i + 1], id, kind);
        }
        assert forall j: nat :: Reported(tokens[..i], j, kind) ==> Reported(tokens[..i + 1], j, kind);
        assert forall j: nat :: Reported(tokens[..i + 1], j, kind) ==>
          Reported(tokens[..i], j, kind) || (j, kind) == (id, k);
      }
      assert tokens[..|tokens|] == tokens;
    }

    /** The pidfd of an active sandbox is readable. */
    method MarkOne(id: nat)
      requires Valid()
      modifies this, os
      ensures Valid() && history == old(history) && nextId == old(nextId) && dropped == old(dropped)
        && os.clock == old(os.clock)
      ensures sandboxes ==
        if id in old(sandboxes) then old(sandboxes)[id := old(sandboxes)[id].(pidfdReady := true)] else old(sandboxes)
      ensures KeepsDrained(old(os.world), os.world)
    {
      hide Inv;
      if id in sandboxes {
        ghost var before := View();
        ActiveIsKnown(before, id);
        KeptByReady(before, id);
        sandboxes := sandboxes[id := sandboxes[id].(pidfdReady := true)];
        KeptByNote(os.world, id, os.world[id].(exited := true));
        os.Note(id, os.world[id].(exited := true));
      }
    }

    method MarkReady(ids: seq<nat>)
      requires Valid()
      modifies this, os
      ensures Valid() && history == old(history) && nextId == old(nextId) && dropped == old(dropped)
        && os.clock == old(os.clock)
      ensures Marked(ids, old(sandboxes), sandboxes)
      ensures KeepsDrained(old(os.world), os.world)
    {
      hide Inv, IsDrained, KeepsDrained, Marked;
      NothingMarked(sandboxes, os.world);
      for i := 0 to |ids|
        invariant Valid() && history == old(history) && nextId == old(nextId) && dropped == old(dropped)
          && os.clock == old(os.clock)
        invariant Marked(ids[..i], old(sandboxes), sandboxes)
        invariant KeepsDrained(old(os.world), os.world)
      {
        ghost var before, world := sandboxes, os.world;
        MarkOne(ids[i]);
        MarkedOn(ids, i, old(sandboxes), before, sandboxes);
        KeepsDrainedOn(old(os.world), world, os.world);
      }
      assert ids[..|ids|] == ids;
    }

    /** Reads one stream of each listed sandbox. */
    method ReadAll(ids: seq<nat>, stream: Stream) returns (emitted: seq<Event>)
      requires Valid()
      modifies this, os
      ensures Valid() && history == old(history) + emitted && nextId == old(nextId) && dropped == old(dropped)
        && os.clock == old(os.clock)
      ensures ReadFor(ids, stream, old(sandboxes), sandboxes)
      ensures DataFor(ids, stream, sandboxes, emitted)
      ensures AllDrained(ids, stream, sandboxes, os.world)
      ensures KeepsDrained(old(os.world), os.world)
    {
      hide Inv, IsDrained, KeepsDrained, OnlyStream, ReadFor, Emitted;
      emitted := [];
      NothingRead(ids, stream, sandboxes, os.world);
      for i := 0 to |ids|
        invariant Valid() && history == old(history) + emitted && nextId == old(nextId) && dropped == old(dropped)
          && os.clock == old(os.clock)
        invariant sandboxes.Keys == old(sandboxes).Keys && ReadFor(ids, stream, old(sandboxes), sandboxes)
        invariant DataFor(ids, stream, sandboxes, emitted)
        invariant AllDrained(ids[..i], stream, sandboxes, os.world)
        invariant KeepsDrained(old(os.world), os.world)
      {
        ghost var before, world := sandboxes, os.world;
        var e := ReadPipe(ids[i], stream);
        emitted := emitted + e;
        if ids[i] in before { ReadForOn(ids, stream, old(sandboxes), before, ids[i], sandboxes[ids[i]]); }
        KeepsDrainedOn(old(os.world), world, os.world);
        AllDrainedOn(ids, i, stream, before, sandboxes, world, os.world);
      }
      assert ids[..|ids|] == ids;
    }

    /** The part of a poll that follows the wait: mark, read, complete. */
    method Dispatch(tokens: seq<u64>)
      returns (ok: bool, events: seq<Event>, ghost read: map<nat, Sandbox>, ghost now: int)
      requires Valid()
      modifies this, os
      ensures Valid() && history == old(history) + events && nextId == old(nextId)
      ensures old(os.clock) <= now <= os.clock
      ensures AllReadBy(tokens, old(sandboxes), read) && LeftBySweep(read, now, sandboxes)
      ensures ok ==> dropped == old(dropped) && CollectsDone(old(sandboxes), read, now, sandboxes)
      ensures forall e :: e in events ==> e.id in old(sandboxes) && Caused(tokens, e)
      ensures ReportedDrained(tokens, old(sandboxes), os.world)
    {
      hide Inv, IsDrained, LeftBySweep, CollectsDone, AllReadBy, Marked, ReadFor, Reported;
      hide AllDrained, KeepsDrained, ReportedDrained;
      var pidfdReady := Select(tokens, TOKEN_TYPE_PIDFD);
      var readStdout := Select(tokens, TOKEN_TYPE_STDOUT);
      var readStderr := Select(tokens, TOKEN_TYPE_STDERR);

      ghost var m0 := sandboxes;
      MarkReady(pidfdReady);
      ghost var m1 := sandboxes;
      var out := ReadAll(readStdout, Stdout);
      ghost var m2, w2 := sandboxes, os.world;
      var err := ReadAll(readStderr, Stderr);
      ghost var w3 := os.world;
      read := sandboxes;
      StagesRead(tokens, pidfdReady, readStdout, readStderr, m0, m1, m2, read);
      SameKeys(tokens, pidfdReady, readStdout, readStderr, m0, m1, m2, read);
      var done, ended;
      done, ended, now := CheckCompletions();
      CollectsFrom(m0, read, now, sandboxes);
      KeepsDrainedOn(w2, w3, os.world);
      DrainedOn(readStdout, Stdout, m2, m0, w2, os.world);
      DrainedOn(readStderr, Stderr, read, m0, w3, os.world);
      DrainedMeans(tokens, readStdout, readStderr, m0, os.world);
      ok, events := done, out + err + ended;
    }

    /**
     * Waits for readiness, reads what is ready, and hands out what has ended.
     * `read` are the states after the reads and `now` is the time of the sweep.
     */
    method Poll(timeout: Option<nat>)
      returns (ok: bool, events: seq<Event>, ghost tokens: seq<u64>, ghost read: map<nat, Sandbox>, ghost now: int)
      requires Valid() && Wired()
      modifies this, os
      ensures Valid() && Wired() && history == old(history) + events && nextId == old(nextId)
      ensures old(sandboxes) == map[] ==> ok && events == [] && sandboxes == map[]
      ensures forall t :: t in tokens ==> t in registry.registered
      // Tokens: who changes, who yields data, what is read out.
      ensures forall id :: id in sandboxes ==>
        id in old(sandboxes) && Routed(tokens, id, old(sandboxes)[id], sandboxes[id], os.clock)
      ensures forall e :: e in events ==> e.id in old(sandboxes) && Caused(tokens, e)
      ensures nextId <= ID_LIMIT ==> OnlyOwnTokens(tokens, old(sandboxes), sandboxes, events, os.clock)
      ensures ReportedDrained(tokens, old(sandboxes), os.world)
      // Collection: exactly what is done is collected; what was overdue has exited or been killed.
      ensures old(os.clock) <= now <= os.clock && AllReadBy(tokens, old(sandboxes), read)
      ensures ok ==> dropped == old(dropped) && CollectsDone(old(sandboxes), read, now, sandboxes)
      ensures ok ==> forall id :: id in sandboxes ==> !sandboxes[id].IsDone()
      ensures ok ==> forall id :: id in sandboxes && sandboxes[id].deadline <= old(os.clock) ==>
        id in os.world && (os.world[id].exited || os.world[id].deadlineKill.Some?)
    {
      hide Inv, Routed, Caused, Encode, Reported, AllReadBy, LeftBySweep, CollectsDone, ReportedDrained;
      hide OnlyOwnTokens, TokensOf;
      ok, events, tokens, read, now := true, [], [], sandboxes, os.clock;
      ghost var before := View();
      AllActiveKnown(before);
      NothingReported(sandboxes, os.world);
      if sandboxes == map[] {
        OnlyOwn(tokens, nextId, sandboxes, sandboxes, events, os.clock);
        return;
      }

      var effective := CalculateTimeout(timeout);
      var polled := registry.Wait(os, effective);
      KeptByTick(before, os.clock);
      if polled.None? {
        ok := false;
        NothingRouted(sandboxes, os.clock);
        OnlyOwn(tokens, nextId, sandboxes, sandboxes, events, os.clock);
        return;
      }
      tokens := polled.value;
      ok, events, read, now := Dispatch(polled.value);
      DispatchMeans(tokens, old(nextId), old(sandboxes), read, now, sandboxes, events, View());
    }
  }
}

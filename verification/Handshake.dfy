/**
 * The start-up handshake between the forking parent and the sandboxed child, as
 * two processes taking interleaved steps over two eventfds and, in notify mode,
 * a socket. Any action can fail and the child can die at any time.
 */
module Handshake {
  import opened Words
  import opened Bpf
  import opened Seccomp
  import opened Outputs

  /** Numbers of the calls the child makes after its kill filter is installed. */
  datatype Numbers = Numbers(write: u32, read: u32, closeRange: u32, execve: u32)

  datatype Config = Config(
    target: Target,
    killList: seq<i64>,
    notifyList: seq<i64>,
    kill: Built,
    notifier: Built,
    numbers: Numbers,
    memory: set<u32>,  // the calls that allocating the argument vectors comes down to, if any
    notify: bool,    // notify mode is not Disabled
    stdin: bool,     // the plan carries stdin data
    spawned: bool)   // Executor::spawn rather than Executor::run
  {
    /**
     * The two programs are what the builders make of the two lists, or panics; the child's own calls are not the
     * inspected ones.
     */
    ghost predicate Valid() {
      && (kill.Panic? <==> |killList| > MAX_WHITELIST_SIZE)
      && (notifier.Panic? <==> |notifyList| > MAX_WHITELIST_SIZE)
      && (kill.Filter? ==> ImplementsKill(target, killList, kill.program))
      && (notifier.Filter? ==> ImplementsNotify(target, notifyList, notifier.program))
      && !target.Special(numbers.write) && !target.Special(numbers.read)
      && !target.Special(numbers.closeRange) && !target.Special(numbers.execve)
      && (forall nr :: nr in memory ==> !target.Special(nr))
    }

    /** Both lists the child compiles are short enough. */
    predicate Compiles() {
      |killList| <= MAX_WHITELIST_SIZE && (notify ==> |notifyList| <= MAX_WHITELIST_SIZE)
    }

    /** A call number the complete set of filters lets through without asking the supervisor. */
    predicate CanCall(nr: u32) {
      Listed(nr, killList) && !(notify && Listed(nr, notifyList))
    }

    predicate CanAllocate() {
      forall nr :: nr in memory ==> CanCall(nr)
    }

    /** The filters can be built, and the calls between the kill filter and the new program image are let through. */
    predicate CanExec() {
      Compiles()
      && CanCall(numbers.write) && CanCall(numbers.read) && CanCall(numbers.closeRange) && CanAllocate()
      && CanCall(numbers.execve)
    }

    /** The installed filters, newest first. */
    function Filters(): seq<seq<SockFilter>> {
      if notify then [Code(kill), Code(notifier)] else [Code(kill)]
    }
  }

  function Code(b: Built): seq<SockFilter> {
    if b.Filter? then b.program else []
  }

  /** The child's actions, numbered in program order. */
  type ChildPc = x: nat | x <= 16

  const CLOSE_ENDS: ChildPc := 0
  const SETUP_STDIO: ChildPc := 1
  const CHDIR: ChildPc := 2
  const NO_NEW_PRIVS: ChildPc := 3
  const LANDLOCK: ChildPc := 4
  const RLIMITS: ChildPc := 5
  const SECUREBITS: ChildPc := 6
  const DROP_CAPS: ChildPc := 7
  const INSTALL_NOTIFY: ChildPc := 8
  const SEND_LISTENER: ChildPc := 9
  const INSTALL_KILL: ChildPc := 10
  const SIGNAL_READY: ChildPc := 11
  const AWAIT_GO: ChildPc := 12
  const CLOSE_FDS: ChildPc := 13
  const BUILD_ARGUMENTS: ChildPc := 14
  const EXECVE: ChildPc := 15
  const RUNNING: ChildPc := 16

  function AfterChild(c: Config, pc: ChildPc): ChildPc
    requires pc != RUNNING
  {
    if pc == DROP_CAPS && !c.notify then INSTALL_KILL else pc + 1
  }

  /**
   * The parent's actions after the fork, numbered in program order: a handle is
   * registered with the event loop, a blocking run is monitored to its end.
   */
  type ParentPc = x: nat | x <= 10

  const OPEN_PIDFD: ParentPc := 0
  const POLL_SOCKET: ParentPc := 1
  const RECV_LISTENER: ParentPc := 2
  const POLL_READY: ParentPc := 3
  const READ_READY: ParentPc := 4
  const WRITE_GO: ParentPc := 5
  const WRITE_STDIN: ParentPc := 6
  const SET_NONBLOCKING: ParentPc := 7
  const REGISTER: ParentPc := 8
  const MONITOR: ParentPc := 9
  const DONE: ParentPc := 10

  function AfterGo(c: Config): ParentPc {
    if c.stdin then WRITE_STDIN else SET_NONBLOCKING
  }

  function AfterParent(c: Config, pc: ParentPc): ParentPc
    requires pc != DONE
  {
    if pc == OPEN_PIDFD && !c.notify then POLL_READY
    else if pc == WRITE_GO then AfterGo(c)
    else if pc == SET_NONBLOCKING then if c.spawned then REGISTER else MONITOR
    else if pc == REGISTER then DONE
    else pc + 1
  }

  /** The actions after the go-ahead. */
  predicate InTail(c: Config, pc: ParentPc) {
    || (pc == WRITE_STDIN && c.stdin)
    || pc == SET_NONBLOCKING
    || (pc == REGISTER && c.spawned)
    || (pc == MONITOR && !c.spawned)
  }

  datatype Life = Alive | Dead

  /**
   * A dead child keeps its last program point and a failed parent the action
   * that failed. `done` lists the child's completed actions.
   */
  datatype State = State(
    child: ChildPc, life: Life, done: seq<ChildPc>, filters: seq<seq<SockFilter>>,
    parent: ParentPc, failed: bool, killSent: bool,
    ready: nat, go: nat, socket: nat)

  function Init(): State {
    State(CLOSE_ENDS, Alive, [], [], OPEN_PIDFD, false, false, 0, 0, 0)
  }

  /** A step; the record is the one the kernel shows the child's filters. */
  datatype Step = ChildOk(call: SeccompData) | ChildFails | ChildDies | ParentOk | ParentFails | ParentKills

  function CallNumber(c: Config, pc: ChildPc): Option<u32> {
    if pc == SIGNAL_READY then Some(c.numbers.write)
    else if pc == AWAIT_GO then Some(c.numbers.read)
    else if pc == CLOSE_FDS then Some(c.numbers.closeRange)
    else if pc == EXECVE then Some(c.numbers.execve)
    else None
  }

  /** The filters let each of the allocating calls through; these are not inspected, so any arguments will do. */
  predicate Allocates(c: Config, filters: seq<seq<SockFilter>>) {
    forall nr :: nr in c.memory ==>
      && Verdict(filters, NativeCall(c.target, nr)).Halted?
      && Verdict(filters, NativeCall(c.target, nr)).ret == RET_ALLOW
  }

  /** The child's own installed filters let its next action through. */
  predicate PassesFilters(c: Config, s: State, call: SeccompData) {
    match CallNumber(c, s.child)
    case None => s.child == BUILD_ARGUMENTS ==> Allocates(c, s.filters)
    case Some(nr) =>
      && call.arch == c.target.auditArch && AsU32(call.nr) == nr
      && Verdict(s.filters, call).Halted? && Verdict(s.filters, call).ret == RET_ALLOW
  }

  function ChildAction(c: Config, s: State): Option<State> {
    if s.child == RUNNING || (s.child == AWAIT_GO && s.go == 0) then None
    else if (s.child == INSTALL_NOTIFY && c.notifier.Panic?) || (s.child == INSTALL_KILL && c.kill.Panic?) then None
    else
      var t := s.(child := AfterChild(c, s.child), done := s.done + [s.child]);
      if s.child == INSTALL_NOTIFY then Some(t.(filters := [Code(c.notifier)] + s.filters))
      else if s.child == SEND_LISTENER then Some(t.(socket := s.socket + 1))
      else if s.child == INSTALL_KILL then Some(t.(filters := [Code(c.kill)] + s.filters))
      else if s.child == SIGNAL_READY then Some(t.(ready := s.ready + 1))
      else if s.child == AWAIT_GO then Some(t.(go := 0))
      else Some(t)
  }

  function ParentAction(c: Config, s: State): Option<State> {
    if s.parent == DONE then None
    else if s.parent == MONITOR && s.life == Alive then None  // an output is returned once the child was waited for
    else if (s.parent == POLL_SOCKET || s.parent == RECV_LISTENER) && s.socket == 0 then None
    else if (s.parent == POLL_READY || s.parent == READ_READY) && s.ready == 0 then None
    else
      var t := s.(parent := AfterParent(c, s.parent));
      if s.parent == RECV_LISTENER then Some(t.(socket := s.socket - 1))
      else if s.parent == READ_READY then Some(t.(ready := 0))
      else if s.parent == WRITE_GO then Some(t.(go := s.go + 1))
      else Some(t)
  }

  /** The failures that `poll_or_kill` and `sync_with_child` answer with SIGKILL. */
  predicate KillsOnFailure(pc: ParentPc) {
    pc == POLL_SOCKET || pc == POLL_READY || pc == READ_READY || pc == WRITE_GO
  }

  /**
   * A failed action, or a panic of a filter builder, makes the child exit. The
   * code ignores the results of closing descriptors, setting securebits and
   * dropping capabilities, and goes on.
   */
  predicate CanFail(pc: ChildPc) {
    pc != CLOSE_ENDS && pc != SECUREBITS && pc != DROP_CAPS && pc != CLOSE_FDS && pc != RUNNING
  }

  function Next(c: Config, s: State, step: Step): Option<State> {
    match step
    case ChildOk(call) =>
      if s.life == Alive && PassesFilters(c, s, call) then ChildAction(c, s) else None
    case ChildFails =>
      if s.life == Alive && CanFail(s.child) then Some(s.(life := Dead)) else None
    case ChildDies =>
      if s.life == Alive then Some(s.(life := Dead)) else None
    case ParentOk =>
      if !s.failed then ParentAction(c, s) else None
    case ParentFails =>
      if !s.failed && s.parent != DONE
      then Some(s.(failed := true, killSent := s.killSent || KillsOnFailure(s.parent))) else None
    case ParentKills =>
      // The monitor, for the timeout or the output limit.
      if !s.failed && s.parent == MONITOR then Some(s.(killSent := true)) else None
  }

  /** The state after a run of steps, if every step was enabled. */
  function After(c: Config, s: State, steps: seq<Step>): Option<State>
    decreases |steps|
  {
    if steps == [] then Some(s)
    else
      match Next(c, s, steps[0])
      case None => None
      case Some(t) => After(c, t, steps[1..])
  }

  ghost predicate Reachable(c: Config, s: State) {
    exists steps :: After(c, Init(), steps) == Some(s)
  }

  // ---- The invariant ----

  /** The child's whole program. */
  function Program(c: Config): seq<ChildPc> {
    if c.notify then
      [CLOSE_ENDS, SETUP_STDIO, CHDIR, NO_NEW_PRIVS, LANDLOCK, RLIMITS, SECUREBITS, DROP_CAPS,
       INSTALL_NOTIFY, SEND_LISTENER, INSTALL_KILL, SIGNAL_READY, AWAIT_GO, CLOSE_FDS, BUILD_ARGUMENTS, EXECVE]
    else
      [CLOSE_ENDS, SETUP_STDIO, CHDIR, NO_NEW_PRIVS, LANDLOCK, RLIMITS, SECUREBITS, DROP_CAPS,
       INSTALL_KILL, SIGNAL_READY, AWAIT_GO, CLOSE_FDS, BUILD_ARGUMENTS, EXECVE]
  }

  function Position(c: Config, pc: ChildPc): nat {
    if c.notify || pc < INSTALL_NOTIFY then pc
    else if pc < INSTALL_KILL then INSTALL_NOTIFY
    else pc - 2
  }

  /** The actions completed before `pc`. */
  function Completed(c: Config, pc: ChildPc): seq<ChildPc> {
    Program(c)[..Position(c, pc)]
  }

  lemma CompletedStep(c: Config, pc: ChildPc)
    requires pc != RUNNING && (!c.notify ==> pc != INSTALL_NOTIFY && pc != SEND_LISTENER)
    ensures Completed(c, AfterChild(c, pc)) == Completed(c, pc) + [pc]
  {
    var k := Position(c, pc);
    assert Program(c)[k] == pc;
    assert Program(c)[..k + 1] == Program(c)[..k] + [Program(c)[k]];
  }

  function FiltersAt(c: Config, pc: ChildPc): seq<seq<SockFilter>> {
    if pc > INSTALL_KILL then c.Filters()
    else if c.notify && pc > INSTALL_NOTIFY then [Code(c.notifier)]
    else []
  }

  function Count(b: bool): nat { if b then 1 else 0 }

  /** What the child has done so far is exactly what its program point says. */
  ghost predicate Progressed(c: Config, s: State) {
    && s.done == Completed(c, s.child)
    && s.filters == FiltersAt(c, s.child)
    && (!c.notify ==> s.child != INSTALL_NOTIFY && s.child != SEND_LISTENER)
    && (s.child > INSTALL_KILL ==> c.kill.Filter?)
    && (c.notify && s.child > INSTALL_NOTIFY ==> c.notifier.Filter?)
    && (s.child > SIGNAL_READY ==> c.CanCall(c.numbers.write))
    && (s.child > AWAIT_GO ==> c.CanCall(c.numbers.read))
    && (s.child > CLOSE_FDS ==> c.CanCall(c.numbers.closeRange))
    && (s.child > BUILD_ARGUMENTS ==> c.CanAllocate())
    && (s.child > EXECVE ==> c.CanCall(c.numbers.execve))
  }

  /** Each token is written once and read once, and nobody is ahead of a token it has to wait for. */
  ghost predicate Tokens(c: Config, s: State) {
    var child, parent := s.child, s.parent;
    && (!c.notify ==>
         s.child != INSTALL_NOTIFY && s.child != SEND_LISTENER && s.parent != POLL_SOCKET && s.parent != RECV_LISTENER)
    && s.socket == Count(c.notify && child > SEND_LISTENER && parent <= RECV_LISTENER)
    && s.ready == Count(child > SIGNAL_READY && parent <= READ_READY)
    && s.go == Count(parent > WRITE_GO && child <= AWAIT_GO)
    && (c.notify && parent > POLL_SOCKET ==> child > SEND_LISTENER)
    && (parent > POLL_READY ==> child > SIGNAL_READY)
    && (child > AWAIT_GO ==> parent > WRITE_GO)
    && (s.parent > WRITE_GO && s.parent != DONE ==> InTail(c, s.parent))
    && (s.failed ==> s.parent != DONE)
    && (s.failed && KillsOnFailure(s.parent) ==> s.killSent)
    && (s.killSent ==> (s.failed && KillsOnFailure(s.parent)) || (s.parent >= MONITOR && !c.spawned))
    && (s.parent == DONE && !c.spawned ==> s.life == Dead)
  }

  ghost predicate Inv(c: Config, s: State) {
    Progressed(c, s) && Tokens(c, s)
  }

  lemma InvInit(c: Config)
    ensures Inv(c, Init())
  {
  }

  /** What the complete set of filters says of a call. */
  lemma FiltersVerdict(c: Config, call: SeccompData)
    requires c.Valid() && c.kill.Filter? && (c.notify ==> c.notifier.Filter?)
    ensures Verdict(c.Filters(), call).Halted?
    ensures Verdict(c.Filters(), call).ret ==
      if c.notify && Listed(AsU32(call.nr), c.notifyList) && KillPolicy(c.target, c.killList, call) == RET_ALLOW
      then RET_USER_NOTIF
      else KillPolicy(c.target, c.killList, call)
  {
    hide Verdict, KillPolicy, Listed, ImplementsKill, ImplementsNotify;
    if c.notify {
      StackedVerdict(c.target, c.killList, c.notifyList, c.kill.program, c.notifier.program, call);
    } else {
      KillVerdict(c.target, c.killList, c.kill.program, call);
    }
  }

  /** With all filters in place an uninspected native call is let through exactly when it can be made. */
  lemma CallPasses(c: Config, nr: u32, call: SeccompData)
    requires c.Valid() && c.kill.Filter? && (c.notify ==> c.notifier.Filter?) && !c.target.Special(nr)
    requires call.arch == c.target.auditArch && AsU32(call.nr) == nr
    ensures Verdict(c.Filters(), call).Halted?
    ensures Verdict(c.Filters(), call).ret == RET_ALLOW <==> c.CanCall(nr)
  {
    FiltersVerdict(c, call);
  }

  /** And the allocating calls pass exactly when each of them can be made. */
  lemma AllocatesExactly(c: Config)
    requires c.Valid() && c.kill.Filter? && (c.notify ==> c.notifier.Filter?)
    ensures Allocates(c, c.Filters()) <==> c.CanAllocate()
  {
    hide Verdict;
    forall nr | nr in c.memory
      ensures Verdict(c.Filters(), NativeCall(c.target, nr)).Halted?
      ensures Verdict(c.Filters(), NativeCall(c.target, nr)).ret == RET_ALLOW <==> c.CanCall(nr)
    {
      CallPasses(c, nr, NativeCall(c.target, nr));
    }
  }

  lemma FiltersStep(c: Config, s: State)
    requires Progressed(c, s) && ChildAction(c, s).Some?
    ensures ChildAction(c, s).value.filters == FiltersAt(c, AfterChild(c, s.child))
  {
    var k, n := Code(c.kill), Code(c.notifier);
    assert [k] + [n] == [k, n] && [k] + [] == [k] && [n] + [] == [n];
  }

  lemma ProgressedStep(c: Config, s: State, call: SeccompData)
    requires c.Valid() && Progressed(c, s) && PassesFilters(c, s, call) && ChildAction(c, s).Some?
    ensures Progressed(c, ChildAction(c, s).value)
  {
    CompletedStep(c, s.child);
    FiltersStep(c, s);
    if CallNumber(c, s.child).Some? {
      CallPasses(c, CallNumber(c, s.child).value, call);
    } else if s.child == BUILD_ARGUMENTS {
      AllocatesExactly(c);
    }
  }

  lemma TokensChild(c: Config, s: State)
    requires Tokens(c, s) && ChildAction(c, s).Some?
    ensures Tokens(c, ChildAction(c, s).value)
  {
  }

  lemma TokensParent(c: Config, s: State)
    requires Tokens(c, s) && !s.failed && ParentAction(c, s).Some?
    ensures Tokens(c, ParentAction(c, s).value)
  {
  }

  lemma TokensStep(c: Config, s: State, step: Step)
    requires Tokens(c, s) && Next(c, s, step).Some?
    ensures Tokens(c, Next(c, s, step).value)
  {
    if step.ChildOk? {
      TokensChild(c, s);
    } else if step.ParentOk? {
      TokensParent(c, s);
    }
  }

  lemma InvStep(c: Config, s: State, step: Step)
    requires c.Valid() && Inv(c, s) && Next(c, s, step).Some?
    ensures Inv(c, Next(c, s, step).value)
  {
    TokensStep(c, s, step);
    if step.ChildOk? {
      ProgressedStep(c, s, step.call);
    }
  }

  lemma {:induction false} InvRun(c: Config, s: State, steps: seq<Step>)
    requires c.Valid() && Inv(c, s) && After(c, s, steps).Some?
    ensures Inv(c, After(c, s, steps).value)
    decreases |steps|
  {
    if steps != [] {
      InvStep(c, s, steps[0]);
      InvRun(c, Next(c, s, steps[0]).value, steps[1..]);
    }
  }

  lemma ReachableInv(c: Config, s: State)
    requires c.Valid() && Reachable(c, s)
    ensures Inv(c, s)
  {
    var steps :| After(c, Init(), steps) == Some(s);
    InvInit(c);
    InvRun(c, Init(), steps);
  }

  // ---- Safety, in every interleaving ----

  /**
   * A program image is only ever entered after every action of the child was
   * carried out, in program order, those that can fail with success, and after
   * the parent's go-ahead. No failed start-up has sent it SIGKILL; from then on
   * each of its calls gets the verdict of the complete set of filters.
   */
  lemma ExecSafety(c: Config, s: State, d: SeccompData)
    requires c.Valid() && Reachable(c, s) && s.child == RUNNING
    ensures s.done == Program(c)
    ensures s.parent > WRITE_GO && (s.killSent ==> s.parent >= MONITOR && !c.spawned)
    ensures Verdict(s.filters, d).Halted?
    ensures Verdict(s.filters, d).ret ==
      if c.notify && Listed(AsU32(d.nr), c.notifyList) && KillPolicy(c.target, c.killList, d) == RET_ALLOW
      then RET_USER_NOTIF
      else KillPolicy(c.target, c.killList, d)
  {
    hide Verdict, KillPolicy, Listed;
    ReachableInv(c, s);
    FiltersVerdict(c, d);
  }

  /**
   * The parent gets past its wait only once the child is completely confined: its monitor and handle never see an
   * unconfined child.
   */
  lemma ParentSafety(c: Config, s: State)
    requires c.Valid() && Reachable(c, s) && s.parent > POLL_READY
    ensures s.filters == c.Filters()
    ensures Completed(c, AWAIT_GO) <= s.done
  {
    ReachableInv(c, s);
  }

  /** A blocking run returns an output only after its child has ended. */
  lemma OutputAfterEnd(c: Config, s: State)
    requires c.Valid() && Reachable(c, s) && s.parent == DONE && !c.spawned
    ensures s.life == Dead && !s.failed
  {
    ReachableInv(c, s);
  }

  /**
   * A child whose filters cannot be built panics: it never gets past them, and its parent never past the wait for
   * it.
   */
  lemma PanicNeverRuns(c: Config, s: State)
    requires c.Valid() && Reachable(c, s) && !c.Compiles()
    ensures s.child <= INSTALL_KILL && EXECVE !in s.done && s.parent <= POLL_READY && s.go == 0
  {
    ReachableInv(c, s);
    NotYet(c, s.child);
  }

  /**
   * A start-up that failed before the go-ahead was written leaves a child that
   * never gets one, killed or not. SIGKILL has been sent if what failed is the wait
   * for the listener or for readiness, the read of the ready eventfd or the write of
   * the go-ahead. It has not if what failed is opening the pidfd, receiving the
   * listener, or anything after the go-ahead up to the registration; a failed
   * monitor may have sent it before.
   */
  lemma FailureContained(c: Config, s: State)
    requires c.Valid() && Reachable(c, s) && s.failed
    ensures s.parent <= WRITE_GO ==> s.go == 0 && AWAIT_GO !in s.done && EXECVE !in s.done && s.child != RUNNING
    ensures s.parent in {POLL_SOCKET, POLL_READY, READ_READY, WRITE_GO} ==> s.killSent
    ensures s.parent in {OPEN_PIDFD, RECV_LISTENER, WRITE_STDIN, SET_NONBLOCKING, REGISTER} ==> !s.killSent
    ensures s.parent in {POLL_SOCKET, RECV_LISTENER} ==> c.notify
  {
    ReachableInv(c, s);
    if s.parent <= WRITE_GO {
      NotYet(c, s.child);
    }
  }

  /** What a child at `pc` has done: everything before it, without the notify actions when these are off. */
  lemma InCompleted(c: Config, pc: ChildPc, x: ChildPc)
    requires !c.notify ==> pc != INSTALL_NOTIFY && pc != SEND_LISTENER
    ensures x in Completed(c, pc) <==> x < pc && (c.notify || (x != INSTALL_NOTIFY && x != SEND_LISTENER))
  {
    var p, k := Program(c), Position(c, pc);
    assert forall i :: 0 <= i < |p| ==> p[i] == if c.notify || i < INSTALL_NOTIFY then i else i + 2;
    if x < pc && (c.notify || (x != INSTALL_NOTIFY && x != SEND_LISTENER)) {
      assert p[..k][Position(c, x)] == x;
    }
  }

  /**
   * The order of the set-up, in every reachable state: pipe ends, standard streams,
   * working directory, no_new_privs, Landlock, then rlimits, securebits, capabilities, the notify filter and its
   * listener if there is one, the kill filter, the ready signal, the go-ahead,
   * closing, building the arguments and execve.
   */
  lemma DoneInOrder(c: Config, s: State)
    requires c.Valid() && Reachable(c, s)
    ensures SETUP_STDIO in s.done ==> CLOSE_ENDS in s.done
    ensures CHDIR in s.done ==> SETUP_STDIO in s.done
    ensures NO_NEW_PRIVS in s.done ==> CHDIR in s.done
    ensures LANDLOCK in s.done ==> NO_NEW_PRIVS in s.done
    ensures RLIMITS in s.done ==> LANDLOCK in s.done
    ensures SECUREBITS in s.done ==> RLIMITS in s.done
    ensures DROP_CAPS in s.done ==> SECUREBITS in s.done
    ensures INSTALL_NOTIFY in s.done ==> c.notify && DROP_CAPS in s.done
    ensures SEND_LISTENER in s.done ==> INSTALL_NOTIFY in s.done
    ensures INSTALL_KILL in s.done ==> DROP_CAPS in s.done && (c.notify ==> SEND_LISTENER in s.done)
    ensures SIGNAL_READY in s.done ==> INSTALL_KILL in s.done
    ensures AWAIT_GO in s.done ==> SIGNAL_READY in s.done
    ensures CLOSE_FDS in s.done ==> AWAIT_GO in s.done
    ensures BUILD_ARGUMENTS in s.done ==> CLOSE_FDS in s.done
    ensures EXECVE in s.done ==> BUILD_ARGUMENTS in s.done
    ensures s.child == RUNNING ==> EXECVE in s.done
  {
    hide Reachable, Completed;
    ReachableInv(c, s);
    forall x: ChildPc
      ensures x in s.done <==> x < s.child && (c.notify || (x != INSTALL_NOTIFY && x != SEND_LISTENER))
    {
      InCompleted(c, s.child, x);
    }
  }

  /** Each of the child's last actions needs its own call to pass: write, read, close_range, the allocations, execve. */
  lemma EachCallNeeded(c: Config, s: State)
    requires c.Valid() && Reachable(c, s)
    ensures SIGNAL_READY in s.done ==> c.CanCall(c.numbers.write)
    ensures AWAIT_GO in s.done ==> c.CanCall(c.numbers.read)
    ensures CLOSE_FDS in s.done ==> c.CanCall(c.numbers.closeRange)
    ensures BUILD_ARGUMENTS in s.done ==> forall nr :: nr in c.memory ==> c.CanCall(nr)
    ensures EXECVE in s.done ==> c.CanCall(c.numbers.execve)
  {
    hide Reachable, Completed;
    ReachableInv(c, s);
    forall x: ChildPc ensures x in s.done ==> x < s.child {
      InCompleted(c, s.child, x);
    }
  }

  /** Closing descriptors, securebits and capabilities are the actions whose failure the child ignores. */
  lemma FailsExactly(c: Config, s: State)
    requires s.life == Alive && s.child != RUNNING
    ensures Next(c, s, ChildFails).None? <==> s.child in {CLOSE_ENDS, SECUREBITS, DROP_CAPS, CLOSE_FDS}
  {
  }

  lemma NotYet(c: Config, pc: ChildPc)
    requires pc <= AWAIT_GO
    ensures AWAIT_GO !in Completed(c, pc) && EXECVE !in Completed(c, pc)
  {
    var k := Position(c, AWAIT_GO);
    assert Completed(c, pc) <= Program(c)[..k];
    assert AWAIT_GO !in Program(c)[..k] && EXECVE !in Program(c)[..k];
  }

  // ---- Progress without failures ----

  predicate FaultFree(steps: seq<Step>) {
    forall i :: 0 <= i < |steps| ==> steps[i].ChildOk? || steps[i].ParentOk?
  }

  /** Actions left to the two processes. */
  function Measure(s: State): nat {
    RUNNING - s.child + DONE - s.parent
  }

  lemma MeasureDecreases(c: Config, s: State, step: Step)
    requires step.ChildOk? || step.ParentOk?
    requires Next(c, s, step).Some?
    ensures Measure(Next(c, s, step).value) < Measure(s)
  {
  }

  /** No deadlock: while neither side has failed or died, and the child is not yet running, one of them can act. */
  lemma NoDeadlock(c: Config, s: State) returns (step: Step)
    requires c.Valid() && c.CanExec() && Inv(c, s) && s.life == Alive && !s.failed && s.child != RUNNING
    ensures step.ChildOk? || (step.ParentOk? && s.parent <= WRITE_GO)
    ensures Next(c, s, step).Some?
  {
    if s.child == AWAIT_GO && s.go == 0 {
      step := ParentOk;
    } else if CallNumber(c, s.child).Some? {
      var nr := CallNumber(c, s.child).value;
      CallPasses(c, nr, NativeCall(c.target, nr));
      step := ChildOk(NativeCall(c.target, nr));
    } else {
      if s.child == BUILD_ARGUMENTS { AllocatesExactly(c); }
      step := ChildOk(NativeCall(c.target, 0));
    }
  }

  /** A failure-free step leaves both sides healthy. */
  lemma FaultFreeStep(c: Config, s: State, step: Step)
    requires (step.ChildOk? || step.ParentOk?) && Next(c, s, step).Some?
    ensures var t := Next(c, s, step).value;
      && t.life == s.life && t.failed == s.failed
      && (s.parent <= WRITE_GO || (s.parent == AfterGo(c) && step.ChildOk?) ==>
           t.parent <= WRITE_GO || t.parent == AfterGo(c))
  {
    hide PassesFilters;
  }

  /** Failure-free runs are short, and one that cannot go on has reached the new program image. */
  lemma {:induction false} FaultFreeRun(c: Config, s: State, steps: seq<Step>)
    requires c.Valid() && c.CanExec() && Inv(c, s) && s.life == Alive && !s.failed
    requires FaultFree(steps) && After(c, s, steps).Some?
    ensures |steps| <= Measure(s)
    ensures var t := After(c, s, steps).value;
      t.life == Alive && !t.failed
      && ((forall step: Step :: step.ChildOk? || step.ParentOk? ==> Next(c, t, step).None?) ==> t.child == RUNNING)
    decreases |steps|
  {
    hide Next, Inv, Measure;
    if steps == [] {
      if s.child != RUNNING {
        var step := NoDeadlock(c, s);
      }
    } else {
      assert steps[0].ChildOk? || steps[0].ParentOk?;
      InvStep(c, s, steps[0]);
      FaultFreeStep(c, s, steps[0]);
      MeasureDecreases(c, s, steps[0]);
      FaultFreeRun(c, Next(c, s, steps[0]).value, steps[1..]);
    }
  }

  lemma RunningPastGo(c: Config, s: State)
    requires Inv(c, s) && s.child == RUNNING
    ensures s.parent > WRITE_GO
  {
  }

  /** Whatever happened so far, a healthy start-up can still be completed without failures. */
  lemma {:induction false} Completes(c: Config, s: State) returns (steps: seq<Step>)
    requires c.Valid() && c.CanExec() && Inv(c, s) && s.life == Alive && !s.failed
    ensures FaultFree(steps) && After(c, s, steps).Some?
    ensures After(c, s, steps).value.child == RUNNING && After(c, s, steps).value.life == Alive
      && !After(c, s, steps).value.failed
    ensures s.parent <= WRITE_GO || s.parent == AfterGo(c) ==> After(c, s, steps).value.parent == AfterGo(c)
    decreases Measure(s)
  {
    hide Next, Inv, Measure, AfterGo;
    if s.child == RUNNING {
      RunningPastGo(c, s);
      steps := [];
    } else {
      var step := NoDeadlock(c, s);
      InvStep(c, s, step);
      FaultFreeStep(c, s, step);
      MeasureDecreases(c, s, step);
      AfterGoIsLate(c);
      var rest := Completes(c, Next(c, s, step).value);
      steps := [step] + rest;
      assert steps[1..] == rest;
    }
  }

  lemma AfterGoIsLate(c: Config)
    ensures AfterGo(c) > WRITE_GO
  {
  }

  /**
   * The handshake can lead to the program at all exactly when the plan's filters let the child's last calls
   * through.
   */
  lemma ExecPossible(c: Config)
    requires c.Valid()
    ensures (exists s :: Reachable(c, s) && s.child == RUNNING) <==> c.CanExec()
  {
    if c.CanExec() {
      InvInit(c);
      var steps := Completes(c, Init());
      assert Reachable(c, After(c, Init(), steps).value);
    }
    forall s | Reachable(c, s) && s.child == RUNNING ensures c.CanExec() {
      ReachableInv(c, s);
    }
  }

  // ---- What a failed start-up leaves behind ----

  lemma {:induction false} AfterAppend(c: Config, s: State, steps: seq<Step>, last: Step)
    requires After(c, s, steps).Some?
    ensures After(c, s, steps + [last]) == Next(c, After(c, s, steps).value, last)
    decreases |steps|
  {
    if steps == [] {
      assert (steps + [last])[1..] == [];
    } else {
      assert (steps + [last])[1..] == steps[1..] + [last];
      AfterAppend(c, Next(c, s, steps[0]).value, steps[1..], last);
    }
  }

  /** A start-up or run reported as failed whose child nevertheless runs the program, alive and not sent SIGKILL. */
  ghost predicate RunsUnsupervised(s: State) {
    s.failed && s.child == RUNNING && s.life == Alive && !s.killSent
  }

  /** While the program runs the parent can go on from one action after the go-ahead to any later one. */
  lemma {:induction false} ParentWalks(c: Config, s: State, pc: ParentPc) returns (steps: seq<Step>)
    requires InTail(c, s.parent) && InTail(c, pc) && s.parent <= pc && !s.failed
    ensures After(c, s, steps) == Some(s.(parent := pc))
    decreases pc - s.parent
  {
    if s.parent == pc {
      steps := [];
    } else {
      var t := s.(parent := AfterParent(c, s.parent));
      assert Next(c, s, ParentOk) == Some(t);
      var rest := ParentWalks(c, t, pc);
      steps := [ParentOk] + rest;
      assert steps[1..] == rest;
    }
  }

  lemma {:induction false} AfterConcat(c: Config, s: State, first: seq<Step>, rest: seq<Step>)
    requires After(c, s, first).Some?
    ensures After(c, s, first + rest) == After(c, After(c, s, first).value, rest)
    decreases |first|
  {
    if first == [] {
      assert first + rest == rest;
    } else {
      assert (first + rest)[1..] == first[1..] + rest;
      AfterConcat(c, Next(c, s, first[0]).value, first[1..], rest);
    }
  }

  /**
   * A failure reported to the caller does not always mean a dead child: every
   * action after the go-ahead can fail too (writing stdin, making the pipes
   * non-blocking, registering with the event loop or monitoring), and none of
   * these failures sends SIGKILL. So such a failure is possible at a parent's
   * action exactly when that action comes after the go-ahead and the child can
   * get to its program.
   */
  lemma UnsupervisedAt(c: Config, pc: ParentPc)
    requires c.Valid()
    ensures (exists s :: Reachable(c, s) && RunsUnsupervised(s) && s.parent == pc) <==>
      && c.CanExec()
      && ((pc == WRITE_STDIN && c.stdin) || pc == SET_NONBLOCKING
          || (pc == REGISTER && c.spawned) || (pc == MONITOR && !c.spawned))
  {
    forall s | Reachable(c, s) && RunsUnsupervised(s) && s.parent == pc ensures c.CanExec() && InTail(c, pc) {
      ReachableInv(c, s);
    }
    if c.CanExec() && InTail(c, pc) {
      var s := UnsupervisedRun(c, pc);
    }
  }

  lemma UnsupervisedRun(c: Config, pc: ParentPc) returns (s: State)
    requires c.Valid() && c.CanExec() && InTail(c, pc)
    ensures Reachable(c, s) && RunsUnsupervised(s) && s.parent == pc
  {
    InvInit(c);
    var steps := Completes(c, Init());
    var running := After(c, Init(), steps).value;
    InvRun(c, Init(), steps);
    var walk := ParentWalks(c, running, pc);
    AfterConcat(c, Init(), steps, walk);
    AfterAppend(c, Init(), steps + walk, ParentFails);
    s := running.(parent := pc, failed := true, killSent := false);
    assert After(c, Init(), steps + walk + [ParentFails]) == Some(s);
  }

  /** With any plan whose child can get to its program, then, a failure can leave the program running. */
  lemma UnsupervisedExactly(c: Config)
    requires c.Valid()
    ensures (exists s :: Reachable(c, s) && RunsUnsupervised(s)) <==> c.CanExec()
  {
    UnsupervisedAt(c, SET_NONBLOCKING);
    forall s | Reachable(c, s) && RunsUnsupervised(s) ensures c.CanExec() {
      UnsupervisedAt(c, s.parent);
    }
  }
}

/**
 * The seccomp notification supervisor. Every kernel call it makes goes into a log, the
 * kernel's answers are arbitrary, and an automaton over the log says which calls may
 * follow which.
 */
module Supervisor {
  import opened Words
  import opened Outputs
  import Bpf
  import LdCache

  datatype Mode = Disabled | Monitor | Virtualize

  datatype Notif = Notif(id: u64, pid: u32, data: Bpf.SeccompData)

  /** The system calls that take their path in the second argument, and those answered with a file. */
  datatype Arch = Arch(openat: i32, atCalls: set<i32>, openCalls: set<i32>)

  const X86_64 := Arch(257, {257, 262, 269, 439, 267}, {257, 2, 85})
  const AARCH64 := Arch(56, {56, 79, 48, 439, 78}, {56})

  datatype Setup = Setup(arch: Arch, mode: Mode, translate: Bytes -> Option<Bytes>)

  /** One kernel call together with its answer. */
  datatype Op =
    | Missed(gone: bool)  // nothing received: the target died, or an error
    | Received(notif: Notif)
    | Looked(pid: u32, addr: u64, memory: Option<Bytes>)
    | Checked(id: u64, valid: bool)
    | Opened(path: Bytes, flags: u32, fd: Option<nat>)
    | Injected(id: u64, srcfd: nat, accepted: bool)
    | Closed(file: nat)
    | Continued(id: u64, accepted: bool)

  function PathAddress(arch: Arch, n: Notif): u64 {
    if n.data.nr in arch.atCalls then n.data.args[1] else n.data.args[0]
  }

  /** The bit pattern of the flags argument, without `O_CLOEXEC`. */
  function OpenFlags(arch: Arch, n: Notif): u32 {
    var raw := AsU32(if n.data.nr == arch.openat then n.data.args[2] else n.data.args[1]);
    if (raw / 0x8_0000) % 2 == 1 then raw - 0x8_0000 else raw
  }

  /** The bytes before the first zero byte, if they are UTF-8. */
  function PathText(memory: Option<Bytes>): Option<Bytes> {
    match memory
    case None => None
    case Some(b) =>
      var text := b[..LdCache.ToNul(b)];
      if LdCache.ValidUtf8(text) then Some(text) else None
  }

  /** The file to open in place of the one asked for. */
  function Substitute(s: Setup, n: Notif, path: Bytes): Option<Bytes> {
    match s.translate(path)
    case Some(target) => if n.data.nr in s.arch.openCalls && 0 !in target then Some(target) else None
    case None => None
  }

  // ---- The protocol ----

  datatype Phase =
    | Idle
    | Holding(n: Notif)
    | Known(n: Notif, path: Bytes)
    | Vetted(n: Notif, path: Bytes)
    | HasFile(n: Notif, fd: nat)
    | Closing(n: Notif, fd: nat, answered: bool)
    | Fallback(n: Notif)
    | Wrong

  function Advance(s: Setup, phase: Phase, op: Op): Phase {
    match phase
    case Idle => if op.Received? then Holding(op.notif) else if op.Missed? then Idle else Wrong
    case Holding(n) =>
      if s.mode != Virtualize then AfterContinue(n, op)
      else if op.Looked? && op.pid == n.pid && op.addr == PathAddress(s.arch, n) then
        match PathText(op.memory)
        case Some(path) => Known(n, path)
        case None => Fallback(n)
      else Wrong
    case Known(n, path) =>
      if op.Checked? && op.id == n.id then if op.valid then Vetted(n, path) else Idle else Wrong
    case Vetted(n, path) =>
      var target := Substitute(s, n, path);
      if target == None then AfterContinue(n, op)
      else if op.Opened? && op.path == target.value && op.flags == OpenFlags(s.arch, n) then
        if op.fd.Some? then HasFile(n, op.fd.value) else Fallback(n)
      else Wrong
    case HasFile(n, fd) =>
      if op.Injected? && op.id == n.id && op.srcfd == fd then Closing(n, fd, op.accepted) else Wrong
    case Closing(n, fd, answered) =>
      if op == Closed(fd) then if answered then Idle else Fallback(n) else Wrong
    case Fallback(n) => AfterContinue(n, op)
    case Wrong => Wrong
  }

  function AfterContinue(n: Notif, op: Op): Phase {
    if op.Continued? && op.id == n.id then Idle else Wrong
  }

  function PhaseOf(s: Setup, log: seq<Op>): Phase {
    if log == [] then Idle else Advance(s, PhaseOf(s, log[..|log| - 1]), log[|log| - 1])
  }

  /** Whether an operation is an accepted reply to notification `id`. */
  predicate Answers(op: Op, id: u64) {
    (op.Continued? || op.Injected?) && op.id == id && op.accepted
  }

  /** How many replies to `id` the kernel accepted. */
  function Replies(log: seq<Op>, id: u64): nat {
    if log == [] then 0
    else Replies(log[..|log| - 1], id) + if Answers(log[|log| - 1], id) then 1 else 0
  }

  function Ids(log: seq<Op>): set<u64> {
    if log == [] then {}
    else
      var op := log[|log| - 1];
      Ids(log[..|log| - 1]) + if op.Received? then {op.notif.id} else {}
  }

  /** The kernel delivers each notification once. */
  predicate DeliveredOnce(log: seq<Op>) {
    log == [] ||
    (var op := log[|log| - 1];
     DeliveredOnce(log[..|log| - 1]) && (op.Received? ==> op.notif.id !in Ids(log[..|log| - 1])))
  }

  lemma Grow(s: Setup, log: seq<Op>, op: Op)
    ensures PhaseOf(s, log + [op]) == Advance(s, PhaseOf(s, log), op)
    ensures forall id :: Replies(log + [op], id) == Replies(log, id) + if Answers(op, id) then 1 else 0
    ensures Ids(log + [op]) == Ids(log) + if op.Received? then {op.notif.id} else {}
    ensures DeliveredOnce(log + [op]) <==> DeliveredOnce(log) && (op.Received? ==> op.notif.id !in Ids(log))
  {
    hide Advance;
    assert (log + [op])[..|log + [op]| - 1] == log;
  }

  /** How often the notification in hand has been answered. */
  function InHand(phase: Phase): Option<(Notif, nat)> {
    match phase
    case Idle | Wrong => None
    case Closing(n, _, answered) => Some((n, if answered then 1 else 0))
    case _ => Some((phase.n, 0))
  }

  /**
   * Along any log that keeps to the protocol, whatever the kernel accepts or refuses:
   * no notification is answered twice, only received ones are answered, and the one
   * in hand is unanswered but for an injection whose file is still to be closed.
   */
  lemma {:induction false} AnsweredAtMostOnce(s: Setup, log: seq<Op>, id: u64)
    requires PhaseOf(s, log) != Wrong && DeliveredOnce(log)
    ensures Replies(log, id) <= 1
    ensures id !in Ids(log) ==> Replies(log, id) == 0
    ensures
      var h := InHand(PhaseOf(s, log));
      h.Some? ==> h.value.0.id in Ids(log) && (id == h.value.0.id ==> Replies(log, id) == h.value.1)
  {
    hide PathText, Substitute, OpenFlags, PathAddress;
    if log != [] {
      AnsweredAtMostOnce(s, log[..|log| - 1], id);
    }
  }

  /** A call that leaves notification `id` without an answer: it is no longer valid, or the reply is refused. */
  predicate Refuses(op: Op, id: u64) {
    op == Checked(id, false) || op == Continued(id, false)
  }

  predicate Refused(log: seq<Op>, id: u64) {
    log != [] && (Refused(log[..|log| - 1], id) || Refuses(log[|log| - 1], id))
  }

  /** Every received notification, once no longer in hand, has one accepted reply exactly unless it was refused. */
  lemma {:induction false} AnsweredUnlessRefused(s: Setup, log: seq<Op>, id: u64)
    requires PhaseOf(s, log) != Wrong && DeliveredOnce(log)
    ensures
      var h := InHand(PhaseOf(s, log));
      if id !in Ids(log) || (h.Some? && h.value.0.id == id) then !Refused(log, id)
      else Replies(log, id) == if Refused(log, id) then 0 else 1
  {
    hide PathText, Substitute, OpenFlags, PathAddress;
    AnsweredAtMostOnce(s, log, id);
    if log != [] {
      AnsweredAtMostOnce(s, log[..|log| - 1], id);
      AnsweredUnlessRefused(s, log[..|log| - 1], id);
    }
  }

  lemma {:induction false} PrefixNotWrong(s: Setup, log: seq<Op>, i: nat)
    requires PhaseOf(s, log) != Wrong && i <= |log|
    ensures PhaseOf(s, log[..i]) != Wrong
    decreases |log| - i
  {
    if i < |log| {
      PrefixNotWrong(s, log, i + 1);
      assert log[..i + 1][..i] == log[..i];
    } else {
      assert log[..i] == log;
    }
  }

  lemma PhaseAfter(s: Setup, log: seq<Op>, i: nat)
    requires i < |log|
    ensures PhaseOf(s, log[..i + 1]) == Advance(s, PhaseOf(s, log[..i]), log[i])
  {
    hide Advance;
    assert log[..i + 1][..i] == log[..i];
  }

  /** After a refused injection come the closing of the file and a reply that lets the call proceed. */
  lemma RefusedInjectionContinues(s: Setup, log: seq<Op>, i: nat)
    requires PhaseOf(s, log) == Idle && i < |log|
    requires log[i].Injected? && !log[i].accepted
    ensures i + 2 < |log|
    ensures log[i + 1] == Closed(log[i].srcfd) && log[i + 2].Continued? && log[i + 2].id == log[i].id
  {
    hide *;
    assert log[..|log|] == log;
    PrefixNotWrong(s, log, i + 1);
    PhaseAfter(s, log, i);
    Owed(s, PhaseOf(s, log[..i]), log[i]);
    PrefixNotWrong(s, log, i + 2);
    PhaseAfter(s, log, i + 1);
    Owed(s, PhaseOf(s, log[..i + 1]), log[i + 1]);
    PrefixNotWrong(s, log, i + 3);
    PhaseAfter(s, log, i + 2);
    Owed(s, PhaseOf(s, log[..i + 2]), log[i + 2]);
  }

  /** What a refused injection leaves to be done, step by step. */
  lemma Owed(s: Setup, phase: Phase, op: Op)
    requires Advance(s, phase, op) != Wrong
    ensures op.Injected? && !op.accepted ==>
      var next := Advance(s, phase, op);
      next.Closing? && next.fd == op.srcfd && next.n.id == op.id && !next.answered
    ensures phase.Closing? && !phase.answered ==> op == Closed(phase.fd) && Advance(s, phase, op) == Fallback(phase.n)
    ensures phase.Fallback? ==> op.Continued? && op.id == phase.n.id
  {}

  /**
   * A file is opened only for an open-family call, right after the notification was found
   * still valid and before that its path read; it is the translation of that path.
   */
  lemma OpenedAfterRecheck(s: Setup, log: seq<Op>, i: nat)
    requires PhaseOf(s, log) != Wrong && i < |log| && log[i].Opened?
    ensures s.mode == Virtualize && i >= 3 && log[i - 3].Received?
    ensures
      var n := log[i - 3].notif;
      && n.data.nr in s.arch.openCalls && log[i].flags == OpenFlags(s.arch, n)
      && log[i - 1] == Checked(n.id, true)
      && log[i - 2].Looked? && log[i - 2].pid == n.pid && log[i - 2].addr == PathAddress(s.arch, n)
      && PathText(log[i - 2].memory).Some?
      && s.translate(PathText(log[i - 2].memory).value) == Some(log[i].path)
  {
    hide *;
    PrefixNotWrong(s, log, i + 1);
    PhaseAfter(s, log, i);
    OpensOnlyVetted(s, PhaseOf(s, log[..i]), log[i]);
    Back(s, log, i);
    Entered(s, PhaseOf(s, log[..i - 1]), log[i - 1]);
    Back(s, log, i - 1);
    Entered(s, PhaseOf(s, log[..i - 2]), log[i - 2]);
    Back(s, log, i - 2);
    Entered(s, PhaseOf(s, log[..i - 3]), log[i - 3]);
  }

  lemma OpensOnlyVetted(s: Setup, phase: Phase, op: Op)
    requires op.Opened? && Advance(s, phase, op) != Wrong
    ensures phase.Vetted? && phase.n.data.nr in s.arch.openCalls
    ensures s.translate(phase.path) == Some(op.path) && op.flags == OpenFlags(s.arch, phase.n)
  {}

  /** How the first three phases of an event are entered. */
  lemma Entered(s: Setup, phase: Phase, op: Op)
    ensures
      var next := Advance(s, phase, op);
      && (next.Vetted? ==> phase == Known(next.n, next.path) && op == Checked(next.n.id, true))
      && (next.Known? ==>
           s.mode == Virtualize && phase == Holding(next.n) && op.Looked? && op.pid == next.n.pid
           && op.addr == PathAddress(s.arch, next.n) && PathText(op.memory) == Some(next.path))
      && (next.Holding? ==> op == Received(next.n))
  {}

  /** A phase within an event was reached by a step from the phase before it. */
  lemma Back(s: Setup, log: seq<Op>, i: nat)
    requires i <= |log| && PhaseOf(s, log[..i]) != Idle
    ensures i >= 1 && PhaseOf(s, log[..i]) == Advance(s, PhaseOf(s, log[..i - 1]), log[i - 1])
  {
    if i >= 1 { PhaseAfter(s, log, i - 1); }
  }

  /** After a notification: CONTINUE outside Virtualize mode, and within it a look at the path in memory. */
  lemma AfterReceived(s: Setup, log: seq<Op>, i: nat)
    requires PhaseOf(s, log) == Idle && i < |log| && log[i].Received?
    ensures i + 1 < |log|
    ensures
      var n, next := log[i].notif, log[i + 1];
      if s.mode == Virtualize then next.Looked? && next.pid == n.pid && next.addr == PathAddress(s.arch, n)
      else next.Continued? && next.id == n.id
  {
    hide *;
    assert log[..|log|] == log;
    PrefixNotWrong(s, log, i + 1);
    PhaseAfter(s, log, i);
    Follows(s, PhaseOf(s, log[..i]), log[i]);
    PrefixNotWrong(s, log, i + 2);
    PhaseAfter(s, log, i + 1);
    Follows(s, PhaseOf(s, log[..i + 1]), log[i + 1]);
  }

  /** After the look: CONTINUE if there is no text, and otherwise the recheck of the same notification. */
  lemma AfterLooked(s: Setup, log: seq<Op>, i: nat)
    requires PhaseOf(s, log) == Idle && i < |log| && log[i].Looked?
    ensures 1 <= i && i + 1 < |log| && log[i - 1].Received?
    ensures
      var n, next := log[i - 1].notif, log[i + 1];
      if PathText(log[i].memory).None? then next.Continued? && next.id == n.id else next.Checked? && next.id == n.id
  {
    hide *;
    assert log[..|log|] == log;
    PrefixNotWrong(s, log, i + 1);
    PhaseAfter(s, log, i);
    Follows(s, PhaseOf(s, log[..i]), log[i]);
    Back(s, log, i);
    Entered(s, PhaseOf(s, log[..i - 1]), log[i - 1]);
    PrefixNotWrong(s, log, i + 2);
    PhaseAfter(s, log, i + 1);
    Follows(s, PhaseOf(s, log[..i + 1]), log[i + 1]);
  }

  /**
   * After a recheck that found the notification valid: the translation of the path is
   * opened exactly if the call is of the open family and there is one without a zero
   * byte; otherwise CONTINUE.
   */
  lemma AfterChecked(s: Setup, log: seq<Op>, i: nat)
    requires PhaseOf(s, log) == Idle && i < |log| && log[i].Checked? && log[i].valid
    ensures 2 <= i && i + 1 < |log| && log[i - 2].Received? && log[i - 1].Looked? && PathText(log[i - 1].memory).Some?
    ensures
      var n, next := log[i - 2].notif, log[i + 1];
      match s.translate(PathText(log[i - 1].memory).value)
      case Some(target) =>
        if n.data.nr in s.arch.openCalls && 0 !in target then next.Opened? && next.path == target
        else next.Continued? && next.id == n.id
      case None => next.Continued? && next.id == n.id
  {
    hide *;
    assert log[..|log|] == log;
    PrefixNotWrong(s, log, i + 1);
    PhaseAfter(s, log, i);
    Follows(s, PhaseOf(s, log[..i]), log[i]);
    Back(s, log, i);
    Entered(s, PhaseOf(s, log[..i - 1]), log[i - 1]);
    Back(s, log, i - 1);
    Entered(s, PhaseOf(s, log[..i - 2]), log[i - 2]);
    PrefixNotWrong(s, log, i + 2);
    PhaseAfter(s, log, i + 1);
    VettedExactly(s, PhaseOf(s, log[..i + 1]), log[i + 1]);
  }

  lemma VettedExactly(s: Setup, phase: Phase, op: Op)
    requires phase.Vetted? && Advance(s, phase, op) != Wrong
    ensures
      match s.translate(phase.path)
      case Some(target) =>
        if phase.n.data.nr in s.arch.openCalls && 0 !in target then op.Opened? && op.path == target
        else op.Continued? && op.id == phase.n.id
      case None => op.Continued? && op.id == phase.n.id
  {
  }

  /** After opening: the file is injected for the notification and then closed; if it could not be opened, CONTINUE. */
  lemma AfterOpened(s: Setup, log: seq<Op>, i: nat)
    requires PhaseOf(s, log) == Idle && i < |log| && log[i].Opened?
    ensures 3 <= i && i + 1 < |log| && log[i - 3].Received?
    ensures log[i].fd == None ==> log[i + 1].Continued? && log[i + 1].id == log[i - 3].notif.id
    ensures log[i].fd.Some? ==>
      && i + 2 < |log| && log[i + 2] == Closed(log[i].fd.value)
      && log[i + 1].Injected? && log[i + 1].id == log[i - 3].notif.id && log[i + 1].srcfd == log[i].fd.value
  {
    hide *;
    assert log[..|log|] == log;
    PrefixNotWrong(s, log, i + 1);
    PhaseAfter(s, log, i);
    OpenedAfterRecheck(s, log, i);
    OpensOnlyVetted(s, PhaseOf(s, log[..i]), log[i]);
    Back(s, log, i);
    Entered(s, PhaseOf(s, log[..i - 1]), log[i - 1]);
    Follows(s, PhaseOf(s, log[..i]), log[i]);
    PrefixNotWrong(s, log, i + 2);
    PhaseAfter(s, log, i + 1);
    Follows(s, PhaseOf(s, log[..i + 1]), log[i + 1]);
    if log[i].fd.Some? {
      PrefixNotWrong(s, log, i + 3);
      PhaseAfter(s, log, i + 2);
      Follows(s, PhaseOf(s, log[..i + 2]), log[i + 2]);
    }
  }

  /** What each phase expects, and where the calls lead. */
  lemma Follows(s: Setup, phase: Phase, op: Op)
    requires Advance(s, phase, op) != Wrong
    ensures
      var next := Advance(s, phase, op);
      && (op.Received? ==> next == Holding(op.notif))
      && (phase.Holding? ==>
           if s.mode == Virtualize then
             op.Looked? && op.pid == phase.n.pid && op.addr == PathAddress(s.arch, phase.n)
           else op.Continued? && op.id == phase.n.id)
      && (op.Looked? ==>
           phase.Holding? &&
           next == if PathText(op.memory).None? then Fallback(phase.n) else Known(phase.n, PathText(op.memory).value))
      && (phase.Known? ==> op.Checked? && op.id == phase.n.id)
      && (op.Checked? && op.valid ==> phase.Known? && next == Vetted(phase.n, phase.path))
      && (op.Opened? ==>
           phase.Vetted? && next == if op.fd.Some? then HasFile(phase.n, op.fd.value) else Fallback(phase.n))
      && (phase.HasFile? ==>
           op.Injected? && op.id == phase.n.id && op.srcfd == phase.fd && next.Closing? && next.fd == phase.fd)
      && (phase.Closing? ==> op == Closed(phase.fd))
      && (phase.Fallback? ==> op.Continued? && op.id == phase.n.id)
  {
  }

  // ---- The arguments ----

  /** The path of an *at call is its second argument, of any other call its first; three calls open, or one. */
  lemma PathArgument(n: Notif)
    ensures n.data.nr in X86_64.openCalls <==> n.data.nr == 257 || n.data.nr == 2 || n.data.nr == 85
    ensures n.data.nr in AARCH64.openCalls <==> n.data.nr == 56
    ensures PathAddress(X86_64, n) == if n.data.nr in {257, 262, 269, 439, 267} then n.data.args[1] else n.data.args[0]
    ensures PathAddress(AARCH64, n) == if n.data.nr in {56, 79, 48, 439, 78} then n.data.args[1] else n.data.args[0]
  {
  }

  /**
   * The flags are the low half of the third argument of openat and of the second one of any
   * other call, with bit 19 (`O_CLOEXEC`) cleared and all others kept.
   */
  lemma FlagsArgument(arch: Arch, n: Notif)
    requires arch == X86_64 || arch == AARCH64
    ensures
      var openat := if arch == X86_64 then 257 else 56;
      var low := (if n.data.nr == openat then n.data.args[2] else n.data.args[1]) % 0x1_0000_0000;
      OpenFlags(arch, n) == low % 0x8_0000 + low / 0x10_0000 * 0x10_0000
  {
  }

  /** The path is the UTF-8 text up to the first zero byte, or to the end of what was read. */
  lemma PathTextExactly(memory: Option<Bytes>, text: Bytes)
    ensures PathText(memory) == Some(text) <==>
      && memory.Some? && 0 !in text && LdCache.ValidUtf8(text)
      && text <= memory.value && (text == memory.value || memory.value[|text|] == 0)
  {
    if memory.Some? {
      var b := memory.value;
      var k := LdCache.ToNul(b);
      assert forall j :: 0 <= j < k ==> b[j] in b[..k];
      if 0 !in text && text <= b && (text == b || b[|text|] == 0) {
        assert forall j :: 0 <= j < |text| ==> b[j] in text;
        assert |text| == k && b[..k] == text;
      }
    }
  }

  // ---- The kernel and the supervisor ----

  datatype Receipt = Got(notif: Notif) | NoEntry | OtherError

  class Kernel {
    var log: seq<Op>
    var files: set<nat>

    constructor ()
      ensures log == [] && files == {}
    {
      log, files := [], {};
    }

    method Receive() returns (r: Receipt)
      modifies this
      ensures files == old(files)
      ensures log == old(log) + [if r.Got? then Received(r.notif) else Missed(r.NoEntry?)]
      ensures r.Got? ==> r.notif.id !in Ids(old(log))
    {
      r := *;
      if r.Got? {
        if r.notif.id in Ids(log) { r := OtherError; }
      }
      log := log + [if r.Got? then Received(r.notif) else Missed(r.NoEntry?)];
    }

    method ReadMemory(pid: u32, addr: u64) returns (memory: Option<Bytes>)
      modifies this
      ensures files == old(files) && log == old(log) + [Looked(pid, addr, memory)]
    {
      memory := *;
      log := log + [Looked(pid, addr, memory)];
    }

    method IdValid(id: u64) returns (ok: bool)
      modifies this
      ensures files == old(files) && log == old(log) + [Checked(id, ok)]
    {
      ok := *;
      log := log + [Checked(id, ok)];
    }

    method Open(path: Bytes, flags: u32) returns (fd: Option<nat>)
      modifies this
      ensures log == old(log) + [Opened(path, flags, fd)]
      ensures fd.Some? ==> fd.value !in old(files)
      ensures files == old(files) + if fd.Some? then {fd.value} else {}
    {
      fd := *;
      if fd.Some? {
        if fd.value in files { fd := None; } else { files := files + {fd.value}; }
      }
      log := log + [Opened(path, flags, fd)];
    }

    method Inject(id: u64, srcfd: nat) returns (ok: bool)
      modifies this
      ensures files == old(files) && log == old(log) + [Injected(id, srcfd, ok)]
    {
      ok := *;
      log := log + [Injected(id, srcfd, ok)];
    }

    method Close(fd: nat)
      modifies this
      ensures files == old(files) - {fd} && log == old(log) + [Closed(fd)]
    {
      files := files - {fd};
      log := log + [Closed(fd)];
    }

    method Send(id: u64) returns (ok: bool)
      modifies this
      ensures files == old(files) && log == old(log) + [Continued(id, ok)]
    {
      ok := *;
      log := log + [Continued(id, ok)];
    }
  }

  datatype Result = Error | Nothing | Handled(pid: u32, nr: i32, allowed: bool)

  /** One call of `HandleEvent`: what it received, whether it could read the path, what it returned. */
  datatype Event = Event(notif: Option<Notif>, readable: bool, result: Result)

  /** What a result says about the number of accepted replies to the notification. */
  predicate Truthful(s: Setup, e: Event, replies: nat)
  {
    match e.notif
    case None => !e.result.Handled?
    case Some(n) =>
      match e.result
      case Handled(pid, nr, allowed) => pid == n.pid && nr == n.data.nr && allowed && replies == 1
      case Error => replies == 0
      case Nothing =>
        match s.mode
        case Disabled => replies == 1
        case Monitor => false
        case Virtualize => replies == if e.readable then 0 else 1
  }

  /** At rest between events, every event in the history told the truth. */
  ghost predicate Coherent(s: Setup, log: seq<Op>, history: seq<Event>) {
    && PhaseOf(s, log) == Idle && DeliveredOnce(log)
    && (forall i :: 0 <= i < |history| ==>
         (history[i].notif.Some? ==> history[i].notif.value.id in Ids(log)) &&
         Truthful(s, history[i], RepliesTo(log, history[i])))
    && (forall i, j :: 0 <= i < j < |history| && history[i].notif.Some? && history[j].notif.Some? ==>
         history[i].notif.value.id != history[j].notif.value.id)
  }

  function RepliesTo(log: seq<Op>, e: Event): nat {
    if e.notif.Some? then Replies(log, e.notif.value.id) else 0
  }

  /** Calls were added that receive nothing and reply to `id` at most, `replies` of them with success. */
  ghost predicate Adds(before: seq<Op>, after: seq<Op>, id: u64, replies: nat) {
    && before <= after && Ids(after) == Ids(before)
    && (DeliveredOnce(before) ==> DeliveredOnce(after))
    && Replies(after, id) == Replies(before, id) + replies
    && forall other :: other != id ==> Replies(after, other) == Replies(before, other)
  }

  lemma AddsOne(s: Setup, log: seq<Op>, op: Op, id: u64)
    requires !op.Received?
    requires Answers(op, id) || forall other :: !Answers(op, other)
    ensures Adds(log, log + [op], id, if Answers(op, id) then 1 else 0)
    ensures PhaseOf(s, log + [op]) == Advance(s, PhaseOf(s, log), op)
  {
    Grow(s, log, op);
  }

  lemma Record(s: Setup, before: seq<Op>, after: seq<Op>, history: seq<Event>, e: Event)
    requires Coherent(s, before, history)
    requires PhaseOf(s, after) == Idle && DeliveredOnce(after)
    requires e.notif == None ==> Ids(after) == Ids(before) && forall id :: Replies(after, id) == Replies(before, id)
    requires e.notif.Some? ==>
      && e.notif.value.id !in Ids(before) && Ids(after) == Ids(before) + {e.notif.value.id}
      && forall other :: other != e.notif.value.id ==> Replies(after, other) == Replies(before, other)
    requires Truthful(s, e, RepliesTo(after, e))
    ensures Coherent(s, after, history + [e])
  {
    hide Truthful, PhaseOf, DeliveredOnce, Replies, Ids;
    var all := history + [e];
    forall i | 0 <= i < |all|
      ensures all[i].notif.Some? ==> all[i].notif.value.id in Ids(after)
      ensures Truthful(s, all[i], RepliesTo(after, all[i]))
    {
      if i < |history| {
        assert all[i] == history[i];
        assert RepliesTo(after, history[i]) == RepliesTo(before, history[i]);
      }
    }
  }

  /** The history's account of an event matches the calls made for it. */
  predicate Describes(e: Event, ops: seq<Op>) {
    && ops != [] && (ops[0].Missed? || ops[0].Received?)
    && e.notif == (if ops[0].Received? then Some(ops[0].notif) else None)
    && (ops[0].Missed? ==> |ops| == 1 && e.result == if ops[0].gone then Nothing else Error)
    && e.readable == !(|ops| > 1 && ops[1].Looked? && PathText(ops[1].memory) == None)
  }

  class Supervisor {
    const kernel: Kernel
    const setup: Setup
    ghost var history: seq<Event>

    ghost predicate Valid()
      reads this, kernel
    {
      Coherent(setup, kernel.log, history)
    }

    constructor (setup: Setup)
      ensures Valid() && fresh(kernel) && this.setup == setup && history == [] && kernel.files == {}
    {
      this.setup := setup;
      kernel := new Kernel();
      history := [];
    }

    /**
     * Handles one notification. Whatever the kernel answers, no file stays open, and
     * `Valid` carries the truth of this and all earlier results.
     */
    method HandleEvent() returns (r: Result)
      requires Valid()
      modifies this, kernel
      ensures Valid()
      ensures kernel.files == old(kernel.files) && old(kernel.log) <= kernel.log
      ensures |history| == |old(history)| + 1 && old(history) <= history && history[|history| - 1].result == r
      ensures Describes(history[|history| - 1], kernel.log[|old(kernel.log)|..])
      ensures |kernel.log| > |old(kernel.log)|
      // Success is for the notification received now, by its process and number, with one accepted reply.
      ensures
        var op := kernel.log[|old(kernel.log)|];
        && (r.Handled? ==>
             op.Received? && r == Handled(op.notif.pid, op.notif.data.nr, true)
             && Replies(kernel.log, op.notif.id) == 1)
        && (r.Error? && op.Received? ==> Replies(kernel.log, op.notif.id) == 0)
    {
      hide PhaseOf, Replies, Ids, DeliveredOnce;
      var receipt := kernel.Receive();
      ghost var readable := true;
      if !receipt.Got? {
        Grow(setup, old(kernel.log), Missed(receipt.NoEntry?));
        assert kernel.log[|old(kernel.log)|..] == [Missed(receipt.NoEntry?)];
        r := if receipt.NoEntry? then Nothing else Error;
        Record(setup, old(kernel.log), kernel.log, history, Event(None, readable, r));
        history := history + [Event(None, readable, r)];
        return;
      }
      var n := receipt.notif;
      Grow(setup, old(kernel.log), Received(n));
      AnsweredAtMostOnce(setup, old(kernel.log), n.id);
      assert PhaseOf(setup, kernel.log) == Holding(n);
      hide Advance;
      match setup.mode {
        case Disabled =>
          var ok := RespondContinue(n);
          r := if ok then Nothing else Error;
        case Monitor => r := HandleMonitor(n);
        case Virtualize => r, readable := HandleVirtualize(n);
      }
      Record(setup, old(kernel.log), kernel.log, history, Event(Some(n), readable, r));
      history := history + [Event(Some(n), readable, r)];
    }

    /** Lets the call proceed; the result says whether the kernel took the reply. */
    method RespondContinue(n: Notif) returns (ok: bool)
      requires forall ok :: Advance(setup, PhaseOf(setup, kernel.log), Continued(n.id, ok)) == Idle
      modifies kernel
      ensures PhaseOf(setup, kernel.log) == Idle
      ensures Adds(old(kernel.log), kernel.log, n.id, if ok then 1 else 0)
      ensures kernel.log == old(kernel.log) + [Continued(n.id, ok)] && kernel.files == old(kernel.files)
    {
      hide Advance, PhaseOf, Replies, Ids, DeliveredOnce;
      ok := kernel.Send(n.id);
      AddsOne(setup, old(kernel.log), Continued(n.id, ok), n.id);
    }

    method HandleMonitor(n: Notif) returns (r: Result)
      requires PhaseOf(setup, kernel.log) == Holding(n) && setup.mode == Monitor
      modifies kernel
      ensures PhaseOf(setup, kernel.log) == Idle
      ensures r == Error || r == Handled(n.pid, n.data.nr, true)
      ensures Adds(old(kernel.log), kernel.log, n.id, if r.Handled? then 1 else 0)
      ensures kernel.log == old(kernel.log) + [Continued(n.id, r.Handled?)] && kernel.files == old(kernel.files)
    {
      hide PhaseOf, Replies, Ids, DeliveredOnce;
      var ok := RespondContinue(n);
      r := if ok then Handled(n.pid, n.data.nr, true) else Error;
    }

    method ReadChildString(n: Notif, addr: u64) returns (text: Option<Bytes>)
      requires PhaseOf(setup, kernel.log) == Holding(n) && setup.mode == Virtualize
        && addr == PathAddress(setup.arch, n)
      modifies kernel
      ensures PhaseOf(setup, kernel.log) == if text.Some? then Known(n, text.value) else Fallback(n)
      ensures Adds(old(kernel.log), kernel.log, n.id, 0) && kernel.files == old(kernel.files)
      ensures |kernel.log| == |old(kernel.log)| + 1 && kernel.log[|old(kernel.log)|].Looked?
      ensures text == PathText(kernel.log[|old(kernel.log)|].memory)
    {
      hide PhaseOf, Replies, Ids, DeliveredOnce;
      var memory := kernel.ReadMemory(n.pid, addr);
      AddsOne(setup, old(kernel.log), Looked(n.pid, addr, memory), n.id);
      if memory == None { return None; }
      var buf := memory.value;
      buf := buf[..LdCache.ToNul(buf)];
      text := if LdCache.ValidUtf8(buf) then Some(buf) else None;
    }

    /** Opens the target for the caller and closes the supervisor's copy again, injected or not. */
    method OpenAndInject(n: Notif, path: Bytes, target: Bytes, flags: u32) returns (ok: bool)
      requires PhaseOf(setup, kernel.log) == Vetted(n, path)
      requires n.data.nr in setup.arch.openCalls && setup.translate(path) == Some(target)
        && flags == OpenFlags(setup.arch, n)
      modifies kernel
      ensures ok ==> PhaseOf(setup, kernel.log) == Idle
      ensures !ok ==> forall sent :: Advance(setup, PhaseOf(setup, kernel.log), Continued(n.id, sent)) == Idle
      ensures Adds(old(kernel.log), kernel.log, n.id, if ok then 1 else 0)
      ensures kernel.files == old(kernel.files)
    {
      hide PhaseOf, Replies, Ids, DeliveredOnce, OpenFlags;
      if 0 in target { return false; }
      var fd := kernel.Open(target, flags);
      AddsOne(setup, old(kernel.log), Opened(target, flags, fd), n.id);
      if fd == None { return false; }
      ghost var held := kernel.log;
      ok := kernel.Inject(n.id, fd.value);
      AddsOne(setup, held, Injected(n.id, fd.value, ok), n.id);
      ghost var asked := kernel.log;
      kernel.Close(fd.value);
      AddsOne(setup, asked, Closed(fd.value), n.id);
    }

    method HandleVirtualize(n: Notif) returns (r: Result, ghost readable: bool)
      requires PhaseOf(setup, kernel.log) == Holding(n) && setup.mode == Virtualize
      modifies kernel
      ensures PhaseOf(setup, kernel.log) == Idle
      ensures r.Handled? ==> r == Handled(n.pid, n.data.nr, true)
      ensures Adds(old(kernel.log), kernel.log, n.id, if r.Handled? || (r == Nothing && !readable) then 1 else 0)
      ensures kernel.files == old(kernel.files)
      ensures |kernel.log| > |old(kernel.log)| && kernel.log[|old(kernel.log)|].Looked?
      ensures readable <==> PathText(kernel.log[|old(kernel.log)|].memory).Some?
    {
      hide PhaseOf, Replies, Ids, DeliveredOnce, OpenFlags;
      var text := ReadChildString(n, PathAddress(setup.arch, n));
      readable := text.Some?;
      if text == None {
        var ok := RespondContinue(n);
        return if ok then Nothing else Error, readable;
      }
      ghost var known := kernel.log;
      var valid := kernel.IdValid(n.id);
      AddsOne(setup, known, Checked(n.id, valid), n.id);
      if !valid { return Nothing, readable; }

      var target := setup.translate(text.value);
      if target.Some? && n.data.nr in setup.arch.openCalls {
        var injected := OpenAndInject(n, text.value, target.value, OpenFlags(setup.arch, n));
        if injected { return Handled(n.pid, n.data.nr, true), readable; }
      }
      var ok := RespondContinue(n);
      r := if ok then Handled(n.pid, n.data.nr, true) else Error;
    }
  }
}

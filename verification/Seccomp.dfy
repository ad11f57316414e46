/**
 * The two filter compilers, proved against the interpreter: what a built program
 * returns on every record, that the kernel accepts it, and what the pair of
 * filters means once both are installed.
 */
module Seccomp {
  import opened Words
  import opened Bpf

  /** Architecture-dependent numbers: the audit token and the four calls whose arguments are inspected. */
  datatype Target = Target(auditArch: u32, clone3: u32, clone: u32, socket: u32, ioctl: u32)
  {
    predicate Special(nr: u32) {
      nr == clone3 || nr == clone || nr == socket || nr == ioctl
    }
  }

  const X86_64 := Target(0xc000_003e, 435, 56, 41, 16)
  const AARCH64 := Target(0xc000_00b7, 435, 220, 198, 29)

  const OFFSET_SYSCALL_NR: u32 := 0
  const OFFSET_ARCH: u32 := 4
  const OFFSET_ARGS_0: u32 := 16
  const OFFSET_ARGS_1: u32 := 24

  const CLONE_NEWNS: u32 := 0x0002_0000
  const CLONE_NEWCGROUP: u32 := 0x0200_0000
  const CLONE_NEWUTS: u32 := 0x0400_0000
  const CLONE_NEWIPC: u32 := 0x0800_0000
  const CLONE_NEWUSER: u32 := 0x1000_0000
  const CLONE_NEWPID: u32 := 0x2000_0000
  const CLONE_NEWNET: u32 := 0x4000_0000

  /** Distinct single-bit flags, so their OR is a sum. */
  const BLOCKED_CLONE_FLAGS: u32 :=
    CLONE_NEWNS + CLONE_NEWCGROUP + CLONE_NEWUTS + CLONE_NEWIPC + CLONE_NEWUSER + CLONE_NEWPID + CLONE_NEWNET

  const AF_NETLINK: u32 := 16
  const SOCK_RAW: u32 := 3

  const TIOCSTI: u32 := 0x5412
  const TIOCSETD: u32 := 0x5423
  const TIOCLINUX: u32 := 0x541C

  const MAX_WHITELIST_SIZE := 200

  // ---- The policy ----

  /** Bit positions of the flags that make clone create a namespace. */
  const NAMESPACE_BITS: set<nat> := {17, 25, 26, 27, 28, 29, 30}

  predicate CreatesNamespace(flags: u32) {
    exists b :: b in NAMESPACE_BITS && Bit(flags, b)
  }

  /** A record's number matches a listed one when both name the same 32-bit word. */
  predicate Listed(nr: u32, syscalls: seq<i64>) {
    exists x :: x in syscalls && AsU32(x) == nr
  }

  /** The verdict the whitelist filter is meant to give. */
  function KillPolicy(t: Target, syscalls: seq<i64>, d: SeccompData): u32 {
    var nr := AsU32(d.nr);
    var low0, low1 := AsU32(d.args[0]), AsU32(d.args[1]);
    if d.arch != t.auditArch then RET_KILL_PROCESS
    else if nr == t.clone3 then RET_ERRNO_ENOSYS
    else if nr == t.clone then
      if CreatesNamespace(low0) then RET_KILL_PROCESS else RET_ALLOW
    else if nr == t.socket then
      if low0 == AF_NETLINK || low1 % 16 == SOCK_RAW then RET_KILL_PROCESS else RET_ALLOW
    else if nr == t.ioctl then
      if low1 == TIOCSTI || low1 == TIOCSETD || low1 == TIOCLINUX then RET_KILL_PROCESS else RET_ALLOW
    else if Listed(nr, syscalls) then RET_ALLOW else RET_KILL_PROCESS
  }

  /** The verdict the notify filter is meant to give. */
  function NotifyPolicy(t: Target, syscalls: seq<i64>, d: SeccompData): u32 {
    if d.arch == t.auditArch && Listed(AsU32(d.nr), syscalls) then RET_USER_NOTIF else RET_ALLOW
  }

  function Max(a: int, b: int): int { if a < b then b else a }

  /** The kernel accepts `p`, and on every record it returns the policy's verdict within the step bound. */
  ghost predicate ImplementsKill(t: Target, syscalls: seq<i64>, p: seq<SockFilter>) {
    && ValidProgram(p)
    && |p| == |syscalls| + 28
    && (forall d ::
          && Run(p, d).Halted?
          && Run(p, d).ret == KillPolicy(t, syscalls, d)
          && Run(p, d).steps <= Max(|syscalls| + 8, 12))
  }

  ghost predicate ImplementsNotify(t: Target, syscalls: seq<i64>, p: seq<SockFilter>) {
    && ValidProgram(p)
    && |p| == |syscalls| + 6
    && (forall d ::
          && Run(p, d).Halted?
          && Run(p, d).ret == NotifyPolicy(t, syscalls, d)
          && Run(p, d).steps <= |syscalls| + 5)
  }

  ghost predicate IsStmt(p: seq<SockFilter>, pc: nat, code: u16, k: u32) {
    pc < |p| && p[pc] == Stmt(code, k)
  }

  /** A jump at `pc` taken to the absolute index `to`, otherwise falling through. */
  ghost predicate JumpsTo(p: seq<SockFilter>, pc: nat, code: u16, k: u32, to: nat) {
    pc < to && pc < |p| && p[pc].code == code && p[pc].k == k && p[pc].jt == to - pc - 1 && p[pc].jf == 0
  }

  // ---- Ladders of equality checks ----

  /** From `base`, one check per listed number; a hit jumps past the default to the instruction after it. */
  ghost predicate Ladder(p: seq<SockFilter>, base: nat, syscalls: seq<i64>) {
    forall i :: 0 <= i < |syscalls| ==> LadderStep(p, base, syscalls, i)
  }

  ghost predicate LadderStep(p: seq<SockFilter>, base: nat, syscalls: seq<i64>, i: nat)
    requires i < |syscalls|
  {
    JumpsTo(p, base + i, JEQ_K, AsU32(syscalls[i]), base + |syscalls| + 1)
  }

  /** Appending instructions keeps the checks built so far. */
  lemma LadderKept(p: seq<SockFilter>, q: seq<SockFilter>, base: nat, syscalls: seq<i64>, k: nat)
    requires p <= q && k <= |syscalls|
    requires forall i :: 0 <= i < k ==> LadderStep(p, base, syscalls, i)
    ensures forall i :: 0 <= i < k ==> LadderStep(q, base, syscalls, i)
  {
    forall i | 0 <= i < k ensures LadderStep(q, base, syscalls, i) {
      assert LadderStep(p, base, syscalls, i);
    }
  }

  lemma {:induction false} LadderRun(p: seq<SockFilter>, d: SeccompData, base: nat, syscalls: seq<i64>, i: nat, nr: u32)
    requires Ladder(p, base, syscalls) && i <= |syscalls| && base + |syscalls| + 1 < |p|
    requires p[base + |syscalls|].code == RET_K && p[base + |syscalls| + 1].code == RET_K
    ensures Exec(p, d, base + i, nr).Halted?
    ensures Exec(p, d, base + i, nr).ret == p[base + |syscalls| + if Listed(nr, syscalls[i..]) then 1 else 0].k
    ensures Exec(p, d, base + i, nr).steps <= |syscalls| - i + 1
    decreases |syscalls| - i
  {
    if i < |syscalls| {
      assert LadderStep(p, base, syscalls, i);
      assert syscalls[i..] == [syscalls[i]] + syscalls[i + 1..];
      if AsU32(syscalls[i]) != nr {
        LadderRun(p, d, base, syscalls, i + 1, nr);
      }
    }
  }

  // ---- The whitelist filter ----

  /** The namespace mask has exactly the namespace bits. */
  lemma MaskBits(i: nat)
    ensures Bit(BLOCKED_CLONE_FLAGS, i) <==> i in NAMESPACE_BITS
  {
    assert Shl(0x3F01, 8) == 0x3F_0100 && Shl(0x3F, 8) == 0x3F00;
    assert BLOCKED_CLONE_FLAGS == Shl(0x3F01, 17);
    ShiftedBits(0x3F01, 17, i);
    if i > 17 {
      assert Bit(0x3F01, i - 17) == Bit(0x3F00, i - 17);
      ShiftedBits(0x3F, 8, i - 17);
      assert Bit(0x3F, 0) && Bit(0x3F, 1) && Bit(0x3F, 2) && Bit(0x3F, 3) && Bit(0x3F, 4) && Bit(0x3F, 5);
      if i > 30 {
        HighBitsClear(0x3F, 6, i - 25);
      }
    }
  }

  /** JSET against the mask tests for a namespace flag. */
  lemma MaskTest(flags: u32)
    ensures BitAnd(flags, BLOCKED_CLONE_FLAGS) != 0 <==> CreatesNamespace(flags)
  {
    BitAndMeets(flags, BLOCKED_CLONE_FLAGS);
    if BitAnd(flags, BLOCKED_CLONE_FLAGS) != 0 {
      var i: nat :| Bit(flags, i) && Bit(BLOCKED_CLONE_FLAGS, i);
      MaskBits(i);
    } else if CreatesNamespace(flags) {
      var b :| b in NAMESPACE_BITS && Bit(flags, b);
      MaskBits(b);
    }
  }

  /** The absolute addresses of the whitelist filter's parts; `n` is the list's length. */
  ghost predicate WhitelistLayout(t: Target, syscalls: seq<i64>, p: seq<SockFilter>) {
    var n := |syscalls|;
    |p| == n + 28 && Dispatch(t, n, p) && Ladder(p, 8, syscalls) && Block(p, n + 8, VERDICTS)
    && Block(p, n + 11, CLONE_HANDLER) && Block(p, n + 15, SOCKET_HANDLER) && Block(p, n + 22, IOCTL_HANDLER)
  }

  ghost predicate Dispatch(t: Target, n: nat, p: seq<SockFilter>) {
    && IsStmt(p, 0, LD_W_ABS, OFFSET_ARCH)
    && JumpsTo(p, 1, JEQ_K, t.auditArch, 3)
    && IsStmt(p, 2, RET_K, RET_KILL_PROCESS)
    && IsStmt(p, 3, LD_W_ABS, OFFSET_SYSCALL_NR)
    && JumpsTo(p, 4, JEQ_K, t.clone3, n + 10)
    && JumpsTo(p, 5, JEQ_K, t.clone, n + 11)
    && JumpsTo(p, 6, JEQ_K, t.socket, n + 15)
    && JumpsTo(p, 7, JEQ_K, t.ioctl, n + 22)
  }

  /** The instructions `code` stand at `at`. */
  ghost predicate Block(p: seq<SockFilter>, at: nat, code: seq<SockFilter>) {
    at + |code| <= |p| && forall k :: 0 <= k < |code| ==> p[at + k] == code[k]
  }

  /** Default deny, allow, and ENOSYS for clone3. */
  const VERDICTS: seq<SockFilter> := [
    Stmt(RET_K, RET_KILL_PROCESS),
    Stmt(RET_K, RET_ALLOW),
    Stmt(RET_K, RET_ERRNO_ENOSYS)]

  const CLONE_HANDLER: seq<SockFilter> := [
    Stmt(LD_W_ABS, OFFSET_ARGS_0),
    Jump(JSET_K, BLOCKED_CLONE_FLAGS, 1, 0),
    Stmt(RET_K, RET_ALLOW),
    Stmt(RET_K, RET_KILL_PROCESS)]

  const SOCKET_HANDLER: seq<SockFilter> := [
    Stmt(LD_W_ABS, OFFSET_ARGS_0),
    Jump(JEQ_K, AF_NETLINK, 4, 0),
    Stmt(LD_W_ABS, OFFSET_ARGS_1),
    Stmt(AND_K, 0xF),
    Jump(JEQ_K, SOCK_RAW, 1, 0),
    Stmt(RET_K, RET_ALLOW),
    Stmt(RET_K, RET_KILL_PROCESS)]

  const IOCTL_HANDLER: seq<SockFilter> := [
    Stmt(LD_W_ABS, OFFSET_ARGS_1),
    Jump(JEQ_K, TIOCSTI, 3, 0),
    Jump(JEQ_K, TIOCSETD, 2, 0),
    Jump(JEQ_K, TIOCLINUX, 1, 0),
    Stmt(RET_K, RET_ALLOW),
    Stmt(RET_K, RET_KILL_PROCESS)]

  lemma CloneRun(p: seq<SockFilter>, d: SeccompData, at: nat, acc: u32)
    requires Block(p, at, CLONE_HANDLER)
    ensures Exec(p, d, at, acc) == Halted(if CreatesNamespace(AsU32(d.args[0])) then RET_KILL_PROCESS else RET_ALLOW, 3)
  {
    var flags := AsU32(d.args[0]);
    MaskTest(flags);
    assert p[at + 0] == CLONE_HANDLER[0] && p[at + 1] == CLONE_HANDLER[1] && p[at + 2] == CLONE_HANDLER[2]
      && p[at + 3] == CLONE_HANDLER[3];
    assert Exec(p, d, at + 2, flags) == Halted(RET_ALLOW, 1);
    assert Exec(p, d, at + 3, flags) == Halted(RET_KILL_PROCESS, 1);
    assert Exec(p, d, at + 1, flags).steps == 2;
  }

  lemma SocketRun(p: seq<SockFilter>, d: SeccompData, at: nat, acc: u32)
    requires Block(p, at, SOCKET_HANDLER)
    ensures Exec(p, d, at, acc).Halted? && Exec(p, d, at, acc).steps <= 6
    ensures Exec(p, d, at, acc).ret ==
      if AsU32(d.args[0]) == AF_NETLINK || AsU32(d.args[1]) % 16 == SOCK_RAW then RET_KILL_PROCESS else RET_ALLOW
  {
    var domain, kind := AsU32(d.args[0]), AsU32(d.args[1]);
    BitAndLowNibble(kind);
    assert p[at + 0] == SOCKET_HANDLER[0] && p[at + 1] == SOCKET_HANDLER[1] && p[at + 2] == SOCKET_HANDLER[2]
      && p[at + 3] == SOCKET_HANDLER[3];
    assert p[at + 4] == SOCKET_HANDLER[4] && p[at + 5] == SOCKET_HANDLER[5] && p[at + 6] == SOCKET_HANDLER[6];
    var masked: u32 := kind % 16;
    assert Exec(p, d, at + 5, masked) == Halted(RET_ALLOW, 1);
    assert Exec(p, d, at + 6, masked) == Halted(RET_KILL_PROCESS, 1);
    assert Exec(p, d, at + 6, domain) == Halted(RET_KILL_PROCESS, 1);
    assert Exec(p, d, at + 4, masked) == Halted(if masked == SOCK_RAW then RET_KILL_PROCESS else RET_ALLOW, 2);
    assert Exec(p, d, at + 3, kind) == Exec(p, d, at + 4, masked).AfterStep();
    assert Exec(p, d, at + 2, domain) == Exec(p, d, at + 3, kind).AfterStep();
    assert Exec(p, d, at + 1, domain).steps <= 5;
  }

  lemma IoctlRun(p: seq<SockFilter>, d: SeccompData, at: nat, acc: u32)
    requires Block(p, at, IOCTL_HANDLER)
    ensures Exec(p, d, at, acc).Halted? && Exec(p, d, at, acc).steps <= 5
    ensures Exec(p, d, at, acc).ret ==
      var command := AsU32(d.args[1]);
      if command == TIOCSTI || command == TIOCSETD || command == TIOCLINUX then RET_KILL_PROCESS else RET_ALLOW
  {
    var command := AsU32(d.args[1]);
    assert p[at + 0] == IOCTL_HANDLER[0] && p[at + 1] == IOCTL_HANDLER[1] && p[at + 2] == IOCTL_HANDLER[2];
    assert p[at + 3] == IOCTL_HANDLER[3] && p[at + 4] == IOCTL_HANDLER[4] && p[at + 5] == IOCTL_HANDLER[5];
    assert Exec(p, d, at + 5, command) == Halted(RET_KILL_PROCESS, 1);
    assert Exec(p, d, at + 4, command) == Halted(RET_ALLOW, 1);
    assert Exec(p, d, at + 3, command).steps == 2;
    assert Exec(p, d, at + 2, command).steps <= 3;
    assert Exec(p, d, at + 1, command).steps <= 4;
  }

  /** From the first of the four dispatch checks, with the number loaded. */
  lemma DispatchRun(t: Target, syscalls: seq<i64>, p: seq<SockFilter>, d: SeccompData)
    requires WhitelistLayout(t, syscalls, p) && d.arch == t.auditArch
    ensures Exec(p, d, 4, AsU32(d.nr)).Halted?
    ensures Exec(p, d, 4, AsU32(d.nr)).ret == KillPolicy(t, syscalls, d)
    ensures Exec(p, d, 4, AsU32(d.nr)).steps <= Max(|syscalls| + 5, 9)
  {
    var n, nr := |syscalls|, AsU32(d.nr);
    assert Exec(p, d, 4, nr) == Exec(p, d, if nr == t.clone3 then n + 10 else 5, nr).AfterStep();
    if nr == t.clone3 {
      assert p[n + 8 + 2] == VERDICTS[2];
      assert Exec(p, d, n + 10, nr) == Halted(RET_ERRNO_ENOSYS, 1);
    } else {
      assert Exec(p, d, 5, nr) == Exec(p, d, if nr == t.clone then n + 11 else 6, nr).AfterStep();
      if nr == t.clone {
        CloneRun(p, d, n + 11, nr);
      } else {
        assert Exec(p, d, 6, nr) == Exec(p, d, if nr == t.socket then n + 15 else 7, nr).AfterStep();
        if nr == t.socket {
          SocketRun(p, d, n + 15, nr);
        } else {
          assert Exec(p, d, 7, nr) == Exec(p, d, if nr == t.ioctl then n + 22 else 8, nr).AfterStep();
          if nr == t.ioctl {
            IoctlRun(p, d, n + 22, nr);
          } else {
            assert syscalls[0..] == syscalls;
            assert p[n + 8 + 0] == VERDICTS[0] && p[n + 8 + 1] == VERDICTS[1];
            LadderRun(p, d, 8, syscalls, 0, nr);
          }
        }
      }
    }
  }

  /** Compiler correctness for a program with the whitelist layout. */
  lemma WhitelistRun(t: Target, syscalls: seq<i64>, p: seq<SockFilter>, d: SeccompData)
    requires WhitelistLayout(t, syscalls, p)
    ensures Run(p, d).Halted?
    ensures Run(p, d).ret == KillPolicy(t, syscalls, d)
    ensures Run(p, d).steps <= Max(|syscalls| + 8, 12)
  {
    assert Exec(p, d, 0, 0) == Exec(p, d, 1, d.arch).AfterStep();
    assert Exec(p, d, 1, d.arch) == Exec(p, d, if d.arch == t.auditArch then 3 else 2, d.arch).AfterStep();
    if d.arch == t.auditArch {
      assert Exec(p, d, 3, d.arch) == Exec(p, d, 4, AsU32(d.nr)).AfterStep();
      DispatchRun(t, syscalls, p, d);
    } else {
      assert Exec(p, d, 2, d.arch) == Halted(RET_KILL_PROCESS, 1);
    }
  }

  lemma WhitelistCorrect(t: Target, syscalls: seq<i64>, p: seq<SockFilter>)
    requires WhitelistLayout(t, syscalls, p) && |syscalls| <= MAX_WHITELIST_SIZE
    ensures ImplementsKill(t, syscalls, p)
  {
    var n := |syscalls|;
    assert p[n + 22 + 5] == IOCTL_HANDLER[5];
    forall pc | 0 <= pc < |p| ensures ValidInstruction(p, pc) {
      if 8 <= pc < n + 8 {
        assert LadderStep(p, 8, syscalls, pc - 8);
      } else if n + 8 <= pc < n + 11 {
        assert p[n + 8 + (pc - (n + 8))] == VERDICTS[pc - (n + 8)];
      } else if n + 11 <= pc < n + 15 {
        assert p[n + 11 + (pc - (n + 11))] == CLONE_HANDLER[pc - (n + 11)];
      } else if n + 15 <= pc < n + 22 {
        assert p[n + 15 + (pc - (n + 15))] == SOCKET_HANDLER[pc - (n + 15)];
      } else if n + 22 <= pc {
        assert p[n + 22 + (pc - (n + 22))] == IOCTL_HANDLER[pc - (n + 22)];
      }
    }
    forall d
      ensures Run(p, d).Halted? && Run(p, d).ret == KillPolicy(t, syscalls, d)
      ensures Run(p, d).steps <= Max(n + 8, 12)
    {
      WhitelistRun(t, syscalls, p, d);
    }
  }

  /** A built filter, or the panic of a list that is too long. */
  datatype Built = Filter(program: seq<SockFilter>) | Panic

  /** Appending instructions keeps the blocks placed so far. */
  lemma BlockKept(p: seq<SockFilter>, q: seq<SockFilter>, at: nat, code: seq<SockFilter>)
    requires p <= q && Block(p, at, code)
    ensures Block(q, at, code)
  {
    forall k | 0 <= k < |code| ensures q[at + k] == code[k] {
      assert p[at + k] == code[k];
    }
  }

  method BuildWhitelistFilter(t: Target, syscalls: seq<i64>) returns (r: Built)
    ensures r.Panic? <==> |syscalls| > MAX_WHITELIST_SIZE
    ensures r.Filter? ==> ImplementsKill(t, syscalls, r.program)
  {
    if |syscalls| > MAX_WHITELIST_SIZE {
      return Panic;
    }
    var n := |syscalls|;
    // Architecture check, syscall number, and the four calls handled apart.
    var filter := [
      Stmt(LD_W_ABS, OFFSET_ARCH),
      Jump(JEQ_K, t.auditArch, 1, 0),
      Stmt(RET_K, RET_KILL_PROCESS),
      Stmt(LD_W_ABS, OFFSET_SYSCALL_NR),
      Jump(JEQ_K, t.clone3, AsU8(3 + n + 2), 0),
      Jump(JEQ_K, t.clone, AsU8(2 + n + 3), 0),
      Jump(JEQ_K, t.socket, AsU8(1 + n + 3 + 4), 0),
      Jump(JEQ_K, t.ioctl, AsU8(n + 3 + 4 + 7), 0)];
    for i := 0 to n
      invariant |filter| == 8 + i && Dispatch(t, n, filter)
      invariant forall j :: 0 <= j < i ==> LadderStep(filter, 8, syscalls, j)
    {
      ghost var before := filter;
      filter := filter + [Jump(JEQ_K, AsU32(syscalls[i]), AsU8(n - i), 0)];
      LadderKept(before, filter, 8, syscalls, i);
    }
    ghost var checks := filter;
    filter := filter + VERDICTS;
    ghost var verdicts := filter;
    filter := filter + CLONE_HANDLER;
    ghost var clone := filter;
    filter := filter + SOCKET_HANDLER;
    ghost var socket := filter;
    filter := filter + IOCTL_HANDLER;

    LadderKept(checks, filter, 8, syscalls, n);
    BlockKept(verdicts, filter, n + 8, VERDICTS);
    BlockKept(clone, filter, n + 11, CLONE_HANDLER);
    BlockKept(socket, filter, n + 15, SOCKET_HANDLER);
    WhitelistCorrect(t, syscalls, filter);
    return Filter(filter);
  }

  // ---- The notify filter ----

  ghost predicate NotifyLayout(t: Target, syscalls: seq<i64>, p: seq<SockFilter>) {
    var n := |syscalls|;
    |p| == n + 6 && NotifyHead(t, p) && Ladder(p, 4, syscalls)
    && IsStmt(p, n + 4, RET_K, RET_ALLOW) && IsStmt(p, n + 5, RET_K, RET_USER_NOTIF)
  }

  ghost predicate NotifyHead(t: Target, p: seq<SockFilter>) {
    && IsStmt(p, 0, LD_W_ABS, OFFSET_ARCH)
    && JumpsTo(p, 1, JEQ_K, t.auditArch, 3)
    && IsStmt(p, 2, RET_K, RET_ALLOW)
    && IsStmt(p, 3, LD_W_ABS, OFFSET_SYSCALL_NR)
  }

  lemma NotifyRun(t: Target, syscalls: seq<i64>, p: seq<SockFilter>, d: SeccompData)
    requires NotifyLayout(t, syscalls, p)
    ensures Run(p, d).Halted?
    ensures Run(p, d).ret == NotifyPolicy(t, syscalls, d)
    ensures Run(p, d).steps <= |syscalls| + 5
  {
    var nr := AsU32(d.nr);
    assert syscalls[0..] == syscalls;
    LadderRun(p, d, 4, syscalls, 0, nr);
    assert Exec(p, d, 2, d.arch) == Halted(RET_ALLOW, 1);
    assert Exec(p, d, 3, d.arch) == Exec(p, d, 4, nr).AfterStep();
    assert Exec(p, d, 1, d.arch) == Exec(p, d, if d.arch == t.auditArch then 3 else 2, d.arch).AfterStep();
    assert Exec(p, d, 0, 0) == Exec(p, d, 1, d.arch).AfterStep();
  }

  lemma NotifyCorrect(t: Target, syscalls: seq<i64>, p: seq<SockFilter>)
    requires NotifyLayout(t, syscalls, p) && |syscalls| <= MAX_WHITELIST_SIZE
    ensures ImplementsNotify(t, syscalls, p)
  {
    var n := |syscalls|;
    forall pc | 0 <= pc < |p| ensures ValidInstruction(p, pc) {
      if 4 <= pc < n + 4 {
        assert LadderStep(p, 4, syscalls, pc - 4);
      }
    }
    forall d
      ensures Run(p, d).Halted? && Run(p, d).ret == NotifyPolicy(t, syscalls, d)
      ensures Run(p, d).steps <= n + 5
    {
      NotifyRun(t, syscalls, p, d);
    }
  }

  method BuildNotifyFilter(t: Target, syscalls: seq<i64>) returns (r: Built)
    ensures r.Panic? <==> |syscalls| > MAX_WHITELIST_SIZE
    ensures r.Filter? ==> ImplementsNotify(t, syscalls, r.program)
  {
    if |syscalls| > MAX_WHITELIST_SIZE {
      return Panic;
    }
    var n := |syscalls|;
    var filter := [
      Stmt(LD_W_ABS, OFFSET_ARCH),
      Jump(JEQ_K, t.auditArch, 1, 0),
      Stmt(RET_K, RET_ALLOW),
      Stmt(LD_W_ABS, OFFSET_SYSCALL_NR)];
    for i := 0 to n
      invariant |filter| == 4 + i && NotifyHead(t, filter)
      invariant forall j :: 0 <= j < i ==> LadderStep(filter, 4, syscalls, j)
    {
      ghost var before := filter;
      filter := filter + [Jump(JEQ_K, AsU32(syscalls[i]), AsU8(n - i), 0)];
      LadderKept(before, filter, 4, syscalls, i);
    }
    ghost var checks := filter;
    filter := filter + [Stmt(RET_K, RET_ALLOW), Stmt(RET_K, RET_USER_NOTIF)];
    LadderKept(checks, filter, 4, syscalls, n);
    NotifyCorrect(t, syscalls, filter);
    return Filter(filter);
  }

  /** The truncating jump-offset casts lose nothing exactly up to 241 listed calls; the builders stop at 200. */
  lemma OffsetsFitOneByte(n: nat)
    ensures n <= 241 <==>
      && AsU8(3 + n + 2) == 3 + n + 2 && AsU8(2 + n + 3) == 2 + n + 3
      && AsU8(1 + n + 3 + 4) == 1 + n + 3 + 4 && AsU8(n + 3 + 4 + 7) == n + 3 + 4 + 7
      && forall offset :: 1 <= offset <= n ==> AsU8(offset) == offset
  {
  }

  // ---- The verdicts of built programs, as numbers ----

  /**
   * What a built whitelist filter returns, whatever the list: KILL_PROCESS for a
   * foreign architecture; ERRNO(ENOSYS) for clone3, listed or not; KILL_PROCESS for a
   * clone that creates a namespace, a netlink or raw socket and the three terminal
   * commands, and ALLOW for the other calls of these three; otherwise ALLOW for what
   * is listed modulo 2^32 and KILL_PROCESS for what is not.
   */
  lemma WhitelistVerdicts(t: Target, syscalls: seq<i64>, p: seq<SockFilter>, d: SeccompData)
    requires ImplementsKill(t, syscalls, p)
    requires t.clone3 != t.clone && t.clone3 != t.socket && t.clone3 != t.ioctl
    requires t.clone != t.socket && t.clone != t.ioctl && t.socket != t.ioctl
    ensures Run(p, d).Halted?
    ensures d.arch != t.auditArch ==> Run(p, d).ret == 0x8000_0000
    ensures d.arch == t.auditArch && d.nr % 0x1_0000_0000 == t.clone3 ==> Run(p, d).ret == 0x0005_0026
    ensures d.arch == t.auditArch && d.nr % 0x1_0000_0000 == t.clone ==>
      Run(p, d).ret == if BitAnd(d.args[0] % 0x1_0000_0000, 0x7E02_0000) != 0 then 0x8000_0000 else 0x7fff_0000
    ensures d.arch == t.auditArch && d.nr % 0x1_0000_0000 == t.socket ==>
      var domain, kind := d.args[0] % 0x1_0000_0000, d.args[1] % 0x10;
      Run(p, d).ret == if domain == 16 || kind == 3 then 0x8000_0000 else 0x7fff_0000
    ensures d.arch == t.auditArch && d.nr % 0x1_0000_0000 == t.ioctl ==>
      var command := d.args[1] % 0x1_0000_0000;
      Run(p, d).ret == if command in {0x5412, 0x5423, 0x541C} then 0x8000_0000 else 0x7fff_0000
    ensures d.arch == t.auditArch && d.nr % 0x1_0000_0000 !in {t.clone3, t.clone, t.socket, t.ioctl} ==>
      Run(p, d).ret ==
        if exists x :: x in syscalls && x % 0x1_0000_0000 == d.nr % 0x1_0000_0000 then 0x7fff_0000 else 0x8000_0000
  {
    assert Run(p, d).Halted? && Run(p, d).ret == KillPolicy(t, syscalls, d);
    MaskTest(AsU32(d.args[0]));
    LowNibble(d.args[1]);
    hide Run, CreatesNamespace, BitAnd;
  }

  lemma LowNibble(x: u64)
    ensures AsU32(x) % 16 == x % 0x10
  {
    var high, low := x / 0x1_0000_0000, AsU32(x);
    RemainderUnique(x, high * 0x1000_0000 + low / 16, low % 16);
  }

  /** The same for the notify filter: USER_NOTIF for what is listed, on the native architecture only, and else ALLOW. */
  lemma NotifyVerdicts(t: Target, syscalls: seq<i64>, p: seq<SockFilter>, d: SeccompData)
    requires ImplementsNotify(t, syscalls, p)
    ensures Run(p, d).Halted?
    ensures Run(p, d).ret ==
      if d.arch == t.auditArch && (exists x :: x in syscalls && x % 0x1_0000_0000 == d.nr % 0x1_0000_0000)
      then 0x7fc0_0000 else 0x7fff_0000
  {
    assert Run(p, d).Halted? && Run(p, d).ret == NotifyPolicy(t, syscalls, d);
  }

  /** The numbers of the two targets: the verdicts on clone3 and on the three inspected calls. */
  lemma NativeVerdicts(arm: bool, syscalls: seq<i64>, p: seq<SockFilter>, d: SeccompData)
    requires ImplementsKill(if arm then AARCH64 else X86_64, syscalls, p)
    requires d.arch == if arm then 0xc000_00b7 else 0xc000_003e
    ensures Run(p, d).Halted?
    ensures d.nr == 435 ==> Run(p, d).ret == 0x0005_0026
    ensures d.nr == (if arm then 220 else 56) && BitAnd(d.args[0] % 0x1_0000_0000, 0x7E02_0000) != 0 ==>
      Run(p, d).ret == 0x8000_0000
    ensures d.nr == (if arm then 198 else 41) && (d.args[0] == 16 || d.args[1] % 0x10 == 3) ==>
      Run(p, d).ret == 0x8000_0000
    ensures d.nr == (if arm then 29 else 16) && d.args[1] in {0x5412, 0x5423, 0x541C} ==>
      Run(p, d).ret == 0x8000_0000
  {
    hide ImplementsKill, Run, BitAnd;
    WhitelistVerdicts(if arm then AARCH64 else X86_64, syscalls, p, d);
  }

  /** Some record of a native call with a given number. */
  function NativeCall(t: Target, nr: u32): (d: SeccompData)
    ensures d.arch == t.auditArch && AsU32(d.nr) == nr
  {
    SeccompData(Signed32(nr), t.auditArch, 0, [0, 0, 0, 0, 0, 0])
  }

  // ---- Both filters installed ----

  /** The kill filter alone. */
  lemma KillVerdict(t: Target, killed: seq<i64>, kill: seq<SockFilter>, d: SeccompData)
    requires ImplementsKill(t, killed, kill)
    ensures Verdict([kill], d).Halted? && Verdict([kill], d).ret == KillPolicy(t, killed, d)
  {
    RunStackCons(kill, [], d, RET_ALLOW);
    assert [kill] + [] == [kill];
  }

  /**
   * The notify filter is installed first and the kill filter second, so the kill
   * filter heads the stack. The pair asks the supervisor exactly when the number
   * is on the notify list and the kill filter would allow the call; every other
   * call gets the kill filter's own verdict.
   */
  lemma StackedVerdict(
    t: Target, killed: seq<i64>, notified: seq<i64>, kill: seq<SockFilter>, notify: seq<SockFilter>,
    d: SeccompData)
    requires ImplementsKill(t, killed, kill) && ImplementsNotify(t, notified, notify)
    ensures Verdict([kill, notify], d).Halted?
    ensures Verdict([kill, notify], d).ret ==
      if Listed(AsU32(d.nr), notified) && KillPolicy(t, killed, d) == RET_ALLOW then RET_USER_NOTIF
      else KillPolicy(t, killed, d)
    ensures Verdict([kill], d).Halted? && Verdict([kill], d).ret == KillPolicy(t, killed, d)
  {
    var k, n := Run(kill, d), Run(notify, d);
    RunStackCons(kill, [notify], d, RET_ALLOW);
    RunStackCons(notify, [], d, k.ret);
    RunStackCons(notify, [], d, RET_ALLOW);
    RunStackCons(kill, [], d, RET_ALLOW);
    assert [kill] + [notify] == [kill, notify] && [kill] + [] == [kill] && [notify] + [] == [notify];
  }

  /** A foreign architecture is killed by the pair although the notify filter alone allows it. */
  lemma ForeignArchKilled(
    t: Target, killed: seq<i64>, notified: seq<i64>, kill: seq<SockFilter>, notify: seq<SockFilter>,
    d: SeccompData)
    requires ImplementsKill(t, killed, kill) && ImplementsNotify(t, notified, notify)
    requires d.arch != t.auditArch
    ensures Verdict([notify], d).Halted? && Verdict([notify], d).ret == RET_ALLOW
    ensures Verdict([kill, notify], d).Halted? && Verdict([kill, notify], d).ret == RET_KILL_PROCESS
  {
    StackedVerdict(t, killed, notified, kill, notify, d);
    RunStackCons(notify, [], d, RET_ALLOW);
    assert [notify] + [] == [notify];
  }
}

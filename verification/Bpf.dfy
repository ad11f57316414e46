/**
 * Classic BPF as seccomp runs it: the instruction format, the 64-byte record a
 * filter inspects, an interpreter, the kernel's check of a program before it is
 * installed, and the evaluation of a stack of installed filters.
 */
module Bpf {
  import opened Words

  /** Opcodes. Class, size, mode and operation are disjoint bit fields, so their OR is a sum. */
  const BPF_LD: u16 := 0x00
  const BPF_ALU: u16 := 0x04
  const BPF_JMP: u16 := 0x05
  const BPF_RET: u16 := 0x06
  const BPF_W: u16 := 0x00
  const BPF_ABS: u16 := 0x20
  const BPF_JEQ: u16 := 0x10
  const BPF_JSET: u16 := 0x40
  const BPF_AND: u16 := 0x50
  const BPF_K: u16 := 0x00

  const LD_W_ABS: u16 := BPF_LD + BPF_W + BPF_ABS
  const AND_K: u16 := BPF_ALU + BPF_AND + BPF_K
  const JEQ_K: u16 := BPF_JMP + BPF_JEQ + BPF_K
  const JSET_K: u16 := BPF_JMP + BPF_JSET + BPF_K
  const RET_K: u16 := BPF_RET + BPF_K

  datatype SockFilter = SockFilter(code: u16, jt: u8, jf: u8, k: u32)

  function Stmt(code: u16, k: u32): SockFilter { SockFilter(code, 0, 0, k) }

  function Jump(code: u16, k: u32, jt: u8, jf: u8): SockFilter { SockFilter(code, jt, jf, k) }

  /** The five opcodes as the kernel knows them. */
  lemma Opcodes()
    ensures LD_W_ABS == 0x20 && AND_K == 0x54 && JEQ_K == 0x15 && JSET_K == 0x45 && RET_K == 0x06
  {
  }

  /** `struct seccomp_data`: number, architecture, instruction pointer, six arguments. */
  type Args = s: seq<u64> | |s| == 6 witness [0, 0, 0, 0, 0, 0]

  datatype SeccompData = SeccompData(nr: i32, arch: u32, ip: u64, args: Args)

  const DATA_SIZE := 64

  function High32(x: u64): u32 { x / 0x1_0000_0000 }

  /** The little-endian 32-bit word at a byte offset of the record. */
  function LoadWord(d: SeccompData, off: u32): u32
    requires off < DATA_SIZE && off % 4 == 0
  {
    if off == 0 then AsU32(d.nr)
    else if off == 4 then d.arch
    else if off == 8 then AsU32(d.ip)
    else if off == 12 then High32(d.ip)
    else
      var arg := d.args[(off - 16) / 8];
      if off % 8 == 0 then AsU32(arg) else High32(arg)
  }

  /** A filter returns a word after some number of instructions, or leaves the defined subset. */
  datatype Outcome = Halted(ret: u32, steps: nat) | Faulted
  {
    function AfterStep(): Outcome {
      if Halted? then Halted(ret, steps + 1) else Faulted
    }
  }

  function Exec(p: seq<SockFilter>, d: SeccompData, pc: nat, acc: u32): Outcome
    decreases |p| - pc
  {
    if pc >= |p| then Faulted
    else
      var i := p[pc];
      if i.code == RET_K then Halted(i.k, 1)
      else if i.code == LD_W_ABS then
        if i.k < DATA_SIZE && i.k % 4 == 0 then Exec(p, d, pc + 1, LoadWord(d, i.k)).AfterStep() else Faulted
      else if i.code == AND_K then Exec(p, d, pc + 1, BitAnd(acc, i.k)).AfterStep()
      else if i.code == JEQ_K then
        Exec(p, d, pc + 1 + if acc == i.k then i.jt else i.jf, acc).AfterStep()
      else if i.code == JSET_K then
        Exec(p, d, pc + 1 + if BitAnd(acc, i.k) != 0 then i.jt else i.jf, acc).AfterStep()
      else Faulted
  }

  function Run(p: seq<SockFilter>, d: SeccompData): Outcome {
    Exec(p, d, 0, 0)
  }

  /** What the kernel accepts: known opcodes, aligned loads, jumps in bounds, a final RET. */
  predicate ValidInstruction(p: seq<SockFilter>, pc: nat)
    requires pc < |p|
  {
    var i := p[pc];
    || i.code == RET_K
    || (i.code == LD_W_ABS && i.k < DATA_SIZE && i.k % 4 == 0)
    || i.code == AND_K
    || ((i.code == JEQ_K || i.code == JSET_K) && pc + 1 + i.jt < |p| && pc + 1 + i.jf < |p|)
  }

  const BPF_MAXINSNS := 4096

  ghost predicate ValidProgram(p: seq<SockFilter>) {
    && 0 < |p| <= BPF_MAXINSNS
    && p[|p| - 1].code == RET_K
    && forall pc :: 0 <= pc < |p| ==> ValidInstruction(p, pc)
  }

  /** Checked programs cannot go wrong: from every index, on every record, they return. */
  lemma {:induction false} ValidProgramHalts(p: seq<SockFilter>, d: SeccompData, pc: nat, acc: u32)
    requires ValidProgram(p) && pc < |p|
    ensures Exec(p, d, pc, acc).Halted?
    ensures Exec(p, d, pc, acc).steps <= |p| - pc
    decreases |p| - pc
  {
    var i := p[pc];
    assert ValidInstruction(p, pc);
    if i.code == LD_W_ABS {
      ValidProgramHalts(p, d, pc + 1, LoadWord(d, i.k));
    } else if i.code == AND_K {
      ValidProgramHalts(p, d, pc + 1, BitAnd(acc, i.k));
    } else if i.code == JEQ_K {
      ValidProgramHalts(p, d, pc + 1 + if acc == i.k then i.jt else i.jf, acc);
    } else if i.code == JSET_K {
      ValidProgramHalts(p, d, pc + 1 + if BitAnd(acc, i.k) != 0 then i.jt else i.jf, acc);
    }
  }

  // ---- Stacks of filters ----

  const RET_KILL_PROCESS: u32 := 0x8000_0000
  const RET_ERRNO_ENOSYS: u32 := 0x0005_0000 + 38
  const RET_USER_NOTIF: u32 := 0x7fc0_0000
  const RET_ALLOW: u32 := 0x7fff_0000

  /** The action of a returned word: its upper half, ordered as a signed number. */
  function Action(ret: u32): i32 {
    Signed32(ret - ret % 0x1_0000)
  }

  /**
   * Every installed filter runs, the newest (first in the stack) first; a word
   * replaces the one kept so far when its action is strictly smaller.
   */
  function RunStack(stack: seq<seq<SockFilter>>, d: SeccompData, kept: u32): Outcome {
    if stack == [] then Halted(kept, 0)
    else
      var o := Run(stack[0], d);
      if o.Faulted? then Faulted
      else RunStack(stack[1..], d, if Action(o.ret) < Action(kept) then o.ret else kept)
  }

  /** The kernel's verdict on a call. */
  function Verdict(stack: seq<seq<SockFilter>>, d: SeccompData): Outcome {
    RunStack(stack, d, RET_ALLOW)
  }

  lemma RunStackCons(f: seq<SockFilter>, rest: seq<seq<SockFilter>>, d: SeccompData, kept: u32)
    requires Run(f, d).Halted?
    ensures RunStack([f] + rest, d, kept) ==
      RunStack(rest, d, if Action(Run(f, d).ret) < Action(kept) then Run(f, d).ret else kept)
  {
    assert ([f] + rest)[1..] == rest;
  }

  /**
   * The verdict of a stack of checked programs is its strictest one: no member is stricter, and some member gave
   * it.
   */
  lemma {:induction false} StrictestWins(stack: seq<seq<SockFilter>>, d: SeccompData, kept: u32)
    requires forall f :: f in stack ==> ValidProgram(f)
    ensures RunStack(stack, d, kept).Halted?
    ensures forall f :: f in stack ==>
      Run(f, d).Halted? && Action(RunStack(stack, d, kept).ret) <= Action(Run(f, d).ret)
    ensures Action(RunStack(stack, d, kept).ret) <= Action(kept)
    ensures RunStack(stack, d, kept).ret == kept
      || exists f :: f in stack && Run(f, d).Halted? && Run(f, d).ret == RunStack(stack, d, kept).ret
  {
    forall f | f in stack ensures Run(f, d).Halted? { ValidProgramHalts(f, d, 0, 0); }
    if stack != [] {
      var o := Run(stack[0], d);
      StrictestWins(stack[1..], d, if Action(o.ret) < Action(kept) then o.ret else kept);
    }
  }
}

/**
 * The allow/deny builder and the filter it leads to: which calls the installed
 * filter lets through, said in terms of the last builder call that named them.
 */
module Overrides {
  import opened Words
  import opened Bpf
  import opened Seccomp

  datatype Call = Allow(nr: i64) | Deny(nr: i64) | AllowMany(nrs: seq<i64>) | DenyMany(nrs: seq<i64>)
  {
    predicate Names(x: i64) {
      match this
      case Allow(nr) => x == nr
      case Deny(nr) => x == nr
      case AllowMany(nrs) => x in nrs
      case DenyMany(nrs) => x in nrs
    }

    predicate Allows() { Allow? || AllowMany? }
  }

  datatype Choice = Unset | Allowed | Denied

  /** What the last call naming `x` asked for. */
  function LastChoice(calls: seq<Call>, x: i64): Choice {
    if calls == [] then Unset
    else
      var last := calls[|calls| - 1];
      if !last.Names(x) then LastChoice(calls[..|calls| - 1], x)
      else if last.Allows() then Allowed
      else Denied
  }

  /** The configuration's answer for a number: its last call, or else the default list. */
  predicate Permitted(base: seq<i64>, calls: seq<Call>, x: i64) {
    LastChoice(calls, x) == Allowed || (LastChoice(calls, x) == Unset && x in base)
  }

  class Syscalls {
    var allowed: set<i64>
    var denied: set<i64>
    ghost var calls: seq<Call>

    /** The two sets are exactly the numbers last allowed and last denied. */
    ghost predicate Valid()
      reads this
    {
      forall x: i64 ::
        && (x in allowed <==> LastChoice(calls, x) == Allowed)
        && (x in denied <==> LastChoice(calls, x) == Denied)
    }

    constructor ()
      ensures Valid() && calls == []
    {
      allowed, denied, calls := {}, {}, [];
    }

    method Allow(syscall: i64)
      requires Valid()
      modifies this
      ensures Valid() && calls == old(calls) + [Call.Allow(syscall)]
      ensures forall x: i64 :: x in allowed <==> x in old(allowed) || x == syscall
      ensures forall x: i64 :: x in denied <==> x in old(denied) && x != syscall
    {
      allowed := allowed + {syscall};
      denied := denied - {syscall};
      calls := calls + [Call.Allow(syscall)];
      assert calls[..|calls| - 1] == old(calls);
    }

    method Deny(syscall: i64)
      requires Valid()
      modifies this
      ensures Valid() && calls == old(calls) + [Call.Deny(syscall)]
      ensures forall x: i64 :: x in denied <==> x in old(denied) || x == syscall
      ensures forall x: i64 :: x in allowed <==> x in old(allowed) && x != syscall
    {
      denied := denied + {syscall};
      allowed := allowed - {syscall};
      calls := calls + [Call.Deny(syscall)];
      assert calls[..|calls| - 1] == old(calls);
    }

    method AllowMany(syscalls: seq<i64>)
      requires Valid()
      modifies this
      ensures Valid() && calls == old(calls) + [Call.AllowMany(syscalls)]
      ensures forall x: i64 :: x in allowed <==> x in old(allowed) || x in syscalls
      ensures forall x: i64 :: x in denied <==> x in old(denied) && x !in syscalls
    {
      for i := 0 to |syscalls|
        invariant calls == old(calls)
        invariant forall x: i64 :: x in allowed <==> x in old(allowed) || x in syscalls[..i]
        invariant forall x: i64 :: x in denied <==> x in old(denied) && x !in syscalls[..i]
      {
        allowed := allowed + {syscalls[i]};
        denied := denied - {syscalls[i]};
        assert syscalls[..i + 1] == syscalls[..i] + [syscalls[i]];
      }
      calls := calls + [Call.AllowMany(syscalls)];
      assert calls[..|calls| - 1] == old(calls) && syscalls[..|syscalls|] == syscalls;
    }

    method DenyMany(syscalls: seq<i64>)
      requires Valid()
      modifies this
      ensures Valid() && calls == old(calls) + [Call.DenyMany(syscalls)]
      ensures forall x: i64 :: x in denied <==> x in old(denied) || x in syscalls
      ensures forall x: i64 :: x in allowed <==> x in old(allowed) && x !in syscalls
    {
      for i := 0 to |syscalls|
        invariant calls == old(calls)
        invariant forall x: i64 :: x in denied <==> x in old(denied) || x in syscalls[..i]
        invariant forall x: i64 :: x in allowed <==> x in old(allowed) && x !in syscalls[..i]
      {
        denied := denied + {syscalls[i]};
        allowed := allowed - {syscalls[i]};
        assert syscalls[..i + 1] == syscalls[..i] + [syscalls[i]];
      }
      calls := calls + [Call.DenyMany(syscalls)];
      assert calls[..|calls| - 1] == old(calls) && syscalls[..|syscalls|] == syscalls;
    }
  }

  /** The elements of a hash set, in whatever order its iterator gives. */
  method Collect(s: set<i64>) returns (list: seq<i64>)
    ensures forall x: i64 :: x in list <==> x in s
    ensures |list| == |s|
  {
    list := [];
    var rest := s;
    while rest != {}
      invariant rest <= s && |list| + |rest| == |s|
      invariant forall x: i64 :: x in s <==> x in list || x in rest
    {
      var x :| x in rest;
      list := list + [x];
      rest := rest - {x};
    }
  }

  function Elements(list: seq<i64>): set<i64> {
    set x | x in list
  }

  /** Membership after the denied numbers are removed and the allowed ones inserted; an overlap is allowed. */
  predicate Kept(base: seq<i64>, allowed: set<i64>, denied: set<i64>, x: i64) {
    x in allowed || (x in base && x !in denied)
  }

  /** For sets that come from the builder this is the configuration's answer. */
  lemma KeptIsPermitted(base: seq<i64>, overrides: Syscalls, x: i64)
    requires overrides.Valid()
    ensures Kept(base, overrides.allowed, overrides.denied, x) <==> Permitted(base, overrides.calls, x)
  {
  }

  /** The two sets are public, so they need not come from the builder and may overlap. */
  method Override(base: seq<i64>, overrides: Syscalls) returns (permitted: set<i64>)
    ensures forall x: i64 :: x in permitted <==> Kept(base, overrides.allowed, overrides.denied, x)
    ensures overrides.Valid() ==> forall x: i64 :: x in permitted <==> Permitted(base, overrides.calls, x)
  {
    permitted := Elements(base);
    var todo := overrides.denied;
    while todo != {}
      invariant todo <= overrides.denied
      invariant forall x: i64 :: x in permitted <==> x in base && (x in overrides.denied ==> x in todo)
    {
      var x :| x in todo;
      permitted, todo := permitted - {x}, todo - {x};
    }
    todo := overrides.allowed;
    while todo != {}
      invariant todo <= overrides.allowed
      invariant forall x: i64 :: x in permitted <==>
        (x in base && x !in overrides.denied) || (x in overrides.allowed && x !in todo)
    {
      var x :| x in todo;
      permitted, todo := permitted + {x}, todo - {x};
    }
    if overrides.Valid() {
      forall x: i64 ensures x in permitted <==> Permitted(base, overrides.calls, x) {
        KeptIsPermitted(base, overrides, x);
      }
    }
  }

  /**
   * Builds the kill filter of a plan. `base` is the default list; without
   * overrides it is compiled as it stands, otherwise through a hash set.
   */
  method ApplySeccomp(t: Target, base: seq<i64>, overrides: Syscalls?) returns (r: Built, len: u16, whitelist: seq<i64>)
    ensures overrides == null ==> whitelist == base
    ensures overrides != null ==>
      && (forall x: i64 :: x in whitelist <==> Kept(base, overrides.allowed, overrides.denied, x))
      && (overrides.Valid() ==> forall x: i64 :: x in whitelist <==> Permitted(base, overrides.calls, x))
      && |whitelist| == |Elements(whitelist)|
    ensures r.Panic? <==> |whitelist| > MAX_WHITELIST_SIZE
    ensures r.Filter? ==> ImplementsKill(t, whitelist, r.program) && len == |r.program|
  {
    if overrides == null {
      whitelist := base;
    } else {
      var permitted := Override(base, overrides);
      whitelist := Collect(permitted);
      assert permitted == Elements(whitelist);
    }
    r := BuildWhitelistFilter(t, whitelist);
    len := match r case Filter(p) => AsU16(|p|) case Panic => 0;
  }

  /** Every number a configuration permits is itself a 32-bit syscall number. */
  ghost predicate InRange(whitelist: seq<i64>) {
    forall x :: x in whitelist ==> 0 <= x < 0x1_0000_0000
  }

  /**
   * End to end: on the native architecture a call whose arguments are not
   * inspected passes the installed filter exactly when the configuration
   * permits its number.
   */
  lemma OverrideMeaning(
    t: Target, base: seq<i64>, calls: seq<Call>, whitelist: seq<i64>, program: seq<SockFilter>, d: SeccompData)
    requires forall x: i64 :: x in whitelist <==> Permitted(base, calls, x)
    requires ImplementsKill(t, whitelist, program) && InRange(whitelist)
    requires d.arch == t.auditArch && !t.Special(AsU32(d.nr))
    ensures Verdict([program], d).Halted?
    ensures Verdict([program], d).ret == if Permitted(base, calls, AsU32(d.nr)) then RET_ALLOW else RET_KILL_PROCESS
  {
    var nr: i64 := AsU32(d.nr);
    RunStackCons(program, [], d, RET_ALLOW);
    assert [program] + [] == [program];
    assert Permitted(base, calls, nr) <==> nr in whitelist;
    assert AsU32(nr) == nr;
    assert forall x :: x in whitelist ==> AsU32(x) == x;
  }

  /** The numbers a builder call names, and whether it allows them, by the method that was called. */
  lemma LastCallDecides(base: seq<i64>, calls: seq<Call>, nrs: seq<i64>, x: i64)
    ensures x in nrs ==> Permitted(base, calls + [AllowMany(nrs)], x) && !Permitted(base, calls + [DenyMany(nrs)], x)
    ensures x !in nrs ==>
      && (Permitted(base, calls + [AllowMany(nrs)], x) <==> Permitted(base, calls, x))
      && (Permitted(base, calls + [DenyMany(nrs)], x) <==> Permitted(base, calls, x))
    ensures Permitted(base, calls + [Allow(x)], x) && !Permitted(base, calls + [Deny(x)], x)
    ensures Permitted(base, [], x) <==> x in base
    ensures forall y: i64 :: y != x ==>
      && (Permitted(base, calls + [Allow(y)], x) <==> Permitted(base, calls, x))
      && (Permitted(base, calls + [Deny(y)], x) <==> Permitted(base, calls, x))
  {
    assert forall c: Call :: (calls + [c])[..|calls + [c]| - 1] == calls;
  }

  /**
   * The last call, on the built program: what it allowed passes and what it denied
   * is killed, whatever was called before. `last` is one of the four builder calls.
   */
  lemma LastCallVerdict(
    t: Target, base: seq<i64>, calls: seq<Call>, last: Call, whitelist: seq<i64>, program: seq<SockFilter>,
    d: SeccompData)
    requires forall x: i64 :: x in whitelist <==> Permitted(base, calls + [last], x)
    requires ImplementsKill(t, whitelist, program) && InRange(whitelist)
    requires d.arch == t.auditArch && !t.Special(AsU32(d.nr))
    ensures Verdict([program], d).Halted?
    ensures
      var nr: i64 := AsU32(d.nr);
      match last
      case Allow(x) => nr == x ==> Verdict([program], d).ret == 0x7fff_0000
      case AllowMany(xs) => nr in xs ==> Verdict([program], d).ret == 0x7fff_0000
      case Deny(x) => nr == x ==> Verdict([program], d).ret == 0x8000_0000
      case DenyMany(xs) => nr in xs ==> Verdict([program], d).ret == 0x8000_0000
  {
    hide Verdict, Permitted, ImplementsKill, InRange;
    var nr: i64 := AsU32(d.nr);
    OverrideMeaning(t, base, calls + [last], whitelist, program, d);
    LastCallDecides(base, calls, match last case AllowMany(xs) => xs case DenyMany(xs) => xs case _ => [nr], nr);
  }

  /** And in terms of the two sets, overlapping or not: the verdict of the program that is built from them. */
  lemma SetsVerdict(
    t: Target, base: seq<i64>, allowed: set<i64>, denied: set<i64>, whitelist: seq<i64>, program: seq<SockFilter>,
    d: SeccompData)
    requires forall x: i64 :: x in whitelist <==> Kept(base, allowed, denied, x)
    requires ImplementsKill(t, whitelist, program) && InRange(whitelist)
    requires d.arch == t.auditArch && !t.Special(AsU32(d.nr))
    ensures Verdict([program], d).Halted?
    ensures
      var nr: i64 := AsU32(d.nr);
      Verdict([program], d).ret ==
        if nr in allowed || (nr in base && nr !in denied) then 0x7fff_0000 else 0x8000_0000
  {
    var nr: i64 := AsU32(d.nr);
    RunStackCons(program, [], d, RET_ALLOW);
    assert [program] + [] == [program];
    assert AsU32(nr) == nr && forall x :: x in whitelist ==> AsU32(x) == x;
    hide Verdict, RunStack;
    assert Listed(AsU32(d.nr), whitelist) <==> nr in whitelist;
    WhitelistListed(t, whitelist, program, d);
  }

  /** A native call that is not handled apart gets ALLOW or KILL_PROCESS, by the list. */
  lemma WhitelistListed(t: Target, whitelist: seq<i64>, program: seq<SockFilter>, d: SeccompData)
    requires ImplementsKill(t, whitelist, program)
    requires d.arch == t.auditArch && !t.Special(AsU32(d.nr))
    ensures Verdict([program], d).Halted?
    ensures Verdict([program], d).ret == if Listed(AsU32(d.nr), whitelist) then 0x7fff_0000 else 0x8000_0000
  {
    KillVerdict(t, whitelist, program, d);
  }

  /** Order and repetition in the compiled list do not matter. */
  lemma OrderIrrelevant(t: Target, a: seq<i64>, b: seq<i64>, p: seq<SockFilter>, q: seq<SockFilter>, d: SeccompData)
    requires forall x :: x in a <==> x in b
    requires ImplementsKill(t, a, p) && ImplementsKill(t, b, q)
    ensures Run(p, d).Halted? && Run(q, d).Halted? && Run(p, d).ret == Run(q, d).ret
  {
    assert Run(p, d).Halted? && Run(q, d).Halted?;
    assert Listed(AsU32(d.nr), a) <==> Listed(AsU32(d.nr), b);
  }

  /**
   * No list, hence no override, changes the verdict on clone3, clone, socket and ioctl or on a foreign
   * architecture.
   */
  lemma SpecialCallsFixed(t: Target, a: seq<i64>, b: seq<i64>, p: seq<SockFilter>, q: seq<SockFilter>, d: SeccompData)
    requires ImplementsKill(t, a, p) && ImplementsKill(t, b, q)
    requires d.arch != t.auditArch || t.Special(AsU32(d.nr))
    ensures Run(p, d).Halted? && Run(q, d).Halted? && Run(p, d).ret == Run(q, d).ret
  {
    assert Run(p, d).Halted? && Run(q, d).Halted?;
  }

  /** A native call that is not handled apart passes exactly when its number is listed. */
  lemma PassesIfListed(t: Target, whitelist: seq<i64>, program: seq<SockFilter>, d: SeccompData)
    requires ImplementsKill(t, whitelist, program)
    requires d.arch == t.auditArch && !t.Special(AsU32(d.nr))
    ensures Verdict([program], d).Halted?
    ensures Verdict([program], d).ret == RET_ALLOW <==> Listed(AsU32(d.nr), whitelist)
  {
    RunStackCons(program, [], d, RET_ALLOW);
    assert [program] + [] == [program];
  }

  /** The installed filter gives the configuration's answer to every native call that is not handled apart. */
  ghost predicate MeansConfigured(t: Target, base: seq<i64>, calls: seq<Call>, program: seq<SockFilter>) {
    forall d: SeccompData :: d.arch == t.auditArch && !t.Special(AsU32(d.nr)) ==>
      AnswersAsConfigured(base, calls, program, d)
  }

  ghost predicate AnswersAsConfigured(base: seq<i64>, calls: seq<Call>, program: seq<SockFilter>, d: SeccompData) {
    Verdict([program], d).Halted? && (Verdict([program], d).ret == RET_ALLOW <==> Permitted(base, calls, AsU32(d.nr)))
  }

  /**
   * Numbers are matched modulo 2^32. Without the range condition the installed
   * filter means what the configuration says exactly when the low half of every
   * permitted number is itself permitted, or handled apart.
   */
  lemma OverrideMeaningExactly(
    t: Target, base: seq<i64>, calls: seq<Call>, whitelist: seq<i64>, program: seq<SockFilter>)
    requires forall x: i64 :: x in whitelist <==> Permitted(base, calls, x)
    requires ImplementsKill(t, whitelist, program)
    ensures MeansConfigured(t, base, calls, program)
      <==> (forall x :: x in whitelist ==> t.Special(AsU32(x)) || Permitted(base, calls, AsU32(x)))
  {
    hide *;
    if MeansConfigured(t, base, calls, program) {
      forall x | x in whitelist && !t.Special(AsU32(x)) ensures Permitted(base, calls, AsU32(x)) {
        LowHalfPermitted(t, base, calls, whitelist, program, x);
      }
    } else if forall x :: x in whitelist ==> t.Special(AsU32(x)) || Permitted(base, calls, AsU32(x)) {
      AnswersAlike(t, base, calls, whitelist, program);
    }
  }

  lemma LowHalfPermitted(
    t: Target, base: seq<i64>, calls: seq<Call>, whitelist: seq<i64>, program: seq<SockFilter>, x: i64)
    requires ImplementsKill(t, whitelist, program) && MeansConfigured(t, base, calls, program)
    requires x in whitelist && !t.Special(AsU32(x))
    ensures Permitted(base, calls, AsU32(x))
  {
    hide ImplementsKill, Verdict, Permitted;
    var d := NativeCall(t, AsU32(x));
    assert Listed(AsU32(x), whitelist);
    PassesIfListed(t, whitelist, program, d);
    assert AnswersAsConfigured(base, calls, program, d);
  }

  lemma AnswersAlike(t: Target, base: seq<i64>, calls: seq<Call>, whitelist: seq<i64>, program: seq<SockFilter>)
    requires forall x: i64 :: x in whitelist <==> Permitted(base, calls, x)
    requires ImplementsKill(t, whitelist, program)
    requires forall x :: x in whitelist ==> t.Special(AsU32(x)) || Permitted(base, calls, AsU32(x))
    ensures MeansConfigured(t, base, calls, program)
  {
    hide ImplementsKill, Verdict, Permitted;
    forall d: SeccompData | d.arch == t.auditArch && !t.Special(AsU32(d.nr))
      ensures AnswersAsConfigured(base, calls, program, d)
    {
      PassesIfListed(t, whitelist, program, d);
      var nr: i64 := AsU32(d.nr);
      assert AsU32(nr) == nr;
    }
  }

  /**
   * Allowing 2^32 + 165 lets call 165 (mount on x86_64) through although nothing
   * permits it: for every default list without 165, the list that is built
   * compiles to a filter that allows it.
   */
  lemma AliasedOverride(base: seq<i64>, whitelist: seq<i64>, program: seq<SockFilter>, d: SeccompData)
    requires 165 !in base
    requires forall x: i64 :: x in whitelist <==> Permitted(base, [Allow(0x1_0000_00A5)], x)
    requires ImplementsKill(X86_64, whitelist, program)
    requires d.arch == X86_64.auditArch && d.nr == 165
    ensures !Permitted(base, [Allow(0x1_0000_00A5)], 165)
    ensures Verdict([program], d).Halted? && Verdict([program], d).ret == RET_ALLOW
  {
    var calls := [Allow(0x1_0000_00A5)];
    assert calls[..0] == [] && LastChoice(calls, 165) == Unset && LastChoice(calls, 0x1_0000_00A5) == Allowed;
    assert 0x1_0000_00A5 in whitelist && AsU32(0x1_0000_00A5) == 165;
    PassesIfListed(X86_64, whitelist, program, d);
  }
}

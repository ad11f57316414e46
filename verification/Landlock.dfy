/**
 * The Landlock ruleset of a plan: which rules are added, which of them the kernel
 * accepts, and what the ruleset as a whole grants on a path once enforced.
 */
module Landlock {
  import opened Outputs

  const EXECUTE: bv64 := 1 << 0
  const WRITE_FILE: bv64 := 1 << 1
  const READ_FILE: bv64 := 1 << 2
  const READ_DIR: bv64 := 1 << 3
  const REMOVE_DIR: bv64 := 1 << 4
  const REMOVE_FILE: bv64 := 1 << 5
  const MAKE_CHAR: bv64 := 1 << 6
  const MAKE_DIR: bv64 := 1 << 7
  const MAKE_REG: bv64 := 1 << 8
  const MAKE_SOCK: bv64 := 1 << 9
  const MAKE_FIFO: bv64 := 1 << 10
  const MAKE_BLOCK: bv64 := 1 << 11
  const MAKE_SYM: bv64 := 1 << 12
  const REFER: bv64 := 1 << 13
  const TRUNCATE: bv64 := 1 << 14
  const IOCTL_DEV: bv64 := 1 << 15

  /** The rights handled at an ABI version; what is not handled is not restricted. */
  method FsAccessForAbi(abi: nat) returns (access: bv64)
    ensures access == Handled(abi)
  {
    access := EXECUTE | WRITE_FILE | READ_FILE | READ_DIR | REMOVE_DIR | REMOVE_FILE | MAKE_CHAR | MAKE_DIR
      | MAKE_REG | MAKE_SOCK | MAKE_FIFO | MAKE_BLOCK | MAKE_SYM;
    if abi >= 2 { access := access | REFER; }
    if abi >= 3 { access := access | TRUNCATE; }
    if abi >= 4 { access := access | IOCTL_DEV; }
  }

  /** All access bits up to the newest one an ABI version knows. */
  function Handled(abi: nat): bv64 {
    if abi >= 4 then 0xFFFF else if abi == 3 then 0x7FFF else if abi == 2 then 0x3FFF else 0x1FFF
  }

  const READ_ACCESS: bv64 := EXECUTE | READ_FILE | READ_DIR
  const WRITE_ACCESS: bv64 :=
    READ_ACCESS | WRITE_FILE | MAKE_REG | MAKE_DIR | MAKE_SYM | MAKE_FIFO | REMOVE_FILE | REMOVE_DIR | TRUNCATE
  const DEV_ACCESS: bv64 := (READ_ACCESS & !EXECUTE) | WRITE_FILE

  const NO_EXEC: bv64 := READ_ACCESS & !EXECUTE

  /** Rights that change the file system. */
  const MODIFYING: bv64 := WRITE_ACCESS & !READ_ACCESS

  /** Rights that are given to nobody. */
  const NEVER: bv64 := MAKE_CHAR | MAKE_BLOCK | MAKE_SOCK | REFER | IOCTL_DEV

  const BIND_TCP: bv64 := 1 << 0
  const CONNECT_TCP: bv64 := 1 << 1
  const ABSTRACT_UNIX_SOCKET: bv64 := 1 << 0
  const SIGNAL: bv64 := 1 << 1

  function NetAccessForAbi(abi: nat): bv64 { if abi >= 4 then BIND_TCP | CONNECT_TCP else 0 }

  function ScopeForAbi(abi: nat): bv64 { if abi >= 5 then ABSTRACT_UNIX_SOCKET | SIGNAL else 0 }

  /** An absolute, resolved path: its components from the root. */
  type Path = seq<string>

  datatype Mount = Mount(source: Path, writable: bool, executable: bool)

  datatype Plan = Plan(mounts: seq<Mount>, networkBlocked: bool)

  datatype Rule = Rule(path: Path, access: bv64)

  /**
   * What the sandboxed process meets: the ABI version if Landlock is there at all, whether
   * the two remaining system calls succeed when nothing in their arguments forbids it, which
   * paths can be opened, and which rules the kernel would take if their rights are handled
   * (a file cannot carry directory rights).
   */
  datatype Host = Host(
    abi: Option<nat>,
    creates: bool,
    restricts: bool,
    nixStore: bool,
    currentSystem: bool,
    openable: Path -> bool,
    addable: Rule -> bool
  )

  predicate Fits(access: bv64, handled: bv64) { access & !handled == 0 }

  function Union(a: bv64, b: bv64): bv64 { a | b }

  function Common(a: bv64, b: bv64): bv64 { a & b }

  /** The rights of a mask that another one lacks. */
  function Missing(access: bv64, granted: bv64): bv64 { access & !granted }

  predicate Meets(access: bv64, rights: bv64) { Common(access, rights) != 0 }

  predicate Acceptable(rule: Rule, handled: bv64, host: Host) {
    host.openable(rule.path) && host.addable(rule) && Fits(rule.access, handled)
  }

  /** The wanted rules that make it into the ruleset, in order. */
  function Accepted(wanted: seq<Rule>, handled: bv64, host: Host): seq<Rule> {
    if wanted == [] then []
    else
      Accepted(wanted[..|wanted| - 1], handled, host) +
      if Acceptable(wanted[|wanted| - 1], handled, host) then [wanted[|wanted| - 1]] else []
  }

  lemma AcceptedStep(wanted: seq<Rule>, rule: Rule, handled: bv64, host: Host)
    ensures Accepted(wanted + [rule], handled, host)
         == Accepted(wanted, handled, host) + if Acceptable(rule, handled, host) then [rule] else []
  {
    hide Acceptable;
    assert (wanted + [rule])[..|wanted + [rule]| - 1] == wanted;
  }

  /** The kernel's ruleset object. A rule must not name rights that are not handled. */
  class Ruleset {
    const handled: bv64
    ghost var wanted: seq<Rule>
    var rules: seq<Rule>

    constructor (handled: bv64)
      ensures this.handled == handled && rules == [] && wanted == []
    {
      this.handled := handled;
      rules := [];
      wanted := [];
    }

    method AddRule(rule: Rule, host: Host) returns (ok: bool)
      modifies this`rules
      ensures ok == (host.addable(rule) && Fits(rule.access, handled))
      ensures rules == if ok then old(rules) + [rule] else old(rules)
    {
      ok := host.addable(rule) && Fits(rule.access, handled);
      if ok { rules := rules + [rule]; }
    }

    /** Failures are not reported: the path simply gets no rule. */
    method AddPathRule(path: Path, access: bv64, host: Host)
      requires rules == Accepted(wanted, handled, host)
      modifies this
      ensures wanted == old(wanted) + [Rule(path, access)] && rules == Accepted(wanted, handled, host)
    {
      hide Fits, Accepted;
      AcceptedStep(wanted, Rule(path, access), handled, host);
      wanted := wanted + [Rule(path, access)];
      if !host.openable(path) { return; }
      var _ := AddRule(Rule(path, access), host);
    }
  }

  const SYSTEM_PATHS: seq<Path> := [["usr"], ["bin"], ["lib"], ["lib64"], ["etc"]]
  const NIX_STORE: Path := ["nix", "store"]
  const CURRENT_SYSTEM: Path := ["run", "current-system"]
  const PROC: Path := ["proc"]
  const DEV: Path := ["dev"]

  /** The rules for the plan's mounts; writable mounts get none. */
  function MountRules(mounts: seq<Mount>): seq<Rule> {
    if mounts == [] then []
    else
      var m := mounts[|mounts| - 1];
      MountRules(mounts[..|mounts| - 1]) +
      if m.writable then [] else [Rule(m.source, if m.executable then READ_ACCESS else NO_EXEC)]
  }

  function Rules(paths: seq<Path>, access: bv64): seq<Rule> {
    seq(|paths|, i requires 0 <= i < |paths| => Rule(paths[i], access))
  }

  function Workspace(root: Path): seq<Path> {
    [root + ["work"], root + ["tmp"], root + ["home"]]
  }

  /** Everything a plan asks for, in the order it is asked for. */
  function Wanted(plan: Plan, root: Path, extra: seq<Path>, host: Host): seq<Rule> {
    MountRules(plan.mounts) + Rules(extra, READ_ACCESS) + Rules(Workspace(root), WRITE_ACCESS)
    + Rules(SYSTEM_PATHS, READ_ACCESS)
    + Rules(if host.nixStore then [NIX_STORE] else [], READ_ACCESS)
    + Rules(if host.currentSystem then [CURRENT_SYSTEM] else [], READ_ACCESS)
    + Rules([PROC], NO_EXEC) + Rules([DEV], DEV_ACCESS)
  }

  datatype Attr = Attr(fs: bv64, net: bv64, scoped: bv64)

  datatype Applied = Unrestricted | Aborted | Enforced(attr: Attr, rules: seq<Rule>)

  function Handles(plan: Plan, abi: nat): Attr {
    Attr(Handled(abi), if plan.networkBlocked then NetAccessForAbi(abi) else 0, ScopeForAbi(abi))
  }

  /**
   * The rights and scopes a kernel of an ABI version knows: the last file system right
   * came with version 5 and the scopes with version 6, each one later than the code asks
   * for them.
   */
  function Known(abi: nat): Attr {
    Attr(
      if abi >= 5 then 0xFFFF else if abi >= 3 then 0x7FFF else if abi == 2 then 0x3FFF else 0x1FFF,
      if abi >= 4 then BIND_TCP | CONNECT_TCP else 0,
      if abi >= 6 then ABSTRACT_UNIX_SOCKET | SIGNAL else 0)
  }

  /** The kernel refuses a ruleset that handles what it does not know. */
  predicate Knows(abi: nat, attr: Attr) {
    Fits(attr.fs, Known(abi).fs) && Fits(attr.net, Known(abi).net) && Fits(attr.scoped, Known(abi).scoped)
  }

  /** What a plan asks for is known exactly in the versions other than 4 and 5. */
  lemma HandlesKnown(plan: Plan, abi: nat)
    ensures Knows(abi, Handles(plan, abi)) <==> abi != 4 && abi != 5
  {
    if abi >= 6 {
      assert Handles(plan, abi).fs == 0xFFFF == Known(abi).fs && Handles(plan, abi).scoped == Known(abi).scoped;
    } else if abi == 5 {
      assert Handles(plan, abi).scoped == 3 && Known(abi).scoped == 0;
    } else if abi == 4 {
      assert Handles(plan, abi).fs == 0xFFFF && Known(abi).fs == 0x7FFF;
    }
  }

  /** So with these two versions every start-up aborts, whatever the host. */
  lemma AbortsExactly(plan: Plan, root: Path, extra: seq<Path>, host: Host, abi: nat)
    requires host.abi == Some(abi)
    ensures Policy(plan, root, extra, host) == Aborted <==> abi == 4 || abi == 5 || !host.creates || !host.restricts
  {
    HandlesKnown(plan, abi);
  }

  /** Nothing is restricted exactly if there is no Landlock at all. */
  lemma UnrestrictedExactly(plan: Plan, root: Path, extra: seq<Path>, host: Host)
    ensures Policy(plan, root, extra, host) == Unrestricted <==> host.abi == None
  {
  }

  /** The accepted rules of the plan are enforced, unless there is no Landlock or it cannot be set up. */
  function Policy(plan: Plan, root: Path, extra: seq<Path>, host: Host): Applied {
    match host.abi
    case None => Unrestricted
    case Some(abi) =>
      if !host.creates || !Knows(abi, Handles(plan, abi)) || !host.restricts then Aborted
      else Enforced(Handles(plan, abi), Accepted(Wanted(plan, root, extra, host), Handled(abi), host))
  }

  method ApplyLandlock(plan: Plan, root: Path, extra: seq<Path>, host: Host) returns (applied: Applied)
    ensures applied == Policy(plan, root, extra, host)
  {
    hide Accepted, Fits, Acceptable, Handled, ScopeForAbi, Known, Knows;
    if host.abi == None { return Unrestricted; }
    var abi := host.abi.value;
    var fs := FsAccessForAbi(abi);
    var net: bv64 := if plan.networkBlocked && abi >= 4 then NetAccessForAbi(abi) else 0;
    var attr := Attr(fs, net, ScopeForAbi(abi));
    if !host.creates || !Knows(abi, attr) { return Aborted; }
    var ruleset := new Ruleset(fs);
    AddMounts(ruleset, plan.mounts, host);
    AddRules(ruleset, extra, READ_ACCESS, host);
    AddRules(ruleset, Workspace(root), WRITE_ACCESS, host);
    AddRules(ruleset, SYSTEM_PATHS, READ_ACCESS, host);
    AddRules(ruleset, if host.nixStore then [NIX_STORE] else [], READ_ACCESS, host);
    AddRules(ruleset, if host.currentSystem then [CURRENT_SYSTEM] else [], READ_ACCESS, host);
    AddRules(ruleset, [PROC], NO_EXEC, host);
    AddRules(ruleset, [DEV], DEV_ACCESS, host);
    assert ruleset.wanted == Wanted(plan, root, extra, host);
    applied := if host.restricts then Enforced(attr, ruleset.rules) else Aborted;
  }

  method AddMounts(ruleset: Ruleset, mounts: seq<Mount>, host: Host)
    requires ruleset.wanted == ruleset.rules == []
    modifies ruleset
    ensures ruleset.wanted == MountRules(mounts)
    ensures ruleset.rules == Accepted(ruleset.wanted, ruleset.handled, host)
  {
    assert Accepted([], ruleset.handled, host) == [];
    hide Accepted;
    for i := 0 to |mounts|
      invariant ruleset.wanted == MountRules(mounts[..i])
      invariant ruleset.rules == Accepted(ruleset.wanted, ruleset.handled, host)
    {
      assert mounts[..i + 1][..i] == mounts[..i];
      if !mounts[i].writable {
        var access := if mounts[i].executable then READ_ACCESS else NO_EXEC;
        ruleset.AddPathRule(mounts[i].source, access, host);
      }
    }
    assert mounts[..|mounts|] == mounts;
  }

  method AddRules(ruleset: Ruleset, paths: seq<Path>, access: bv64, host: Host)
    requires ruleset.rules == Accepted(ruleset.wanted, ruleset.handled, host)
    modifies ruleset
    ensures ruleset.wanted == old(ruleset.wanted) + Rules(paths, access)
    ensures ruleset.rules == Accepted(ruleset.wanted, ruleset.handled, host)
  {
    hide Accepted;
    for i := 0 to |paths|
      invariant ruleset.wanted == old(ruleset.wanted) + Rules(paths[..i], access)
      invariant ruleset.rules == Accepted(ruleset.wanted, ruleset.handled, host)
    {
      assert Rules(paths[..i + 1], access) == Rules(paths[..i], access) + [Rule(paths[i], access)];
      ruleset.AddPathRule(paths[i], access, host);
    }
    assert paths[..|paths|] == paths;
  }

  // ---- What an enforced ruleset grants ----

  predicate Under(path: Path, ancestor: Path) {
    ancestor <= path
  }

  /** The union of the rules on a path and its ancestors. */
  function Granted(rules: seq<Rule>, path: Path): bv64 {
    if rules == [] then 0
    else
      var r := rules[|rules| - 1];
      Union(Granted(rules[..|rules| - 1], path), if Under(path, r.path) then r.access else 0)
  }

  /**
   * What an enforced ruleset restricts: the rights it handles, and linking or renaming across directories in any
   * case.
   */
  function Restricted(handled: bv64): bv64 {
    Union(handled, REFER)
  }

  /** A request is let through when each of its restricted rights is granted on the path. */
  predicate Permits(policy: Applied, path: Path, request: bv64) {
    policy == Unrestricted ||
    (policy.Enforced? && Fits(Common(request, Restricted(policy.attr.fs)), Granted(policy.rules, path)))
  }

  /** Rule `rule` reaches `path` and gives it one of `rights`. */
  predicate Gives(rule: Rule, path: Path, rights: bv64) {
    Under(path, rule.path) && Meets(rule.access, rights)
  }

  lemma UnionMeets(a: bv64, b: bv64, rights: bv64)
    ensures Meets(Union(a, b), rights) <==> Meets(a, rights) || Meets(b, rights)
  {
    hide *;
    if Meets(a, rights) || Meets(b, rights) {
      MeetsMore(a, b, rights);
    } else {
      MeetsNeither(a, b, rights);
    }
  }

  lemma MeetsMore(a: bv64, b: bv64, rights: bv64)
    requires Meets(a, rights) || Meets(b, rights)
    ensures Meets(Union(a, b), rights)
  {
    assert (a | b) & rights == (a & rights) | (b & rights);
  }

  lemma MeetsNeither(a: bv64, b: bv64, rights: bv64)
    requires !Meets(a, rights) && !Meets(b, rights)
    ensures !Meets(Union(a, b), rights)
  {}

  lemma ZeroMeetsNothing(rights: bv64)
    ensures !Meets(0, rights)
  {}

  /** Some right of a set is granted exactly when a single rule on the path or an ancestor gives it. */
  lemma {:induction false} GrantedBy(rules: seq<Rule>, path: Path, rights: bv64)
    ensures Meets(Granted(rules, path), rights) <==> exists rule :: rule in rules && Gives(rule, path, rights)
  {
    hide Meets, Under, Union;
    ZeroMeetsNothing(rights);
    if rules != [] {
      var before, r := rules[..|rules| - 1], rules[|rules| - 1];
      GrantedBy(before, path, rights);
      UnionMeets(Granted(before, path), if Under(path, r.path) then r.access else 0, rights);
      assert rules == before + [r];
      if Meets(Granted(before, path), rights) {
        var rule :| rule in before && Gives(rule, path, rights);
        assert rule in rules && Gives(rule, path, rights);
      } else if Under(path, r.path) && Meets(r.access, rights) {
        assert r in rules && Gives(r, path, rights);
      }
    }
  }

  /** The rules accepted are the acceptable ones among those wanted. */
  lemma {:induction false} AcceptedMeans(wanted: seq<Rule>, handled: bv64, host: Host, rule: Rule)
    ensures rule in Accepted(wanted, handled, host) <==> rule in wanted && Acceptable(rule, handled, host)
  {
    hide Acceptable;
    if wanted != [] {
      AcceptedMeans(wanted[..|wanted| - 1], handled, host, rule);
      assert wanted == wanted[..|wanted| - 1] + [wanted[|wanted| - 1]];
    }
  }

  /** Mounts yield read rules only. */
  lemma {:induction false} MountRulesRead(mounts: seq<Mount>, rule: Rule)
    requires rule in MountRules(mounts)
    ensures rule.access == READ_ACCESS || rule.access == NO_EXEC
  {
    hide READ_ACCESS, NO_EXEC;
    if rule in MountRules(mounts[..|mounts| - 1]) {
      MountRulesRead(mounts[..|mounts| - 1], rule);
    }
  }

  /** The four kinds of rule: read, read without execute, a workspace directory, `/dev`. */
  lemma WantedKinds(plan: Plan, root: Path, extra: seq<Path>, host: Host, rule: Rule)
    requires rule in Wanted(plan, root, extra, host)
    ensures
      || rule.access == READ_ACCESS
      || rule.access == NO_EXEC
      || (rule.path in Workspace(root) && rule.access == WRITE_ACCESS)
      || rule == Rule(DEV, DEV_ACCESS)
  {
    hide READ_ACCESS, NO_EXEC, WRITE_ACCESS, DEV_ACCESS;
    if rule in MountRules(plan.mounts) { MountRulesRead(plan.mounts, rule); }
  }

  lemma WorkspaceWanted(plan: Plan, root: Path, extra: seq<Path>, host: Host, dir: Path)
    requires dir in Workspace(root)
    ensures Rule(dir, WRITE_ACCESS) in Wanted(plan, root, extra, host)
  {
    hide WRITE_ACCESS, READ_ACCESS, NO_EXEC, DEV_ACCESS, MountRules;
    var i :| 0 <= i < 3 && Workspace(root)[i] == dir;
    assert Rules(Workspace(root), WRITE_ACCESS)[i] == Rule(dir, WRITE_ACCESS);
  }

  // The masks of the four kinds, against the handled rights and against each other.

  lemma MasksFit(abi: nat)
    ensures Fits(READ_ACCESS, Handled(abi)) && Fits(NO_EXEC, Handled(abi)) && Fits(DEV_ACCESS, Handled(abi))
    ensures Fits(WRITE_ACCESS, Handled(abi)) <==> abi >= 3
  {}

  /** Rights beyond reading and writing files: making, removing, truncating, and those given to nobody. */
  const BEYOND_WRITING: bv64 := (MODIFYING & !WRITE_FILE) | NEVER

  lemma FewerRights(access: bv64, rights: bv64, more: bv64)
    requires Fits(rights, more) && !Meets(access, more)
    ensures !Meets(access, rights)
  {}

  lemma MasksBeyond(rights: bv64)
    requires Fits(rights, BEYOND_WRITING)
    ensures !Meets(READ_ACCESS, rights) && !Meets(NO_EXEC, rights) && !Meets(DEV_ACCESS, rights)
    ensures Fits(rights, NEVER) ==> !Meets(WRITE_ACCESS, rights)
  {
    assert !Meets(READ_ACCESS, BEYOND_WRITING) && !Meets(NO_EXEC, BEYOND_WRITING) && !Meets(DEV_ACCESS, BEYOND_WRITING);
    assert !Meets(WRITE_ACCESS, NEVER);
    hide *;
    FewerRights(READ_ACCESS, rights, BEYOND_WRITING);
    FewerRights(NO_EXEC, rights, BEYOND_WRITING);
    FewerRights(DEV_ACCESS, rights, BEYOND_WRITING);
    if Fits(rights, NEVER) { FewerRights(WRITE_ACCESS, rights, NEVER); }
  }

  lemma MasksWriteFile()
    ensures !Meets(READ_ACCESS, WRITE_FILE) && !Meets(NO_EXEC, WRITE_FILE)
    ensures Meets(DEV_ACCESS, WRITE_FILE) && Meets(WRITE_ACCESS, WRITE_FILE)
  {}

  /** Every wanted rule keeps within the handled rights exactly from ABI 3 on. */
  lemma RulesWithinHandled(plan: Plan, root: Path, extra: seq<Path>, host: Host, abi: nat)
    ensures (forall rule :: rule in Wanted(plan, root, extra, host) ==> Fits(rule.access, Handled(abi))) <==> abi >= 3
  {
    hide Wanted, Fits, Handled;
    MasksFit(abi);
    WorkspaceWanted(plan, root, extra, host, Workspace(root)[0]);
    forall rule | rule in Wanted(plan, root, extra, host) && abi >= 3 ensures Fits(rule.access, Handled(abi)) {
      WantedKinds(plan, root, extra, host, rule);
    }
    assert abi < 3 ==> !Fits(Rule(Workspace(root)[0], WRITE_ACCESS).access, Handled(abi));
  }

  /** A workspace directory above the path whose rule the kernel took. */
  predicate InWorkspace(root: Path, host: Host, path: Path) {
    exists dir :: dir in Workspace(root) && Under(path, dir) && host.openable(dir)
      && host.addable(Rule(dir, WRITE_ACCESS))
  }

  /** The rights of a set that some accepted rule grants on a path. */
  lemma GrantedByPlan(plan: Plan, root: Path, extra: seq<Path>, host: Host, abi: nat, path: Path, rights: bv64)
    ensures
      var wanted := Wanted(plan, root, extra, host);
      Meets(Granted(Accepted(wanted, Handled(abi), host), path), rights) <==>
      exists rule :: rule in wanted && Acceptable(rule, Handled(abi), host) && Gives(rule, path, rights)
  {
    hide *;
    var wanted := Wanted(plan, root, extra, host);
    var rules := Accepted(wanted, Handled(abi), host);
    GrantedBy(rules, path, rights);
    forall rule ensures rule in rules <==> rule in wanted && Acceptable(rule, Handled(abi), host) {
      AcceptedMeans(wanted, Handled(abi), host, rule);
    }
  }

  // Bit arithmetic behind the two theorems.

  lemma MissingRights(request: bv64, granted: bv64)
    ensures Fits(request, granted) <==> !Meets(request, !granted)
  {}

  lemma MeetsShared(request: bv64, granted: bv64, rights: bv64)
    requires Fits(request, granted) && Meets(request, rights)
    ensures Meets(granted, Common(request, rights))
  {}

  lemma SharedFits(request: bv64, rights: bv64)
    ensures Fits(Common(request, rights), rights)
  {}

  lemma MeetsItself(access: bv64, granted: bv64)
    ensures Fits(access, granted)
      || (Meets(access, Missing(access, granted)) && !Meets(granted, Missing(access, granted)))
  {}

  lemma FitsThrough(request: bv64, access: bv64, granted: bv64)
    requires Fits(request, access) && Fits(access, granted)
    ensures Fits(request, granted)
  {}

  lemma MasksWithinWrite()
    ensures !Meets(READ_ACCESS, !WRITE_ACCESS) && !Meets(NO_EXEC, !WRITE_ACCESS)
    ensures !Meets(WRITE_ACCESS, !WRITE_ACCESS) && !Meets(DEV_ACCESS, !WRITE_ACCESS)
  {}

  /** Nothing outside the workspace rights is ever granted. */
  lemma GrantedWithinWrite(plan: Plan, root: Path, extra: seq<Path>, host: Host, abi: nat, path: Path)
    ensures Fits(Granted(Accepted(Wanted(plan, root, extra, host), Handled(abi), host), path), WRITE_ACCESS)
  {
    hide *;
    var wanted := Wanted(plan, root, extra, host);
    var granted := Granted(Accepted(wanted, Handled(abi), host), path);
    MissingRights(granted, WRITE_ACCESS);
    GrantedByPlan(plan, root, extra, host, abi, path, !WRITE_ACCESS);
    MasksWithinWrite();
    if rule :| rule in wanted && Acceptable(rule, Handled(abi), host) && Gives(rule, path, !WRITE_ACCESS) {
      GivesMeans(rule, path, !WRITE_ACCESS);
      WantedKinds(plan, root, extra, host, rule);
    }
  }

  lemma GivesMeans(rule: Rule, path: Path, rights: bv64)
    ensures Gives(rule, path, rights) <==> Under(path, rule.path) && Meets(rule.access, rights)
  {}

  /** Within the workspace all of its rights are granted. */
  lemma WorkspaceGranted(plan: Plan, root: Path, extra: seq<Path>, host: Host, abi: nat, path: Path)
    requires abi >= 3 && InWorkspace(root, host, path)
    ensures Fits(WRITE_ACCESS, Granted(Accepted(Wanted(plan, root, extra, host), Handled(abi), host), path))
  {
    hide Granted, Accepted, Wanted, Handled, Fits, Meets, Common, WRITE_ACCESS, Under, Workspace, Missing;
    var wanted := Wanted(plan, root, extra, host);
    var granted := Granted(Accepted(wanted, Handled(abi), host), path);
    var dir :| dir in Workspace(root) && Under(path, dir) && host.openable(dir)
      && host.addable(Rule(dir, WRITE_ACCESS));
    var rule := Rule(dir, WRITE_ACCESS);
    WorkspaceWanted(plan, root, extra, host, dir);
    MasksFit(abi);
    MeetsItself(WRITE_ACCESS, granted);
    GrantedByPlan(plan, root, extra, host, abi, path, Missing(WRITE_ACCESS, granted));
    assert Acceptable(rule, Handled(abi), host);
    if Meets(WRITE_ACCESS, Missing(WRITE_ACCESS, granted)) { assert Gives(rule, path, Missing(WRITE_ACCESS, granted)); }
  }

  /** A right beyond reading and writing files is granted in the workspace only, from ABI 3 on. */
  lemma BeyondOnlyInWorkspace(plan: Plan, root: Path, extra: seq<Path>, host: Host, abi: nat, path: Path, rights: bv64)
    requires Fits(rights, BEYOND_WRITING)
    requires Meets(Granted(Accepted(Wanted(plan, root, extra, host), Handled(abi), host), path), rights)
    ensures abi >= 3 && InWorkspace(root, host, path) && !Fits(rights, NEVER)
  {
    hide Granted, Accepted, Wanted, Handled, Fits, Meets, Common, WRITE_ACCESS, READ_ACCESS;
    hide DEV_ACCESS, NO_EXEC, Under, Workspace, BEYOND_WRITING;
    var wanted := Wanted(plan, root, extra, host);
    GrantedByPlan(plan, root, extra, host, abi, path, rights);
    var rule :| rule in wanted && Acceptable(rule, Handled(abi), host) && Gives(rule, path, rights);
    WantedKinds(plan, root, extra, host, rule);
    MasksBeyond(rights);
    assert rule.path in Workspace(root) && rule.access == WRITE_ACCESS;
    assert rule == Rule(rule.path, WRITE_ACCESS);
    MasksFit(abi);
  }

  /** With a kernel that takes the ruleset a request passes as far as it is granted. */
  lemma PermitsExactly(plan: Plan, root: Path, extra: seq<Path>, host: Host, abi: nat, path: Path, request: bv64)
    requires host.abi == Some(abi) && host.creates && host.restricts
    ensures Permits(Policy(plan, root, extra, host), path, request) <==>
      && abi != 4 && abi != 5
      && Fits(Common(request, Restricted(Handled(abi))),
           Granted(Accepted(Wanted(plan, root, extra, host), Handled(abi), host), path))
  {
    HandlesKnown(plan, abi);
    hide Granted, Accepted, Wanted, Handled, Restricted, Fits, Common, ScopeForAbi, NetAccessForAbi, Knows;
  }

  /**
   * A request that wants to make, remove or truncate something, or something given to
   * nobody: it passes exactly in the workspace, from ABI 3 on, when it stays within the
   * workspace rights. Before ABI 3 the kernel refuses all three workspace rules, and with
   * ABI 4 and 5 the whole ruleset.
   */
  lemma ModifiesExactlyInWorkspace(
    plan: Plan, root: Path, extra: seq<Path>, host: Host, abi: nat, path: Path, request: bv64)
    requires host.abi == Some(abi) && host.creates && host.restricts
    requires Meets(Common(request, Restricted(Handled(abi))), BEYOND_WRITING)
    ensures Permits(Policy(plan, root, extra, host), path, request) <==>
      && (abi == 3 || abi >= 6)
      && InWorkspace(root, host, path) && Fits(Common(request, Restricted(Handled(abi))), WRITE_ACCESS)
  {
    hide *;
    PermitsExactly(plan, root, extra, host, abi, path, request);
    GrantedExactly(plan, root, extra, host, abi, path, Common(request, Restricted(Handled(abi))));
  }

  lemma GrantedExactly(plan: Plan, root: Path, extra: seq<Path>, host: Host, abi: nat, path: Path, asked: bv64)
    requires Meets(asked, BEYOND_WRITING)
    ensures Fits(asked, Granted(Accepted(Wanted(plan, root, extra, host), Handled(abi), host), path)) <==>
      abi >= 3 && InWorkspace(root, host, path) && Fits(asked, WRITE_ACCESS)
  {
    hide *;
    var granted := Granted(Accepted(Wanted(plan, root, extra, host), Handled(abi), host), path);
    if Fits(asked, granted) {
      MeetsShared(asked, granted, BEYOND_WRITING);
      SharedFits(asked, BEYOND_WRITING);
      BeyondOnlyInWorkspace(plan, root, extra, host, abi, path, Common(asked, BEYOND_WRITING));
      GrantedWithinWrite(plan, root, extra, host, abi, path);
      FitsThrough(asked, granted, WRITE_ACCESS);
    } else if abi >= 3 && InWorkspace(root, host, path) && Fits(asked, WRITE_ACCESS) {
      WorkspaceGranted(plan, root, extra, host, abi, path);
      FitsThrough(asked, WRITE_ACCESS, granted);
    }
  }

  predicate InDev(host: Host, path: Path) {
    Under(path, DEV) && host.openable(DEV) && host.addable(Rule(DEV, DEV_ACCESS))
  }

  /**
   * Writing to existing files passes exactly in the workspace, from ABI 3 on, and below `/dev`; nothing does with
   * ABI 4 and 5.
   */
  lemma WritesExactlyInWorkspaceOrDev(plan: Plan, root: Path, extra: seq<Path>, host: Host, abi: nat, path: Path)
    requires host.abi == Some(abi) && host.creates && host.restricts
    ensures Permits(Policy(plan, root, extra, host), path, WRITE_FILE) <==>
      && abi != 4 && abi != 5
      && ((abi >= 3 && InWorkspace(root, host, path)) || InDev(host, path))
  {
    PermitsExactly(plan, root, extra, host, abi, path, WRITE_FILE);
    assert Common(WRITE_FILE, Restricted(Handled(abi))) == WRITE_FILE;
    assert forall granted: bv64 {:trigger Fits(WRITE_FILE, granted)} ::
      Fits(WRITE_FILE, granted) <==> Meets(granted, WRITE_FILE);
    hide *;
    WriteGrantedExactly(plan, root, extra, host, abi, path);
  }

  lemma WriteGrantedExactly(plan: Plan, root: Path, extra: seq<Path>, host: Host, abi: nat, path: Path)
    ensures Meets(Granted(Accepted(Wanted(plan, root, extra, host), Handled(abi), host), path), WRITE_FILE) <==>
      (abi >= 3 && InWorkspace(root, host, path)) || InDev(host, path)
  {
    hide Granted, Accepted, Wanted, Handled, Restricted, Fits, Meets, Common, WRITE_ACCESS, READ_ACCESS, NO_EXEC;
    hide DEV_ACCESS, DEV, WRITE_FILE, Under, Workspace;
    var wanted := Wanted(plan, root, extra, host);
    var granted := Granted(Accepted(wanted, Handled(abi), host), path);
    MasksWriteFile();
    MasksFit(abi);
    GrantedByPlan(plan, root, extra, host, abi, path, WRITE_FILE);
    if Meets(granted, WRITE_FILE) {
      var rule :| rule in wanted && Acceptable(rule, Handled(abi), host) && Gives(rule, path, WRITE_FILE);
      WantedKinds(plan, root, extra, host, rule);
      if rule != Rule(DEV, DEV_ACCESS) { assert rule == Rule(rule.path, WRITE_ACCESS); }
    }
    if abi >= 3 && InWorkspace(root, host, path) {
      var dir :| dir in Workspace(root) && Under(path, dir) && host.openable(dir)
        && host.addable(Rule(dir, WRITE_ACCESS));
      WorkspaceWanted(plan, root, extra, host, dir);
      assert Acceptable(Rule(dir, WRITE_ACCESS), Handled(abi), host)
        && Gives(Rule(dir, WRITE_ACCESS), path, WRITE_FILE);
    }
    if InDev(host, path) {
      DevWanted(plan, root, extra, host);
      assert Acceptable(Rule(DEV, DEV_ACCESS), Handled(abi), host) && Gives(Rule(DEV, DEV_ACCESS), path, WRITE_FILE);
    }
  }

  lemma DevWanted(plan: Plan, root: Path, extra: seq<Path>, host: Host)
    ensures Rule(DEV, DEV_ACCESS) in Wanted(plan, root, extra, host)
  {
    hide WRITE_ACCESS, READ_ACCESS, NO_EXEC, DEV_ACCESS, MountRules;
    assert Rules([DEV], DEV_ACCESS)[0] == Rule(DEV, DEV_ACCESS);
  }

  // ---- The rules of a plan and what they let be read and executed, as numbers ----

  /** The rights, in the order of their bits, and the masks of the four kinds of rule. */
  lemma Masks()
    ensures EXECUTE == 0x1 && WRITE_FILE == 0x2 && READ_FILE == 0x4 && READ_DIR == 0x8
    ensures REMOVE_DIR == 0x10 && REMOVE_FILE == 0x20 && MAKE_CHAR == 0x40 && MAKE_DIR == 0x80
    ensures MAKE_REG == 0x100 && MAKE_SOCK == 0x200 && MAKE_FIFO == 0x400 && MAKE_BLOCK == 0x800
    ensures MAKE_SYM == 0x1000 && REFER == 0x2000 && TRUNCATE == 0x4000 && IOCTL_DEV == 0x8000
    ensures READ_ACCESS == 0xD && NO_EXEC == 0xC && WRITE_ACCESS == 0x55BF && DEV_ACCESS == 0xE
    ensures NEVER == 0xAA40 && BEYOND_WRITING == 0xFFF0
  {
  }

  predicate MountAsks(m: Mount, rule: Rule) {
    !m.writable && rule == Rule(m.source, if m.executable then READ_ACCESS else NO_EXEC)
  }

  lemma {:induction false} MountRulesExactly(mounts: seq<Mount>, rule: Rule)
    ensures rule in MountRules(mounts) <==> exists m :: m in mounts && MountAsks(m, rule)
  {
    if mounts != [] {
      var before, last := mounts[..|mounts| - 1], mounts[|mounts| - 1];
      MountRulesExactly(before, rule);
      assert rule in MountRules(mounts) <==> rule in MountRules(before) || MountAsks(last, rule);
      assert mounts == before + [last];
      hide MountRules, MountAsks;
      assert forall m :: m in mounts <==> m in before || m == last;
    }
  }

  /**
   * What a plan asks for, rule by rule: its read-only mounts, executable or not, the extra
   * paths, the three workspace directories, the system paths, the two NixOS paths if they
   * are there, `/proc` without execute, and `/dev` with writing of files instead of it.
   */
  lemma WantedExactly(plan: Plan, root: Path, extra: seq<Path>, host: Host, rule: Rule)
    ensures rule in Wanted(plan, root, extra, host) <==>
      || (exists m :: m in plan.mounts && !m.writable && rule == Rule(m.source, if m.executable then 0xD else 0xC))
      || (rule.path in extra && rule.access == 0xD)
      || (rule.path in [root + ["work"], root + ["tmp"], root + ["home"]] && rule.access == 0x55BF)
      || (rule.path in [["usr"], ["bin"], ["lib"], ["lib64"], ["etc"]] && rule.access == 0xD)
      || (host.nixStore && rule == Rule(["nix", "store"], 0xD))
      || (host.currentSystem && rule == Rule(["run", "current-system"], 0xD))
      || rule == Rule(["proc"], 0xC) || rule == Rule(["dev"], 0xE)
  {
    Masks();
    hide READ_ACCESS, NO_EXEC, WRITE_ACCESS, DEV_ACCESS, MountRules;
    MountRulesExactly(plan.mounts, rule);
    RulesExactly(extra, READ_ACCESS, rule);
    RulesExactly(Workspace(root), WRITE_ACCESS, rule);
    RulesExactly(SYSTEM_PATHS, READ_ACCESS, rule);
    RulesExactly(if host.nixStore then [NIX_STORE] else [], READ_ACCESS, rule);
    RulesExactly(if host.currentSystem then [CURRENT_SYSTEM] else [], READ_ACCESS, rule);
    RulesExactly([PROC], NO_EXEC, rule);
    RulesExactly([DEV], DEV_ACCESS, rule);
    hide Rules;
  }

  lemma RulesExactly(paths: seq<Path>, access: bv64, rule: Rule)
    ensures rule in Rules(paths, access) <==> rule.path in paths && rule.access == access
  {
    if rule.path in paths && rule.access == access {
      var i :| 0 <= i < |paths| && paths[i] == rule.path;
      assert Rules(paths, access)[i] == rule;
    }
  }

  /** The host takes a rule as far as its path and kind go. */
  predicate Takes(host: Host, rule: Rule) {
    host.openable(rule.path) && host.addable(rule)
  }

  /**
   * Executing passes exactly below a path whose rule was taken and is one with execute: an
   * executable mount, an extra or system path, or a workspace directory from ABI 3 on. So
   * it does not below `/proc`, `/dev` or a mount that is not executable on their account.
   */
  lemma ExecutesExactly(plan: Plan, root: Path, extra: seq<Path>, host: Host, abi: nat, path: Path)
    requires host.abi == Some(abi) && host.creates && host.restricts
    ensures Permits(Policy(plan, root, extra, host), path, EXECUTE) <==>
      && abi != 4 && abi != 5
      && exists rule :: rule in Wanted(plan, root, extra, host) && Takes(host, rule) && Under(path, rule.path)
           && (rule.access == 0xD || (abi >= 3 && rule.access == 0x55BF))
  {
    SingleRight(abi);
    MasksGiving();
    PermitsExactly(plan, root, extra, host, abi, path, EXECUTE);
    hide *;
    GivesOneRight(plan, root, extra, host, abi, path, EXECUTE);
  }

  /**
   * Reading files passes exactly below a path whose rule was taken, whatever its kind but
   * for the workspace directories before ABI 3.
   */
  lemma ReadsExactly(plan: Plan, root: Path, extra: seq<Path>, host: Host, abi: nat, path: Path)
    requires host.abi == Some(abi) && host.creates && host.restricts
    ensures Permits(Policy(plan, root, extra, host), path, READ_FILE) <==>
      && abi != 4 && abi != 5
      && exists rule :: rule in Wanted(plan, root, extra, host) && Takes(host, rule) && Under(path, rule.path)
           && (rule.access in {0xC, 0xD, 0xE} || (abi >= 3 && rule.access == 0x55BF))
  {
    SingleRight(abi);
    MasksGiving();
    PermitsExactly(plan, root, extra, host, abi, path, READ_FILE);
    hide *;
    GivesOneRight(plan, root, extra, host, abi, path, READ_FILE);
  }

  /** Executing and reading are handled in every version, and each is one right. */
  lemma SingleRight(abi: nat)
    ensures Common(EXECUTE, Restricted(Handled(abi))) == EXECUTE
    ensures Common(READ_FILE, Restricted(Handled(abi))) == READ_FILE
    ensures forall granted: bv64 :: Fits(EXECUTE, granted) <==> Meets(granted, EXECUTE)
    ensures forall granted: bv64 :: Fits(READ_FILE, granted) <==> Meets(granted, READ_FILE)
  {
  }

  lemma MasksGiving()
    ensures Meets(0xD, EXECUTE) && Meets(0x55BF, EXECUTE) && !Meets(0xC, EXECUTE) && !Meets(0xE, EXECUTE)
    ensures Meets(0xD, READ_FILE) && Meets(0x55BF, READ_FILE) && Meets(0xC, READ_FILE) && Meets(0xE, READ_FILE)
  {
  }

  lemma GivesOneRight(plan: Plan, root: Path, extra: seq<Path>, host: Host, abi: nat, path: Path, right: bv64)
    ensures Meets(Granted(Accepted(Wanted(plan, root, extra, host), Handled(abi), host), path), right) <==>
      exists rule :: rule in Wanted(plan, root, extra, host) && Takes(host, rule) && Under(path, rule.path)
        && Meets(rule.access, right) && (rule.access in {0xC, 0xD, 0xE} || (abi >= 3 && rule.access == 0x55BF))
  {
    GrantedByPlan(plan, root, extra, host, abi, path, right);
    forall rule | rule in Wanted(plan, root, extra, host)
      ensures rule.access in {0xC, 0xD, 0xE, 0x55BF}
      ensures Acceptable(rule, Handled(abi), host) <==> Takes(host, rule) && (rule.access == 0x55BF ==> abi >= 3)
    {
      WantedKinds(plan, root, extra, host, rule);
      Masks();
      MasksFit(abi);
      hide Fits, Handled, READ_ACCESS, NO_EXEC, WRITE_ACCESS, DEV_ACCESS;
    }
    hide Wanted, Granted, Accepted, Handled, Meets, Under, Takes, Acceptable;
  }

  /**
   * What is handled besides files: TCP exactly if the plan blocks the network, from ABI 4
   * on, and both scopes from 5 on.
   */
  lemma PolicyHandles(plan: Plan, root: Path, extra: seq<Path>, host: Host)
    requires Policy(plan, root, extra, host).Enforced?
    ensures
      var attr, abi := Policy(plan, root, extra, host).attr, host.abi.value;
      && attr.net == (if plan.networkBlocked && abi >= 4 then 0x3 else 0)
      && attr.scoped == (if abi >= 5 then 0x3 else 0)
      && attr.fs == (if abi >= 4 then 0xFFFF else if abi == 3 then 0x7FFF else if abi == 2 then 0x3FFF else 0x1FFF)
  {
    hide Accepted, Wanted, Knows;
  }

  /** A rule reaches its own path and everything that continues it. */
  lemma UnderExactly(path: Path, ancestor: Path)
    ensures Under(path, ancestor) <==> exists rest :: path == ancestor + rest
  {
    if Under(path, ancestor) {
      assert path == ancestor + path[|ancestor|..];
    }
  }

  /**
   * With an enforced ruleset nothing makes a device node or a socket, or links and renames
   * across directories, anywhere and at any version; and from ABI 6 on, where the right is
   * handled, nothing uses ioctl on a device.
   */
  lemma RefusedEverywhere(plan: Plan, root: Path, extra: seq<Path>, host: Host, abi: nat, path: Path)
    requires host.abi == Some(abi) && Policy(plan, root, extra, host).Enforced?
    ensures
      var policy := Policy(plan, root, extra, host);
      && !Permits(policy, path, 0x40) && !Permits(policy, path, 0x800) && !Permits(policy, path, 0x200)
      && !Permits(policy, path, 0x2000) && (abi >= 6 ==> !Permits(policy, path, 0x8000))
  {
    HandlesKnown(plan, abi);
    NeverMasks(abi);
    hide Permits, Fits, Meets, Common, Restricted, Handled, WRITE_ACCESS, BEYOND_WRITING, InWorkspace;
    ModifiesExactlyInWorkspace(plan, root, extra, host, abi, path, 0x40);
    ModifiesExactlyInWorkspace(plan, root, extra, host, abi, path, 0x800);
    ModifiesExactlyInWorkspace(plan, root, extra, host, abi, path, 0x200);
    ModifiesExactlyInWorkspace(plan, root, extra, host, abi, path, 0x2000);
    if abi >= 6 { ModifiesExactlyInWorkspace(plan, root, extra, host, abi, path, 0x8000); }
  }

  predicate Refusable(right: bv64, abi: nat) {
    && Meets(Common(right, Restricted(Handled(abi))), BEYOND_WRITING)
    && !Fits(Common(right, Restricted(Handled(abi))), WRITE_ACCESS)
  }

  lemma NeverMasks(abi: nat)
    ensures Refusable(0x40, abi) && Refusable(0x800, abi) && Refusable(0x200, abi) && Refusable(0x2000, abi)
    ensures abi >= 6 ==> Refusable(0x8000, abi)
  {
  }
}

/**
 Pruning of unavailable optional groups before rendering: repeated passes that drop empty groups
 which no rule targets and which are only optional candidates of select groups.
 */
module Prune {
  import opened Policy
  import opened Pipeline
  import opened DerivedGroups
  import Rules

  datatype Snapshot = Snapshot(groups: seq<ResolvedGroup>, rules: seq<Rules.ResolvedRule>, diagnostics: seq<string>)

  /** `strings.TrimSpace`. */
  type Trim = string -> string

  predicate UsesEmptyPass(g: ResolvedGroup) {
    g.emptyFallbackPass && g.effectiveEmptyPass && g.allNodeIds == {}
  }

  // ---- References ----

  /** A member stands for a group, by its id or by its name, whatever the member's kind. */
  predicate Denotes(trim: Trim, m: Member, g: ResolvedGroup) {
    (trim(m.targetId) != "" && trim(m.targetId) == g.id) || (trim(m.displayName) != "" && trim(m.displayName) == g.name)
  }

  function IdRef(trim: Trim, g: ResolvedGroup, m: Member, key: string): seq<ResolvedGroup> {
    if m.kind == KindGroup && trim(m.targetId) != "" && trim(m.targetId) == key then [g] else []
  }

  function NameRef(trim: Trim, g: ResolvedGroup, m: Member, key: string): seq<ResolvedGroup> {
    if m.kind == KindGroup && trim(m.displayName) != "" && trim(m.displayName) == key then [g] else []
  }

  /** `g` once for every group member whose id, and once more for every one whose name, is `key`. */
  function MemberRefs(trim: Trim, g: ResolvedGroup, ms: seq<Member>, key: string): seq<ResolvedGroup> {
    if ms == [] then []
    else
      var m := ms[|ms| - 1];
      MemberRefs(trim, g, ms[..|ms| - 1], key) + IdRef(trim, g, m, key) + NameRef(trim, g, m, key)
  }

  /** The groups with a group member under `key`, in order, with repetitions. */
  function Referrers(trim: Trim, groups: seq<ResolvedGroup>, key: string): seq<ResolvedGroup> {
    if groups == [] then []
    else Referrers(trim, groups[..|groups| - 1], key) +
         MemberRefs(trim, groups[|groups| - 1], groups[|groups| - 1].members, key)
  }

  predicate HasId(groups: seq<ResolvedGroup>, id: string) {
    exists i :: 0 <= i < |groups| && groups[i].id == id
  }

  /** Extends `a` by the groups of `b` whose id it does not have yet. */
  function MergeById(a: seq<ResolvedGroup>, b: seq<ResolvedGroup>): seq<ResolvedGroup> {
    if b == [] then a
    else
      var m := MergeById(a, b[..|b| - 1]);
      if HasId(m, b[|b| - 1].id) then m else m + [b[|b| - 1]]
  }

  function Parents(trim: Trim, groups: seq<ResolvedGroup>, g: ResolvedGroup): seq<ResolvedGroup> {
    MergeById(Referrers(trim, groups, g.id), Referrers(trim, groups, g.name))
  }

  /** A parent that can spare the group: a selector with some other member. */
  predicate CanSpare(trim: Trim, p: ResolvedGroup, g: ResolvedGroup) {
    p.groupType == Select && exists i :: 0 <= i < |p.members| && !Denotes(trim, p.members[i], g)
  }

  predicate Targeted(trim: Trim, rules: seq<Rules.ResolvedRule>, g: ResolvedGroup) {
    exists i :: 0 <= i < |rules| && TargetedBy(trim, rules[i], g)
  }

  predicate TargetedBy(trim: Trim, r: Rules.ResolvedRule, g: ResolvedGroup) {
    (trim(r.targetGroupId) != "" && trim(r.targetGroupId) == g.id) || (trim(r.targetGroupName) != "" && trim(r.targetGroupName) == g.name)
  }

  /** The group is empty, untargeted, and every parent can spare it. */
  predicate Prunable(trim: Trim, s: Snapshot, g: ResolvedGroup) {
    && !UsesEmptyPass(g) && g.members == []
    && !Targeted(trim, s.rules, g)
    && forall i :: 0 <= i < |Parents(trim, s.groups, g)| ==> CanSpare(trim, Parents(trim, s.groups, g)[i], g)
  }

  // ---- One pass ----

  ghost function PrunedIds(trim: Trim, s: Snapshot): set<string> {
    set i | 0 <= i < |s.groups| && Prunable(trim, s, s.groups[i]) && s.groups[i].id != "" :: s.groups[i].id
  }

  ghost function PrunedNames(trim: Trim, s: Snapshot): set<string> {
    set i | 0 <= i < |s.groups| && Prunable(trim, s, s.groups[i]) && s.groups[i].name != "" :: s.groups[i].name
  }

  predicate MemberPruned(trim: Trim, ids: set<string>, names: set<string>, m: Member) {
    (trim(m.targetId) != "" && trim(m.targetId) in ids) || (trim(m.displayName) != "" && trim(m.displayName) in names)
  }

  function KeptMembers(trim: Trim, ids: set<string>, names: set<string>, ms: seq<Member>): seq<Member> {
    if ms == [] then []
    else KeptMembers(trim, ids, names, ms[..|ms| - 1]) +
         if MemberPruned(trim, ids, names, ms[|ms| - 1]) then [] else [ms[|ms| - 1]]
  }

  predicate GroupPruned(ids: set<string>, names: set<string>, g: ResolvedGroup) {
    g.id in ids || g.name in names
  }

  function Thinned(trim: Trim, ids: set<string>, names: set<string>, g: ResolvedGroup): ResolvedGroup {
    g.(members := KeptMembers(trim, ids, names, g.members))
  }

  function KeptGroups(trim: Trim, ids: set<string>, names: set<string>, gs: seq<ResolvedGroup>): seq<ResolvedGroup> {
    if gs == [] then []
    else KeptGroups(trim, ids, names, gs[..|gs| - 1]) +
         if GroupPruned(ids, names, gs[|gs| - 1]) then [] else [Thinned(trim, ids, names, gs[|gs| - 1])]
  }

  ghost predicate Changes(trim: Trim, s: Snapshot) {
    PrunedIds(trim, s) != {} || PrunedNames(trim, s) != {}
  }

  /** The groups after one pass; a pass that prunes nothing changes nothing. */
  ghost function PassGroups(trim: Trim, s: Snapshot): seq<ResolvedGroup> {
    if Changes(trim, s) then KeptGroups(trim, PrunedIds(trim, s), PrunedNames(trim, s), s.groups) else s.groups
  }

  /** The pruned groups' names, as the diagnostics target them. */
  function PrunedTargets(trim: Trim, s: Snapshot, n: nat): seq<string>
    requires n <= |s.groups|
  {
    if n == 0 then []
    else PrunedTargets(trim, s, n - 1) + if Prunable(trim, s, s.groups[n - 1]) then [s.groups[n - 1].name] else []
  }

  ghost function Pass(trim: Trim, s: Snapshot): Snapshot {
    if Changes(trim, s)
    then s.(groups := PassGroups(trim, s), diagnostics := s.diagnostics + PrunedTargets(trim, s, |s.groups|))
    else s
  }

  ghost function Passes(trim: Trim, s: Snapshot, n: nat): Snapshot {
    if n == 0 then s else Pass(trim, Passes(trim, s, n - 1))
  }

  // ---- The algorithm ----

  type Refs = map<string, seq<ResolvedGroup>>

  function Lookup(refs: Refs, key: string): seq<ResolvedGroup> {
    if key in refs then refs[key] else []
  }

  function AddRef(refs: Refs, key: string, g: ResolvedGroup): Refs {
    if key == "" then refs else refs[key := Lookup(refs, key) + [g]]
  }

  /** The map lists, under every key, `base` followed by the references of `g`'s first members. */
  ghost predicate RefsUpTo(trim: Trim, base: seq<ResolvedGroup>, g: ResolvedGroup, n: nat, refs: Refs) {
    n <= |g.members| &&
    forall key :: Lookup(refs, key) == Referrers(trim, base, key) + MemberRefs(trim, g, g.members[..n], key)
  }

  lemma LookupAdded(refs: Refs, key: string, g: ResolvedGroup, k: string)
    ensures Lookup(AddRef(refs, key, g), k) == Lookup(refs, k) + if key != "" && key == k then [g] else []
  {
  }

  lemma MemberRefsNext(trim: Trim, g: ResolvedGroup, n: nat, key: string)
    requires n < |g.members|
    ensures MemberRefs(trim, g, g.members[..n + 1], key) ==
            MemberRefs(trim, g, g.members[..n], key) + IdRef(trim, g, g.members[n], key) + NameRef(trim, g, g.members[n], key)
  {
    assert g.members[..n + 1][..n] == g.members[..n];
  }

  lemma LookupWithMember(trim: Trim, refs: Refs, g: ResolvedGroup, m: Member, key: string)
    ensures Lookup(WithMember(trim, refs, g, m), key) == Lookup(refs, key) + IdRef(trim, g, m, key) + NameRef(trim, g, m, key)
  {
    if m.kind == KindGroup {
      LookupAdded(refs, trim(m.targetId), g, key);
      LookupAdded(AddRef(refs, trim(m.targetId), g), trim(m.displayName), g, key);
    }
  }

  lemma Associate<T>(a: seq<T>, b: seq<T>, c: seq<T>, d: seq<T>)
    ensures a + b + c + d == a + (b + c + d)
  {
  }

  lemma AddMemberRefs(trim: Trim, base: seq<ResolvedGroup>, g: ResolvedGroup, n: nat, refs: Refs)
    requires RefsUpTo(trim, base, g, n, refs) && n < |g.members|
    ensures RefsUpTo(trim, base, g, n + 1, WithMember(trim, refs, g, g.members[n]))
  {
    var m, refs' := g.members[n], WithMember(trim, refs, g, g.members[n]);
    forall key ensures Lookup(refs', key) == Referrers(trim, base, key) + MemberRefs(trim, g, g.members[..n + 1], key) {
      MemberRefsNext(trim, g, n, key);
      LookupWithMember(trim, refs, g, m, key);
      Associate(Referrers(trim, base, key), MemberRefs(trim, g, g.members[..n], key), IdRef(trim, g, m, key), NameRef(trim, g, m, key));
    }
  }

  /** The map extended by one member: under its id, then under its name. */
  function WithMember(trim: Trim, refs: Refs, g: ResolvedGroup, m: Member): Refs {
    if m.kind == KindGroup then AddRef(AddRef(refs, trim(m.targetId), g), trim(m.displayName), g) else refs
  }

  method AddGroupRefs(trim: Trim, ghost base: seq<ResolvedGroup>, g: ResolvedGroup, refs0: Refs) returns (refs: Refs)
    requires forall key :: Lookup(refs0, key) == Referrers(trim, base, key)
    ensures forall key :: Lookup(refs, key) == Referrers(trim, base, key) + MemberRefs(trim, g, g.members, key)
  {
    refs := refs0;
    for n := 0 to |g.members|
      invariant RefsUpTo(trim, base, g, n, refs)
    {
      AddMemberRefs(trim, base, g, n, refs);
      if g.members[n].kind == KindGroup {
        refs := AddRef(refs, trim(g.members[n].targetId), g);
        refs := AddRef(refs, trim(g.members[n].displayName), g);
      }
    }
    assert g.members[..|g.members|] == g.members;
  }

  method BuildRefs(trim: Trim, groups: seq<ResolvedGroup>) returns (refs: Refs)
    ensures forall key :: Lookup(refs, key) == Referrers(trim, groups, key)
  {
    refs := map[];
    for k := 0 to |groups|
      invariant forall key :: Lookup(refs, key) == Referrers(trim, groups[..k], key)
    {
      refs := AddGroupRefs(trim, groups[..k], groups[k], refs);
      assert groups[..k + 1][..k] == groups[..k];
    }
    assert groups[..|groups|] == groups;
  }

  method Merge(a: seq<ResolvedGroup>, b: seq<ResolvedGroup>) returns (all: seq<ResolvedGroup>)
    ensures all == MergeById(a, b)
  {
    all := a;
    for k := 0 to |b|
      invariant all == MergeById(a, b[..k])
    {
      assert b[..k + 1][..k] == b[..k];
      var found := false;
      for i := 0 to |all|
        invariant found == exists j :: 0 <= j < i && all[j].id == b[k].id
      {
        if all[i].id == b[k].id { found := true; }
      }
      if !found { all := all + [b[k]]; }
    }
    assert b[..|b|] == b;
  }

  /** Whether removing the group leaves this parent a non-empty selector. */
  method Spares(trim: Trim, p: ResolvedGroup, g: ResolvedGroup) returns (ok: bool)
    ensures ok == CanSpare(trim, p, g)
  {
    if p.groupType != Select { return false; }
    var remaining := 0;
    for i := 0 to |p.members|
      invariant remaining >= 0
      invariant remaining == 0 <==> forall j :: 0 <= j < i ==> Denotes(trim, p.members[j], g)
    {
      if !Denotes(trim, p.members[i], g) { remaining := remaining + 1; }
    }
    ok := remaining != 0;
  }

  method AllSpare(trim: Trim, parents: seq<ResolvedGroup>, g: ResolvedGroup) returns (ok: bool)
    ensures ok <==> forall i :: 0 <= i < |parents| ==> CanSpare(trim, parents[i], g)
  {
    for k := 0 to |parents|
      invariant forall i :: 0 <= i < k ==> CanSpare(trim, parents[i], g)
    {
      var spare := Spares(trim, parents[k], g);
      if !spare { return false; }
    }
    ok := true;
  }

  method RuleTargets(trim: Trim, rules: seq<Rules.ResolvedRule>) returns (ids: set<string>, names: set<string>)
    ensures forall g: ResolvedGroup :: Targeted(trim, rules, g) <==> g.id in ids || g.name in names
  {
    ids, names := {}, {};
    for k := 0 to |rules|
      invariant forall g: ResolvedGroup :: (g.id in ids || g.name in names) <==>
                  exists i :: 0 <= i < k && TargetedBy(trim, rules[i], g)
    {
      if trim(rules[k].targetGroupId) != "" { ids := ids + {trim(rules[k].targetGroupId)}; }
      if trim(rules[k].targetGroupName) != "" { names := names + {trim(rules[k].targetGroupName)}; }
    }
  }

  method IsPrunable(trim: Trim, s: Snapshot, refs: Refs, targetIds: set<string>, targetNames: set<string>, g: ResolvedGroup)
    returns (prunable: bool)
    requires Lookup(refs, g.id) == Referrers(trim, s.groups, g.id) && Lookup(refs, g.name) == Referrers(trim, s.groups, g.name)
    requires Targeted(trim, s.rules, g) <==> g.id in targetIds || g.name in targetNames
    ensures prunable == Prunable(trim, s, g)
  {
    if UsesEmptyPass(g) || |g.members| > 0 { return false; }
    if g.id in targetIds || g.name in targetNames { return false; }
    var parents := Merge(Lookup(refs, g.id), Lookup(refs, g.name));
    assert parents == Parents(trim, s.groups, g);
    prunable := AllSpare(trim, parents, g);
  }

  /** Records the `k`-th group if it is prunable. */
  method Record(trim: Trim, s: Snapshot, k: nat, prunable: bool, ids0: set<string>, names0: set<string>, diags0: seq<string>)
    returns (ids: set<string>, names: set<string>, diags: seq<string>)
    requires k < |s.groups| && prunable == Prunable(trim, s, s.groups[k])
    requires ids0 == IdsAmong(trim, s, k) && names0 == NamesAmong(trim, s, k) && diags0 == PrunedTargets(trim, s, k)
    ensures ids == IdsAmong(trim, s, k + 1) && names == NamesAmong(trim, s, k + 1) && diags == PrunedTargets(trim, s, k + 1)
  {
    var g := s.groups[k];
    AmongNext(trim, s, k);
    ids, names, diags := ids0, names0, diags0;
    if prunable {
      if g.id != "" { ids := ids + {g.id}; }
      if g.name != "" { names := names + {g.name}; }
      diags := diags + [g.name];
    }
  }

  /** Decides for every group whether it is prunable, collecting ids, names and diagnostics. */
  method FindPrunable(trim: Trim, s: Snapshot) returns (ids: set<string>, names: set<string>, diags: seq<string>)
    ensures ids == PrunedIds(trim, s) && names == PrunedNames(trim, s) && diags == PrunedTargets(trim, s, |s.groups|)
  {
    var targetIds, targetNames := RuleTargets(trim, s.rules);
    var refs := BuildRefs(trim, s.groups);
    ids, names, diags := {}, {}, [];
    for k := 0 to |s.groups|
      invariant ids == IdsAmong(trim, s, k) && names == NamesAmong(trim, s, k) && diags == PrunedTargets(trim, s, k)
    {
      var prunable := IsPrunable(trim, s, refs, targetIds, targetNames, s.groups[k]);
      ids, names, diags := Record(trim, s, k, prunable, ids, names, diags);
    }
  }

  /** The ids and names of the prunable groups among the first `n`. */
  ghost function IdsAmong(trim: Trim, s: Snapshot, n: nat): set<string>
    requires n <= |s.groups|
  {
    set i | 0 <= i < n && Prunable(trim, s, s.groups[i]) && s.groups[i].id != "" :: s.groups[i].id
  }

  ghost function NamesAmong(trim: Trim, s: Snapshot, n: nat): set<string>
    requires n <= |s.groups|
  {
    set i | 0 <= i < n && Prunable(trim, s, s.groups[i]) && s.groups[i].name != "" :: s.groups[i].name
  }

  lemma AmongNext(trim: Trim, s: Snapshot, n: nat)
    requires n < |s.groups|
    ensures IdsAmong(trim, s, n + 1) == IdsAmong(trim, s, n) +
            if Prunable(trim, s, s.groups[n]) && s.groups[n].id != "" then {s.groups[n].id} else {}
    ensures NamesAmong(trim, s, n + 1) == NamesAmong(trim, s, n) +
            if Prunable(trim, s, s.groups[n]) && s.groups[n].name != "" then {s.groups[n].name} else {}
  {
  }

  method KeepMembers(trim: Trim, ids: set<string>, names: set<string>, ms: seq<Member>) returns (kept: seq<Member>)
    ensures kept == KeptMembers(trim, ids, names, ms)
  {
    kept := [];
    for k := 0 to |ms|
      invariant kept == KeptMembers(trim, ids, names, ms[..k])
    {
      assert ms[..k + 1][..k] == ms[..k];
      if !MemberPruned(trim, ids, names, ms[k]) { kept := kept + [ms[k]]; }
    }
    assert ms[..|ms|] == ms;
  }

  method PruneOnePass(trim: Trim, s: Snapshot) returns (s': Snapshot, diags: seq<string>, changed: bool)
    ensures s' == Pass(trim, s) && changed == Changes(trim, s)
    ensures changed ==> diags == PrunedTargets(trim, s, |s.groups|)
  {
    var ids, names;
    ids, names, diags := FindPrunable(trim, s);
    if ids == {} && names == {} { return s, [], false; }
    var kept: seq<ResolvedGroup> := [];
    for k := 0 to |s.groups|
      invariant kept == KeptGroups(trim, ids, names, s.groups[..k])
    {
      assert s.groups[..k + 1][..k] == s.groups[..k];
      if !GroupPruned(ids, names, s.groups[k]) {
        var ms := KeepMembers(trim, ids, names, s.groups[k].members);
        kept := kept + [s.groups[k].(members := ms)];
      }
    }
    assert s.groups[..|s.groups|] == s.groups;
    s', changed := s.(groups := kept, diagnostics := s.diagnostics + diags), true;
  }

  // ---- Termination at a fixed point ----

  lemma {:induction false} KeptShrinks(trim: Trim, ids: set<string>, names: set<string>, gs: seq<ResolvedGroup>)
    ensures |KeptGroups(trim, ids, names, gs)| <= |gs|
    ensures (exists i :: 0 <= i < |gs| && GroupPruned(ids, names, gs[i])) ==> |KeptGroups(trim, ids, names, gs)| < |gs|
  {
    if gs != [] {
      KeptShrinks(trim, ids, names, gs[..|gs| - 1]);
      if i :| 0 <= i < |gs| && GroupPruned(ids, names, gs[i]) {
        assert i < |gs| - 1 ==> gs[..|gs| - 1][i] == gs[i];
      }
    }
  }

  /** A pass that changes anything drops at least one group. */
  lemma ChangeDropsGroup(trim: Trim, s: Snapshot)
    requires Changes(trim, s)
    ensures |Pass(trim, s).groups| < |s.groups|
  {
    var ids, names := PrunedIds(trim, s), PrunedNames(trim, s);
    if x :| x in ids {
      var i :| 0 <= i < |s.groups| && Prunable(trim, s, s.groups[i]) && s.groups[i].id == x;
      assert GroupPruned(ids, names, s.groups[i]);
    } else {
      var x :| x in names;
      var i :| 0 <= i < |s.groups| && Prunable(trim, s, s.groups[i]) && s.groups[i].name == x;
      assert GroupPruned(ids, names, s.groups[i]);
    }
    KeptShrinks(trim, ids, names, s.groups);
  }

  /** `curr` is what `rounds` changing passes made of `s`, with their diagnostics appended. */
  ghost predicate Reached(trim: Trim, s: Snapshot, curr: Snapshot, all: seq<string>, rounds: nat) {
    && curr == Passes(trim, s, rounds) && |curr.groups| + rounds <= |s.groups|
    && curr.diagnostics == s.diagnostics + all && (all == [] ==> curr == s)
  }

  lemma ReachedNext(trim: Trim, s: Snapshot, curr: Snapshot, all: seq<string>, rounds: nat)
    requires Reached(trim, s, curr, all, rounds) && Changes(trim, curr)
    ensures Reached(trim, s, Pass(trim, curr), all + PrunedTargets(trim, curr, |curr.groups|), rounds + 1)
  {
    ChangeDropsGroup(trim, curr);
    ChangeReports(trim, curr);
    PassDiagnostics(trim, curr, s.diagnostics, all);
  }

  lemma PassDiagnostics(trim: Trim, s: Snapshot, before: seq<string>, all: seq<string>)
    requires Changes(trim, s) && s.diagnostics == before + all
    ensures Pass(trim, s).diagnostics == before + (all + PrunedTargets(trim, s, |s.groups|))
  {
  }

  /** The loop never runs out of rounds: it always ends at a snapshot that another pass leaves alone. */
  method PruneUnavailableOptionalGroups(trim: Trim, s: Snapshot)
    returns (result: Snapshot, diags: seq<string>, ghost rounds: nat)
    ensures result == Passes(trim, s, rounds) && rounds <= |s.groups|
    ensures !Changes(trim, result) && Pass(trim, result) == result
    ensures result.diagnostics == s.diagnostics + diags && (diags == [] <==> result == s)
  {
    result, diags, rounds := s, [], 0;
    var maxRounds := |s.groups| + 1;
    for round := 0 to maxRounds
      invariant rounds == round && Reached(trim, s, result, diags, rounds)
    {
      var next, ds, changed := PruneOnePass(trim, result);
      if !changed { return; }
      ReachedNext(trim, s, result, diags, rounds);
      result, diags, rounds := next, diags + ds, rounds + 1;
    }
  }

  lemma {:induction false} TargetsReported(trim: Trim, s: Snapshot, n: nat, i: nat)
    requires i < n <= |s.groups| && Prunable(trim, s, s.groups[i])
    ensures PrunedTargets(trim, s, n) != []
  {
    if i < n - 1 { TargetsReported(trim, s, n - 1, i); }
  }

  lemma ChangeReports(trim: Trim, s: Snapshot)
    requires Changes(trim, s)
    ensures PrunedTargets(trim, s, |s.groups|) != []
  {
    var i: nat :| i < |s.groups| && Prunable(trim, s, s.groups[i]);
    TargetsReported(trim, s, |s.groups|, i);
  }
}

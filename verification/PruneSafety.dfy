/**
 What pruning preserves on consistent snapshots, pass by pass and over a whole run: rule targets
 stay, non-selector groups keep their members, no reference dangles, and every remaining group
 still reaches exactly the nodes and builtins it reached before. What it does not preserve is that
 a selector stays non-empty: that fails exactly when all its members are pruned in the same pass.
 */
module PruneSafety {
  import opened Policy
  import opened Pipeline
  import opened DerivedGroups
  import opened Prune
  import Rules

  // ---- Consistent snapshots ----

  ghost predicate GroupMember(trim: Trim, gs: seq<ResolvedGroup>, m: Member, h: ResolvedGroup) {
    h in gs && trim(m.targetId) == h.id && trim(m.displayName) == h.name
  }

  /** Group members name an existing group by id and name; other members are not mistaken for one. */
  ghost predicate MemberOk(trim: Trim, gs: seq<ResolvedGroup>, m: Member) {
    if m.kind == KindGroup then exists h :: GroupMember(trim, gs, m, h)
    else forall h :: h in gs ==> trim(m.targetId) != h.id && trim(m.displayName) != h.name
  }

  ghost predicate RuleTarget(trim: Trim, gs: seq<ResolvedGroup>, r: Rules.ResolvedRule, h: ResolvedGroup) {
    h in gs && trim(r.targetGroupId) == h.id && trim(r.targetGroupName) == h.name
  }

  ghost predicate RuleResolves(trim: Trim, gs: seq<ResolvedGroup>, r: Rules.ResolvedRule) {
    exists h :: RuleTarget(trim, gs, r, h)
  }

  /** Ids and names identify groups, and every member and rule reference resolves. */
  ghost predicate Consistent(trim: Trim, s: Snapshot) {
    && (forall g :: g in s.groups ==> g.id != "" && g.name != "")
    && (forall g, h :: g in s.groups && h in s.groups && (g.id == h.id || g.name == h.name) ==> g == h)
    && (forall g, m :: g in s.groups && m in g.members ==> MemberOk(trim, s.groups, m))
    && (forall r :: r in s.rules ==> RuleResolves(trim, s.groups, r))
  }

  // ---- Which groups and members a pass removes ----

  lemma {:induction false} RefersIfMember(trim: Trim, g: ResolvedGroup, ms: seq<Member>, m: Member, key: string)
    requires m in ms && m.kind == KindGroup && trim(m.targetId) == key && key != ""
    ensures g in MemberRefs(trim, g, ms, key)
  {
    var init, last := ms[..|ms| - 1], ms[|ms| - 1];
    if m in init {
      RefersIfMember(trim, g, init, m, key);
    } else {
      assert ms == init + [last];
      assert IdRef(trim, g, last, key) == [g];
    }
  }

  lemma {:induction false} ReferrerIfMember(trim: Trim, gs: seq<ResolvedGroup>, p: ResolvedGroup, m: Member, key: string)
    requires p in gs && m in p.members && m.kind == KindGroup && trim(m.targetId) == key && key != ""
    ensures p in Referrers(trim, gs, key)
  {
    var init, last := gs[..|gs| - 1], gs[|gs| - 1];
    if p in init {
      ReferrerIfMember(trim, init, p, m, key);
    } else {
      assert gs == init + [last];
      RefersIfMember(trim, p, p.members, m, key);
    }
  }

  lemma {:induction false} MergeKeepsFirst(a: seq<ResolvedGroup>, b: seq<ResolvedGroup>)
    ensures a <= MergeById(a, b)
  {
    if b != [] { MergeKeepsFirst(a, b[..|b| - 1]); }
  }

  /** A pruned group can be spared by every group that has it as a member. */
  lemma PrunedIsSpare(trim: Trim, s: Snapshot, h: ResolvedGroup, p: ResolvedGroup, m: Member)
    requires Prunable(trim, s, h) && p in s.groups && m in p.members
    requires m.kind == KindGroup && trim(m.targetId) == h.id && h.id != ""
    ensures CanSpare(trim, p, h)
  {
    ReferrerIfMember(trim, s.groups, p, m, h.id);
    MergeKeepsFirst(Referrers(trim, s.groups, h.id), Referrers(trim, s.groups, h.name));
    var parents := Parents(trim, s.groups, h);
    var i :| 0 <= i < |Referrers(trim, s.groups, h.id)| && Referrers(trim, s.groups, h.id)[i] == p;
    assert parents[i] == p;
  }

  lemma InIds(trim: Trim, s: Snapshot, g: ResolvedGroup)
    requires g in s.groups && Prunable(trim, s, g)
    ensures g.id != "" ==> g.id in PrunedIds(trim, s)
    ensures g.name != "" ==> g.name in PrunedNames(trim, s)
  {
    var i :| 0 <= i < |s.groups| && s.groups[i] == g;
  }

  lemma FromIds(trim: Trim, s: Snapshot, id: string) returns (g: ResolvedGroup)
    requires id in PrunedIds(trim, s)
    ensures g in s.groups && Prunable(trim, s, g) && g.id == id
  {
    var i :| 0 <= i < |s.groups| && Prunable(trim, s, s.groups[i]) && s.groups[i].id == id;
    g := s.groups[i];
  }

  lemma FromNames(trim: Trim, s: Snapshot, name: string) returns (g: ResolvedGroup)
    requires name in PrunedNames(trim, s)
    ensures g in s.groups && Prunable(trim, s, g) && g.name == name
  {
    var i :| 0 <= i < |s.groups| && Prunable(trim, s, s.groups[i]) && s.groups[i].name == name;
    g := s.groups[i];
  }

  /** On a consistent snapshot a pass removes exactly the prunable groups. */
  lemma PrunedExactly(trim: Trim, s: Snapshot, g: ResolvedGroup)
    requires Consistent(trim, s) && g in s.groups
    ensures GroupPruned(PrunedIds(trim, s), PrunedNames(trim, s), g) <==> Prunable(trim, s, g)
  {
    if Prunable(trim, s, g) { InIds(trim, s, g); }
    if g.id in PrunedIds(trim, s) { var h := FromIds(trim, s, g.id); }
    if g.name in PrunedNames(trim, s) { var h := FromNames(trim, s, g.name); }
  }

  /** A group member goes exactly when its group is prunable; other members always stay. */
  lemma MemberPrunedExactly(trim: Trim, s: Snapshot, m: Member, h: ResolvedGroup)
    requires Consistent(trim, s) && m.kind == KindGroup && GroupMember(trim, s.groups, m, h)
    ensures MemberPruned(trim, PrunedIds(trim, s), PrunedNames(trim, s), m) <==> Prunable(trim, s, h)
  {
    PrunedExactly(trim, s, h);
  }

  lemma OtherMembersStay(trim: Trim, s: Snapshot, m: Member)
    requires MemberOk(trim, s.groups, m) && m.kind != KindGroup
    ensures !MemberPruned(trim, PrunedIds(trim, s), PrunedNames(trim, s), m)
  {
    if trim(m.targetId) in PrunedIds(trim, s) { var h := FromIds(trim, s, trim(m.targetId)); }
    if trim(m.displayName) in PrunedNames(trim, s) { var h := FromNames(trim, s, trim(m.displayName)); }
  }

  lemma {:induction false} KeptMembersAre(trim: Trim, ids: set<string>, names: set<string>, ms: seq<Member>)
    ensures forall m :: m in KeptMembers(trim, ids, names, ms) <==> m in ms && !MemberPruned(trim, ids, names, m)
    ensures (forall m :: m in ms ==> !MemberPruned(trim, ids, names, m)) ==> KeptMembers(trim, ids, names, ms) == ms
    ensures (forall m :: m in ms ==> MemberPruned(trim, ids, names, m)) ==> KeptMembers(trim, ids, names, ms) == []
  {
    if ms != [] {
      KeptMembersAre(trim, ids, names, ms[..|ms| - 1]);
      assert ms == ms[..|ms| - 1] + [ms[|ms| - 1]];
    }
  }

  lemma {:induction false} KeptGroupsAre(trim: Trim, ids: set<string>, names: set<string>, gs: seq<ResolvedGroup>)
    ensures forall g :: g in gs && !GroupPruned(ids, names, g) ==> Thinned(trim, ids, names, g) in KeptGroups(trim, ids, names, gs)
    ensures forall g' :: g' in KeptGroups(trim, ids, names, gs) ==>
              exists g :: g in gs && !GroupPruned(ids, names, g) && g' == Thinned(trim, ids, names, g)
  {
    if gs != [] {
      KeptGroupsAre(trim, ids, names, gs[..|gs| - 1]);
      assert gs == gs[..|gs| - 1] + [gs[|gs| - 1]];
    }
  }

  ghost function After(trim: Trim, s: Snapshot, g: ResolvedGroup): ResolvedGroup {
    Thinned(trim, PrunedIds(trim, s), PrunedNames(trim, s), g)
  }

  /** The groups after a pass are the non-prunable ones, thinned. */
  lemma PassKeeps(trim: Trim, s: Snapshot, g: ResolvedGroup)
    requires Consistent(trim, s) && g in s.groups && !Prunable(trim, s, g)
    ensures After(trim, s, g) in Pass(trim, s).groups
  {
    PrunedExactly(trim, s, g);
    if Changes(trim, s) {
      KeptGroupsAre(trim, PrunedIds(trim, s), PrunedNames(trim, s), s.groups);
    } else {
      KeptMembersAre(trim, {}, {}, g.members);
    }
  }

  lemma PassFrom(trim: Trim, s: Snapshot, g': ResolvedGroup) returns (g: ResolvedGroup)
    requires Consistent(trim, s) && g' in Pass(trim, s).groups
    ensures g in s.groups && !Prunable(trim, s, g) && g' == After(trim, s, g)
  {
    var ids, names := PrunedIds(trim, s), PrunedNames(trim, s);
    if Changes(trim, s) {
      KeptGroupsAre(trim, ids, names, s.groups);
      g :| g in s.groups && !GroupPruned(ids, names, g) && g' == Thinned(trim, ids, names, g);
      PrunedExactly(trim, s, g);
    } else {
      g := g';
      KeptMembersAre(trim, {}, {}, g.members);
      PrunedExactly(trim, s, g);
    }
  }

  // ---- One pass ----

  /** A group that a rule targets survives. */
  lemma TargetKept(trim: Trim, s: Snapshot, g: ResolvedGroup)
    requires Consistent(trim, s) && g in s.groups && Targeted(trim, s.rules, g)
    ensures After(trim, s, g) in Pass(trim, s).groups
  {
    PassKeeps(trim, s, g);
  }

  /** A group that is not a selector is left exactly as it was. */
  lemma NonSelectorUnchanged(trim: Trim, s: Snapshot, p: ResolvedGroup)
    requires Consistent(trim, s) && p in s.groups && p.groupType != Select
    ensures After(trim, s, p) == p
  {
    forall m | m in p.members ensures !MemberPruned(trim, PrunedIds(trim, s), PrunedNames(trim, s), m) {
      assert MemberOk(trim, s.groups, m);
      if m.kind == KindGroup {
        var h :| GroupMember(trim, s.groups, m, h);
        MemberPrunedExactly(trim, s, m, h);
        if Prunable(trim, s, h) { PrunedIsSpare(trim, s, h, p, m); }
      } else {
        OtherMembersStay(trim, s, m);
      }
    }
    KeptMembersAre(trim, PrunedIds(trim, s), PrunedNames(trim, s), p.members);
  }

  /** A surviving group member still has its group. */
  lemma MemberStillOk(trim: Trim, s: Snapshot, p: ResolvedGroup, m: Member)
    requires Consistent(trim, s) && p in s.groups && m in After(trim, s, p).members
    ensures MemberOk(trim, Pass(trim, s).groups, m)
  {
    KeptMembersAre(trim, PrunedIds(trim, s), PrunedNames(trim, s), p.members);
    assert MemberOk(trim, s.groups, m);
    if m.kind == KindGroup {
      var h :| GroupMember(trim, s.groups, m, h);
      MemberPrunedExactly(trim, s, m, h);
      PassKeeps(trim, s, h);
      assert GroupMember(trim, Pass(trim, s).groups, m, After(trim, s, h));
    } else {
      forall h' | h' in Pass(trim, s).groups ensures trim(m.targetId) != h'.id && trim(m.displayName) != h'.name {
        var h := PassFrom(trim, s, h');
      }
    }
  }

  lemma RuleStillOk(trim: Trim, s: Snapshot, r: Rules.ResolvedRule)
    requires Consistent(trim, s) && r in s.rules
    ensures RuleResolves(trim, Pass(trim, s).groups, r)
  {
    assert RuleResolves(trim, s.groups, r);
    var h :| RuleTarget(trim, s.groups, r, h);
    var i :| 0 <= i < |s.rules| && s.rules[i] == r;
    assert TargetedBy(trim, s.rules[i], h);
    TargetKept(trim, s, h);
    assert RuleTarget(trim, Pass(trim, s).groups, r, After(trim, s, h));
  }

  /** A pass leaves a consistent snapshot consistent: no member or rule reference dangles. */
  lemma PassConsistent(trim: Trim, s: Snapshot)
    requires Consistent(trim, s)
    ensures Consistent(trim, Pass(trim, s))
  {
    var s' := Pass(trim, s);
    forall g' | g' in s'.groups ensures g'.id != "" && g'.name != "" { var g := PassFrom(trim, s, g'); }
    forall g', h' | g' in s'.groups && h' in s'.groups && (g'.id == h'.id || g'.name == h'.name) ensures g' == h' {
      var g := PassFrom(trim, s, g');
      var h := PassFrom(trim, s, h');
    }
    forall g', m | g' in s'.groups && m in g'.members ensures MemberOk(trim, s'.groups, m) {
      var g := PassFrom(trim, s, g');
      MemberStillOk(trim, s, g, m);
    }
    forall r | r in s'.rules ensures RuleResolves(trim, s'.groups, r) { RuleStillOk(trim, s, r); }
  }

  /** `m` stands for a group that this pass prunes. */
  ghost predicate PrunedMember(trim: Trim, s: Snapshot, m: Member) {
    m.kind == KindGroup && exists h :: GroupMember(trim, s.groups, m, h) && Prunable(trim, s, h)
  }

  lemma MemberFate(trim: Trim, s: Snapshot, p: ResolvedGroup, m: Member)
    requires Consistent(trim, s) && p in s.groups && m in p.members
    ensures MemberPruned(trim, PrunedIds(trim, s), PrunedNames(trim, s), m) <==> PrunedMember(trim, s, m)
  {
    assert MemberOk(trim, s.groups, m);
    if m.kind == KindGroup {
      var h :| GroupMember(trim, s.groups, m, h);
      MemberPrunedExactly(trim, s, m, h);
      forall h' | GroupMember(trim, s.groups, m, h') ensures h' == h {}
    } else {
      OtherMembersStay(trim, s, m);
    }
  }

  /** A group loses all its members exactly when every one of them stands for a pruned group. */
  lemma EmptiedExactly(trim: Trim, s: Snapshot, p: ResolvedGroup)
    requires Consistent(trim, s) && p in s.groups && p.members != []
    ensures After(trim, s, p).members == [] <==> forall m :: m in p.members ==> PrunedMember(trim, s, m)
  {
    KeptMembersAre(trim, PrunedIds(trim, s), PrunedNames(trim, s), p.members);
    forall m | m in p.members
      ensures MemberPruned(trim, PrunedIds(trim, s), PrunedNames(trim, s), m) <==> PrunedMember(trim, s, m)
    {
      MemberFate(trim, s, p, m);
    }
    var kept := After(trim, s, p).members;
    if kept != [] { assert kept[0] in kept; }
    if m :| m in p.members && !PrunedMember(trim, s, m) { assert m in kept; }
  }

  /** ... which takes at least two different groups pruned in that pass. */
  lemma EmptiedTakesTwo(trim: Trim, s: Snapshot, p: ResolvedGroup) returns (h: ResolvedGroup, h': ResolvedGroup)
    requires Consistent(trim, s) && p in s.groups && p.members != [] && After(trim, s, p).members == []
    ensures h in s.groups && h' in s.groups && h != h' && Prunable(trim, s, h) && Prunable(trim, s, h') && p.groupType == Select
  {
    EmptiedExactly(trim, s, p);
    var m := p.members[0];
    assert m in p.members;
    h :| GroupMember(trim, s.groups, m, h) && Prunable(trim, s, h);
    PrunedIsSpare(trim, s, h, p, m);
    var i :| 0 <= i < |p.members| && !Denotes(trim, p.members[i], h);
    assert p.members[i] in p.members;
    h' :| GroupMember(trim, s.groups, p.members[i], h') && Prunable(trim, s, h');
  }

  // ---- What groups reach ----

  ghost predicate Link(trim: Trim, gs: seq<ResolvedGroup>, a: string, b: string) {
    exists g, m :: g in gs && g.id == a && m in g.members && m.kind == KindGroup && trim(m.targetId) == b
  }

  ghost predicate LeafAt(gs: seq<ResolvedGroup>, a: string, leaf: Member) {
    exists g :: g in gs && g.id == a && leaf in g.members && leaf.kind != KindGroup
  }

  /** A chain of group members from the first id to a node or builtin member of the last. */
  ghost predicate Chain(trim: Trim, gs: seq<ResolvedGroup>, ids: seq<string>, leaf: Member) {
    ids != [] && if |ids| == 1 then LeafAt(gs, ids[0], leaf) else Link(trim, gs, ids[0], ids[1]) && Chain(trim, gs, ids[1..], leaf)
  }

  ghost predicate Reaches(trim: Trim, gs: seq<ResolvedGroup>, id: string, leaf: Member) {
    exists ids :: Chain(trim, gs, ids, leaf) && ids[0] == id
  }

  lemma LeafKept(trim: Trim, s: Snapshot, a: string, leaf: Member)
    requires Consistent(trim, s)
    ensures LeafAt(Pass(trim, s).groups, a, leaf) <==> LeafAt(s.groups, a, leaf)
  {
    if LeafAt(s.groups, a, leaf) {
      var g :| g in s.groups && g.id == a && leaf in g.members;
      PassKeeps(trim, s, g);
      assert MemberOk(trim, s.groups, leaf);
      OtherMembersStay(trim, s, leaf);
      KeptMembersAre(trim, PrunedIds(trim, s), PrunedNames(trim, s), g.members);
    }
    if LeafAt(Pass(trim, s).groups, a, leaf) {
      var g' :| g' in Pass(trim, s).groups && g'.id == a && leaf in g'.members;
      var g := PassFrom(trim, s, g');
      KeptMembersAre(trim, PrunedIds(trim, s), PrunedNames(trim, s), g.members);
    }
  }

  lemma LinkFromPass(trim: Trim, s: Snapshot, a: string, b: string)
    requires Consistent(trim, s) && Link(trim, Pass(trim, s).groups, a, b)
    ensures Link(trim, s.groups, a, b)
  {
    var g', m :| g' in Pass(trim, s).groups && g'.id == a && m in g'.members && m.kind == KindGroup && trim(m.targetId) == b;
    var g := PassFrom(trim, s, g');
    KeptMembersAre(trim, PrunedIds(trim, s), PrunedNames(trim, s), g.members);
  }

  /** A link to a group that has members survives. */
  lemma LinkKept(trim: Trim, s: Snapshot, a: string, b: string, h: ResolvedGroup)
    requires Consistent(trim, s) && Link(trim, s.groups, a, b) && h in s.groups && h.id == b && h.members != []
    ensures Link(trim, Pass(trim, s).groups, a, b)
  {
    var g, m :| g in s.groups && g.id == a && m in g.members && m.kind == KindGroup && trim(m.targetId) == b;
    assert MemberOk(trim, s.groups, m);
    var k :| GroupMember(trim, s.groups, m, k);
    assert k == h;
    MemberPrunedExactly(trim, s, m, h);
    PassKeeps(trim, s, g);
    KeptMembersAre(trim, PrunedIds(trim, s), PrunedNames(trim, s), g.members);
  }

  lemma ChainStartsNonEmpty(trim: Trim, gs: seq<ResolvedGroup>, ids: seq<string>, leaf: Member) returns (h: ResolvedGroup)
    requires Chain(trim, gs, ids, leaf)
    ensures h in gs && h.id == ids[0] && h.members != []
  {
    if |ids| == 1 {
      h :| h in gs && h.id == ids[0] && leaf in h.members;
    } else {
      var m;
      h, m :| h in gs && h.id == ids[0] && m in h.members && m.kind == KindGroup && trim(m.targetId) == ids[1];
    }
  }

  lemma {:induction false} ChainKept(trim: Trim, s: Snapshot, ids: seq<string>, leaf: Member)
    requires Consistent(trim, s)
    ensures Chain(trim, Pass(trim, s).groups, ids, leaf) <==> Chain(trim, s.groups, ids, leaf)
  {
    if |ids| == 1 {
      LeafKept(trim, s, ids[0], leaf);
    } else if |ids| > 1 {
      ChainKept(trim, s, ids[1..], leaf);
      if Chain(trim, s.groups, ids, leaf) {
        var h := ChainStartsNonEmpty(trim, s.groups, ids[1..], leaf);
        LinkKept(trim, s, ids[0], ids[1], h);
      }
      if Chain(trim, Pass(trim, s).groups, ids, leaf) { LinkFromPass(trim, s, ids[0], ids[1]); }
    }
  }

  // ---- Whole runs ----

  lemma ReachKept(trim: Trim, s: Snapshot, id: string, leaf: Member)
    requires Consistent(trim, s)
    ensures Reaches(trim, Pass(trim, s).groups, id, leaf) <==> Reaches(trim, s.groups, id, leaf)
  {
    if ids :| Chain(trim, s.groups, ids, leaf) && ids[0] == id { ChainKept(trim, s, ids, leaf); }
    if ids :| Chain(trim, Pass(trim, s).groups, ids, leaf) && ids[0] == id { ChainKept(trim, s, ids, leaf); }
  }

  /** What becomes of a group over `n` passes, as long as it survives. */
  ghost function Survivor(trim: Trim, s: Snapshot, n: nat, g: ResolvedGroup): ResolvedGroup {
    if n == 0 then g else After(trim, Passes(trim, s, n - 1), Survivor(trim, s, n - 1, g))
  }

  /** The snapshots of a run and what becomes of one group, pass by pass. */
  datatype Run = Run(trim: Trim, snaps: seq<Snapshot>, group: seq<ResolvedGroup>)

  /** One pass over a consistent snapshot, and what it makes of one group. */
  ghost predicate Moves(trim: Trim, s: Snapshot, next: Snapshot, g: ResolvedGroup, g': ResolvedGroup) {
    Consistent(trim, s) && next == Pass(trim, s) && g' == After(trim, s, g)
  }

  ghost predicate StepAt(r: Run, i: int)
    requires 0 <= i < |r.snaps| - 1 && |r.group| == |r.snaps|
  {
    && Moves(r.trim, r.snaps[i], r.snaps[i + 1], r.group[i], r.group[i + 1])
    && r.snaps[i].rules == r.snaps[0].rules
  }

  ghost predicate IsRun(r: Run) {
    |r.group| == |r.snaps| > 0 && forall i :: 0 <= i < |r.snaps| - 1 ==> StepAt(r, i)
  }

  ghost function RunOf(trim: Trim, s: Snapshot, n: nat, g: ResolvedGroup): Run {
    Run(trim, seq(n + 1, i requires 0 <= i <= n => Passes(trim, s, i)), seq(n + 1, i requires 0 <= i <= n => Survivor(trim, s, i, g)))
  }

  lemma {:induction false} RunConsistent(trim: Trim, s: Snapshot, n: nat)
    requires Consistent(trim, s)
    ensures Consistent(trim, Passes(trim, s, n)) && Passes(trim, s, n).rules == s.rules
  {
    if n > 0 {
      RunConsistent(trim, s, n - 1);
      PassConsistent(trim, Passes(trim, s, n - 1));
    }
  }

  lemma RunMoves(trim: Trim, s: Snapshot, g: ResolvedGroup, i: nat)
    requires Consistent(trim, s)
    ensures var j := i + 1;
            Moves(trim, Passes(trim, s, i), Passes(trim, s, j), Survivor(trim, s, i, g), Survivor(trim, s, j, g))
    ensures Passes(trim, s, i).rules == s.rules
  {
    RunConsistent(trim, s, i);
  }

  lemma RunStep(trim: Trim, s: Snapshot, n: nat, g: ResolvedGroup, i: nat)
    requires Consistent(trim, s) && i < n
    ensures StepAt(RunOf(trim, s, n, g), i)
  {
    var r, j := RunOf(trim, s, n, g), i + 1;
    RunMoves(trim, s, g, i);
    RunAt(trim, s, n, g, 0);
    RunAt(trim, s, n, g, i);
    RunAt(trim, s, n, g, j);
    StepOf(r, i, Passes(trim, s, i), Passes(trim, s, j), Survivor(trim, s, i, g), Survivor(trim, s, j, g));
  }

  lemma StepOf(r: Run, i: nat, s: Snapshot, next: Snapshot, g: ResolvedGroup, g': ResolvedGroup)
    requires i < |r.snaps| - 1 && |r.group| == |r.snaps|
    requires r.snaps[i] == s && r.snaps[i + 1] == next && r.group[i] == g && r.group[i + 1] == g'
    requires Moves(r.trim, s, next, g, g') && s.rules == r.snaps[0].rules
    ensures StepAt(r, i)
  {
  }

  lemma RunAt(trim: Trim, s: Snapshot, n: nat, g: ResolvedGroup, i: nat)
    requires i <= n
    ensures var r := RunOf(trim, s, n, g);
            |r.snaps| == |r.group| == n + 1 && r.snaps[i] == Passes(trim, s, i) && r.group[i] == Survivor(trim, s, i, g)
  {
  }

  lemma RunSteps(trim: Trim, s: Snapshot, n: nat, g: ResolvedGroup)
    requires Consistent(trim, s)
    ensures IsRun(RunOf(trim, s, n, g))
  {
    forall i | 0 <= i < n ensures StepAt(RunOf(trim, s, n, g), i) { RunStep(trim, s, n, g, i); }
  }

  lemma ReachNext(r: Run, n: nat, id: string, leaf: Member)
    requires IsRun(r) && n + 1 < |r.snaps|
    ensures Reaches(r.trim, r.snaps[n + 1].groups, id, leaf) <==> Reaches(r.trim, r.snaps[n].groups, id, leaf)
  {
    assert StepAt(r, n);
    ReachKept(r.trim, r.snaps[n], id, leaf);
  }

  lemma {:induction false} RunReaches(r: Run, n: nat, id: string, leaf: Member)
    requires IsRun(r) && n < |r.snaps|
    ensures Reaches(r.trim, r.snaps[n].groups, id, leaf) <==> Reaches(r.trim, r.snaps[0].groups, id, leaf)
  {
    if n > 0 {
      RunReaches(r, n - 1, id, leaf);
      ReachNext(r, n - 1, id, leaf);
    }
  }

  /** Every pass, hence every run, keeps the snapshot consistent and every reachable leaf reachable. */
  lemma RunPreserves(trim: Trim, s: Snapshot, n: nat)
    requires Consistent(trim, s)
    ensures Consistent(trim, Passes(trim, s, n)) && Passes(trim, s, n).rules == s.rules
    ensures forall id, leaf :: Reaches(trim, Passes(trim, s, n).groups, id, leaf) <==> Reaches(trim, s.groups, id, leaf)
  {
    RunConsistent(trim, s, n);
    forall id, leaf ensures Reaches(trim, Passes(trim, s, n).groups, id, leaf) <==> Reaches(trim, s.groups, id, leaf) {
      LeafReached(trim, s, n, id, leaf);
    }
  }

  lemma LeafReached(trim: Trim, s: Snapshot, n: nat, id: string, leaf: Member)
    requires Consistent(trim, s)
    ensures Reaches(trim, Passes(trim, s, n).groups, id, leaf) <==> Reaches(trim, s.groups, id, leaf)
  {
    var none := ResolvedGroup("", "", Select, false, false, [], [], [], {});
    RunSteps(trim, s, n, none);
    RunReaches(RunOf(trim, s, n, none), n, id, leaf);
  }

  ghost predicate Present(r: Run, n: nat)
    requires n < |r.snaps| == |r.group|
  {
    var g, now := r.group[0], r.group[n];
    && now in r.snaps[n].groups && now.id == g.id && now.name == g.name && now.groupType == g.groupType
    && (g.groupType != Select ==> now == g)
  }

  ghost predicate TargetRun(r: Run) {
    IsRun(r) && r.group[0] in r.snaps[0].groups && Targeted(r.trim, r.snaps[0].rules, r.group[0])
  }

  lemma PresentNext(r: Run, n: nat)
    requires TargetRun(r) && n + 1 < |r.snaps| && Present(r, n)
    ensures Present(r, n + 1)
  {
    var p, now := r.snaps[n], r.group[n];
    assert StepAt(r, n);
    assert Targeted(r.trim, p.rules, now);
    TargetKept(r.trim, p, now);
    if now.groupType != Select { NonSelectorUnchanged(r.trim, p, now); }
  }

  lemma {:induction false} TargetSurvives(r: Run, n: nat)
    requires TargetRun(r) && n < |r.snaps|
    ensures Present(r, n)
  {
    if n > 0 {
      TargetSurvives(r, n - 1);
      PresentNext(r, n - 1);
    }
  }

  /** Rule-targeted groups survive every run; non-selectors among them survive unchanged. */
  lemma RunKeepsTargets(trim: Trim, s: Snapshot, n: nat, g: ResolvedGroup)
    requires Consistent(trim, s) && g in s.groups && Targeted(trim, s.rules, g)
    ensures var now := Survivor(trim, s, n, g);
            && now in Passes(trim, s, n).groups && now.id == g.id && now.name == g.name && now.groupType == g.groupType
            && (g.groupType != Select ==> now == g)
  {
    RunSteps(trim, s, n, g);
    TargetSurvives(RunOf(trim, s, n, g), n);
  }

  /** The group still has members, and every one of them stands for a group pruned in the coming pass. */
  ghost predicate AboutToEmpty(trim: Trim, p: Snapshot, now: ResolvedGroup) {
    now.members != [] && forall x :: x in now.members ==> PrunedMember(trim, p, x)
  }

  /** One of the first `n` passes prunes all that the group has left. */
  ghost predicate EmptiedBefore(r: Run, n: nat)
    requires n < |r.snaps| == |r.group|
  {
    exists m :: 0 <= m < n && AboutToEmpty(r.trim, r.snaps[m], r.group[m])
  }

  lemma EmptiedNext(r: Run, n: nat)
    requires TargetRun(r) && n + 1 < |r.snaps|
    ensures r.group[n + 1].members == [] <==> r.group[n].members == [] || AboutToEmpty(r.trim, r.snaps[n], r.group[n])
  {
    TargetSurvives(r, n);
    assert StepAt(r, n);
    if r.group[n].members != [] { EmptiedExactly(r.trim, r.snaps[n], r.group[n]); }
  }

  lemma {:induction false} RunEmptied(r: Run, n: nat)
    requires TargetRun(r) && n < |r.snaps| && r.group[0].members != []
    ensures r.group[n].members == [] <==> EmptiedBefore(r, n)
  {
    if n > 0 {
      RunEmptied(r, n - 1);
      EmptiedNext(r, n - 1);
    }
  }

  /**
   A rule-targeted group that starts with members is empty after `n` passes exactly when one of them
   prunes all it has left.
   */
  lemma TargetEmptiedExactly(trim: Trim, s: Snapshot, n: nat, g: ResolvedGroup)
    requires Consistent(trim, s) && g in s.groups && Targeted(trim, s.rules, g) && g.members != []
    ensures Survivor(trim, s, n, g).members == [] <==> EmptiedBefore(RunOf(trim, s, n, g), n)
  {
    RunSteps(trim, s, n, g);
    RunEmptied(RunOf(trim, s, n, g), n);
  }

  /** A rule-targeted group that reaches a node or builtin is never emptied. */
  lemma ReachingTargetKeepsMembers(trim: Trim, s: Snapshot, n: nat, g: ResolvedGroup, leaf: Member)
    requires Consistent(trim, s) && g in s.groups && Targeted(trim, s.rules, g) && Reaches(trim, s.groups, g.id, leaf)
    ensures Survivor(trim, s, n, g).members != []
  {
    LeafReached(trim, s, n, g.id, leaf);
    RunKeepsTargets(trim, s, n, g);
    RunConsistent(trim, s, n);
    SoleGroupReaches(trim, Passes(trim, s, n), Survivor(trim, s, n, g), leaf);
  }

  lemma SoleGroupReaches(trim: Trim, s: Snapshot, g: ResolvedGroup, leaf: Member)
    requires Consistent(trim, s) && g in s.groups && Reaches(trim, s.groups, g.id, leaf)
    ensures g.members != []
  {
    var ids :| Chain(trim, s.groups, ids, leaf) && ids[0] == g.id;
    var h := ChainStartsNonEmpty(trim, s.groups, ids, leaf);
  }

  // ---- Two empty siblings ----

  const identity: Trim := (x: string) => x

  function EmptyGroup(id: string, name: string): ResolvedGroup {
    ResolvedGroup(id, name, Select, false, false, [], [], [], {})
  }

  const groupA := EmptyGroup("A", "first")
  const groupB := EmptyGroup("B", "second")

  const siblings := ResolvedGroup("P", "parent", Select, false, false,
                                  [Member(KindGroup, "A", "first", 0), Member(KindGroup, "B", "second", 1)], ["A", "B"], [], {})
  const toParent := Rules.ResolvedRule("r", "P", "parent", "MATCH", 0, true)
  const pair := Snapshot([siblings, groupA, groupB], [toParent], [])

  lemma {:induction false} OnlyFrom(trim: Trim, gs: seq<ResolvedGroup>, key: string, p: ResolvedGroup)
    requires p in Referrers(trim, gs, key)
    ensures p in gs && p.members != []
  {
    var init, last := gs[..|gs| - 1], gs[|gs| - 1];
    if p in Referrers(trim, init, key) {
      OnlyFrom(trim, init, key, p);
    } else {
      RefsAreSelf(trim, last, last.members, key);
    }
  }

  lemma {:induction false} RefsAreSelf(trim: Trim, g: ResolvedGroup, ms: seq<Member>, key: string)
    ensures forall p :: p in MemberRefs(trim, g, ms, key) ==> p == g && ms != []
  {
    if ms != [] { RefsAreSelf(trim, g, ms[..|ms| - 1], key); }
  }

  lemma {:induction false} MergeFrom(a: seq<ResolvedGroup>, b: seq<ResolvedGroup>)
    ensures forall p :: p in MergeById(a, b) ==> p in a || p in b
  {
    if b != [] { MergeFrom(a, b[..|b| - 1]); }
  }

  lemma SiblingPrunable(g: ResolvedGroup, other: int)
    requires (g == groupA && other == 1) || (g == groupB && other == 0)
    ensures Prunable(identity, pair, g)
  {
    assert !Denotes(identity, siblings.members[other], g);
    assert CanSpare(identity, siblings, g);
    var ps := Parents(identity, pair.groups, g);
    MergeFrom(Referrers(identity, pair.groups, g.id), Referrers(identity, pair.groups, g.name));
    forall i | 0 <= i < |ps| ensures CanSpare(identity, ps[i], g) {
      assert ps[i] in ps;
      if ps[i] in Referrers(identity, pair.groups, g.id) {
        OnlyFrom(identity, pair.groups, g.id, ps[i]);
      } else {
        OnlyFrom(identity, pair.groups, g.name, ps[i]);
      }
      assert ps[i] == siblings;
    }
  }

  lemma PairConsistent()
    ensures Consistent(identity, pair) && siblings in pair.groups && Targeted(identity, pair.rules, siblings)
  {
    var gs := pair.groups;
    forall g | g in gs ensures g == siblings || g == groupA || g == groupB {}
    assert siblings == gs[0] && groupA == gs[1] && groupB == gs[2];
    assert GroupMember(identity, gs, siblings.members[0], groupA);
    assert GroupMember(identity, gs, siblings.members[1], groupB);
    assert RuleTarget(identity, gs, toParent, siblings);
    assert RuleResolves(identity, gs, toParent);
    assert TargetedBy(identity, pair.rules[0], siblings);
  }

  lemma SiblingsPruned(m: Member)
    requires m in siblings.members
    ensures PrunedMember(identity, pair, m)
  {
    PairConsistent();
    SiblingPrunable(groupA, 1);
    SiblingPrunable(groupB, 0);
    assert m == siblings.members[0] || m == siblings.members[1];
    assert GroupMember(identity, pair.groups, siblings.members[0], groupA);
    assert GroupMember(identity, pair.groups, siblings.members[1], groupB);
  }

  /**
   Each of two empty siblings alone could be spared; pruned together they leave their rule-targeted
   parent in place and empty, for good.
   */
  lemma SiblingsEmptyParent(n: nat)
    requires n > 0
    ensures Consistent(identity, pair) && Targeted(identity, pair.rules, siblings) && siblings.members != []
    ensures var p := Survivor(identity, pair, n, siblings);
            p in Passes(identity, pair, n).groups && p.id == siblings.id && p.members == []
  {
    PairConsistent();
    forall m | m in siblings.members ensures PrunedMember(identity, pair, m) { SiblingsPruned(m); }
    var r := RunOf(identity, pair, n, siblings);
    assert AboutToEmpty(r.trim, r.snaps[0], r.group[0]);
    RunKeepsTargets(identity, pair, n, siblings);
    TargetEmptiedExactly(identity, pair, n, siblings);
  }
}

/**
 Resolving a policy and pruning the result, as a publication does. Whatever the policy, no group of
 the outcome offers an unsafe node. When the labels of groups, derived groups, nodes and builtins
 keep apart, the resolver's snapshot is consistent, so that all guarantees of the pruner apply to it.
 */
module Publication {
  import opened Wrappers
  import opened Policy
  import opened Sorting
  import opened Pipeline
  import opened PipelineMeaning
  import opened DerivedGroups
  import opened ResolveGroups
  import opened RewriteMeaning
  import opened GroupSnapshot
  import opened Admission
  import opened Resolve
  import FilterChoice
  import Prune
  import PruneSafety
  import Rules
  import Topology

  // ---- Labels ----

  datatype Label = Label(id: string, name: string)

  ghost predicate GroupLabel(gs: seq<NodeGroup>, l: Label) {
    exists g :: g in gs && l == Label(g.id, g.name)
  }

  /** The label of the group that a reference from `p` to `c` may be redirected to. */
  function RefLabel(env: Environment, p: NodeGroup, c: NodeGroup): Label {
    Label(env.derivedId(p.id, c.id), DerivedName(p.name, c.name))
  }

  ghost predicate DerivedLabel(env: Environment, gs: seq<NodeGroup>, l: Label) {
    exists p, c :: p in gs && c in gs && HasAddRef(p.sources, c.id) && l == RefLabel(env, p, c)
  }

  /** A group of the policy, or one that a reference may be redirected to. */
  ghost predicate IsTitle(env: Environment, gs: seq<NodeGroup>, l: Label) {
    GroupLabel(gs, l) || DerivedLabel(env, gs, l)
  }

  ghost predicate NodeLabel(input: Input, l: Label) {
    exists n :: n in input.nodes && l == Label(n.logicalId, n.displayName)
  }

  ghost predicate BuiltinLabel(env: Environment, gs: seq<NodeGroup>, l: Label) {
    exists g, s :: g in gs && s in g.sources && s.kind == TypedBuiltin && s.builtinName.Some? &&
      l == Label(env.oracle.builtinName(s.builtinName.value), env.oracle.builtinName(s.builtinName.value))
  }

  ghost predicate IsLeaf(env: Environment, input: Input, gs: seq<NodeGroup>, l: Label) {
    NodeLabel(input, l) || BuiltinLabel(env, gs, l)
  }

  ghost predicate Trimmed(trim: Prune.Trim, l: Label) {
    l.id != "" && l.name != "" && trim(l.id) == l.id && trim(l.name) == l.name
  }

  /**
   Titles are trimmed and told apart by id as by name, nothing else is taken for one, and rules need
   groups.
   */
  ghost predicate Tidy(trim: Prune.Trim, env: Environment, input: Input, gs: seq<NodeGroup>) {
    && (forall l :: IsTitle(env, gs, l) ==> Trimmed(trim, l))
    && (forall l, k :: IsTitle(env, gs, l) && IsTitle(env, gs, k) && (l.id == k.id || l.name == k.name) ==> l == k)
    && (forall l, k :: IsTitle(env, gs, l) && IsLeaf(env, input, gs, k) ==> trim(k.id) != l.id && trim(k.name) != l.name)
    && (gs == [] ==> input.policyRules == [])
  }

  // ---- The resolver's snapshot is consistent ----

  ghost function StageOf(env: Environment, e: Evaluation): Stage {
    Stage(e.ctx, e.rank, env.derivedId)
  }

  ghost function LabelOf(g: ResolvedGroup): Label {
    Label(g.id, g.name)
  }

  lemma OriginalTitled(env: Environment, e: Evaluation, nodes: seq<Node>, rg: ResolvedGroup)
    requires EvaluationOf(env, e, nodes) && rg.id in e.rank && Rewritten(StageOf(env, e), rg, rg.id)
    ensures GroupLabel(e.groups, LabelOf(rg))
  {
    assert e.ctx.groups[rg.id] in e.groups;
  }

  lemma DerivedTitled(env: Environment, e: Evaluation, nodes: seq<Node>, rg: ResolvedGroup)
    requires EvaluationOf(env, e, nodes) && DerivedGroup(StageOf(env, e), rg)
    ensures DerivedLabel(env, e.groups, LabelOf(rg))
  {
    var p, c := Redirection(StageOf(env, e), rg);
    var parent, child := e.ctx.groups[p], e.ctx.groups[c];
    assert parent in e.groups && child in e.groups && HasAddRef(parent.sources, child.id);
  }

  lemma Redirection(st: Stage, rg: ResolvedGroup) returns (p: string, c: string)
    requires StageOk(st) && DerivedGroup(st, rg)
    ensures p in st.rank && c in st.rank && HasAddRef(st.ctx.groups[p].sources, c)
    ensures rg.id == st.derivedId(p, c) && rg.name == DerivedName(st.ctx.groups[p].name, st.ctx.groups[c].name)
  {
    p, c :| RedirectedRef(st, p, c) && IsDerived(st, rg, p, c);
    ChildrenOk(st, p, c);
  }

  lemma GroupTitled(env: Environment, e: Evaluation, nodes: seq<Node>, groups: seq<ResolvedGroup>, k: nat)
    requires EvaluationOf(env, e, nodes) && GroupsPresented(env, e, groups) && k < |groups|
    ensures IsTitle(env, e.groups, LabelOf(groups[k]))
  {
    assert Finished(StageOf(env, e), e.graph, groups[k]);
    if groups[k].id in e.rank {
      OriginalTitled(env, e, nodes, groups[k]);
    } else {
      DerivedTitled(env, e, nodes, groups[k]);
    }
  }

  /** The snapshot has a group under every id of the graph, named as the graph names it. */
  lemma GroupUnder(env: Environment, e: Evaluation, groups: seq<ResolvedGroup>, id: string) returns (h: ResolvedGroup)
    requires GroupsPresented(env, e, groups) && id in e.graph
    ensures h in groups && h.id == id && EntryOk(StageOf(env, e), h)
  {
    assert id in IdsOf(groups);
    var k :| 0 <= k < |groups| && groups[k].id == id;
    assert Finished(StageOf(env, e), e.graph, groups[k]);
    h := groups[k];
  }

  /** A group member names a group of the snapshot by id and name. */
  ghost predicate NamesGroup(groups: seq<ResolvedGroup>, m: Member) {
    exists h :: h in groups && h.id == m.targetId && h.name == m.displayName
  }

  lemma ReferenceNamed(env: Environment, e: Evaluation, groups: seq<ResolvedGroup>, g: string, m: Member, i: nat)
    requires GroupsPresented(env, e, groups) && g in e.rank && i < |GroupItems(e.ctx, e.rank, g)|
    requires NodesIndexed(e.ctx) && m == Retarget(StageOf(env, e), g, MemoOf(e.ctx, e.rank, g).members[i]) && m.kind == KindGroup
    ensures NamesGroup(groups, m)
  {
    var st, items := StageOf(env, e), GroupItems(e.ctx, e.rank, g);
    var c := items[i].targetId;
    ItemsCanonical(e.ctx, e.rank, g, |Sources(e.ctx, g)|);
    TargetsPrefix(items, i, KindGroup);
    TargetInTable(st, e.graph, g, c);
    ChildrenOk(st, g, c);
    var h := GroupUnder(env, e, groups, NewTarget(st, g, c));
    if Redirected(st, g, c) { DerivedById(st, h, g, c); }
  }

  lemma LeafFromContext(env: Environment, input: Input, e: Evaluation, nodes: seq<Node>, x: Item)
    requires EvaluationOf(env, e, nodes) && (forall n :: n in nodes ==> n in input.nodes)
    requires Canonical(e.ctx, x) && x.kind != KindGroup
    ensures IsLeaf(env, input, e.groups, Label(x.targetId, x.displayName))
  {
    if x.kind == KindNode {
      assert x.targetId in NodeIds(nodes);
      var i :| 0 <= i < |nodes| && nodes[i].logicalId == x.targetId;
      assert e.ctx.ordered[i] == nodes[i] && nodes[i] in nodes;
    } else {
      var g, s :| g in e.ctx.groups && s in e.ctx.groups[g].sources && DeclaresBuiltin(e.ctx, s, x.targetId);
      assert e.ctx.groups[g] in e.groups;
      assert BuiltinLabel(env, e.groups, Label(x.targetId, x.displayName));
    }
  }

  /** What a member of the snapshot stands for. */
  ghost predicate Accountable(env: Environment, input: Input, gs: seq<NodeGroup>, groups: seq<ResolvedGroup>, m: Member) {
    if m.kind == KindGroup then NamesGroup(groups, m) else IsLeaf(env, input, gs, Label(m.targetId, m.displayName))
  }

  /** A member that is not a group shows a leaf the context describes. */
  lemma OriginalLeaf(st: Stage, rg: ResolvedGroup, i: nat) returns (x: Item)
    requires StageOk(st) && NodesIndexed(st.ctx) && rg.id in st.rank && Rewritten(st, rg, rg.id)
    requires i < |rg.members| && rg.members[i].kind != KindGroup
    ensures Canonical(st.ctx, x) && ShownAs(x, rg.members[i])
  {
    var g := rg.id;
    assert rg.members[i] == Retarget(st, g, MemoOf(st.ctx, st.rank, g).members[i]);
    ItemsCanonical(st.ctx, st.rank, g, |Sources(st.ctx, g)|);
    x := GroupItems(st.ctx, st.rank, g)[i];
  }

  lemma DerivedLeaf(st: Stage, rg: ResolvedGroup, i: nat) returns (x: Item)
    requires StageOk(st) && NodesIndexed(st.ctx) && DerivedGroup(st, rg) && i < |rg.members|
    ensures Canonical(st.ctx, x) && ShownAs(x, rg.members[i]) && x.kind != KindGroup
  {
    var p, c :| RedirectedRef(st, p, c) && IsDerived(st, rg, p, c);
    var kept := KeptLeavesOf(st, p, c);
    KeptCanonical(st, p, c);
    LeafMembersLength(st.ctx, kept);
    LeafMemberAt(st.ctx, kept, i);
    x := kept[i];
    assert x in kept;
  }

  ghost predicate ShownAs(x: Item, m: Member) {
    m.kind == x.kind && m.targetId == x.targetId && m.displayName == x.displayName
  }

  lemma MemberAccountable(env: Environment, input: Input, e: Evaluation, nodes: seq<Node>, groups: seq<ResolvedGroup>, k: nat, i: nat)
    requires EvaluationOf(env, e, nodes) && (forall n :: n in nodes ==> n in input.nodes)
    requires GroupsPresented(env, e, groups) && k < |groups| && i < |groups[k].members|
    ensures Accountable(env, input, e.groups, groups, groups[k].members[i])
  {
    EntryAt(env, e, groups, k);
    if groups[k].id in e.rank && groups[k].members[i].kind == KindGroup {
      ReferenceAccountable(env, e, groups, groups[k], i);
    } else {
      LeafAccountable(env, input, e, nodes, groups, groups[k], i);
    }
  }

  lemma EntryAt(env: Environment, e: Evaluation, groups: seq<ResolvedGroup>, k: nat)
    requires GroupsPresented(env, e, groups) && k < |groups|
    ensures EntryOk(StageOf(env, e), groups[k])
  {
    assert Finished(StageOf(env, e), e.graph, groups[k]);
  }

  lemma ReferenceAccountable(env: Environment, e: Evaluation, groups: seq<ResolvedGroup>, rg: ResolvedGroup, i: nat)
    requires GroupsPresented(env, e, groups) && NodesIndexed(e.ctx) && rg.id in e.rank && Rewritten(StageOf(env, e), rg, rg.id)
    requires i < |rg.members| && rg.members[i].kind == KindGroup
    ensures NamesGroup(groups, rg.members[i])
  {
    assert rg.members[i] == Retarget(StageOf(env, e), rg.id, MemoOf(e.ctx, e.rank, rg.id).members[i]);
    ReferenceNamed(env, e, groups, rg.id, rg.members[i], i);
  }

  lemma LeafAccountable(env: Environment, input: Input, e: Evaluation, nodes: seq<Node>, groups: seq<ResolvedGroup>, rg: ResolvedGroup, i: nat)
    requires EvaluationOf(env, e, nodes) && (forall n :: n in nodes ==> n in input.nodes)
    requires EntryOk(StageOf(env, e), rg) && i < |rg.members| && (rg.id in e.rank ==> rg.members[i].kind != KindGroup)
    ensures Accountable(env, input, e.groups, groups, rg.members[i])
  {
    var x := ShownLeaf(StageOf(env, e), rg, i);
    LeafFromContext(env, input, e, nodes, x);
  }

  lemma ShownLeaf(st: Stage, rg: ResolvedGroup, i: nat) returns (x: Item)
    requires StageOk(st) && NodesIndexed(st.ctx) && EntryOk(st, rg) && i < |rg.members|
    requires rg.id in st.rank ==> rg.members[i].kind != KindGroup
    ensures Canonical(st.ctx, x) && ShownAs(x, rg.members[i]) && x.kind != KindGroup
  {
    if rg.id in st.rank {
      x := OriginalLeaf(st, rg, i);
    } else {
      x := DerivedLeaf(st, rg, i);
    }
  }

  // ---- Consistency ----

  /** What the pruner sees of a snapshot. */
  function Shown(s: Snapshot): Prune.Snapshot {
    Prune.Snapshot(s.groups, s.rules, [])
  }

  lemma MemberConsistent(trim: Prune.Trim, env: Environment, input: Input, gs: seq<NodeGroup>, groups: seq<ResolvedGroup>, m: Member)
    requires Tidy(trim, env, input, gs) && AllTitled(env, gs, groups) && Accountable(env, input, gs, groups, m)
    ensures PruneSafety.MemberOk(trim, groups, m)
  {
    if m.kind == KindGroup {
      var h :| h in groups && h.id == m.targetId && h.name == m.displayName;
      assert IsTitle(env, gs, LabelOf(h));
      assert PruneSafety.GroupMember(trim, groups, m, h);
    } else {
      forall h | h in groups ensures trim(m.targetId) != h.id && trim(m.displayName) != h.name {
        assert IsTitle(env, gs, LabelOf(h));
      }
    }
  }

  ghost predicate AllTitled(env: Environment, gs: seq<NodeGroup>, groups: seq<ResolvedGroup>) {
    forall h :: h in groups ==> IsTitle(env, gs, LabelOf(h))
  }

  lemma GroupsApart(trim: Prune.Trim, env: Environment, input: Input, gs: seq<NodeGroup>, groups: seq<ResolvedGroup>,
                    g: ResolvedGroup, h: ResolvedGroup)
    requires Tidy(trim, env, input, gs) && AllTitled(env, gs, groups) && NoRepeats(IdList(groups))
    requires g in groups && h in groups && (g.id == h.id || g.name == h.name)
    ensures g == h
  {
    assert LabelOf(g) == LabelOf(h);
    var i :| 0 <= i < |groups| && groups[i] == g;
    var j :| 0 <= j < |groups| && groups[j] == h;
    assert IdList(groups)[i] == IdList(groups)[j];
  }

  lemma ArrangedFrom(c: Checks, rules: seq<PolicyRule>, r: PolicyRule)
    requires r in Rules.Arrange(c, Rules.ByPosition(rules))
    ensures r in rules
  {
    var sorted := Rules.ByPosition(rules);
    Rules.ArrangeIsStablePartition(c, sorted);
    assert r in multiset(Rules.Arrange(c, sorted)) && r in multiset(sorted);
    StableSortElements(Rules.PositionLe, rules);
  }

  /** The target of an accepted rule is a group of the policy. */
  lemma TargetNamed(env: Environment, input: Input, gs: seq<NodeGroup>, rules: seq<Rules.ResolvedRule>, r: Rules.ResolvedRule)
    requires Accepts(env, input, gs) && RulesPresented(env, input, gs, rules) && r in rules && (gs == [] ==> input.policyRules == [])
    ensures GroupLabel(gs, Label(r.targetGroupId, r.targetGroupName))
  {
    var i :| 0 <= i < |rules| && rules[i] == r;
    var arranged := Rules.Arrange(env.checks, Rules.ByPosition(input.policyRules));
    assert arranged[i] in arranged;
    ArrangedFrom(env.checks, input.policyRules, arranged[i]);
    assert Rules.RuleOk(env.checks, Topology.GroupIds(gs), arranged[i]);
    assert gs[0].id in Topology.GroupIds(gs);
    NameOfGroup(gs, r.targetGroupId);
  }

  lemma RuleConsistent(trim: Prune.Trim, env: Environment, input: Input, e: Evaluation, s: Snapshot, r: Rules.ResolvedRule)
    requires EvaluationOf(env, e, s.nodes) && GroupsPresented(env, e, s.groups) && Tidy(trim, env, input, e.groups)
    requires GroupLabel(e.groups, Label(r.targetGroupId, r.targetGroupName))
    ensures PruneSafety.RuleResolves(trim, s.groups, r)
  {
    var id := r.targetGroupId;
    assert id in e.rank && id in e.graph;
    var h := GroupUnder(env, e, s.groups, id);
    OriginalTitled(env, e, s.nodes, h);
    assert LabelOf(h) == Label(r.targetGroupId, r.targetGroupName) && Trimmed(trim, LabelOf(h));
    assert PruneSafety.RuleTarget(trim, s.groups, r, h);
  }

  /** A resolved policy with tidy labels is a consistent snapshot. */
  lemma ResolvedConsistent(trim: Prune.Trim, env: Environment, input: Input, e: Evaluation, s: Snapshot)
    requires ResolvesTo(env, input, e, s) && Accepts(env, input, e.groups) && Tidy(trim, env, input, e.groups)
    ensures PruneSafety.Consistent(trim, Shown(s))
  {
    var gs, groups := e.groups, s.groups;
    AllGroupsTitled(env, e, s.nodes, groups);
    forall g | g in groups ensures g.id != "" && g.name != "" { assert Trimmed(trim, LabelOf(g)); }
    forall g, h | g in groups && h in groups && (g.id == h.id || g.name == h.name) ensures g == h {
      GroupsApart(trim, env, input, gs, groups, g, h);
    }
    forall g, m | g in groups && m in g.members ensures PruneSafety.MemberOk(trim, groups, m) {
      MemberOf(env, input, e, s, g, m);
      MemberConsistent(trim, env, input, gs, groups, m);
    }
    forall r | r in s.rules ensures PruneSafety.RuleResolves(trim, groups, r) {
      TargetNamed(env, input, gs, s.rules, r);
      RuleConsistent(trim, env, input, e, s, r);
    }
  }

  lemma AllGroupsTitled(env: Environment, e: Evaluation, nodes: seq<Node>, groups: seq<ResolvedGroup>)
    requires EvaluationOf(env, e, nodes) && GroupsPresented(env, e, groups)
    ensures AllTitled(env, e.groups, groups)
  {
    forall h | h in groups ensures IsTitle(env, e.groups, LabelOf(h)) {
      var k :| 0 <= k < |groups| && groups[k] == h;
      GroupTitled(env, e, nodes, groups, k);
    }
  }

  lemma MemberOf(env: Environment, input: Input, e: Evaluation, s: Snapshot, g: ResolvedGroup, m: Member)
    requires ResolvesTo(env, input, e, s) && g in s.groups && m in g.members
    ensures Accountable(env, input, e.groups, s.groups, m)
  {
    var k :| 0 <= k < |s.groups| && s.groups[k] == g;
    var i :| 0 <= i < |g.members| && g.members[i] == m;
    MemberAccountable(env, input, e, s.nodes, s.groups, k, i);
  }

  /** Consistency needs distinct, non-empty group names, and groups for the rules. */
  lemma ConsistentNeedsNames(trim: Prune.Trim, env: Environment, input: Input, e: Evaluation, s: Snapshot)
    requires ResolvesTo(env, input, e, s) && PruneSafety.Consistent(trim, Shown(s))
    ensures forall g, h :: g in e.groups && h in e.groups && g.name == h.name ==> g.id == h.id
    ensures forall g :: g in e.groups ==> g.name != ""
    ensures e.groups == [] ==> s.rules == []
  {
    if s.rules != [] {
      assert s.rules[0] in s.rules && PruneSafety.RuleResolves(trim, s.groups, s.rules[0]);
      var h :| PruneSafety.RuleTarget(trim, s.groups, s.rules[0], h);
      var k :| 0 <= k < |s.groups| && s.groups[k] == h;
      GroupTitled(env, e, s.nodes, s.groups, k);
    }
    forall g | g in e.groups ensures g.name != "" { var h := Presented(env, e, s, g); }
    forall g, h | g in e.groups && h in e.groups && g.name == h.name ensures g.id == h.id {
      var a := Presented(env, e, s, g);
      var b := Presented(env, e, s, h);
    }
  }

  /** Two groups with one name: an accepted policy that has them resolves to an inconsistent snapshot. */
  lemma NamesakesInconsistent(trim: Prune.Trim, env: Environment, input: Input, e: Evaluation, s: Snapshot, g: NodeGroup, h: NodeGroup)
    requires ResolvesTo(env, input, e, s) && g in e.groups && h in e.groups && g.name == h.name && g.id != h.id
    ensures !PruneSafety.Consistent(trim, Shown(s))
  {
    if PruneSafety.Consistent(trim, Shown(s)) { ConsistentNeedsNames(trim, env, input, e, s); }
  }

  lemma Presented(env: Environment, e: Evaluation, s: Snapshot, g: NodeGroup) returns (h: ResolvedGroup)
    requires EvaluationOf(env, e, s.nodes) && GroupsPresented(env, e, s.groups) && g in e.groups
    ensures h in s.groups && h.id == g.id && h.name == g.name
  {
    assert g.id in e.rank && g.id in e.graph;
    h := GroupUnder(env, e, s.groups, g.id);
  }

  // ---- Resolving and pruning ----

  lemma PassMembers(trim: Prune.Trim, s: Prune.Snapshot, g': ResolvedGroup, m: Member) returns (g: ResolvedGroup)
    requires g' in Prune.Pass(trim, s).groups && m in g'.members
    ensures g in s.groups && g.id == g'.id && m in g.members
  {
    var ids, names := Prune.PrunedIds(trim, s), Prune.PrunedNames(trim, s);
    if Prune.Changes(trim, s) {
      PruneSafety.KeptGroupsAre(trim, ids, names, s.groups);
      g :| g in s.groups && !Prune.GroupPruned(ids, names, g) && g' == Prune.Thinned(trim, ids, names, g);
      PruneSafety.KeptMembersAre(trim, ids, names, g.members);
    } else {
      g := g';
    }
  }

  /** Pruning invents no member, whatever the snapshot. */
  lemma {:induction false} RunMembers(trim: Prune.Trim, s: Prune.Snapshot, n: nat, g': ResolvedGroup, m: Member) returns (g: ResolvedGroup)
    requires g' in Prune.Passes(trim, s, n).groups && m in g'.members
    ensures g in s.groups && g.id == g'.id && m in g.members
  {
    if n == 0 {
      g := g';
    } else {
      var h := PassMembers(trim, Prune.Passes(trim, s, n - 1), g', m);
      g := RunMembers(trim, s, n - 1, h, m);
    }
  }

  /** Every node that any group offers is safe. */
  ghost predicate OffersSafe(env: Environment, input: Input, groups: seq<ResolvedGroup>) {
    forall g, m :: g in groups && m in g.members && m.kind == KindNode ==> SafeId(env, input, m.targetId)
  }

  lemma PrunedOffersSafe(trim: Prune.Trim, env: Environment, input: Input, s: Snapshot, n: nat)
    requires NodesAccounted(env, input, s)
    ensures OffersSafe(env, input, Prune.Passes(trim, Shown(s), n).groups)
  {
    forall g', m | g' in Prune.Passes(trim, Shown(s), n).groups && m in g'.members && m.kind == KindNode
      ensures SafeId(env, input, m.targetId)
    {
      var g := RunMembers(trim, Shown(s), n, g', m);
      var k :| 0 <= k < |s.groups| && s.groups[k] == g;
      var i :| 0 <= i < |g.members| && g.members[i] == m;
      assert GroupAccounted(env, input, IdsOf(s.groups), s.groups[k]);
      assert MemberAccounted(env, input, IdsOf(s.groups), g.members[i]);
    }
  }

  /** References resolve, rules stay, targets survive, and every group reaches what it reached. */
  ghost predicate Intact(trim: Prune.Trim, before: Prune.Snapshot, after: Prune.Snapshot) {
    && PruneSafety.Consistent(trim, after) && after.rules == before.rules
    && (forall id, leaf :: PruneSafety.Reaches(trim, after.groups, id, leaf) <==> PruneSafety.Reaches(trim, before.groups, id, leaf))
    && (forall g :: g in before.groups && Prune.Targeted(trim, before.rules, g) ==> StillThere(after, g))
  }

  ghost predicate StillThere(after: Prune.Snapshot, g: ResolvedGroup) {
    exists g' :: g' in after.groups && g'.id == g.id && g'.name == g.name && (g.groupType != Select ==> g' == g)
  }

  /** What the pruner leaves after as many passes as it takes: another one changes nothing. */
  ghost predicate PrunedFully(trim: Prune.Trim, before: Prune.Snapshot, after: Prune.Snapshot) {
    && (exists n: nat :: n <= |before.groups| && after == Prune.Passes(trim, before, n))
    && !Prune.Changes(trim, after) && Prune.Pass(trim, after) == after
  }

  lemma RunIntact(trim: Prune.Trim, s: Prune.Snapshot, n: nat)
    requires PruneSafety.Consistent(trim, s)
    ensures Intact(trim, s, Prune.Passes(trim, s, n))
  {
    PruneSafety.RunPreserves(trim, s, n);
    forall g | g in s.groups && Prune.Targeted(trim, s.rules, g) ensures StillThere(Prune.Passes(trim, s, n), g) {
      PruneSafety.RunKeepsTargets(trim, s, n, g);
    }
  }

  /**
   A policy resolved and, if asked for, pruned. The outcome never offers an unsafe node; with tidy
   labels no reference dangles, rule targets survive and every group still reaches what the resolver
   let it reach.
   */
  method ResolveAndPrune(env: Environment, input: Input, trim: Prune.Trim, optIn: bool)
    returns (r: Result<Prune.Snapshot>, ghost e: Evaluation, ghost s: Snapshot)
    requires DistinctNodes(input.nodes) && DistinctGroups(input.groups) && NamingOk(env, input.groups)
    ensures SourcesTaken(input, e.groups) && (r.Ok? <==> Accepts(env, input, e.groups))
    ensures r.Ok? ==> ResolvesTo(env, input, e, s) && OffersSafe(env, input, r.value.groups)
    ensures r.Ok? ==> if optIn then PrunedFully(trim, Shown(s), r.value) else r.value == Shown(s)
    ensures r.Ok? && Tidy(trim, env, input, e.groups) ==> Intact(trim, Shown(s), r.value)
  {
    var resolved;
    resolved, e := Resolve.Resolve(env, input);
    if resolved.Err? {
      s := Snapshot([], [], [], [], [], [], None);
      return Err(resolved.code, resolved.cyclePath), e, s;
    }
    s := resolved.value;
    var shown := Shown(resolved.value);
    ghost var rounds := 0;
    var pruned := shown;
    if optIn {
      var diags;
      pruned, diags, rounds := Prune.PruneUnavailableOptionalGroups(trim, shown);
      assert PrunedFully(trim, shown, pruned);
    }
    PrunedOffersSafe(trim, env, input, s, rounds);
    if Tidy(trim, env, input, e.groups) {
      ResolvedConsistent(trim, env, input, e, s);
      RunIntact(trim, Shown(s), rounds);
    }
    r := Ok(pruned);
  }

  // ---- A policy with namesakes ----

  const first := NodeGroup("A", "same", Select, false, [])
  const second := NodeGroup("B", "same", Select, false, [])
  const anyText := Checks((s: string) => s != "", (s: string) => true, (s: string) => false, (s: string) => false,
                          (m: MemberSource) => None)
  const plain := Environment(anyText, FilterChoice.rejectAll, (n: Node, x: string) => false, (f: FilterSpec) => true, FilterChoice.Tag)
  const namesakes := Input([], [first, second], None, [], [], [], "", [], RiskBlock, None, None,
                           (id: string) => Endpoint("", 0, "", 0))

  lemma NoEdges(gs: seq<NodeGroup>)
    requires forall g :: g in gs ==> g.sources == []
    ensures Topology.Acyclic(Topology.DeclaredEdges(gs, map[]))
  {
    var E := Topology.DeclaredEdges(gs, map[]);
    forall u, v ensures (u, v) !in E {}
    forall p: seq<string> | |p| >= 2 ensures !Topology.Walk(E, p) { assert (p[0], p[1]) !in E; }
  }

  lemma TagsName(gs: seq<NodeGroup>)
    requires forall g :: g in gs ==> |g.id| == 1
    ensures NamingOk(plain, gs)
  {
    forall p: string, c: string ensures FilterChoice.Tag(p, c) !in Topology.GroupIds(gs) { FilterChoice.TagAt(p, c); }
    forall p: string, c: string, p': string, c': string | FilterChoice.Tag(p, c) == FilterChoice.Tag(p', c') ensures p == p' && c == c' {
      FilterChoice.TagInjective(p, c, p', c');
    }
  }

  lemma NamesakesAccepted(gs: seq<NodeGroup>)
    requires gs == [first, second]
    ensures Accepts(plain, namesakes, gs)
  {
    NoEdges(gs);
  }

  /** The resolver accepts two groups of one name, and what it returns is not consistent. */
  method ResolveNamesakes(trim: Prune.Trim) returns (r: Result<Snapshot>)
    ensures r.Ok? && !PruneSafety.Consistent(trim, Shown(r.value))
  {
    ghost var e;
    NamesakesAccepted([first, second]);
    TagsName([first, second]);
    r, e := Resolve.Resolve(plain, namesakes);
    assert e.groups == [first, second] && e.groups[0] == first && e.groups[1] == second;
    NamesakesInconsistent(trim, plain, namesakes, e, r.value, first, second);
  }
}

/**
 One publication from end to end: group "Auto" refers to "HK" through a filter that rejects one of its
 two nodes. The policy is tidy, and the outcome lists the derived group "HK [Auto]" with the other node.
 */
module RedirectedPolicy {
  import opened Wrappers
  import opened Policy
  import opened Sorting
  import opened Pipeline
  import opened PipelineMeaning
  import opened DerivedGroups
  import opened ResolveGroups
  import opened RewriteMeaning
  import opened GroupSnapshot
  import opened Admission
  import opened Resolve
  import opened Publication
  import opened DerivedNames
  import FilterChoice
  import Prune
  import PruneSafety
  import Rules
  import Topology

  // ---- The policy ----

  const keeper := Node("k", "keep", "vless", true)
  const loser := Node("d", "drop", "vless", true)
  const listKeeper := MemberSource("s0", "C", Add, ManualNode, 0, Some("k"), None, None, None, None)
  const listLoser := MemberSource("s1", "C", Add, ManualNode, 1, Some("d"), None, None, None, None)
  const onlyKeep := FilterSpec([Condition("keep")])
  const refer := MemberSource("s2", "P", Add, GroupRef, 0, None, Some("C"), None, Some(onlyKeep), None)
  const hk := NodeGroup("C", "HK", Select, false, [listKeeper, listLoser])
  const auto := NodeGroup("P", "Auto", Select, false, [refer])

  /** A condition holds of the nodes it names. */
  const byName := Oracle((c: Condition, n: Node) => c.text == n.displayName, (s: string) => true,
                         (p: string, s: string) => true, (s: string) => false, (s: string) => s)
  const env := plain.(oracle := byName)
  const policy := Input([keeper, loser], [hk, auto], None, [], [], [], "", [], RiskBlock, None, None,
                        (id: string) => Endpoint("", 0, "", 0))
  const asIs: Prune.Trim := (s: string) => s

  // ---- Its evaluation ----

  /** The context every resolution of the policy works on. */
  ghost predicate Evaluates(ctx: Context, rank: map<string, nat>) {
    && RankedContext(ctx, rank) && ctx.groups == map["C" := hk, "P" := auto]
    && "k" in ctx.admitted && ctx.admitted["k"] == keeper && "d" in ctx.admitted && ctx.admitted["d"] == loser
    && ctx.oracle == byName
  }

  const keepItem := Item(KindNode, "k", "keep")
  const dropItem := Item(KindNode, "d", "drop")
  const hkItem := Item(KindGroup, "C", "HK")

  lemma TwoAdded()
    ensures AddAll([], [keepItem]) == [keepItem] && AddAll([keepItem], [dropItem]) == [keepItem, dropItem]
  {
    assert [keepItem][..0] == [] && [dropItem][..0] == [];
    assert keepItem.Id() == "node:k" && dropItem.Id() == "node:d";
    assert "node:k"[5] != "node:d"[5];
  }

  lemma ChildItems(ctx: Context, rank: map<string, nat>)
    requires Evaluates(ctx, rank)
    ensures GroupItems(ctx, rank, "C") == [keepItem, dropItem]
  {
    PairSorted(SourcePositionLe, listKeeper, listLoser);
    assert Sources(ctx, "C") == [listKeeper, listLoser];
    TwoAdded();
    assert ItemsAfter(ctx, rank, "C", 0) == [];
    assert Candidates(ctx, listKeeper, []) == [keepItem];
    assert ItemsAfter(ctx, rank, "C", 1) == [keepItem];
    assert Candidates(ctx, listLoser, []) == [dropItem];
    assert ItemsAfter(ctx, rank, "C", 2) == [keepItem, dropItem];
  }

  lemma ChildLeaves(ctx: Context, rank: map<string, nat>)
    requires Evaluates(ctx, rank)
    ensures Leaves(ctx, rank, "C") == [keepItem, dropItem]
  {
    ChildItems(ctx, rank);
    var both := [keepItem, dropItem];
    assert both[..1] == [keepItem] && [keepItem][..0] == [];
    assert Flatten(ctx, rank, "C", []) == [];
    assert Flatten(ctx, rank, "C", [keepItem]) == [keepItem];
    assert Flatten(ctx, rank, "C", both) == both;
  }

  lemma ParentItems(ctx: Context, rank: map<string, nat>)
    requires Evaluates(ctx, rank)
    ensures Sources(ctx, "P") == [refer] && GroupItems(ctx, rank, "P") == [hkItem]
  {
    PairSorted(SourcePositionLe, refer, refer);
    assert ItemsAfter(ctx, rank, "P", 0) == [];
    assert Candidates(ctx, refer, []) == [hkItem];
    FilterChoice.AddOne(hkItem);
    assert ItemsAfter(ctx, rank, "P", 1) == [hkItem];
  }

  lemma FilterSplits(ctx: Context)
    requires "k" in ctx.admitted && ctx.admitted["k"] == keeper && "d" in ctx.admitted && ctx.admitted["d"] == loser && ctx.oracle == byName
    ensures PassesRef(ctx, Some(onlyKeep), keepItem) && !PassesRef(ctx, Some(onlyKeep), dropItem)
    ensures Projected(ctx, Some(onlyKeep), [keepItem, dropItem]) == [keepItem]
    ensures AnyRejected(ctx, Some(onlyKeep), [keepItem, dropItem])
  {
    var f, both := Some(onlyKeep), [keepItem, dropItem];
    assert onlyKeep.conditions[0] == Condition("keep") && "keep"[0] != "drop"[0];
    assert both[..1] == [keepItem] && [keepItem][..0] == [];
    assert Projected(ctx, f, []) == [] && Projected(ctx, f, [keepItem]) == [keepItem];
  }

  lemma ReferenceRedirected(st: Stage)
    requires Evaluates(st.ctx, st.rank)
    ensures StageOk(st) && RedirectedRef(st, "P", "C") && KeptLeavesOf(st, "P", "C") == [keepItem]
    ensures MemoOf(st.ctx, st.rank, "P").childGroupIds == ["C"]
  {
    ParentItems(st.ctx, st.rank);
    ChildLeaves(st.ctx, st.rank);
    FilterSplits(st.ctx);
    assert AddFilter([refer], "C") == Some(onlyKeep);
    FilterChoice.OneTarget(hkItem);
  }

  lemma NoReference(st: Stage)
    requires Evaluates(st.ctx, st.rank)
    ensures StageOk(st) && MemoOf(st.ctx, st.rank, "C").childGroupIds == []
  {
    ChildItems(st.ctx, st.rank);
    var both := [keepItem, dropItem];
    assert both[..1] == [keepItem] && [keepItem][..0] == [];
    assert Targets([], KindGroup) == [];
    assert Targets([keepItem], KindGroup) == [];
    assert Targets(both, KindGroup) == [];
  }

  /** The parent, the child, then the derived group. */
  lemma ListedGroups(st: Stage)
    requires Evaluates(st.ctx, st.rank)
    ensures StageOk(st) && "P" in st.rank && "C" in st.rank
    ensures SnapshotIds(st, ["P", "C"]) == ["P", "C", st.derivedId("P", "C")]
  {
    ReferenceRedirected(st);
    NoReference(st);
    var ids := ["P", "C"];
    assert ids[..1] == ["P"] && ["P"][..0] == [];
    assert RedirectedOf(st, "P", ["C"]) == ["C"] by { assert ["C"][..0] == []; }
    assert RefsOf(st, "P") == [("P", "C")] && RefsOf(st, "C") == [];
    assert RefsOfAll(st, []) == [] && RefsOfAll(st, ["P"]) == [("P", "C")];
    assert RefsOfAll(st, ids) == [("P", "C")];
  }

  lemma ParentShown(st: Stage, rg: ResolvedGroup)
    requires Evaluates(st.ctx, st.rank) && Rewritten(st, rg, "P")
    ensures rg.name == "Auto" && rg.members == [Member(KindGroup, st.derivedId("P", "C"), "HK [Auto]", 0)]
  {
    ReferenceRedirected(st);
    ParentItems(st.ctx, st.rank);
    var m := MemoOf(st.ctx, st.rank, "P").members[0];
    assert rg.members[0] == Retarget(st, "P", m) && m == Member(KindGroup, "C", "HK", 0);
    assert DerivedName("Auto", "HK") == "HK [Auto]";
  }

  lemma ChildShown(st: Stage, rg: ResolvedGroup)
    requires Evaluates(st.ctx, st.rank) && Rewritten(st, rg, "C")
    ensures rg.name == "HK" && rg.members == [Member(KindNode, "k", "keep", 0), Member(KindNode, "d", "drop", 1)]
  {
    ChildItems(st.ctx, st.rank);
    var ms := MemoOf(st.ctx, st.rank, "C").members;
    assert rg.members[0] == Retarget(st, "C", ms[0]) && rg.members[1] == Retarget(st, "C", ms[1]);
  }

  lemma DerivedShown(st: Stage, rg: ResolvedGroup)
    requires Evaluates(st.ctx, st.rank) && IsDerived(st, rg, "P", "C")
    ensures rg.name == "HK [Auto]" && rg.members == [Member(KindNode, "k", "keep", 0)]
  {
    ReferenceRedirected(st);
    assert DerivedName("Auto", "HK") == "HK [Auto]";
    assert LeafMembers(st.ctx, [keepItem]) == [Member(KindNode, "k", "keep", 0)] by { assert [keepItem][..0] == []; }
  }

  // ---- Its resolution ----

  lemma Swapped(le: (NodeGroup, NodeGroup) -> bool, x: NodeGroup, y: NodeGroup)
    requires !le(x, y)
    ensures StableSort(le, [x, y]) == [y, x]
  {
    assert [x, y][..1] == [x] && [x][..0] == [];
    assert StableSort(le, []) == [] && StableSort(le, [x]) == [x];
    assert Insert(le, [], y) == [y] && Insert(le, [x], y) == [y, x];
  }

  lemma NamesOrdered(ids: seq<string>)
    requires InOrder([hk, auto], ids)
    ensures ids == ["P", "C"]
  {
    assert !GroupLe(hk, auto) by { assert GroupTitle(hk).0[0] == 'H' && GroupTitle(auto).0[0] == 'A'; }
    Swapped(GroupLe, hk, auto);
  }

  lemma BothAdmitted(n: Node)
    requires n in policy.nodes
    ensures Admitted(env, policy, n)
  {
    assert Exchanged([]) == [];
  }

  lemma PolicyEvaluates(e: Evaluation, nodes: seq<Node>)
    requires e.groups == [hk, auto] && EvaluationOf(env, e, nodes) && keeper in nodes && loser in nodes
    ensures Evaluates(e.ctx, e.rank) && e.ids == ["P", "C"]
  {
    NamesOrdered(e.ids);
    NodeIndexed(e.ctx, keeper);
    NodeIndexed(e.ctx, loser);
    GroupsIndexed(e.groups, e.ctx.groups);
  }

  lemma BothListed(s: Snapshot)
    requires NodesListed(env, policy, s)
    ensures keeper in s.nodes && loser in s.nodes
  {
    assert policy.nodes[0] == keeper && policy.nodes[1] == loser;
    BothAdmitted(keeper);
    BothAdmitted(loser);
  }

  lemma NodeIndexed(ctx: Context, n: Node)
    requires NodesIndexed(ctx) && n in ctx.ordered
    ensures n.logicalId in ctx.admitted && ctx.admitted[n.logicalId] == n
  {
  }

  lemma GroupsIndexed(gs: seq<NodeGroup>, m: map<string, NodeGroup>)
    requires gs == [hk, auto] && IndexesGroups(gs, m)
    ensures m == map["C" := hk, "P" := auto]
  {
    assert gs[0] in gs && gs[1] in gs;
  }

  /** What the outcome shows, group by group. */
  ghost predicate Redirects(groups: seq<ResolvedGroup>) {
    && |groups| == 3 && groups[0].name == "Auto" && groups[1].name == "HK" && groups[2].name == "HK [Auto]"
    && groups[0].members == [Member(KindGroup, groups[2].id, "HK [Auto]", 0)]
    && groups[1].members == [Member(KindNode, "k", "keep", 0), Member(KindNode, "d", "drop", 1)]
    && groups[2].members == [Member(KindNode, "k", "keep", 0)]
  }

  lemma GroupsShow(e: Evaluation, gs: seq<ResolvedGroup>)
    requires Evaluates(e.ctx, e.rank) && e.ids == ["P", "C"] && GroupsPresented(env, e, gs) && FreshIds(StageOf(env, e))
    ensures Redirects(gs)
  {
    var st := StageOf(env, e);
    ListedGroups(st);
    var d := st.derivedId("P", "C");
    assert IdList(gs) == ["P", "C", d] && |gs| == |IdList(gs)|;
    assert gs[0].id == IdList(gs)[0] && gs[1].id == IdList(gs)[1] && gs[2].id == IdList(gs)[2];
    EntryAt(env, e, gs, 0);
    EntryAt(env, e, gs, 1);
    EntryAt(env, e, gs, 2);
    ParentShown(st, gs[0]);
    ChildShown(st, gs[1]);
    DerivedById(st, gs[2], "P", "C");
    DerivedShown(st, gs[2]);
  }

  lemma FreshHere(st: Stage)
    requires Evaluates(st.ctx, st.rank) && st.derivedId == FilterChoice.Tag
    ensures FreshIds(st)
  {
    FilterChoice.TagsFresh(st);
  }

  // ---- Its publication ----

  lemma PolicyAccepted()
    ensures Accepts(env, policy, [hk, auto]) && NamingOk(env, [hk, auto])
  {
    var gs, rank := [hk, auto], map["C" := 0, "P" := 1];
    assert gs[0] == hk && gs[1] == auto;
    assert Topology.GroupIds(gs) == {"C", "P"};
    PolicyRanked(gs, rank);
    Topology.RankedIsAcyclic(Topology.DeclaredEdges(gs, map[]), rank);
    TagsName(gs);
  }

  lemma PolicyRanked(gs: seq<NodeGroup>, rank: map<string, nat>)
    requires gs == [hk, auto] && rank == map["C" := 0, "P" := 1]
    ensures Topology.Ranked(Topology.DeclaredEdges(gs, map[]), rank)
  {
    forall u, v | (u, v) in Topology.DeclaredEdges(gs, map[]) ensures u == "P" && v == "C" {
      assert Topology.GroupsDeclare(gs, u, v);
    }
  }

  const white: char -> bool := (c: char) => false

  lemma TitlesPlain(gs: seq<NodeGroup>)
    requires gs == [hk, auto]
    ensures PlainTitles(white, env, gs) && Trims(asIs, white)
  {
    forall g | g in gs ensures g == hk || g == auto {}
    assert hk.name[0] != auto.name[0];
    forall p, c ensures Snug(white, env.derivedId(p, c)) { FilterChoice.TagAt(p, c); }
  }

  lemma LeafLabels(gs: seq<NodeGroup>, k: Label)
    requires gs == [hk, auto] && IsLeaf(env, policy, gs, k)
    ensures k == Label("k", "keep") || k == Label("d", "drop")
  {
    forall g, s | g in gs && s in g.sources ensures s.kind != TypedBuiltin {
      assert g == hk || g == auto;
    }
  }

  lemma LeavesPlain(gs: seq<NodeGroup>)
    requires gs == [hk, auto]
    ensures PlainLeaves(asIs, env, policy, gs)
  {
    forall g | g in gs ensures g == hk || g == auto {}
    forall k | IsLeaf(env, policy, gs, k)
      ensures forall g :: g in gs ==> asIs(k.id) != g.id && asIs(k.name) != g.name
      ensures '[' !in asIs(k.name) && forall p, c :: asIs(k.id) != env.derivedId(p, c)
    {
      LeafLabels(gs, k);
      assert k.name[0] != 'H' && k.name[0] != 'A' && k.id[0] != 'C' && k.id[0] != 'P';
      forall p, c ensures k.id != env.derivedId(p, c) { FilterChoice.TagAt(p, c); }
    }
  }

  lemma PolicyTidy(gs: seq<NodeGroup>)
    requires gs == [hk, auto]
    ensures Tidy(asIs, env, policy, gs)
  {
    PolicyAccepted();
    TitlesPlain(gs);
    LeavesPlain(gs);
    PlainIsTidy(asIs, white, env, policy, gs);
  }

  lemma PolicyWellFormed()
    ensures DistinctNodes(policy.nodes) && DistinctGroups(policy.groups) && NamingOk(env, policy.groups)
  {
    PolicyAccepted();
  }

  lemma PolicyGroups(gs: seq<NodeGroup>)
    requires SourcesTaken(policy, gs)
    ensures gs == [hk, auto]
  {
    assert gs[0] == hk && gs[1] == auto;
  }

  lemma OutcomeShows(e: Evaluation, s: Snapshot)
    requires e.groups == [hk, auto] && NodesListed(env, policy, s) && EvaluationOf(env, e, s.nodes) && GroupsPresented(env, e, s.groups)
    ensures Redirects(s.groups)
  {
    BothListed(s);
    PolicyEvaluates(e, s.nodes);
    FreshHere(StageOf(env, e));
    GroupsShow(e, s.groups);
  }

  /** The pruner leaves a snapshot without empty groups alone. */
  lemma {:induction false} NothingEmpty(trim: Prune.Trim, s: Prune.Snapshot, n: nat)
    requires forall i :: 0 <= i < |s.groups| ==> s.groups[i].members != []
    ensures Prune.Passes(trim, s, n) == s
  {
    if n > 0 {
      NothingEmpty(trim, s, n - 1);
      forall i | 0 <= i < |s.groups| ensures !Prune.Prunable(trim, s, s.groups[i]) {}
    }
  }

  lemma PrunedSame(s: Prune.Snapshot, after: Prune.Snapshot)
    requires Redirects(s.groups) && PrunedFully(asIs, s, after)
    ensures after == s
  {
    var n: nat :| n <= |s.groups| && after == Prune.Passes(asIs, s, n);
    NothingEmpty(asIs, s, n);
  }

  /**
   The publication, pruned or not: accepted, tidy, hence consistent, with the reference redirected to
   "HK [Auto]".
   */
  method PublishRedirected(optIn: bool) returns (r: Result<Prune.Snapshot>)
    ensures Tidy(asIs, env, policy, [hk, auto])
    ensures r.Ok? && Redirects(r.value.groups) && PruneSafety.Consistent(asIs, r.value)
  {
    ghost var e, s;
    PolicyWellFormed();
    r, e, s := ResolveAndPrune(env, policy, asIs, optIn);
    PolicyGroups(e.groups);
    PolicyAccepted();
    PolicyTidy(e.groups);
    OutcomeShows(e, s);
    if optIn { PrunedSame(Shown(s), r.value); }
  }
}

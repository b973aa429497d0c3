/**
 What the rewritten graph means. The nodes recollected from it are the leaf nodes of every pipeline
 exactly when, for every group, the filters the rewrite picks select the same nodes from its children
 as the filters the evaluation picks. Whatever the filters, only admitted nodes are reached, and every
 member names an admitted node, a group of the graph or a builtin.
 */
module RewriteMeaning {
  import opened Wrappers
  import opened Policy
  import opened Pipeline
  import opened PipelineFacts
  import opened PipelineMeaning
  import opened DerivedGroups
  import opened ResolveGroups

  // ---- What references contribute ----

  datatype Chooser = ByEvaluation | ByRewrite

  /** The filter that the evaluation or the rewrite applies to the reference from `g` to `c`. */
  ghost function Choice(st: Stage, who: Chooser, g: string, c: string): Option<FilterSpec>
    requires StageOk(st) && g in st.rank
  {
    match who
    case ByEvaluation => RefFilter(st.ctx.groups[g].sources, c)
    case ByRewrite => AddFilter(Sources(st.ctx, g), c)
  }

  /** The leaf nodes the reference from `g` to `c` contributes under that filter. */
  ghost function RefNode(st: Stage, who: Chooser, g: string, c: string): set<string>
    requires StageOk(st) && g in st.rank
  {
    NodeSet(Projected(st.ctx, Choice(st, who, g, c), ChildLeaves(st.ctx, st.rank, g, c)))
  }

  ghost function RefNodes(st: Stage, who: Chooser, g: string, cs: seq<string>): set<string>
    requires StageOk(st) && g in st.rank
  {
    if cs == [] then {}
    else RefNodes(st, who, g, cs[..|cs| - 1]) + RefNode(st, who, g, cs[|cs| - 1])
  }

  /** The group's own nodes and those its references contribute. */
  ghost function Selected(st: Stage, who: Chooser, g: string): set<string>
    requires StageOk(st) && g in st.rank
  {
    var m := MemoOf(st.ctx, st.rank, g);
    Elements(m.nodeLogicalIds) + RefNodes(st, who, g, m.childGroupIds)
  }

  /** Both filter choices select the same nodes, for every group. */
  ghost predicate SelectionsAgree(st: Stage)
    requires StageOk(st)
  {
    forall g :: g in st.rank ==> Selected(st, ByRewrite, g) == Selected(st, ByEvaluation, g)
  }

  lemma RefNodesSnoc(st: Stage, who: Chooser, g: string, cs: seq<string>, c: string)
    requires StageOk(st) && g in st.rank
    ensures RefNodes(st, who, g, cs + [c]) == RefNodes(st, who, g, cs) + RefNode(st, who, g, c)
  {
    assert (cs + [c])[..|cs|] == cs;
  }

  lemma RefNodesStep(st: Stage, who: Chooser, g: string, cs: seq<string>, n: nat)
    requires StageOk(st) && g in st.rank && 0 < n <= |cs|
    ensures RefNodes(st, who, g, cs[..n]) == RefNodes(st, who, g, cs[..n - 1]) + RefNode(st, who, g, cs[n - 1])
  {
    assert cs[..n] == cs[..n - 1] + [cs[n - 1]];
    RefNodesSnoc(st, who, g, cs[..n - 1], cs[n - 1]);
  }

  /** Flattening one more item adds its node, or what its reference contributes. */
  lemma FlattenOne(st: Stage, g: string, x: Item)
    requires StageOk(st) && g in st.rank
    ensures NodeSet(LeavesOf(st.ctx, st.rank, g, x)) ==
            match x.kind
            case KindNode => {x.targetId}
            case KindGroup => RefNode(st, ByEvaluation, g, x.targetId)
            case KindBuiltin => {}
  {
    if x.kind != KindGroup { assert NodeSet([x]) == if x.kind == KindNode then {x.targetId} else {}; }
  }

  /** A group's leaf nodes are its own nodes and those of its references. */
  lemma {:induction false} FlattenNodes(st: Stage, g: string, items: seq<Item>)
    requires StageOk(st) && g in st.rank
    ensures NodeSet(Flatten(st.ctx, st.rank, g, items)) ==
            Elements(Targets(items, KindNode)) + RefNodes(st, ByEvaluation, g, Targets(items, KindGroup))
  {
    if items != [] {
      var init, x := items[..|items| - 1], items[|items| - 1];
      FlattenNodes(st, g, init);
      FlattenOne(st, g, x);
      NodeSetConcat(Flatten(st.ctx, st.rank, g, init), LeavesOf(st.ctx, st.rank, g, x));
      var ns, gs := Targets(init, KindNode), Targets(init, KindGroup);
      ElementsSnoc(ns, x.targetId);
      RefNodesSnoc(st, ByEvaluation, g, gs, x.targetId);
      assert Targets(items, KindNode) == if x.kind == KindNode then ns + [x.targetId] else ns;
      assert Targets(items, KindGroup) == if x.kind == KindGroup then gs + [x.targetId] else gs;
    }
  }

  lemma LeavesSelected(st: Stage, g: string)
    requires StageOk(st) && g in st.rank
    ensures NodeSet(Leaves(st.ctx, st.rank, g)) == Selected(st, ByEvaluation, g)
  {
    FlattenNodes(st, g, GroupItems(st.ctx, st.rank, g));
  }

  // ---- What the rewritten graph reaches ----

  /** The recollected nodes of `g` are its pipeline's leaf nodes. */
  ghost predicate Preserved(st: Stage, t: Table, g: string)
    requires StageOk(st) && TableRanked(t, TableRank(st, t)) && g in st.rank && g in t
  {
    NodesIn(t, TableRank(st, t), g) == NodeSet(Leaves(st.ctx, st.rank, g))
  }

  /** A complete, ranked table over indexed nodes. */
  ghost predicate Graph(st: Stage, t: Table)
    requires StageOk(st)
  {
    FreshIds(st) && TableOk(st, t) && TableRanked(t, TableRank(st, t)) && NodesIndexed(st.ctx)
  }

  /** An empty filter keeps every admitted leaf. */
  lemma EmptyFilterKeeps(ctx: Context, f: Option<FilterSpec>, leaves: seq<Item>)
    requires IsEmptyFilter(f) && NodeSet(leaves) <= ctx.admitted.Keys
    ensures NodeSet(Projected(ctx, f, leaves)) == NodeSet(leaves)
  {
    ProjectedFrom(ctx, f, leaves);
    forall x | x in leaves ensures PassesRef(ctx, f, x) {
      assert x.kind == KindNode ==> x.targetId in NodeSet(leaves);
    }
  }

  /** A redirected reference reaches exactly the leaves its derived group holds. */
  lemma RedirectedReaches(st: Stage, t: Table, g: string, c: string)
    requires StageOk(st) && Graph(st, t) && RedirectedRef(st, g, c)
    ensures st.derivedId(g, c) in t && NodesIn(t, TableRank(st, t), st.derivedId(g, c)) == RefNode(st, ByRewrite, g, c)
  {
    ChildrenOk(st, g, c);
    DerivedAt(st, t, g, c);
    TargetsAreNodes(KeptLeavesOf(st, g, c));
    assert NodesBelow(t, TableRank(st, t), st.derivedId(g, c), 0) == {};
  }

  /** A reference that is not redirected has a filter that keeps all leaves of the child. */
  lemma KeptWhole(st: Stage, g: string, c: string)
    requires StageOk(st) && NodesIndexed(st.ctx) && g in st.rank && c in MemoOf(st.ctx, st.rank, g).childGroupIds
    requires c in st.rank && !Redirected(st, g, c)
    ensures RefNode(st, ByRewrite, g, c) == NodeSet(Leaves(st.ctx, st.rank, c))
  {
    ChildrenOk(st, g, c);
    LeafNodesAdmitted(st.ctx, st.rank, c);
    var f, leaves := AddFilter(Sources(st.ctx, g), c), Leaves(st.ctx, st.rank, c);
    if IsEmptyFilter(f) {
      EmptyFilterKeeps(st.ctx, f, leaves);
    } else {
      NoneRejected(st.ctx, f, leaves);
    }
  }

  /** One rewritten reference reaches what the rewrite's filter selects, if the child is preserved. */
  lemma ReferenceReaches(st: Stage, t: Table, g: string, c: string)
    requires StageOk(st) && Graph(st, t) && g in st.rank && c in MemoOf(st.ctx, st.rank, g).childGroupIds
    requires c in st.rank ==> Preserved(st, t, c)
    ensures NewTarget(st, g, c) in t && NodesIn(t, TableRank(st, t), NewTarget(st, g, c)) == RefNode(st, ByRewrite, g, c)
  {
    ChildrenOk(st, g, c);
    if Redirected(st, g, c) {
      RedirectedReaches(st, t, g, c);
    } else {
      KeptWhole(st, g, c);
    }
  }

  ghost predicate ChildrenPreserved(st: Stage, t: Table, g: string)
    requires StageOk(st) && Graph(st, t) && g in st.rank
  {
    forall c :: c in MemoOf(st.ctx, st.rank, g).childGroupIds && c in st.rank ==> Preserved(st, t, c)
  }

  /** The first `n` references reach what the rewrite's filters select. */
  ghost predicate ReachSelected(st: Stage, t: Table, g: string, cs: seq<string>, n: nat)
    requires StageOk(st) && Graph(st, t) && g in st.rank && n <= |t[g].childGroupIds| == |cs|
  {
    NodesBelow(t, TableRank(st, t), g, n) == RefNodes(st, ByRewrite, g, cs[..n])
  }

  lemma NoReferences(st: Stage, t: Table, g: string, cs: seq<string>)
    requires StageOk(st) && Graph(st, t) && g in st.rank && |t[g].childGroupIds| == |cs|
    ensures ReachSelected(st, t, g, cs, 0)
  {
  }

  lemma ReferencesReach(st: Stage, t: Table, g: string, cs: seq<string>)
    requires StageOk(st) && Graph(st, t) && g in st.rank && ChildrenPreserved(st, t, g)
    requires cs == MemoOf(st.ctx, st.rank, g).childGroupIds && |t[g].childGroupIds| == |cs|
    ensures ReachSelected(st, t, g, cs, |cs|)
  {
    var ps := seq(|cs| + 1, n requires 0 <= n <= |cs| => ReachSelected(st, t, g, cs, n));
    NoReferences(st, t, g, cs);
    forall n | 0 < n < |ps| && ps[n - 1] ensures ps[n] { NextReference(st, t, g, cs, n); }
    AllHold(ps, |cs|);
  }

  lemma NextReference(st: Stage, t: Table, g: string, cs: seq<string>, n: nat)
    requires StageOk(st) && Graph(st, t) && g in st.rank && ChildrenPreserved(st, t, g)
    requires cs == MemoOf(st.ctx, st.rank, g).childGroupIds && 0 < n <= |t[g].childGroupIds| == |cs|
    requires ReachSelected(st, t, g, cs, n - 1)
    ensures ReachSelected(st, t, g, cs, n)
  {
    ChildAt(st, t, g, n - 1);
    ReferenceReaches(st, t, g, cs[n - 1]);
    RefNodesStep(st, ByRewrite, g, cs, n);
  }

  /** With its children preserved, a group reaches exactly what the rewrite's filters select. */
  lemma GroupReaches(st: Stage, t: Table, g: string)
    requires StageOk(st) && Graph(st, t) && g in st.rank && ChildrenPreserved(st, t, g)
    ensures NodesIn(t, TableRank(st, t), g) == Selected(st, ByRewrite, g)
  {
    assert Rewritten(st, t[g], g);
    var cs := MemoOf(st.ctx, st.rank, g).childGroupIds;
    ReferencesReach(st, t, g, cs);
    assert cs[..|cs|] == cs;
  }

  /** Where the selections agree, recollected nodes are exactly the pipeline's leaf nodes. */
  lemma {:induction false} MeaningPreserved(st: Stage, t: Table, g: string)
    requires StageOk(st) && Graph(st, t) && SelectionsAgree(st) && g in st.rank
    ensures Preserved(st, t, g)
    decreases st.rank[g]
  {
    forall c | c in MemoOf(st.ctx, st.rank, g).childGroupIds && c in st.rank ensures Preserved(st, t, c) {
      ChildrenOk(st, g, c);
      MeaningPreserved(st, t, c);
    }
    GroupReaches(st, t, g);
    LeavesSelected(st, g);
  }

  ghost predicate AllPreserved(st: Stage, t: Table)
    requires StageOk(st) && Graph(st, t)
  {
    forall g :: g in st.rank ==> Preserved(st, t, g)
  }

  /**
   The rewrite preserves the meaning of all groups exactly when the filters it picks select what the
   evaluation's do.
   */
  lemma MeaningExactly(st: Stage, t: Table)
    requires StageOk(st) && Graph(st, t)
    ensures AllPreserved(st, t) <==> SelectionsAgree(st)
  {
    if SelectionsAgree(st) {
      forall g | g in st.rank ensures Preserved(st, t, g) { MeaningPreserved(st, t, g); }
    }
    if AllPreserved(st, t) {
      forall g | g in st.rank ensures Selected(st, ByRewrite, g) == Selected(st, ByEvaluation, g) {
        GroupReaches(st, t, g);
        LeavesSelected(st, g);
      }
    }
  }

  // ---- When the selections agree ----

  /** Filters with the same conditions project admitted leaves alike. */
  lemma ProjectionsAgree(ctx: Context, f: Option<FilterSpec>, f': Option<FilterSpec>, leaves: seq<Item>)
    requires Conditions(f) == Conditions(f') && NodeSet(leaves) <= ctx.admitted.Keys
    ensures NodeSet(Projected(ctx, f, leaves)) == NodeSet(Projected(ctx, f', leaves))
  {
    ProjectedFrom(ctx, f, leaves);
    ProjectedFrom(ctx, f', leaves);
    forall x | x in leaves ensures PassesRef(ctx, f, x) == PassesRef(ctx, f', x) {
      if x.kind == KindNode {
        assert x.targetId in NodeSet(leaves);
        MatchesByConditions(ctx.oracle, f, ctx.admitted[x.targetId]);
        MatchesByConditions(ctx.oracle, f', ctx.admitted[x.targetId]);
      }
    }
  }

  lemma {:induction false} SameContributions(st: Stage, g: string, cs: seq<string>)
    requires StageOk(st) && g in st.rank
    requires forall c :: c in cs ==> RefNode(st, ByRewrite, g, c) == RefNode(st, ByEvaluation, g, c)
    ensures RefNodes(st, ByRewrite, g, cs) == RefNodes(st, ByEvaluation, g, cs)
  {
    if cs != [] {
      assert cs[|cs| - 1] in cs;
      SameContributions(st, g, cs[..|cs| - 1]);
    }
  }

  /** Filters with the same conditions select alike. */
  lemma AgreeingFiltersSelect(st: Stage)
    requires StageOk(st) && NodesIndexed(st.ctx) && FiltersAgree(st.ctx)
    ensures SelectionsAgree(st)
  {
    forall g | g in st.rank ensures Selected(st, ByRewrite, g) == Selected(st, ByEvaluation, g) {
      var cs := MemoOf(st.ctx, st.rank, g).childGroupIds;
      forall c | c in cs ensures RefNode(st, ByRewrite, g, c) == RefNode(st, ByEvaluation, g, c) {
        ChildrenOk(st, g, c);
        LeafNodesAdmitted(st.ctx, st.rank, c);
        ProjectionsAgree(st.ctx, Choice(st, ByRewrite, g, c), Choice(st, ByEvaluation, g, c), Leaves(st.ctx, st.rank, c));
      }
      SameContributions(st, g, cs);
    }
  }

  /** One reference per parent and child suffices. */
  lemma SingleRefsSelect(st: Stage)
    requires StageOk(st) && NodesIndexed(st.ctx)
    requires forall p, c :: p in st.rank && c in st.rank ==> AtMostOneRef(st.ctx.groups[p].sources, c)
    ensures SelectionsAgree(st)
  {
    SingleRefsAgree(st.ctx);
    AgreeingFiltersSelect(st);
  }

  // ---- Safety needs no agreement ----

  lemma {:induction false} TargetsAdmitted(ctx: Context, items: seq<Item>)
    requires AllCanonical(ctx, items)
    ensures Elements(Targets(items, KindNode)) <= ctx.admitted.Keys
  {
    TargetsAreNodes(items);
  }

  /** The leaves a derived group holds are nodes admitted by the context, or builtins. */
  lemma KeptCanonical(st: Stage, p: string, c: string)
    requires StageOk(st) && NodesIndexed(st.ctx) && p in st.rank && c in st.rank
    ensures AllCanonical(st.ctx, KeptLeavesOf(st, p, c))
    ensures forall x :: x in KeptLeavesOf(st, p, c) ==> x.kind != KindGroup
  {
    var leaves, kept := Leaves(st.ctx, st.rank, c), KeptLeavesOf(st, p, c);
    LeavesCanonical(st.ctx, st.rank, c);
    LeavesAreNotGroups(st.ctx, st.rank, c);
    ProjectedFrom(st.ctx, AddFilter(Sources(st.ctx, p), c), leaves);
    forall i | 0 <= i < |kept| ensures Canonical(st.ctx, kept[i]) {
      assert kept[i] in kept;
      assert kept[i] in leaves;
    }
  }

  /** The group lists admitted nodes only; it is a rewritten or a derived one. */
  lemma OwnNodesAdmitted(st: Stage, rg: ResolvedGroup)
    requires StageOk(st) && NodesIndexed(st.ctx)
    requires if rg.id in st.rank then Rewritten(st, rg, rg.id) else DerivedGroup(st, rg)
    ensures Elements(rg.nodeLogicalIds) <= st.ctx.admitted.Keys
  {
    if rg.id in st.rank {
      ItemsCanonical(st.ctx, st.rank, rg.id, |Sources(st.ctx, rg.id)|);
      TargetsAdmitted(st.ctx, GroupItems(st.ctx, st.rank, rg.id));
    } else {
      var p, c :| RedirectedRef(st, p, c) && IsDerived(st, rg, p, c);
      KeptCanonical(st, p, c);
      TargetsAdmitted(st.ctx, KeptLeavesOf(st, p, c));
    }
  }

  lemma {:induction false} NodesWithin(t: Table, rk: map<string, nat>, A: set<string>, k: string)
    requires TableRanked(t, rk) && k in t && forall g :: g in t ==> Elements(t[g].nodeLogicalIds) <= A
    ensures NodesIn(t, rk, k) <= A
    decreases rk[k], 1, 0
  {
    BelowWithin(t, rk, A, k, |t[k].childGroupIds|);
  }

  lemma {:induction false} BelowWithin(t: Table, rk: map<string, nat>, A: set<string>, k: string, n: nat)
    requires TableRanked(t, rk) && k in t && forall g :: g in t ==> Elements(t[g].nodeLogicalIds) <= A
    requires n <= |t[k].childGroupIds|
    ensures NodesBelow(t, rk, k, n) <= A
    decreases rk[k], 0, n
  {
    if n > 0 {
      BelowWithin(t, rk, A, k, n - 1);
      var c := t[k].childGroupIds[n - 1];
      if c in t { NodesWithin(t, rk, A, c); }
    }
  }

  /** Whatever the filters, no group of the rewritten graph reaches a node that was not admitted. */
  lemma ReachedNodesAdmitted(st: Stage, t: Table, k: string)
    requires StageOk(st) && TableOk(st, t) && TableRanked(t, TableRank(st, t)) && NodesIndexed(st.ctx) && k in t
    ensures NodesIn(t, TableRank(st, t), k) <= st.ctx.admitted.Keys
  {
    forall g | g in t ensures Elements(t[g].nodeLogicalIds) <= st.ctx.admitted.Keys { OwnNodesAdmitted(st, t[g]); }
    NodesWithin(t, TableRank(st, t), st.ctx.admitted.Keys, k);
  }

  // ---- Members ----

  function MemberTargets(ms: seq<Member>, kind: MemberKind): seq<string> {
    if ms == [] then []
    else MemberTargets(ms[..|ms| - 1], kind) + if ms[|ms| - 1].kind == kind then [ms[|ms| - 1].targetId] else []
  }

  /**
   Every member is an admitted node, a group of the graph or a builtin, and the id lists are the
   members' targets.
   */
  ghost predicate MembersOk(admitted: set<string>, names: set<string>, rg: ResolvedGroup) {
    && (forall i :: 0 <= i < |rg.members| ==> MemberOk(admitted, names, rg.members[i]))
    && rg.nodeLogicalIds == MemberTargets(rg.members, KindNode)
    && rg.childGroupIds == MemberTargets(rg.members, KindGroup)
  }

  ghost predicate MemberOk(admitted: set<string>, names: set<string>, m: Member) {
    match m.kind
    case KindNode => m.targetId in admitted
    case KindGroup => m.targetId in names
    case KindBuiltin => true
  }

  lemma {:induction false} MemoTargets(items: seq<Item>, kind: MemberKind)
    ensures MemberTargets(Members(items), kind) == Targets(items, kind)
  {
    if items != [] {
      MemoTargets(items[..|items| - 1], kind);
      assert Members(items)[..|items| - 1] == Members(items[..|items| - 1]);
    }
  }

  lemma {:induction false} LeafMemberAt(ctx: Context, xs: seq<Item>, i: nat)
    requires i < |xs|
    ensures |LeafMembers(ctx, xs)| == |xs| && LeafMembers(ctx, xs)[i] == LeafMember(ctx, xs[i], i)
  {
    LeafMembersLength(ctx, xs);
    LeafMembersLength(ctx, xs[..|xs| - 1]);
    if i < |xs| - 1 { LeafMemberAt(ctx, xs[..|xs| - 1], i); }
  }

  lemma {:induction false} LeafTargets(ctx: Context, xs: seq<Item>, kind: MemberKind)
    ensures MemberTargets(LeafMembers(ctx, xs), kind) == Targets(xs, kind)
  {
    if xs != [] {
      var init, ms := xs[..|xs| - 1], LeafMembers(ctx, xs);
      LeafTargets(ctx, init, kind);
      assert ms[..|ms| - 1] == LeafMembers(ctx, init);
    }
  }

  /** Retargeting keeps node members and replaces every reference by its new target. */
  lemma {:induction false} RetargetedTargets(st: Stage, g: string, ms: seq<Member>, ms': seq<Member>)
    requires StageOk(st) && g in st.rank && RewrittenMembers(st, g, ms, ms', |ms|)
    ensures MemberTargets(ms', KindNode) == MemberTargets(ms, KindNode)
    ensures var ids, ids' := MemberTargets(ms, KindGroup), MemberTargets(ms', KindGroup);
            |ids'| == |ids| && forall i :: 0 <= i < |ids| ==> ids'[i] == NewTarget(st, g, ids[i])
  {
    if ms != [] {
      RetargetedTargets(st, g, ms[..|ms| - 1], ms'[..|ms'| - 1]);
    }
  }

  lemma RewrittenListsMembers(st: Stage, g: string, rg: ResolvedGroup)
    requires StageOk(st) && g in st.rank && Rewritten(st, rg, g)
    ensures rg.nodeLogicalIds == MemberTargets(rg.members, KindNode)
    ensures rg.childGroupIds == MemberTargets(rg.members, KindGroup)
  {
    var items, ms := GroupItems(st.ctx, st.rank, g), MemoOf(st.ctx, st.rank, g).members;
    MemoTargets(items, KindNode);
    MemoTargets(items, KindGroup);
    RetargetedTargets(st, g, ms, rg.members);
  }

  lemma RewrittenMember(st: Stage, t: Table, g: string, rg: ResolvedGroup, i: nat)
    requires StageOk(st) && TableOk(st, t) && NodesIndexed(st.ctx) && g in st.rank && Rewritten(st, rg, g) && i < |rg.members|
    ensures MemberOk(st.ctx.admitted.Keys, t.Keys, rg.members[i])
  {
    var items := GroupItems(st.ctx, st.rank, g);
    ItemsCanonical(st.ctx, st.rank, g, |Sources(st.ctx, g)|);
    assert rg.members[i] == Retarget(st, g, MemoOf(st.ctx, st.rank, g).members[i]);
    if items[i].kind == KindGroup {
      TargetsPrefix(items, i, KindGroup);
      TargetInTable(st, t, g, items[i].targetId);
    }
  }

  lemma RewrittenMembersOk(st: Stage, t: Table, g: string, rg: ResolvedGroup)
    requires StageOk(st) && TableOk(st, t) && NodesIndexed(st.ctx) && g in st.rank && Rewritten(st, rg, g)
    ensures MembersOk(st.ctx.admitted.Keys, t.Keys, rg)
  {
    RewrittenListsMembers(st, g, rg);
    forall i | 0 <= i < |rg.members| ensures MemberOk(st.ctx.admitted.Keys, t.Keys, rg.members[i]) {
      RewrittenMember(st, t, g, rg, i);
    }
  }

  lemma {:induction false} NoGroupTargets(xs: seq<Item>)
    requires forall x :: x in xs ==> x.kind != KindGroup
    ensures Targets(xs, KindGroup) == []
  {
    if xs != [] {
      assert xs[|xs| - 1] in xs;
      NoGroupTargets(xs[..|xs| - 1]);
    }
  }

  lemma DerivedMembersOk(st: Stage, rg: ResolvedGroup, names: set<string>)
    requires StageOk(st) && NodesIndexed(st.ctx) && DerivedGroup(st, rg)
    ensures MembersOk(st.ctx.admitted.Keys, names, rg)
  {
    var p, c :| RedirectedRef(st, p, c) && IsDerived(st, rg, p, c);
    var kept := KeptLeavesOf(st, p, c);
    KeptCanonical(st, p, c);
    LeafTargets(st.ctx, kept, KindNode);
    LeafTargets(st.ctx, kept, KindGroup);
    NoGroupTargets(kept);
    forall i | 0 <= i < |rg.members| ensures MemberOk(st.ctx.admitted.Keys, names, rg.members[i]) {
      LeafMembersLength(st.ctx, kept);
      LeafMemberAt(st.ctx, kept, i);
      assert kept[i] in kept;
    }
  }
}

/**
 The one place where the resolver's two stages can part: a child referenced more than once by the
 same parent. The memo stage takes the first filter present on any group_ref to the child, the
 rewrite the filter of the first add. A reference contributes alike under every interpretation of
 conditions exactly when the chosen conditions coincide; otherwise a group can offer nodes its
 pipeline filtered out, as the group stage run on a small policy shows.
 */
module FilterChoice {
  import opened Wrappers
  import opened Policy
  import opened Sorting
  import opened Pipeline
  import opened PipelineFacts
  import opened PipelineMeaning
  import opened DerivedGroups
  import opened ResolveGroups
  import opened RewriteMeaning
  import opened GroupSnapshot

  /** Two filter choices project the leaves of a child alike, however conditions are interpreted. */
  ghost predicate ProjectAlike(ctx: Context, f: Option<FilterSpec>, f': Option<FilterSpec>, leaves: seq<Item>) {
    forall o: Oracle ::
      NodeSet(Projected(ctx.(oracle := o), f, leaves)) == NodeSet(Projected(ctx.(oracle := o), f', leaves))
  }

  /**
   The two filters chosen for a reference keep the same of the child's leaves, however conditions are
   interpreted, exactly when their conditions coincide.
   */
  lemma ChoicesAgreeExactly(st: Stage, g: string, c: string)
    requires StageOk(st) && NodesIndexed(st.ctx) && g in st.rank && c in st.rank && NodeSet(Leaves(st.ctx, st.rank, c)) != {}
    ensures var f, f' := Choice(st, ByEvaluation, g, c), Choice(st, ByRewrite, g, c);
            ProjectAlike(st.ctx, f, f', Leaves(st.ctx, st.rank, c)) <==> Conditions(f) == Conditions(f')
  {
    LeafNodesAdmitted(st.ctx, st.rank, c);
    FiltersAgreeExactly(st.ctx, Choice(st, ByEvaluation, g, c), Choice(st, ByRewrite, g, c), Leaves(st.ctx, st.rank, c));
  }

  lemma FiltersAgreeExactly(ctx: Context, f: Option<FilterSpec>, f': Option<FilterSpec>, leaves: seq<Item>)
    requires NodeSet(leaves) <= ctx.admitted.Keys && NodeSet(leaves) != {}
    ensures ProjectAlike(ctx, f, f', leaves) <==> Conditions(f) == Conditions(f')
  {
    if Conditions(f) == Conditions(f') {
      forall o: Oracle
        ensures NodeSet(Projected(ctx.(oracle := o), f, leaves)) == NodeSet(Projected(ctx.(oracle := o), f', leaves))
      {
        ProjectionsAgree(ctx.(oracle := o), f, f', leaves);
      }
    } else {
      var c :| (c in Conditions(f)) != (c in Conditions(f'));
      RejectingOracle(ctx, f, f', leaves, c);
    }
  }

  /** Interpreting one condition as always false tells the two filters apart. */
  lemma RejectingOracle(ctx: Context, f: Option<FilterSpec>, f': Option<FilterSpec>, leaves: seq<Item>, c: Condition)
    requires NodeSet(leaves) <= ctx.admitted.Keys && NodeSet(leaves) != {}
    requires (c in Conditions(f)) != (c in Conditions(f'))
    ensures !ProjectAlike(ctx, f, f', leaves)
  {
    var o := Oracle((x: Condition, n: Node) => x != c, ctx.oracle.compiles, ctx.oracle.regexMatch, ctx.oracle.blank,
                    ctx.oracle.builtinName);
    RejectOrKeep(ctx.(oracle := o), f, leaves, c);
    RejectOrKeep(ctx.(oracle := o), f', leaves, c);
  }

  lemma RejectOrKeep(ctx: Context, f: Option<FilterSpec>, leaves: seq<Item>, c: Condition)
    requires NodeSet(leaves) <= ctx.admitted.Keys
    requires forall x: Condition, n: Node :: ctx.oracle.condition(x, n) <==> x != c
    ensures NodeSet(Projected(ctx, f, leaves)) == if c in Conditions(f) then {} else NodeSet(leaves)
  {
    ProjectedFrom(ctx, f, leaves);
    forall x | x in leaves && x.kind == KindNode ensures PassesRef(ctx, f, x) <==> c !in Conditions(f) {
      assert x.targetId in NodeSet(leaves);
      MatchesByConditions(ctx.oracle, f, ctx.admitted[x.targetId]);
    }
  }

  // ---- A parent that references one child twice ----

  const node := Node("n", "n", "vless", true)
  const never := FilterSpec([Condition("never")])
  const listNode :=
    MemberSource("s0", "C", Add, ManualNode, 0, Some("n"), None, None, None, None)
  const plainRef :=
    MemberSource("s1", "P", Add, GroupRef, 0, None, Some("C"), None, None, None)
  const filteredRef :=
    MemberSource("s2", "P", Add, GroupRef, 1, None, Some("C"), None, Some(never), None)
  const child := NodeGroup("C", "C", Select, false, [listNode])
  const parent := NodeGroup("P", "P", Select, false, [plainRef, filteredRef])
  const rejectAll := Oracle((x: Condition, n: Node) => false, (s: string) => true, (p: string, s: string) => true,
                            (s: string) => false, (s: string) => s)
  const twice := Context(map["C" := child, "P" := parent], map["n" := node], [node], rejectAll)
  ghost const twiceRank: map<string, nat> := map["C" := 0, "P" := 1]

  /** An injective naming of derived groups: the length of the parent's id in unary, then both ids. */
  function Hashes(n: nat): string {
    seq(n, i => '#')
  }

  function Tag(p: string, c: string): string {
    Hashes(|p| + 2) + "/" + p + c
  }

  const twiceStage := Stage(twice, twiceRank, Tag)

  lemma TagAt(p: string, c: string)
    ensures var s, n := Tag(p, c), |p|;
            && |s| == 2 * n + 3 + |c| && s[n + 2] == '/' && (forall i :: 0 <= i < n + 2 ==> s[i] == '#')
            && s[n + 3..2 * n + 3] == p && s[2 * n + 3..] == c
  {
  }

  lemma TagInjective(p: string, c: string, p': string, c': string)
    requires Tag(p, c) == Tag(p', c')
    ensures p == p' && c == c'
  {
    TagAt(p, c);
    TagAt(p', c');
    var s := Tag(p, c);
    assert s[|p| + 2] == s[|p'| + 2] == '/';
  }

  /** The tags are fresh among one-letter ids. */
  lemma TagsFresh(st: Stage)
    requires st.derivedId == Tag && forall g :: g in st.ctx.groups ==> |g| == 1
    ensures FreshIds(st)
  {
    forall p: string, c: string ensures Tag(p, c) !in st.ctx.groups { TagAt(p, c); }
    forall p: string, c: string, p': string, c': string | Tag(p, c) == Tag(p', c') ensures p == p' && c == c' { TagInjective(p, c, p', c'); }
  }

  lemma AddOne(x: Item)
    ensures AddAll([], [x]) == [x] == AddAll([x], [x])
  {
    assert [x][..0] == [];
    assert [x][0].Id() == x.Id();
  }

  lemma ChildLeaf()
    ensures RankedContext(twice, twiceRank)
    ensures Leaves(twice, twiceRank, "C") == [NodeItem("n", node)]
    ensures GroupItems(twice, twiceRank, "C") == [NodeItem("n", node)]
  {
    var x := NodeItem("n", node);
    PairSorted(SourcePositionLe, listNode, listNode);
    assert ItemsAfter(twice, twiceRank, "C", 0) == [];
    assert Candidates(twice, listNode, []) == [x];
    AddOne(x);
    assert Flatten(twice, twiceRank, "C", [x]) == [x] by { assert [x][..0] == []; }
  }

  lemma ParentItems()
    ensures RankedContext(twice, twiceRank)
    ensures GroupItems(twice, twiceRank, "P") == [Item(KindGroup, "C", "C")]
    ensures Sources(twice, "P") == [plainRef, filteredRef]
  {
    ChildLeaf();
    var x, ss := Item(KindGroup, "C", "C"), [plainRef, filteredRef];
    PairSorted(SourcePositionLe, plainRef, filteredRef);
    assert ItemsAfter(twice, twiceRank, "P", 0) == [];
    assert Candidates(twice, plainRef, []) == [x] == Candidates(twice, filteredRef, []);
    AddOne(x);
    assert ItemsAfter(twice, twiceRank, "P", 1) == [x];
    assert ItemsAfter(twice, twiceRank, "P", 2) == [x];
  }

  /** The memo stage filters the parent's only leaf out. */
  lemma ParentLeaves()
    ensures RankedContext(twice, twiceRank)
    ensures Leaves(twice, twiceRank, "P") == []
  {
    ChildLeaf();
    ParentItems();
    var x, leaf := Item(KindGroup, "C", "C"), NodeItem("n", node);
    assert [x][..0] == [] && [leaf][..0] == [];
    assert RefFilter(parent.sources, "C") == Some(never) by {
      assert parent.sources[1..] == [filteredRef];
      assert RefFilter([filteredRef], "C") == Some(never);
    }
    assert !PassesRef(twice, Some(never), leaf) by { assert never.conditions[0] == Condition("never"); }
    assert Projected(twice, Some(never), [leaf]) == [];
    assert ChildLeaves(twice, twiceRank, "P", "C") == [leaf];
    assert LeavesOf(twice, twiceRank, "P", x) == [];
    assert Flatten(twice, twiceRank, "P", []) == [];
  }

  lemma Memos()
    ensures RankedContext(twice, twiceRank)
    ensures MemoOf(twice, twiceRank, "P").childGroupIds == ["C"]
    ensures MemoOf(twice, twiceRank, "C").nodeLogicalIds == ["n"]
  {
    ChildLeaf();
    ParentItems();
    var x, leaf := Item(KindGroup, "C", "C"), NodeItem("n", node);
    OneTarget(x);
    OneTarget(leaf);
  }

  lemma OneTarget(x: Item)
    ensures Targets([x], x.kind) == [x.targetId]
  {
    assert [x][..0] == [];
  }

  /** The rewrite sees no filter and keeps the reference. */
  lemma ReferenceKept()
    ensures StageOk(twiceStage) && NewTarget(twiceStage, "P", "C") == "C"
  {
    ChildLeaf();
    ParentItems();
    assert AddFilter(Sources(twice, "P"), "C") == None;
  }

  lemma ParentLink(t: Table)
    requires StageOk(twiceStage) && TableOk(twiceStage, t)
    ensures t["P"].childGroupIds == ["C"] && t["C"].nodeLogicalIds == ["n"]
  {
    Memos();
    ReferenceKept();
    assert Rewritten(twiceStage, t["P"], "P");
    assert Rewritten(twiceStage, t["C"], "C");
    assert |t["P"].childGroupIds| == 1;
    ChildAt(twiceStage, t, "P", 0);
  }

  /** In any graph of this stage the parent reaches the node that its pipeline filtered out. */
  lemma DisagreementLeaksNode(t: Table)
    requires StageOk(twiceStage) && Graph(twiceStage, t)
    ensures Leaves(twice, twiceRank, "P") == []
    ensures "n" in NodesIn(t, TableRank(twiceStage, t), "P")
  {
    ParentLeaves();
    ParentLink(t);
    OnlyChild(t, TableRank(twiceStage, t), "P", "C");
  }

  lemma TwiceIndexed()
    ensures NodesIndexed(twice)
  {
  }

  /** The group stage on this policy: the parent's group offers a node that is no leaf of its pipeline. */
  method RunTwiceReferenced() returns (groups: seq<ResolvedGroup>)
    ensures RankedContext(twice, twiceRank) && Leaves(twice, twiceRank, "P") == []
    ensures |groups| >= 2 && groups[1].id == "P" && "n" in groups[1].allNodeIds
    ensures !SelectionsAgree(twiceStage)
  {
    ParentLeaves();
    TagsFresh(twiceStage);
    TwiceIndexed();
    ghost var t;
    groups, t := Run(twiceStage, ["C", "P"]);
    SnapshotLeaks(t, ["C", "P"], groups);
  }

  lemma SnapshotLeaks(t: Table, ids: seq<string>, groups: seq<ResolvedGroup>)
    requires StageOk(twiceStage) && SnapshotOf(twiceStage, t, ids, groups) && ids == ["C", "P"]
    ensures |groups| >= 2 && groups[1].id == "P" && "n" in groups[1].allNodeIds && !AllFaithful(twiceStage, ids, groups)
  {
    DisagreementLeaksNode(t);
    OriginalAt(twiceStage, ids, groups, 1);
    assert Finished(twiceStage, t, groups[1]);
    assert !Faithful(twiceStage, ids[1], groups[1]);
  }

  /** An only child's own nodes are reached. */
  lemma OnlyChild(t: Table, rk: map<string, nat>, p: string, c: string)
    requires TableRanked(t, rk) && p in t && c in t && t[p].childGroupIds == [c]
    ensures Elements(t[c].nodeLogicalIds) <= NodesIn(t, rk, p)
  {
    assert NodesBelow(t, rk, p, 1) == NodesBelow(t, rk, p, 0) + NodesIn(t, rk, c);
  }
}

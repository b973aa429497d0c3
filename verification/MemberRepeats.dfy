/**
 Whether a group lists a member twice. Original groups never do. A derived group does exactly when a
 leaf of the child that passes the filter occurs there twice, which takes a child that nests groups;
 a small policy shows that the group stage then returns the repetition.
 */
module MemberRepeats {
  import opened Wrappers
  import opened Policy
  import opened Sorting
  import opened Pipeline
  import opened PipelineFacts
  import opened PipelineMeaning
  import opened DerivedGroups
  import opened ResolveGroups
  import opened RewriteMeaning
  import opened GroupSnapshot
  import opened FilterChoice

  ghost predicate MembersOnce(ms: seq<Member>) {
    forall i, j :: 0 <= i < j < |ms| ==> !SameMember(ms[i], ms[j])
  }

  ghost predicate SameMember(m: Member, m': Member) {
    m.kind == m'.kind && m.targetId == m'.targetId
  }

  // ---- Original groups ----

  /** Retargeting tells different items apart. */
  lemma RetargetInjective(st: Stage, g: string, x: Item, y: Item, i: nat, j: nat)
    requires StageOk(st) && FreshIds(st) && g in st.rank && x.Id() != y.Id()
    requires BelowIfGroup(st.ctx, st.rank, g, x) && BelowIfGroup(st.ctx, st.rank, g, y)
    ensures var m, m' := Retarget(st, g, Member(x.kind, x.targetId, x.displayName, i)),
                         Retarget(st, g, Member(y.kind, y.targetId, y.displayName, j));
            !SameMember(m, m')
  {
    SameById(x, y);
  }

  /** A rewritten group lists no member twice. */
  lemma OriginalMembersOnce(st: Stage, g: string, rg: ResolvedGroup)
    requires StageOk(st) && FreshIds(st) && g in st.rank && Rewritten(st, rg, g)
    ensures MembersOnce(rg.members)
  {
    var items, n := GroupItems(st.ctx, st.rank, g), |Sources(st.ctx, g)|;
    ItemsDistinct(st.ctx, st.rank, g, n);
    ItemsBelow(st.ctx, st.rank, g, n);
    forall i, j | 0 <= i < j < |rg.members| ensures !SameMember(rg.members[i], rg.members[j]) {
      assert items[i] in items && items[j] in items;
      RetargetInjective(st, g, items[i], items[j], i, j);
    }
  }

  // ---- Derived groups ----

  /** No leaf that passes the filter occurs twice. */
  ghost predicate PassingOnce(ctx: Context, f: Option<FilterSpec>, leaves: seq<Item>) {
    forall i, j :: 0 <= i < j < |leaves| && leaves[i].Id() == leaves[j].Id() ==> !PassesRef(ctx, f, leaves[i])
  }

  lemma PassesById(ctx: Context, f: Option<FilterSpec>, x: Item, y: Item)
    requires x.Id() == y.Id()
    ensures PassesRef(ctx, f, x) == PassesRef(ctx, f, y)
  {
    IdInjective(x, y);
  }

  lemma DistinctSnoc(items: seq<Item>, x: Item)
    ensures Distinct(items + [x]) <==> Distinct(items) && x.Id() !in Ids(items)
  {
    var longer := items + [x];
    if Distinct(longer) {
      forall i | 0 <= i < |items| ensures items[i].Id() != x.Id() { assert longer[i].Id() != longer[|items|].Id(); }
      forall i, j | 0 <= i < j < |items| ensures items[i].Id() != items[j].Id() { assert longer[i].Id() != longer[j].Id(); }
    }
  }

  lemma PassingSnoc(ctx: Context, f: Option<FilterSpec>, leaves: seq<Item>, x: Item)
    ensures PassingOnce(ctx, f, leaves + [x]) <==>
            PassingOnce(ctx, f, leaves) && (PassesRef(ctx, f, x) ==> x.Id() !in Ids(leaves))
  {
    var longer := leaves + [x];
    if PassingOnce(ctx, f, longer) {
      forall i, j | 0 <= i < j < |leaves| && leaves[i].Id() == leaves[j].Id() ensures !PassesRef(ctx, f, leaves[i]) {
        assert longer[i].Id() == longer[j].Id();
      }
      forall i | 0 <= i < |leaves| && leaves[i].Id() == x.Id() ensures !PassesRef(ctx, f, x) {
        assert longer[i].Id() == longer[|leaves|].Id();
        PassesById(ctx, f, leaves[i], x);
      }
    }
    if PassingOnce(ctx, f, leaves) && (PassesRef(ctx, f, x) ==> x.Id() !in Ids(leaves)) {
      forall i, j | 0 <= i < j < |longer| && longer[i].Id() == longer[j].Id() ensures !PassesRef(ctx, f, longer[i]) {
        if j == |leaves| { PassesById(ctx, f, leaves[i], x); }
      }
    }
  }

  lemma KeptIds(ctx: Context, f: Option<FilterSpec>, leaves: seq<Item>, x: Item)
    requires PassesRef(ctx, f, x)
    ensures x.Id() in Ids(Projected(ctx, f, leaves)) <==> x.Id() in Ids(leaves)
  {
    ProjectedFrom(ctx, f, leaves);
    var kept := Projected(ctx, f, leaves);
    forall i | 0 <= i < |kept| ensures kept[i].Id() in Ids(leaves) {
      assert kept[i] in kept;
      var j :| 0 <= j < |leaves| && leaves[j] == kept[i];
    }
    forall i | 0 <= i < |leaves| && leaves[i].Id() == x.Id() ensures x.Id() in Ids(kept) {
      PassesById(ctx, f, leaves[i], x);
      assert leaves[i] in leaves;
      var j :| 0 <= j < |kept| && kept[j] == leaves[i];
    }
  }

  lemma {:induction false} ProjectedDistinctExactly(ctx: Context, f: Option<FilterSpec>, leaves: seq<Item>)
    ensures Distinct(Projected(ctx, f, leaves)) <==> PassingOnce(ctx, f, leaves)
  {
    if leaves != [] {
      var init, x := leaves[..|leaves| - 1], leaves[|leaves| - 1];
      ProjectedDistinctExactly(ctx, f, init);
      assert leaves == init + [x];
      PassingSnoc(ctx, f, init, x);
      if PassesRef(ctx, f, x) {
        KeptIds(ctx, f, init, x);
        DistinctSnoc(Projected(ctx, f, init), x);
      } else {
        assert Projected(ctx, f, leaves) == Projected(ctx, f, init);
      }
    }
  }

  lemma LeafMembersOnce(ctx: Context, xs: seq<Item>)
    ensures MembersOnce(LeafMembers(ctx, xs)) <==> Distinct(xs)
  {
    var ms := LeafMembers(ctx, xs);
    LeafMembersLength(ctx, xs);
    forall i | 0 <= i < |xs| ensures ms[i].kind == xs[i].kind && ms[i].targetId == xs[i].targetId {
      LeafMemberAt(ctx, xs, i);
    }
    OnceByItems(ms, xs);
  }

  lemma OnceByItems(ms: seq<Member>, xs: seq<Item>)
    requires |ms| == |xs| && forall i :: 0 <= i < |xs| ==> ms[i].kind == xs[i].kind && ms[i].targetId == xs[i].targetId
    ensures MembersOnce(ms) <==> Distinct(xs)
  {
    forall i, j | 0 <= i < j < |xs| ensures SameMember(ms[i], ms[j]) <==> xs[i].Id() == xs[j].Id() {
      SameById(xs[i], xs[j]);
    }
  }

  lemma SameById(x: Item, y: Item)
    ensures x.Id() == y.Id() <==> x.kind == y.kind && x.targetId == y.targetId
  {
    if x.Id() == y.Id() { IdInjective(x, y); }
  }

  /**
   A derived group lists no member twice exactly when no leaf of the child that passes the filter
   occurs twice.
   */
  lemma DerivedMembersOnceExactly(st: Stage, d: ResolvedGroup, p: string, c: string)
    requires StageOk(st) && p in st.rank && c in st.rank && IsDerived(st, d, p, c)
    ensures MembersOnce(d.members) <==> PassingOnce(st.ctx, AddFilter(Sources(st.ctx, p), c), Leaves(st.ctx, st.rank, c))
  {
    LeafMembersOnce(st.ctx, KeptLeavesOf(st, p, c));
    ProjectedDistinctExactly(st.ctx, AddFilter(Sources(st.ctx, p), c), Leaves(st.ctx, st.rank, c));
  }

  lemma {:induction false} FlatLeaves(ctx: Context, rank: map<string, nat>, g: string, items: seq<Item>)
    requires ctx.groups.Keys == rank.Keys && g in rank && forall i :: 0 <= i < |items| ==> items[i].kind != KindGroup
    ensures Flatten(ctx, rank, g, items) == items
    decreases |items|
  {
    if items != [] {
      FlatLeaves(ctx, rank, g, items[..|items| - 1]);
      assert items == items[..|items| - 1] + [items[|items| - 1]];
    }
  }

  /** A repetition takes a child that has groups among its members. */
  lemma FlatChildMembersOnce(st: Stage, d: ResolvedGroup, p: string, c: string)
    requires StageOk(st) && p in st.rank && c in st.rank && IsDerived(st, d, p, c)
    requires forall i :: 0 <= i < |GroupItems(st.ctx, st.rank, c)| ==> GroupItems(st.ctx, st.rank, c)[i].kind != KindGroup
    ensures MembersOnce(d.members)
  {
    ItemsDistinct(st.ctx, st.rank, c, |Sources(st.ctx, c)|);
    FlatLeaves(st.ctx, st.rank, c, GroupItems(st.ctx, st.rank, c));
    DerivedMembersOnceExactly(st, d, p, c);
  }

  // ---- A child that lists a node and nests a group with the same node ----

  const other := Node("m", "m", "vless", true)
  const onlyN := FilterSpec([Condition("n")])
  const listN := MemberSource("s0", "A", Add, ManualNode, 0, Some("n"), None, None, None, None)
  const listAll := MemberSource("s1", "C", Add, Filter, 0, None, None, None, Some(FilterSpec([])), None)
  const refA := MemberSource("s2", "C", Add, GroupRef, 1, None, Some("A"), None, None, None)
  const refC := MemberSource("s3", "P", Add, GroupRef, 0, None, Some("C"), None, Some(onlyN), None)
  const byId := Oracle((x: Condition, n: Node) => x.text == n.logicalId, (s: string) => true, (p: string, s: string) => true,
                       (s: string) => false, (s: string) => s)
  const nested := Context(
    map["A" := NodeGroup("A", "A", Select, false, [listN]),
        "C" := NodeGroup("C", "C", Select, false, [listAll, refA]),
        "P" := NodeGroup("P", "P", Select, false, [refC])],
    map["n" := node, "m" := other], [node, other], byId)
  ghost const nestedRank: map<string, nat> := map["A" := 0, "C" := 1, "P" := 2]
  const nestedStage := Stage(nested, nestedRank, Tag)

  lemma InnerLeaves()
    ensures RankedContext(nested, nestedRank)
    ensures GroupItems(nested, nestedRank, "A") == Leaves(nested, nestedRank, "A") == [NodeItem("n", node)]
  {
    var x := NodeItem("n", node);
    PairSorted(SourcePositionLe, listN, listN);
    assert ItemsAfter(nested, nestedRank, "A", 0) == [];
    assert Candidates(nested, listN, []) == [x];
    AddOne(x);
    FlatLeaves(nested, nestedRank, "A", [x]);
  }

  lemma TwoItems(x: Item, y: Item)
    requires x.Id() != y.Id()
    ensures AddAll([], [x, y]) == [x, y] && AddAll([x, y], []) == [x, y]
  {
    assert [x, y][..1] == [x] && [x][..0] == [];
    assert AddAll([], []) == [];
  }

  lemma ChildItems()
    ensures RankedContext(nested, nestedRank)
    ensures GroupItems(nested, nestedRank, "C") == [NodeItem("n", node), NodeItem("m", other), Item(KindGroup, "A", "A")]
  {
    var x, y, g := NodeItem("n", node), NodeItem("m", other), Item(KindGroup, "A", "A");
    InnerLeaves();
    PairSorted(SourcePositionLe, listAll, refA);
    assert ItemsAfter(nested, nestedRank, "C", 0) == [];
    AllSelected();
    assert x.Id()[5] == 'n' && y.Id()[5] == 'm';
    TwoItems(x, y);
    assert ItemsAfter(nested, nestedRank, "C", 1) == [x, y];
    GroupAdded(x, y, g);
    assert ItemsAfter(nested, nestedRank, "C", 2) == [x, y, g];
  }

  lemma GroupAdded(x: Item, y: Item, g: Item)
    requires x.kind == y.kind == KindNode && g.kind == KindGroup
    ensures AddAll([x, y], [g]) == [x, y, g]
  {
    assert [g][..0] == [] && AddAll([x, y], []) == [x, y];
    assert x.Id()[0] == 'n' && y.Id()[0] == 'n' && g.Id()[0] == 'g';
  }

  /** The child offers the node twice: by itself and through the nested group. */
  lemma ChildTwice()
    ensures RankedContext(nested, nestedRank)
    ensures Leaves(nested, nestedRank, "C") == [NodeItem("n", node), NodeItem("m", other), NodeItem("n", node)]
  {
    InnerLeaves();
    ChildItems();
    ChildFlat(NodeItem("n", node), NodeItem("m", other), Item(KindGroup, "A", "A"));
  }

  lemma AllSelected()
    ensures Candidates(nested, listAll, []) == [NodeItem("n", node), NodeItem("m", other)]
  {
    var ns := nested.ordered;
    assert ns[..1] == [node] && [node][..0] == [];
    assert SelectNodes(nested, listAll, [node]) == [NodeItem("n", node)];
  }

  lemma NoFilter()
    ensures RefFilter([listAll, refA], "A") == None
  {
    assert [listAll, refA][1..] == [refA] && [refA][1..] == [];
    assert RefFilter([refA], "A") == None;
  }

  lemma ChildFlat(x: Item, y: Item, g: Item)
    requires RankedContext(nested, nestedRank) && Leaves(nested, nestedRank, "A") == [x]
    requires x.kind == y.kind == KindNode && g == Item(KindGroup, "A", "A")
    ensures Flatten(nested, nestedRank, "C", [x, y, g]) == [x, y, x]
  {
    FlattenThree(nested, nestedRank, "C", x, y, g);
    NestedLeaf(x, g);
  }

  lemma FlattenThree(ctx: Context, rank: map<string, nat>, c: string, x: Item, y: Item, g: Item)
    requires ctx.groups.Keys == rank.Keys && c in rank && x.kind != KindGroup && y.kind != KindGroup
    ensures Flatten(ctx, rank, c, [x, y, g]) == [x, y] + LeavesOf(ctx, rank, c, g)
  {
    assert [x, y, g][..2] == [x, y];
    FlatLeaves(ctx, rank, c, [x, y]);
  }

  lemma NestedLeaf(x: Item, g: Item)
    requires RankedContext(nested, nestedRank) && Leaves(nested, nestedRank, "A") == [x]
    requires x.kind == KindNode && g == Item(KindGroup, "A", "A")
    ensures LeavesOf(nested, nestedRank, "C", g) == [x]
  {
    NoFilter();
    assert ChildLeaves(nested, nestedRank, "C", "A") == [x];
    assert Projected(nested, None, [x]) == [x] by { assert [x][..0] == []; }
  }

  lemma ParentRef()
    ensures RankedContext(nested, nestedRank) && Sources(nested, "P") == [refC]
    ensures MemoOf(nested, nestedRank, "P").childGroupIds == ["C"]
  {
    InnerLeaves();
    var g := Item(KindGroup, "C", "C");
    PairSorted(SourcePositionLe, refC, refC);
    assert ItemsAfter(nested, nestedRank, "P", 0) == [];
    assert Candidates(nested, refC, []) == [g];
    AddOne(g);
    assert GroupItems(nested, nestedRank, "P") == [g];
    OneTarget(g);
  }

  /** The filter passes the first node and rejects the second. */
  lemma FilterDecides()
    ensures PassesRef(nested, Some(onlyN), NodeItem("n", node)) && !PassesRef(nested, Some(onlyN), NodeItem("m", other))
  {
    assert onlyN.conditions[0] == Condition("n");
  }

  lemma ReferenceRedirected()
    ensures StageOk(nestedStage) && RedirectedRef(nestedStage, "P", "C")
    ensures AddFilter(Sources(nested, "P"), "C") == Some(onlyN)
    ensures !PassingOnce(nested, Some(onlyN), Leaves(nested, nestedRank, "C"))
  {
    ParentRef();
    ChildTwice();
    FilterDecides();
    var leaves := Leaves(nested, nestedRank, "C");
    assert leaves[1] in leaves;
    AnyRejectedExists(nested, Some(onlyN), leaves);
    assert leaves[0].Id() == leaves[2].Id();
  }

  lemma RepetitionPresent(t: Table, ids: seq<string>, groups: seq<ResolvedGroup>)
    requires StageOk(nestedStage) && SnapshotOf(nestedStage, t, ids, groups)
    ensures exists k :: 0 <= k < |groups| && !MembersOnce(groups[k].members)
  {
    ReferenceRedirected();
    var d := Tag("P", "C");
    assert nestedStage.derivedId("P", "C") == d && d in IdsOf(groups);
    var k :| 0 <= k < |groups| && groups[k].id == d;
    assert Finished(nestedStage, t, groups[k]);
    DerivedById(nestedStage, groups[k], "P", "C");
    DerivedMembersOnceExactly(nestedStage, groups[k], "P", "C");
  }

  const nestedIds := ["A", "C", "P"]

  lemma NestedIndexed()
    ensures NodesIndexed(nested)
  {
  }

  lemma NestedListed()
    ensures StageOk(nestedStage) && Lists(nestedStage, nestedIds)
    ensures forall g :: g in nested.groups ==> |g| == 1
  {
    InnerLeaves();
    assert nestedIds[0] in nestedIds && nestedIds[1] in nestedIds && nestedIds[2] in nestedIds;
  }

  /** The group stage on this policy returns a group that lists a node twice. */
  method RunNested() returns (groups: seq<ResolvedGroup>)
    ensures exists k :: 0 <= k < |groups| && !MembersOnce(groups[k].members)
  {
    NestedListed();
    NestedIndexed();
    TagsFresh(nestedStage);
    ghost var t;
    groups, t := Run(nestedStage, nestedIds);
    RepetitionPresent(t, nestedIds, groups);
  }
}

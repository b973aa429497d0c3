/** Facts about the pipeline's meaning that its evaluators rely on. */
module PipelineFacts {
  import opened Wrappers
  import opened Policy
  import opened Sorting
  import opened Pipeline

  // ---- Items ----

  lemma IdsSnoc(items: seq<Item>, x: Item)
    ensures Ids(items + [x]) == Ids(items) + {x.Id()}
  {
    assert (items + [x])[|items|] == x;
    forall i | 0 <= i < |items| ensures items[i].Id() in Ids(items + [x]) { assert (items + [x])[i] == items[i]; }
  }

  lemma AddAllSnoc(items: seq<Item>, xs: seq<Item>, x: Item)
    ensures AddAll(items, xs + [x]) == AddUnique(AddAll(items, xs), x)
  {
    assert (xs + [x])[..|xs|] == xs;
  }

  lemma NodeSetConcat(a: seq<Item>, b: seq<Item>)
    ensures NodeSet(a + b) == NodeSet(a) + NodeSet(b)
  {
  }

  lemma MembersSnoc(items: seq<Item>, k: nat)
    requires k < |items|
    ensures Members(items[..k + 1]) ==
            Members(items[..k]) + [Member(items[k].kind, items[k].targetId, items[k].displayName, k)]
  {
  }

  lemma HasBuiltinSnoc(items: seq<Item>, k: nat)
    requires k < |items|
    ensures HasBuiltin(items[..k + 1]) <==> HasBuiltin(items[..k]) || items[k].kind == KindBuiltin
  {
    var longer, shorter := items[..k + 1], items[..k];
    assert longer[k] == items[k];
    if i :| 0 <= i < |shorter| && shorter[i].kind == KindBuiltin { assert longer[i] == shorter[i]; }
    if i :| 0 <= i < |longer| && longer[i].kind == KindBuiltin { assert i < k ==> longer[i] == shorter[i]; }
  }

  // ---- Distinctness ----

  lemma AddUniqueDistinct(items: seq<Item>, x: Item)
    requires Distinct(items)
    ensures Distinct(AddUnique(items, x))
  {
  }

  lemma {:induction false} AddAllDistinct(items: seq<Item>, xs: seq<Item>)
    requires Distinct(items)
    ensures Distinct(AddAll(items, xs))
  {
    if xs != [] {
      AddAllDistinct(items, xs[..|xs| - 1]);
      AddUniqueDistinct(AddAll(items, xs[..|xs| - 1]), xs[|xs| - 1]);
    }
  }

  lemma {:induction false} SurvivorsFrom(ctx: Context, s: MemberSource, childNodes: set<string>, items: seq<Item>)
    ensures forall x :: x in Survivors(ctx, s, childNodes, items) <==> x in items && !Removes(ctx, s, childNodes, x)
  {
    if items != [] {
      SurvivorsFrom(ctx, s, childNodes, items[..|items| - 1]);
      assert items == items[..|items| - 1] + [items[|items| - 1]];
    }
  }

  lemma {:induction false} SurvivorsDistinct(ctx: Context, s: MemberSource, childNodes: set<string>, items: seq<Item>)
    requires Distinct(items)
    ensures Distinct(Survivors(ctx, s, childNodes, items))
  {
    if items != [] {
      var init, x := items[..|items| - 1], items[|items| - 1];
      SurvivorsDistinct(ctx, s, childNodes, init);
      SurvivorsFrom(ctx, s, childNodes, init);
      var r := Survivors(ctx, s, childNodes, init);
      forall i | 0 <= i < |r| ensures r[i].Id() != x.Id() {
        assert r[i] in r;
        var j :| 0 <= j < |init| && init[j] == r[i];
        assert items[j] == init[j];
      }
    }
  }

  /** Members never repeat an identity, whatever the pipeline. */
  lemma {:induction false} ItemsDistinct(ctx: Context, rank: map<string, nat>, gid: string, n: nat)
    requires RankedContext(ctx, rank) && gid in rank && n <= |Sources(ctx, gid)|
    ensures Distinct(ItemsAfter(ctx, rank, gid, n))
  {
    if n > 0 {
      ItemsDistinct(ctx, rank, gid, n - 1);
      var s, items := Sources(ctx, gid)[n - 1], ItemsAfter(ctx, rank, gid, n - 1);
      var child := SourceLeaves(ctx, rank, gid, s);
      AddAllDistinct(items, Candidates(ctx, s, child));
      SurvivorsDistinct(ctx, s, NodeSet(child), items);
    }
  }

  /** Dropping or keeping the `k`-th item keeps the seen-set equal to the surviving identities. */
  lemma SeenAfter(items: seq<Item>, k: nat, kept: seq<Item>, kept': seq<Item>, removed: bool)
    requires Distinct(items) && k < |items|
    requires forall x :: x in kept ==> x in items[..k]
    requires kept' == kept + if removed then [] else [items[k]]
    ensures Ids(kept') + Ids(items[k + 1..]) ==
            Ids(kept) + Ids(items[k..]) - if removed then {items[k].Id()} else {}
  {
    var x := items[k];
    assert items[k..] == [x] + items[k + 1..];
    assert Ids(items[k..]) == {x.Id()} + Ids(items[k + 1..]) by {
      var l, rest := items[k..], items[k + 1..];
      assert l[0] == x;
      forall i | 0 <= i < |rest| ensures rest[i].Id() in Ids(l) { assert l[i + 1] == rest[i]; }
    }
    assert x.Id() !in Ids(items[k + 1..]) by {
      var rest := items[k + 1..];
      forall i | 0 <= i < |rest| ensures rest[i].Id() != x.Id() { assert rest[i] == items[k + 1 + i]; }
    }
    assert x.Id() !in Ids(kept) by {
      forall i | 0 <= i < |kept| ensures kept[i].Id() != x.Id() {
        assert kept[i] in items[..k];
        var j :| 0 <= j < k && items[..k][j] == kept[i];
        assert items[j] == kept[i];
      }
    }
    if removed {
      assert kept' == kept;
    } else {
      IdsSnoc(kept, x);
    }
  }

  // ---- Dependencies ----

  lemma SourceDependency(ctx: Context, rank: map<string, nat>, gid: string, n: nat)
    requires RankedContext(ctx, rank) && gid in rank && n < |Sources(ctx, gid)|
    ensures DependencyBelow(ctx, rank, gid, Sources(ctx, gid)[n])
  {
    StableSortElements(SourcePositionLe, ctx.groups[gid].sources);
    assert Sources(ctx, gid)[n] in ctx.groups[gid].sources;
  }

  /** Leaves are nodes and builtins, never groups. */
  lemma {:induction false} LeavesAreNotGroups(ctx: Context, rank: map<string, nat>, gid: string)
    requires RankedContext(ctx, rank) && gid in rank
    ensures forall x :: x in Leaves(ctx, rank, gid) ==> x.kind != KindGroup
    decreases rank[gid], 1, 0
  {
    FlattenNotGroups(ctx, rank, gid, GroupItems(ctx, rank, gid));
  }

  lemma {:induction false} FlattenNotGroups(ctx: Context, rank: map<string, nat>, gid: string, items: seq<Item>)
    requires RankedContext(ctx, rank) && gid in rank
    ensures forall x :: x in Flatten(ctx, rank, gid, items) ==> x.kind != KindGroup
    decreases rank[gid], 0, |items|
  {
    if items != [] {
      FlattenNotGroups(ctx, rank, gid, items[..|items| - 1]);
      var x := items[|items| - 1];
      if x.kind == KindGroup {
        ProjectedFrom(ctx, RefFilter(ctx.groups[gid].sources, x.targetId), ChildLeaves(ctx, rank, gid, x.targetId));
        if x.targetId in rank && rank[x.targetId] < rank[gid] { LeavesAreNotGroups(ctx, rank, x.targetId); }
      }
    }
  }

  lemma {:induction false} ProjectedFrom(ctx: Context, f: Option<FilterSpec>, leaves: seq<Item>)
    ensures forall x :: x in Projected(ctx, f, leaves) <==> x in leaves && PassesRef(ctx, f, x)
  {
    if leaves != [] {
      ProjectedFrom(ctx, f, leaves[..|leaves| - 1]);
      assert leaves == leaves[..|leaves| - 1] + [leaves[|leaves| - 1]];
    }
  }

  lemma {:induction false} KeptLeavesFrom(ctx: Context, s: MemberSource, leaves: seq<Item>)
    ensures forall x :: x in KeptLeaves(ctx, s, leaves) <==> x in leaves && KeepsLeaf(ctx, s, x)
  {
    if leaves != [] {
      KeptLeavesFrom(ctx, s, leaves[..|leaves| - 1]);
      assert leaves == leaves[..|leaves| - 1] + [leaves[|leaves| - 1]];
    }
  }

  lemma {:induction false} SelectedFrom(ctx: Context, s: MemberSource, nodes: seq<Node>)
    ensures forall x :: x in SelectNodes(ctx, s, nodes) <==>
              exists n :: n in nodes && Selects(ctx, s, n) && x == NodeItem(n.logicalId, n)
  {
    if nodes != [] {
      SelectedFrom(ctx, s, nodes[..|nodes| - 1]);
      assert nodes == nodes[..|nodes| - 1] + [nodes[|nodes| - 1]];
    }
  }

  lemma {:induction false} AddedFrom(items: seq<Item>, xs: seq<Item>)
    ensures forall x :: x in AddAll(items, xs) ==> x in items || x in xs
    ensures forall x :: x in items ==> x in AddAll(items, xs)
    ensures forall x :: x in xs ==> x.Id() in Ids(AddAll(items, xs))
  {
    if xs != [] {
      AddedFrom(items, xs[..|xs| - 1]);
      var r, y := AddAll(items, xs[..|xs| - 1]), xs[|xs| - 1];
      assert xs == xs[..|xs| - 1] + [y];
      IdsSnoc(r, y);
    }
  }

  /** A group member is an existing group of lower rank. */
  ghost predicate BelowIfGroup(ctx: Context, rank: map<string, nat>, gid: string, x: Item)
    requires gid in rank
  {
    x.kind == KindGroup ==> x.targetId in ctx.groups && x.targetId in rank && rank[x.targetId] < rank[gid]
  }

  lemma CandidateBelow(ctx: Context, rank: map<string, nat>, gid: string, n: nat, x: Item)
    requires RankedContext(ctx, rank) && gid in rank && n < |Sources(ctx, gid)|
    requires x in Candidates(ctx, Sources(ctx, gid)[n], SourceLeaves(ctx, rank, gid, Sources(ctx, gid)[n]))
    ensures BelowIfGroup(ctx, rank, gid, x)
  {
    var s := Sources(ctx, gid)[n];
    SourceDependency(ctx, rank, gid, n);
    if s.kind == GroupNodes {
      KeptLeavesFrom(ctx, s, SourceLeaves(ctx, rank, gid, s));
      if s.targetGroupId.Some? && s.targetGroupId.value in rank { LeavesAreNotGroups(ctx, rank, s.targetGroupId.value); }
    } else if s.kind == Regex || s.kind == Filter {
      SelectedFrom(ctx, s, ctx.ordered);
    }
  }

  lemma {:induction false} ItemsBelow(ctx: Context, rank: map<string, nat>, gid: string, n: nat)
    requires RankedContext(ctx, rank) && gid in rank && n <= |Sources(ctx, gid)|
    ensures forall x :: x in ItemsAfter(ctx, rank, gid, n) ==> BelowIfGroup(ctx, rank, gid, x)
  {
    if n > 0 {
      ItemsBelow(ctx, rank, gid, n - 1);
      var s, items := Sources(ctx, gid)[n - 1], ItemsAfter(ctx, rank, gid, n - 1);
      var child := SourceLeaves(ctx, rank, gid, s);
      AddedFrom(items, Candidates(ctx, s, child));
      SurvivorsFrom(ctx, s, NodeSet(child), items);
      forall x | x in Candidates(ctx, s, child) ensures BelowIfGroup(ctx, rank, gid, x) {
        CandidateBelow(ctx, rank, gid, n - 1, x);
      }
    }
  }

  lemma MembersBelow(ctx: Context, rank: map<string, nat>, gid: string, k: nat)
    requires RankedContext(ctx, rank) && gid in rank && k < |GroupItems(ctx, rank, gid)|
    ensures BelowIfGroup(ctx, rank, gid, GroupItems(ctx, rank, gid)[k])
  {
    ItemsBelow(ctx, rank, gid, |Sources(ctx, gid)|);
    assert GroupItems(ctx, rank, gid)[k] in GroupItems(ctx, rank, gid);
  }

  /** Every stored memo is the recursive meaning of its group. */
  ghost predicate MemoOk(ctx: Context, rank: map<string, nat>, memo: map<string, GroupMemo>)
    requires RankedContext(ctx, rank)
  {
    forall g :: g in memo ==> g in rank && memo[g] == MemoOf(ctx, rank, g)
  }
}

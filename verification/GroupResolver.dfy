/**
 The resolver's memoised evaluation of group pipelines. On every ranked context it computes exactly
 the recursive meaning of each group, its seen-set always equals the identities of the current
 items, and the re-entrancy guard is never taken.
 */
module GroupResolver {
  import opened Wrappers
  import opened Policy
  import opened Pipeline
  import opened PipelineFacts

  // ---- Adding to the current items ----

  method AppendUnseen(items: seq<Item>, seen: set<string>, x: Item) returns (items': seq<Item>, seen': set<string>)
    requires seen == Ids(items)
    ensures items' == AddUnique(items, x) && seen' == Ids(items')
  {
    items', seen' := items, seen;
    if x.Id() !in seen {
      seen' := seen + {x.Id()};
      items' := items + [x];
      IdsSnoc(items, x);
    }
  }

  method AddNodes(ctx: Context, s: MemberSource, items: seq<Item>, seen: set<string>)
    returns (items': seq<Item>, seen': set<string>)
    requires seen == Ids(items)
    ensures items' == AddAll(items, SelectNodes(ctx, s, ctx.ordered)) && seen' == Ids(items')
  {
    items', seen' := items, seen;
    for k := 0 to |ctx.ordered|
      invariant items' == AddAll(items, SelectNodes(ctx, s, ctx.ordered[..k])) && seen' == Ids(items')
    {
      var n := ctx.ordered[k];
      assert ctx.ordered[..k + 1][..k] == ctx.ordered[..k];
      ghost var picked := SelectNodes(ctx, s, ctx.ordered[..k]);
      assert picked + [] == picked;
      if Selects(ctx, s, n) {
        AddAllSnoc(items, picked, NodeItem(n.logicalId, n));
        items', seen' := AppendUnseen(items', seen', NodeItem(n.logicalId, n));
      }
    }
    assert ctx.ordered[..|ctx.ordered|] == ctx.ordered;
  }

  method AddLeaves(ctx: Context, s: MemberSource, leaves: seq<Item>, items: seq<Item>, seen: set<string>)
    returns (items': seq<Item>, seen': set<string>)
    requires seen == Ids(items)
    ensures items' == AddAll(items, KeptLeaves(ctx, s, leaves)) && seen' == Ids(items')
  {
    items', seen' := items, seen;
    for k := 0 to |leaves|
      invariant items' == AddAll(items, KeptLeaves(ctx, s, leaves[..k])) && seen' == Ids(items')
    {
      assert leaves[..k + 1][..k] == leaves[..k];
      ghost var kept := KeptLeaves(ctx, s, leaves[..k]);
      assert kept + [] == kept;
      if KeepsLeaf(ctx, s, leaves[k]) {
        AddAllSnoc(items, kept, leaves[k]);
        items', seen' := AppendUnseen(items', seen', leaves[k]);
      }
    }
    assert leaves[..|leaves|] == leaves;
  }

  ghost predicate MemosOf(ctx: Context, rank: map<string, nat>, ids: seq<string>, memos: seq<GroupMemo>)
    requires RankedContext(ctx, rank)
  {
    |memos| == |ids| && forall i :: 0 <= i < |ids| ==> ids[i] in rank && memos[i] == MemoOf(ctx, rank, ids[i])
  }

  lemma NextMemo(ctx: Context, rank: map<string, nat>, ids: seq<string>, k: nat, memos: seq<GroupMemo>, m: GroupMemo)
    requires RankedContext(ctx, rank) && k < |ids| && MemosOf(ctx, rank, ids[..k], memos)
    requires ids[k] in rank && m == MemoOf(ctx, rank, ids[k])
    ensures MemosOf(ctx, rank, ids[..k + 1], memos + [m]) && Elements(ids[..k + 1]) == Elements(ids[..k]) + {ids[k]}
  {
    assert ids[..k + 1] == ids[..k] + [ids[k]];
    ElementsSnoc(ids[..k], ids[k]);
  }

  class Evaluator {
    const ctx: Context
    ghost const rank: map<string, nat>
    var memo: map<string, GroupMemo>
    var resolving: set<string>

    ghost predicate Valid()
      reads this
    {
      RankedContext(ctx, rank) && MemoOk(ctx, rank, memo)
    }

    /** No group at or below `gid` is being resolved. */
    ghost predicate Ready(gid: string)
      reads this
    {
      forall g :: g in resolving ==> g in rank && (gid in rank ==> rank[gid] < rank[g])
    }

    constructor (ctx: Context, ghost rank: map<string, nat>)
      requires RankedContext(ctx, rank)
      ensures Valid() && this.ctx == ctx && this.rank == rank
      ensures memo == map[] && resolving == {}
    {
      this.ctx := ctx;
      this.rank := rank;
      this.memo := map[];
      this.resolving := {};
    }

    /** The memo of `gid`, evaluating whatever it still needs; `reentered` reports the guard. */
    method ResolveGroupMemo(gid: string) returns (m: GroupMemo, ghost reentered: bool)
      requires Valid() && Ready(gid)
      modifies this
      ensures Valid() && resolving == old(resolving) && !reentered
      ensures gid in ctx.groups ==> m == MemoOf(ctx, rank, gid) && gid in memo
      ensures gid !in ctx.groups ==> m == EmptyMemo
      ensures old(memo.Keys) <= memo.Keys
      decreases if gid in rank then rank[gid] + 1 else 0, 3, 0
    {
      reentered := false;
      if gid in memo {
        return memo[gid], false;
      }
      if gid in resolving {
        return EmptyMemo, true;
      }
      resolving := resolving + {gid};
      if gid !in ctx.groups {
        resolving := resolving - {gid};
        return EmptyMemo, false;
      }
      var items, count := RunPipeline(gid);
      m := BuildMemo(gid, items, count);
      memo := memo[gid := m];
      resolving := resolving - {gid};
    }

    /** `gid` is the innermost group being resolved. */
    ghost predicate Resolving(gid: string)
      reads this
    {
      gid in rank && gid in resolving && forall g :: g in resolving ==> g in rank && rank[gid] <= rank[g]
    }

    method RunPipeline(gid: string) returns (items: seq<Item>, count: nat)
      requires Valid() && Resolving(gid)
      modifies this
      ensures Valid() && resolving == old(resolving)
      ensures old(memo.Keys) <= memo.Keys
      ensures items == GroupItems(ctx, rank, gid) && count == CountAfter(ctx, rank, gid, |Sources(ctx, gid)|)
      decreases rank[gid] + 1, 2, 0
    {
      var sources := Sources(ctx, gid);
      var seen: set<string> := {};
      items, count := [], 0;
      for n := 0 to |sources|
        invariant Valid() && resolving == old(resolving)
        invariant old(memo.Keys) <= memo.Keys
        invariant items == ItemsAfter(ctx, rank, gid, n) && count == CountAfter(ctx, rank, gid, n)
        invariant seen == Ids(items) && Distinct(items)
      {
        SourceDependency(ctx, rank, gid, n);
        ItemsDistinct(ctx, rank, gid, n + 1);
        var c;
        items, seen, c := RunSource(gid, sources[n], items, seen);
        count := count + c;
      }
    }

    /** One step of the pipeline. */
    method RunSource(gid: string, s: MemberSource, items: seq<Item>, seen: set<string>)
      returns (items': seq<Item>, seen': set<string>, count: nat)
      requires Valid() && Resolving(gid) && DependencyBelow(ctx, rank, gid, s)
      requires seen == Ids(items) && Distinct(items)
      modifies this
      ensures Valid() && resolving == old(resolving)
      ensures old(memo.Keys) <= memo.Keys
      ensures items' == Step(ctx, s, SourceLeaves(ctx, rank, gid, s), items) && seen' == Ids(items')
      ensures count == CandidateCount(ctx, s, SourceLeaves(ctx, rank, gid, s))
      decreases rank[gid] + 1, 1, 1
    {
      items', seen', count := items, seen, 0;
      match s.operation {
        case Add => items', seen', count := AddSource(gid, s, items, seen);
        case Remove => items', seen' := RemoveSource(gid, s, items, seen);
        case OtherOperation(_) =>
      }
    }

    method AddSource(gid: string, s: MemberSource, items: seq<Item>, seen: set<string>)
      returns (items': seq<Item>, seen': set<string>, count: nat)
      requires Valid() && Resolving(gid) && DependencyBelow(ctx, rank, gid, s)
      requires seen == Ids(items) && s.operation == Add
      modifies this
      ensures Valid() && resolving == old(resolving)
      ensures old(memo.Keys) <= memo.Keys
      ensures items' == AddAll(items, Candidates(ctx, s, SourceLeaves(ctx, rank, gid, s))) && seen' == Ids(items')
      ensures count == CandidateCount(ctx, s, SourceLeaves(ctx, rank, gid, s))
      decreases rank[gid] + 1, 1, 0
    {
      items', seen', count := items, seen, 0;
      match s.kind {
        case ManualNode =>
          count := 1;
          if s.nodeLogicalId.Some? && s.nodeLogicalId.value in ctx.admitted {
            var node := ctx.admitted[s.nodeLogicalId.value];
            if s.filterSpec.None? || MatchesFilter(ctx.oracle, s.filterSpec, node) {
              items', seen' := AppendUnseen(items, seen, NodeItem(s.nodeLogicalId.value, node));
            }
          }
        case GroupRef =>
          if s.targetGroupId.Some? && s.targetGroupId.value in ctx.groups {
            var target := s.targetGroupId.value;
            items', seen' := AppendUnseen(items, seen, Item(KindGroup, target, ctx.groups[target].name));
          }
        case GroupNodes =>
          if s.targetGroupId.Some? && s.targetGroupId.value in ctx.groups {
            var child, _ := ResolveGroupMemo(s.targetGroupId.value);
            count := |child.leafItems|;
            items', seen' := AddLeaves(ctx, s, child.leafItems, items, seen);
          }
        case Regex =>
          count := |ctx.ordered|;
          items', seen' := AddNodes(ctx, s, items, seen);
        case Filter =>
          count := |ctx.ordered|;
          items', seen' := AddNodes(ctx, s, items, seen);
        case TypedBuiltin =>
          if s.builtinName.Some? {
            var name := ctx.oracle.builtinName(s.builtinName.value);
            items', seen' := AppendUnseen(items, seen, Item(KindBuiltin, name, name));
          }
        case OtherKind(_) =>
      }
    }

    method RemoveSource(gid: string, s: MemberSource, items: seq<Item>, seen: set<string>)
      returns (items': seq<Item>, seen': set<string>)
      requires Valid() && Resolving(gid) && DependencyBelow(ctx, rank, gid, s)
      requires seen == Ids(items) && Distinct(items)
      modifies this
      ensures Valid() && resolving == old(resolving)
      ensures old(memo.Keys) <= memo.Keys
      ensures items' == Survivors(ctx, s, NodeSet(SourceLeaves(ctx, rank, gid, s)), items) && seen' == Ids(items')
      decreases rank[gid] + 1, 1, 0
    {
      items', seen' := [], seen;
      ghost var childNodes := NodeSet(SourceLeaves(ctx, rank, gid, s));
      for k := 0 to |items|
        invariant Valid() && resolving == old(resolving)
        invariant old(memo.Keys) <= memo.Keys
        invariant items' == Survivors(ctx, s, childNodes, items[..k])
        invariant seen' == Ids(items') + Ids(items[k..])
      {
        var removed := ShouldRemove(gid, s, items[k]);
        assert items[..k + 1][..k] == items[..k];
        SurvivorsFrom(ctx, s, childNodes, items[..k]);
        SeenAfter(items, k, items', Survivors(ctx, s, childNodes, items[..k + 1]), removed);
        if removed {
          seen' := seen' - {items[k].Id()};
        } else {
          items' := items' + [items[k]];
        }
      }
      assert items[..|items|] == items;
    }

    method ShouldRemove(gid: string, s: MemberSource, x: Item) returns (b: bool)
      requires Valid() && Resolving(gid) && DependencyBelow(ctx, rank, gid, s)
      modifies this
      ensures Valid() && resolving == old(resolving)
      ensures old(memo.Keys) <= memo.Keys
      ensures b == Removes(ctx, s, NodeSet(SourceLeaves(ctx, rank, gid, s)), x)
      decreases rank[gid] + 1, 0, 0
    {
      if s.kind == GroupNodes {
        b := false;
        if s.targetGroupId.Some? && x.kind == KindNode {
          var child, _ := ResolveGroupMemo(s.targetGroupId.value);
          b := x.targetId in child.leafNodes;
        }
      } else {
        b := Removes(ctx, s, {}, x);
      }
    }

    method BuildMemo(gid: string, items: seq<Item>, count: nat) returns (m: GroupMemo)
      requires Valid() && Resolving(gid)
      requires items == GroupItems(ctx, rank, gid) && count == CountAfter(ctx, rank, gid, |Sources(ctx, gid)|)
      modifies this
      ensures Valid() && resolving == old(resolving)
      ensures old(memo.Keys) <= memo.Keys
      ensures m == MemoOf(ctx, rank, gid)
      decreases rank[gid] + 1, 2, 0
    {
      var members: seq<Member> := [];
      var children: seq<string>, nodes: seq<string> := [], [];
      var leaves: seq<Item> := [];
      var leafNodes: set<string> := {};
      var builtin := false;
      for k := 0 to |items|
        invariant Valid() && resolving == old(resolving)
        invariant old(memo.Keys) <= memo.Keys
        invariant members == Members(items[..k])
        invariant children == Targets(items[..k], KindGroup) && nodes == Targets(items[..k], KindNode)
        invariant leaves == Flatten(ctx, rank, gid, items[..k]) && leafNodes == NodeSet(leaves)
        invariant builtin == HasBuiltin(items[..k])
      {
        var x := items[k];
        assert items[..k + 1][..k] == items[..k];
        MembersSnoc(items, k);
        HasBuiltinSnoc(items, k);
        members := members + [Member(x.kind, x.targetId, x.displayName, k)];
        var more := ExpandMember(gid, x, k);
        NodeSetConcat(leaves, more);
        leaves, leafNodes := leaves + more, leafNodes + NodeSet(more);
        match x.kind {
          case KindGroup => children := children + [x.targetId];
          case KindNode => nodes := nodes + [x.targetId];
          case KindBuiltin => builtin := true;
        }
      }
      assert items[..|items|] == items;
      var pass := ctx.groups[gid].emptyFallbackPass && !(leafNodes != {} || builtin);
      m := GroupMemo(members, children, nodes, leaves, leafNodes, pass, count);
    }

    /** The leaves the `k`-th member of `gid` contributes. */
    method ExpandMember(gid: string, x: Item, ghost k: nat) returns (more: seq<Item>)
      requires Valid() && Resolving(gid) && k < |GroupItems(ctx, rank, gid)| && x == GroupItems(ctx, rank, gid)[k]
      modifies this
      ensures Valid() && resolving == old(resolving)
      ensures old(memo.Keys) <= memo.Keys
      ensures more == LeavesOf(ctx, rank, gid, x)
      decreases rank[gid] + 1, 1, 0
    {
      if x.kind != KindGroup { return [x]; }
      MembersBelow(ctx, rank, gid, k);
      var child, _ := ResolveGroupMemo(x.targetId);
      var filter := RefFilter(ctx.groups[gid].sources, x.targetId);
      more := [];
      for i := 0 to |child.leafItems|
        invariant more == Projected(ctx, filter, child.leafItems[..i])
      {
        assert child.leafItems[..i + 1][..i] == child.leafItems[..i];
        if PassesRef(ctx, filter, child.leafItems[i]) { more := more + [child.leafItems[i]]; }
      }
      assert child.leafItems[..|child.leafItems|] == child.leafItems;
    }

    /** Resolving a list of groups fills the memo with their recursive meaning. */
    method ResolveAll(ids: seq<string>) returns (memos: seq<GroupMemo>)
      requires Valid() && resolving == {} && forall i :: 0 <= i < |ids| ==> ids[i] in ctx.groups
      modifies this
      ensures Valid() && resolving == {}
      ensures |memos| == |ids| && forall i :: 0 <= i < |ids| ==> memos[i] == MemoOf(ctx, rank, ids[i])
      ensures forall i :: 0 <= i < |ids| ==> ids[i] in memo
    {
      memos := [];
      for k := 0 to |ids|
        invariant Valid() && resolving == {}
        invariant MemosOf(ctx, rank, ids[..k], memos) && Elements(ids[..k]) <= memo.Keys
      {
        var m, _ := ResolveGroupMemo(ids[k]);
        NextMemo(ctx, rank, ids, k, memos, m);
        memos := memos + [m];
      }
      assert ids[..|ids|] == ids;
      assert forall i :: 0 <= i < |ids| ==> ids[i] in Elements(ids);
    }
  }
}

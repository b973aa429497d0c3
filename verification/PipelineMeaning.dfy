/**
 What a pipeline means, independently of how it is run: an item is a member exactly when some add
 source offers it and no later remove source drops it; and every leaf node is an admitted node.
 */
module PipelineMeaning {
  import opened Policy
  import opened Sorting
  import opened Pipeline
  import opened PipelineFacts

  /** Nodes are listed and indexed consistently, one per logical id. */
  ghost predicate NodesIndexed(ctx: Context) {
    && (forall id :: id in ctx.admitted ==> ctx.admitted[id].logicalId == id)
    && (forall i :: 0 <= i < |ctx.ordered| ==>
          ctx.ordered[i].logicalId in ctx.admitted && ctx.admitted[ctx.ordered[i].logicalId] == ctx.ordered[i])
  }

  /** An item as the context describes its target. */
  ghost predicate Canonical(ctx: Context, x: Item) {
    match x.kind
    case KindNode => x.targetId in ctx.admitted && x.displayName == ctx.admitted[x.targetId].displayName
    case KindGroup => x.targetId in ctx.groups && x.displayName == ctx.groups[x.targetId].name
    case KindBuiltin => x.displayName == x.targetId && BuiltinDeclared(ctx, x.targetId)
  }

  ghost predicate DeclaresBuiltin(ctx: Context, s: MemberSource, name: string) {
    s.kind == TypedBuiltin && s.builtinName.Some? && name == ctx.oracle.builtinName(s.builtinName.value)
  }

  /** Some source of some group names this builtin. */
  ghost predicate BuiltinDeclared(ctx: Context, name: string) {
    exists g, s :: g in ctx.groups && s in ctx.groups[g].sources && DeclaresBuiltin(ctx, s, name)
  }

  ghost predicate AllCanonical(ctx: Context, items: seq<Item>) {
    forall i :: 0 <= i < |items| ==> Canonical(ctx, items[i])
  }

  lemma CanonicalUnique(ctx: Context, a: Item, b: Item)
    requires Canonical(ctx, a) && Canonical(ctx, b) && a.Id() == b.Id()
    ensures a == b
  {
    IdInjective(a, b);
  }

  lemma CandidatesCanonical(ctx: Context, gid: string, s: MemberSource, child: seq<Item>)
    requires NodesIndexed(ctx) && AllCanonical(ctx, child) && gid in ctx.groups && s in ctx.groups[gid].sources
    ensures AllCanonical(ctx, Candidates(ctx, s, child))
  {
    var cs := Candidates(ctx, s, child);
    KeptLeavesFrom(ctx, s, child);
    SelectedFrom(ctx, s, ctx.ordered);
    forall i | 0 <= i < |cs| ensures Canonical(ctx, cs[i]) {
      assert cs[i] in cs;
      if s.kind == GroupNodes {
        assert cs[i] in child;
      } else if s.kind == TypedBuiltin {
        assert DeclaresBuiltin(ctx, s, cs[i].targetId);
      }
    }
  }

  lemma SourceOf(ctx: Context, gid: string, n: nat)
    requires gid in ctx.groups && n < |Sources(ctx, gid)|
    ensures Sources(ctx, gid)[n] in ctx.groups[gid].sources
  {
    StableSortElements(SourcePositionLe, ctx.groups[gid].sources);
  }

  lemma {:induction false} ItemsCanonical(ctx: Context, rank: map<string, nat>, gid: string, n: nat)
    requires RankedContext(ctx, rank) && NodesIndexed(ctx) && gid in rank && n <= |Sources(ctx, gid)|
    ensures AllCanonical(ctx, ItemsAfter(ctx, rank, gid, n))
    decreases rank[gid], 1, n
  {
    if n > 0 {
      ItemsCanonical(ctx, rank, gid, n - 1);
      var s, items := Sources(ctx, gid)[n - 1], ItemsAfter(ctx, rank, gid, n - 1);
      var child := SourceLeaves(ctx, rank, gid, s);
      SourceLeavesCanonical(ctx, rank, gid, s);
      SourceOf(ctx, gid, n - 1);
      CandidatesCanonical(ctx, gid, s, child);
      StepCanonical(ctx, s, child, items);
    }
  }

  lemma StepCanonical(ctx: Context, s: MemberSource, child: seq<Item>, items: seq<Item>)
    requires AllCanonical(ctx, items) && AllCanonical(ctx, Candidates(ctx, s, child))
    ensures AllCanonical(ctx, Step(ctx, s, child, items))
  {
    AddedFrom(items, Candidates(ctx, s, child));
    SurvivorsFrom(ctx, s, NodeSet(child), items);
    var after := Step(ctx, s, child, items);
    forall i | 0 <= i < |after| ensures Canonical(ctx, after[i]) { assert after[i] in after; }
  }

  lemma {:induction false} SourceLeavesCanonical(ctx: Context, rank: map<string, nat>, gid: string, s: MemberSource)
    requires RankedContext(ctx, rank) && NodesIndexed(ctx) && gid in rank
    ensures AllCanonical(ctx, SourceLeaves(ctx, rank, gid, s))
    decreases rank[gid], 0, 0
  {
    if s.kind == GroupNodes && s.targetGroupId.Some? && s.targetGroupId.value in rank && rank[s.targetGroupId.value] < rank[gid] {
      LeavesCanonical(ctx, rank, s.targetGroupId.value);
    }
  }

  /** Every leaf is an admitted node under its own name, or a builtin. */
  lemma {:induction false} LeavesCanonical(ctx: Context, rank: map<string, nat>, gid: string)
    requires RankedContext(ctx, rank) && NodesIndexed(ctx) && gid in rank
    ensures AllCanonical(ctx, Leaves(ctx, rank, gid))
    decreases rank[gid], 2, 0
  {
    ItemsCanonical(ctx, rank, gid, |Sources(ctx, gid)|);
    FlattenCanonical(ctx, rank, gid, GroupItems(ctx, rank, gid));
  }

  lemma {:induction false} FlattenCanonical(ctx: Context, rank: map<string, nat>, gid: string, items: seq<Item>)
    requires RankedContext(ctx, rank) && NodesIndexed(ctx) && gid in rank && AllCanonical(ctx, items)
    ensures AllCanonical(ctx, Flatten(ctx, rank, gid, items))
    decreases rank[gid], 1, |items|
  {
    if items != [] {
      FlattenCanonical(ctx, rank, gid, items[..|items| - 1]);
      var x := items[|items| - 1];
      var more := LeavesOf(ctx, rank, gid, x);
      if x.kind == KindGroup {
        ProjectedFrom(ctx, RefFilter(ctx.groups[gid].sources, x.targetId), ChildLeaves(ctx, rank, gid, x.targetId));
        if x.targetId in rank && rank[x.targetId] < rank[gid] { LeavesCanonical(ctx, rank, x.targetId); }
      }
      forall i | 0 <= i < |more| ensures Canonical(ctx, more[i]) { assert more[i] in more; }
    }
  }

  /** Admission safety of the whole group graph: no group reaches a node that was not admitted. */
  lemma LeafNodesAdmitted(ctx: Context, rank: map<string, nat>, gid: string)
    requires RankedContext(ctx, rank) && NodesIndexed(ctx) && gid in rank
    ensures NodeSet(Leaves(ctx, rank, gid)) <= ctx.admitted.Keys
  {
    LeavesCanonical(ctx, rank, gid);
  }

  // ---- Declarative membership ----

  /** The `i`-th source of `gid` adds `x`. */
  ghost predicate Offered(ctx: Context, rank: map<string, nat>, gid: string, i: nat, x: Item)
    requires RankedContext(ctx, rank) && gid in rank && i < |Sources(ctx, gid)|
  {
    var s := Sources(ctx, gid)[i];
    s.operation == Add && x in Candidates(ctx, s, SourceLeaves(ctx, rank, gid, s))
  }

  /** The `i`-th source of `gid` removes `x` if it is there. */
  ghost predicate Dropped(ctx: Context, rank: map<string, nat>, gid: string, i: nat, x: Item)
    requires RankedContext(ctx, rank) && gid in rank && i < |Sources(ctx, gid)|
  {
    var s := Sources(ctx, gid)[i];
    s.operation == Remove && Removes(ctx, s, NodeSet(SourceLeaves(ctx, rank, gid, s)), x)
  }

  /** Some source among the first `n` offers `x` and none after it drops it. */
  ghost predicate LastOffered(ctx: Context, rank: map<string, nat>, gid: string, n: nat, x: Item)
    requires RankedContext(ctx, rank) && gid in rank && n <= |Sources(ctx, gid)|
  {
    exists i: nat :: i < n && Offered(ctx, rank, gid, i, x) && forall j: nat :: i < j < n ==> !Dropped(ctx, rank, gid, j, x)
  }

  lemma AddAllContains(ctx: Context, items: seq<Item>, xs: seq<Item>, x: Item)
    requires AllCanonical(ctx, items) && AllCanonical(ctx, xs)
    ensures x in AddAll(items, xs) <==> x in items || x in xs
  {
    AddedFrom(items, xs);
    if x in xs {
      var r := AddAll(items, xs);
      var i :| 0 <= i < |r| && r[i].Id() == x.Id();
      assert r[i] in r;
      CanonicalUnique(ctx, r[i], x);
    }
  }

  /** Membership after `n` sources, one step at a time. */
  lemma MemberStep(ctx: Context, rank: map<string, nat>, gid: string, n: nat, x: Item)
    requires RankedContext(ctx, rank) && NodesIndexed(ctx) && gid in rank && n < |Sources(ctx, gid)|
    ensures x in ItemsAfter(ctx, rank, gid, n + 1) <==>
            Offered(ctx, rank, gid, n, x) || (x in ItemsAfter(ctx, rank, gid, n) && !Dropped(ctx, rank, gid, n, x))
  {
    var s, items := Sources(ctx, gid)[n], ItemsAfter(ctx, rank, gid, n);
    var child := SourceLeaves(ctx, rank, gid, s);
    ItemsCanonical(ctx, rank, gid, n);
    SourceLeavesCanonical(ctx, rank, gid, s);
    SourceOf(ctx, gid, n);
    CandidatesCanonical(ctx, gid, s, child);
    AddAllContains(ctx, items, Candidates(ctx, s, child), x);
    SurvivorsFrom(ctx, s, NodeSet(child), items);
  }

  /**
   The ordered pipeline is "last writer wins": an item is in exactly when its last relevant source
   adds it.
   */
  lemma {:induction false} LastWriterWins(ctx: Context, rank: map<string, nat>, gid: string, n: nat, x: Item)
    requires RankedContext(ctx, rank) && NodesIndexed(ctx) && gid in rank && n <= |Sources(ctx, gid)|
    ensures x in ItemsAfter(ctx, rank, gid, n) <==> LastOffered(ctx, rank, gid, n, x)
  {
    if n > 0 {
      LastWriterWins(ctx, rank, gid, n - 1, x);
      NextWriterWins(ctx, rank, gid, n - 1, x);
    }
  }

  lemma NextWriterWins(ctx: Context, rank: map<string, nat>, gid: string, n: nat, x: Item)
    requires RankedContext(ctx, rank) && NodesIndexed(ctx) && gid in rank && n < |Sources(ctx, gid)|
    requires x in ItemsAfter(ctx, rank, gid, n) <==> LastOffered(ctx, rank, gid, n, x)
    ensures x in ItemsAfter(ctx, rank, gid, n + 1) <==> LastOffered(ctx, rank, gid, n + 1, x)
  {
    MemberStep(ctx, rank, gid, n, x);
    LastOfferedStep(ctx, rank, gid, n, x);
  }

  lemma LastOfferedStep(ctx: Context, rank: map<string, nat>, gid: string, n: nat, x: Item)
    requires RankedContext(ctx, rank) && gid in rank && n < |Sources(ctx, gid)|
    ensures LastOffered(ctx, rank, gid, n + 1, x) <==>
            Offered(ctx, rank, gid, n, x) || (LastOffered(ctx, rank, gid, n, x) && !Dropped(ctx, rank, gid, n, x))
  {
    if LastOffered(ctx, rank, gid, n, x) && !Dropped(ctx, rank, gid, n, x) { OfferStays(ctx, rank, gid, n, x); }
    if LastOffered(ctx, rank, gid, n + 1, x) { OfferWas(ctx, rank, gid, n, x); }
  }

  lemma OfferStays(ctx: Context, rank: map<string, nat>, gid: string, n: nat, x: Item)
    requires RankedContext(ctx, rank) && gid in rank && n < |Sources(ctx, gid)|
    requires LastOffered(ctx, rank, gid, n, x) && !Dropped(ctx, rank, gid, n, x)
    ensures LastOffered(ctx, rank, gid, n + 1, x)
  {
    var i: nat :| i < n && Offered(ctx, rank, gid, i, x) && forall j: nat :: i < j < n ==> !Dropped(ctx, rank, gid, j, x);
    assert Offered(ctx, rank, gid, i, x);
  }

  lemma OfferWas(ctx: Context, rank: map<string, nat>, gid: string, n: nat, x: Item)
    requires RankedContext(ctx, rank) && gid in rank && n < |Sources(ctx, gid)|
    requires LastOffered(ctx, rank, gid, n + 1, x)
    ensures Offered(ctx, rank, gid, n, x) || (LastOffered(ctx, rank, gid, n, x) && !Dropped(ctx, rank, gid, n, x))
  {
    var i: nat :| i < n + 1 && Offered(ctx, rank, gid, i, x) && forall j: nat :: i < j < n + 1 ==> !Dropped(ctx, rank, gid, j, x);
    assert Offered(ctx, rank, gid, i, x);
  }

  /**
   A source turned into a removal drops everything it would add, except that a removal by group nodes
   leaves the builtins which the addition carried along.
   */
  lemma RemoveUndoesAdd(ctx: Context, s: MemberSource, child: seq<Item>, x: Item)
    requires NodesIndexed(ctx) && AllCanonical(ctx, child) && x in Candidates(ctx, s, child)
    ensures Removes(ctx, s, NodeSet(child), x) <==> !(s.kind == GroupNodes && x.kind != KindNode)
  {
    SelectedFrom(ctx, s, ctx.ordered);
    KeptLeavesFrom(ctx, s, child);
  }
}

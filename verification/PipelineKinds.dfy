/**
 What each kind of source does to a group's items, said in identities, patterns and conditions: a
 removal by identity takes out one item and no other, a removal by pattern, filter or group leaves
 every item it does not concern, and an addition appends the items it speaks of, in their order.
 */
module PipelineKinds {
  import opened Wrappers
  import opened Policy
  import opened Sorting
  import opened Pipeline
  import opened PipelineFacts
  import opened PipelineMeaning

  // ---- Reference vocabulary ----

  /** `after` is `items` without the one item of this identity, or `items` if there is none. */
  ghost predicate Without(items: seq<Item>, id: string, after: seq<Item>) {
    if id in Ids(items)
    then exists k :: 0 <= k < |items| && items[k].Id() == id && after == items[..k] + items[k + 1..]
    else after == items
  }

  /** The items outside `gone`, in their order. */
  ghost function Minus(items: seq<Item>, gone: set<Item>): seq<Item> {
    if items == [] then [] else (if items[0] in gone then [] else [items[0]]) + Minus(items[1..], gone)
  }

  lemma {:induction false} MinusConcat(a: seq<Item>, b: seq<Item>, gone: set<Item>)
    ensures Minus(a + b, gone) == Minus(a, gone) + Minus(b, gone)
  {
    if a == [] {
      assert a + b == b;
    } else {
      assert (a + b)[1..] == a[1..] + b;
      MinusConcat(a[1..], b, gone);
    }
  }

  lemma {:induction false} MinusNone(items: seq<Item>, gone: set<Item>)
    requires forall i :: 0 <= i < |items| ==> items[i] !in gone
    ensures Minus(items, gone) == items
  {
    if items != [] {
      assert items == [items[0]] + items[1..];
      MinusNone(items[1..], gone);
    }
  }

  lemma MinusMiddle(a: seq<Item>, x: Item, b: seq<Item>, gone: set<Item>)
    requires Minus(a, gone) == a && x in gone && Minus(b, gone) == b
    ensures Minus(a + ([x] + b), gone) == a + b
  {
    MinusConcat(a, [x] + b, gone);
    assert Minus([x] + b, gone) == b by { assert ([x] + b)[1..] == b; }
  }

  lemma MinusAt(items: seq<Item>, k: nat, gone: set<Item>)
    requires k < |items| && forall i :: 0 <= i < |items| ==> (items[i] in gone <==> i == k)
    ensures Minus(items, gone) == items[..k] + items[k + 1..]
  {
    var a, b := items[..k], items[k + 1..];
    assert items == a + ([items[k]] + b);
    assert Minus(a, gone) == a by { MinusNone(a, gone); }
    assert Minus(b, gone) == b by { MinusNone(b, gone); }
    MinusMiddle(a, items[k], b, gone);
  }

  lemma IdentityAt(items: seq<Item>, id: string, k: nat)
    requires Distinct(items) && k < |items| && items[k].Id() == id
    ensures forall i :: 0 <= i < |items| ==> (items[i].Id() == id <==> i == k)
  {
    forall i | 0 <= i < |items| && i != k ensures items[i].Id() != id {
      if i < k { assert items[i].Id() != items[k].Id(); } else { assert items[k].Id() != items[i].Id(); }
    }
  }

  /** Taking out the items of one identity from distinct items is `Without`. */
  lemma MinusOne(items: seq<Item>, id: string, gone: set<Item>)
    requires Distinct(items) && forall i :: 0 <= i < |items| ==> (items[i] in gone <==> items[i].Id() == id)
    ensures Without(items, id, Minus(items, gone))
  {
    if id in Ids(items) {
      var k :| 0 <= k < |items| && items[k].Id() == id;
      IdentityAt(items, id, k);
      MinusAt(items, k, gone);
    } else {
      MinusNone(items, gone);
    }
  }

  /** Every condition of the filter holds of the node. */
  ghost predicate Meets(ctx: Context, f: FilterSpec, n: Node) {
    forall c :: c in f.conditions ==> ctx.oracle.condition(c, n)
  }

  lemma MeetsIsMatch(ctx: Context, f: FilterSpec, n: Node)
    ensures Meets(ctx, f, n) <==> MatchesFilter(ctx.oracle, Some(f), n)
  {
    if MatchesFilter(ctx.oracle, Some(f), n) {
      forall c | c in f.conditions ensures ctx.oracle.condition(c, n) {
        var i :| 0 <= i < |f.conditions| && f.conditions[i] == c;
      }
    }
  }

  // ---- Removal ----

  lemma {:induction false} SurvivorsAreRest(
    ctx: Context, s: MemberSource, childNodes: set<string>, items: seq<Item>, gone: set<Item>)
    requires forall x :: x in items ==> (x in gone <==> Removes(ctx, s, childNodes, x))
    ensures Survivors(ctx, s, childNodes, items) == Minus(items, gone)
  {
    if items != [] {
      var init, x := items[..|items| - 1], items[|items| - 1];
      assert items == init + [x];
      SurvivorsAreRest(ctx, s, childNodes, init, gone);
      MinusConcat(init, [x], gone);
    }
  }

  lemma RemovesNothing(ctx: Context, s: MemberSource, child: seq<Item>, items: seq<Item>)
    requires s.operation == Remove && forall x :: x in items ==> !Removes(ctx, s, NodeSet(child), x)
    ensures Step(ctx, s, child, items) == items
  {
    SurvivorsAreRest(ctx, s, NodeSet(child), items, {});
    MinusNone(items, {});
  }

  /** A source that removes by kind and target takes out that one item. */
  lemma RemovesIdentity(ctx: Context, s: MemberSource, child: seq<Item>, items: seq<Item>, kind: MemberKind, target: string)
    requires s.operation == Remove && Distinct(items)
    requires forall x :: x in items ==>
               (Removes(ctx, s, NodeSet(child), x) <==> x.kind == kind && x.targetId == target)
    ensures Without(items, Item(kind, target, "").Id(), Step(ctx, s, child, items))
  {
    var id := Item(kind, target, "").Id();
    var gone := set x | x in items && x.Id() == id;
    forall x | x in items ensures x in gone <==> Removes(ctx, s, NodeSet(child), x) {
      if x.Id() == id { IdInjective(x, Item(kind, target, "")); }
    }
    SurvivorsAreRest(ctx, s, NodeSet(child), items, gone);
    MinusOne(items, id, gone);
  }

  /** Some leaf is this node. */
  ghost predicate LeafNode(leaves: seq<Item>, id: string) {
    exists i :: 0 <= i < |leaves| && leaves[i].kind == KindNode && leaves[i].targetId == id
  }

  /** The items that are nodes matched by a pattern. */
  ghost function Matched(ctx: Context, pattern: string, items: seq<Item>): set<Item> {
    set x | x in items && x.kind == KindNode && x.targetId in ctx.admitted &&
            ctx.oracle.regexMatch(pattern, ctx.admitted[x.targetId].displayName)
  }

  /** The items that are nodes meeting a filter. */
  ghost function Met(ctx: Context, f: FilterSpec, items: seq<Item>): set<Item> {
    set x | x in items && x.kind == KindNode && x.targetId in ctx.admitted && Meets(ctx, f, ctx.admitted[x.targetId])
  }

  /** The items that are nodes among the child's leaves. */
  ghost function Shared(child: seq<Item>, items: seq<Item>): set<Item> {
    set x | x in items && x.kind == KindNode && LeafNode(child, x.targetId)
  }

  /**
   What a removal leaves, kind by kind. By identity: everything but the one node, group or builtin it
   names. By pattern, filter or group: in order, every group and builtin and every node that the
   pattern or the filter rejects or that is not a leaf of the group.
   */
  ghost predicate RemovalLeaves(ctx: Context, s: MemberSource, child: seq<Item>, items: seq<Item>, after: seq<Item>) {
    match s.kind
    case ManualNode =>
      if s.nodeLogicalId.Some? then Without(items, "node:" + s.nodeLogicalId.value, after) else after == items
    case GroupRef =>
      if s.targetGroupId.Some? then Without(items, "group:" + s.targetGroupId.value, after) else after == items
    case TypedBuiltin =>
      if s.builtinName.Some? then Without(items, "builtin:" + ctx.oracle.builtinName(s.builtinName.value), after)
      else after == items
    case Regex =>
      after == if s.pattern.Some? && ctx.oracle.compiles(s.pattern.value)
               then Minus(items, Matched(ctx, s.pattern.value, items)) else items
    case Filter =>
      after == if s.filterSpec.Some? then Minus(items, Met(ctx, s.filterSpec.value, items)) else items
    case GroupNodes =>
      after == if s.targetGroupId.Some? then Minus(items, Shared(child, items)) else items
    case OtherKind(_) => after == items
  }

  lemma RemoveOne(ctx: Context, s: MemberSource, child: seq<Item>, items: seq<Item>)
    requires s.operation == Remove && Distinct(items)
    requires s.kind == ManualNode || s.kind == GroupRef || s.kind == TypedBuiltin || s.kind.OtherKind?
    ensures RemovalLeaves(ctx, s, child, items, Step(ctx, s, child, items))
  {
    match s.kind {
      case ManualNode =>
        if s.nodeLogicalId.Some? { RemovesIdentity(ctx, s, child, items, KindNode, s.nodeLogicalId.value); }
        else { RemovesNothing(ctx, s, child, items); }
      case GroupRef =>
        if s.targetGroupId.Some? { RemovesIdentity(ctx, s, child, items, KindGroup, s.targetGroupId.value); }
        else { RemovesNothing(ctx, s, child, items); }
      case TypedBuiltin =>
        if s.builtinName.Some? {
          RemovesIdentity(ctx, s, child, items, KindBuiltin, ctx.oracle.builtinName(s.builtinName.value));
        } else { RemovesNothing(ctx, s, child, items); }
      case OtherKind(_) => RemovesNothing(ctx, s, child, items);
    }
  }

  lemma RemoveMatching(ctx: Context, s: MemberSource, child: seq<Item>, items: seq<Item>)
    requires s.operation == Remove && AllCanonical(ctx, items) && (s.kind == Regex || s.kind == Filter)
    ensures RemovalLeaves(ctx, s, child, items, Step(ctx, s, child, items))
  {
    forall x | x in items ensures Canonical(ctx, x) {
      var i :| 0 <= i < |items| && items[i] == x;
    }
    if s.kind == Regex {
      if s.pattern.Some? && ctx.oracle.compiles(s.pattern.value) {
        SurvivorsAreRest(ctx, s, NodeSet(child), items, Matched(ctx, s.pattern.value, items));
      } else { RemovesNothing(ctx, s, child, items); }
    } else if s.filterSpec.Some? {
      var gone := Met(ctx, s.filterSpec.value, items);
      forall x | x in items ensures x in gone <==> Removes(ctx, s, NodeSet(child), x) {
        if x.kind == KindNode { MeetsIsMatch(ctx, s.filterSpec.value, ctx.admitted[x.targetId]); }
      }
      SurvivorsAreRest(ctx, s, NodeSet(child), items, gone);
    } else { RemovesNothing(ctx, s, child, items); }
  }

  lemma RemoveLeaves(ctx: Context, s: MemberSource, child: seq<Item>, items: seq<Item>)
    requires s.operation == Remove && s.kind == GroupNodes
    ensures RemovalLeaves(ctx, s, child, items, Step(ctx, s, child, items))
  {
    if s.targetGroupId.Some? {
      forall x | x in items ensures x in Shared(child, items) <==> Removes(ctx, s, NodeSet(child), x) {
        LeafNodeSet(child, x.targetId);
      }
      SurvivorsAreRest(ctx, s, NodeSet(child), items, Shared(child, items));
    } else { RemovesNothing(ctx, s, child, items); }
  }

  lemma LeafNodeSet(leaves: seq<Item>, id: string)
    ensures LeafNode(leaves, id) <==> id in NodeSet(leaves)
  {
    if id in NodeSet(leaves) {
      var y :| y in leaves && y.kind == KindNode && y.targetId == id;
      var i :| 0 <= i < |leaves| && leaves[i] == y;
    }
  }

  // ---- Addition ----

  /** `after` is `items` with `x` appended unless its identity is there already. */
  ghost predicate With(items: seq<Item>, x: Item, after: seq<Item>) {
    after == if x.Id() in Ids(items) then items else items + [x]
  }

  /** `u` occurs in `xs` before `v` first does. */
  ghost predicate Earlier(xs: seq<Item>, u: Item, v: Item) {
    exists a :: 0 <= a < |xs| && xs[a] == u && v !in xs[..a]
  }

  /** `after` appends to `items`, in the order of `xs`, the `hits` whose identity was not there yet. */
  ghost predicate Appended(items: seq<Item>, xs: seq<Item>, hits: set<Item>, after: seq<Item>) {
    && items <= after && Distinct(after)
    && (forall i :: |items| <= i < |after| ==> after[i] in hits)
    && (forall i, j :: |items| <= i < j < |after| ==> Earlier(xs, after[i], after[j]))
    && (forall x :: x in xs && x in hits ==> x.Id() in Ids(after))
  }

  lemma AddOne(items: seq<Item>, x: Item)
    ensures With(items, x, AddAll(items, [x]))
  {
    assert [x][..0] == [] && AddAll(items, [x]) == AddUnique(AddAll(items, []), x);
  }

  lemma {:induction false} AddAllOrder(items: seq<Item>, xs: seq<Item>)
    ensures items <= AddAll(items, xs)
    ensures forall i :: |items| <= i < |AddAll(items, xs)| ==> AddAll(items, xs)[i] in xs
    ensures forall i, j :: |items| <= i < j < |AddAll(items, xs)| ==>
              Earlier(xs, AddAll(items, xs)[i], AddAll(items, xs)[j])
  {
    if xs != [] {
      var init, x := xs[..|xs| - 1], xs[|xs| - 1];
      assert xs == init + [x];
      AddAllOrder(items, init);
      AddedFrom(items, init);
      var r, r' := AddAll(items, init), AddAll(items, xs);
      assert r <= r';
      forall i, j | |items| <= i < j < |r'| ensures Earlier(xs, r'[i], r'[j]) {
        assert r'[i] == r[i] && r[i] in init;
        if j < |r| {
          assert Earlier(init, r[i], r[j]);
          var a :| 0 <= a < |init| && init[a] == r[i] && r[j] !in init[..a];
          assert xs[a] == r[i] && xs[..a] == init[..a];
        } else {
          LastIsNew(r, init, x);
          var a :| 0 <= a < |init| && init[a] == r[i];
          assert xs[a] == r[i] && xs[..a] == init[..a];
        }
      }
    }
  }

  lemma LastIsNew(r: seq<Item>, xs: seq<Item>, x: Item)
    requires AddUnique(r, x) != r && forall y :: y in xs ==> y.Id() in Ids(r)
    ensures x !in xs
  {
  }

  lemma EarlierCons(h: Item, t: seq<Item>, u: Item, v: Item)
    ensures Earlier([h] + t, u, v) <==> u == h || (v != h && Earlier(t, u, v))
  {
    var xs := [h] + t;
    if u == h {
      assert xs[0] == u && v !in xs[..0];
    } else if v != h && Earlier(t, u, v) {
      var a :| 0 <= a < |t| && t[a] == u && v !in t[..a];
      assert xs[a + 1] == u && xs[..a + 1] == [h] + t[..a];
    }
    if u != h && Earlier(xs, u, v) {
      var a :| 0 <= a < |xs| && xs[a] == u && v !in xs[..a];
      assert xs[..a] == [h] + t[..a - 1] && t[a - 1] == u;
    }
  }

  lemma {:induction false} EarlierMinus(xs: seq<Item>, gone: set<Item>, u: Item, v: Item)
    requires v !in gone && Earlier(Minus(xs, gone), u, v)
    ensures Earlier(xs, u, v)
  {
    if xs != [] {
      var h, t := xs[0], xs[1..];
      assert xs == [h] + t;
      EarlierCons(h, t, u, v);
      if h in gone {
        assert Minus(xs, gone) == Minus(t, gone);
        EarlierMinus(t, gone, u, v);
      } else if u != h {
        EarlierCons(h, Minus(t, gone), u, v);
        EarlierMinus(t, gone, u, v);
      }
    }
  }

  lemma {:induction false} MinusHolds(items: seq<Item>, gone: set<Item>)
    ensures forall x :: x in Minus(items, gone) <==> x in items && x !in gone
  {
    if items != [] {
      assert items == [items[0]] + items[1..];
      MinusHolds(items[1..], gone);
    }
  }

  /** Adding what is left of a list appends it in the list's order. */
  lemma AddAllAppends(items: seq<Item>, xs: seq<Item>, hits: set<Item>, gone: set<Item>)
    requires Distinct(items) && forall x :: x in xs ==> (x in hits <==> x !in gone)
    ensures Appended(items, xs, hits, AddAll(items, Minus(xs, gone)))
  {
    var cs := Minus(xs, gone);
    var after := AddAll(items, cs);
    MinusHolds(xs, gone);
    AddAllDistinct(items, cs);
    AddAllOrder(items, cs);
    AddedFrom(items, cs);
    forall i, j | |items| <= i < j < |after| ensures Earlier(xs, after[i], after[j]) {
      assert after[j] in cs;
      EarlierMinus(xs, gone, after[i], after[j]);
    }
  }

  /** The ordered nodes as items. */
  ghost function Listed(ctx: Context): seq<Item> {
    seq(|ctx.ordered|, i requires 0 <= i < |ctx.ordered| =>
      Item(KindNode, ctx.ordered[i].logicalId, ctx.ordered[i].displayName))
  }

  lemma {:induction false} SelectedAreRest(ctx: Context, s: MemberSource, k: nat, gone: set<Item>)
    requires k <= |ctx.ordered| && forall i :: 0 <= i < k ==> (Listed(ctx)[i] in gone <==> !Selects(ctx, s, ctx.ordered[i]))
    ensures SelectNodes(ctx, s, ctx.ordered[..k]) == Minus(Listed(ctx)[..k], gone)
  {
    if k > 0 {
      SelectedAreRest(ctx, s, k - 1, gone);
      assert ctx.ordered[..k][..k - 1] == ctx.ordered[..k - 1];
      assert Listed(ctx)[..k] == Listed(ctx)[..k - 1] + [Listed(ctx)[k - 1]];
      MinusConcat(Listed(ctx)[..k - 1], [Listed(ctx)[k - 1]], gone);
    }
  }

  lemma {:induction false} KeptAreRest(ctx: Context, s: MemberSource, child: seq<Item>, gone: set<Item>)
    requires forall x :: x in child ==> (x in gone <==> !KeepsLeaf(ctx, s, x))
    ensures KeptLeaves(ctx, s, child) == Minus(child, gone)
  {
    if child != [] {
      var init, x := child[..|child| - 1], child[|child| - 1];
      assert child == init + [x];
      KeptAreRest(ctx, s, init, gone);
      MinusConcat(init, [x], gone);
    }
  }

  /** The ordered nodes a pattern matches. */
  ghost function Matching(ctx: Context, pattern: string): set<Item> {
    set i | 0 <= i < |ctx.ordered| && ctx.oracle.regexMatch(pattern, ctx.ordered[i].displayName) :: Listed(ctx)[i]
  }

  /** The ordered nodes that meet a filter. */
  ghost function Meeting(ctx: Context, f: FilterSpec): set<Item> {
    set i | 0 <= i < |ctx.ordered| && Meets(ctx, f, ctx.ordered[i]) :: Listed(ctx)[i]
  }

  /** Equal items of the list are one node. */
  lemma ListedNode(ctx: Context, i: nat, j: nat)
    requires NodesIndexed(ctx) && i < |ctx.ordered| && j < |ctx.ordered| && Listed(ctx)[i] == Listed(ctx)[j]
    ensures ctx.ordered[i] == ctx.ordered[j]
  {
  }

  lemma SelectionAppends(ctx: Context, s: MemberSource, items: seq<Item>, hits: set<Item>)
    requires NodesIndexed(ctx) && Distinct(items)
    requires forall i :: 0 <= i < |ctx.ordered| ==> (Listed(ctx)[i] in hits <==> Selects(ctx, s, ctx.ordered[i]))
    ensures Appended(items, Listed(ctx), hits, AddAll(items, SelectNodes(ctx, s, ctx.ordered)))
  {
    var gone := set x | x in Listed(ctx) && x !in hits;
    assert forall i :: 0 <= i < |ctx.ordered| ==> Listed(ctx)[i] in Listed(ctx);
    assert ctx.ordered[..|ctx.ordered|] == ctx.ordered && Listed(ctx)[..|ctx.ordered|] == Listed(ctx);
    SelectedAreRest(ctx, s, |ctx.ordered|, gone);
    AddAllAppends(items, Listed(ctx), hits, gone);
  }

  /**
   A leaf that an addition by group nodes lets through: a builtin, or an admitted node of the pattern
   and filter.
   */
  ghost predicate Admissible(ctx: Context, s: MemberSource, x: Item) {
    x.kind == KindNode ==>
      && x.targetId in ctx.admitted
      && (s.pattern.None? || ctx.oracle.blank(s.pattern.value) || !ctx.oracle.compiles(s.pattern.value) ||
          ctx.oracle.regexMatch(s.pattern.value, ctx.admitted[x.targetId].displayName))
      && (s.filterSpec.Some? ==> Meets(ctx, s.filterSpec.value, ctx.admitted[x.targetId]))
  }

  ghost function LetThrough(ctx: Context, s: MemberSource, child: seq<Item>): set<Item> {
    set x | x in child && Admissible(ctx, s, x)
  }

  /**
   What an addition appends, kind by kind: one node that is admitted and meets the filter, one known
   group, one builtin by its normal name; the ordered nodes of a usable pattern or of a filter; the
   child's leaves that pattern and filter let through.
   */
  ghost predicate AdditionAppends(ctx: Context, s: MemberSource, child: seq<Item>, items: seq<Item>, after: seq<Item>) {
    match s.kind
    case ManualNode =>
      if s.nodeLogicalId.Some? && s.nodeLogicalId.value in ctx.admitted &&
         (s.filterSpec.Some? ==> Meets(ctx, s.filterSpec.value, ctx.admitted[s.nodeLogicalId.value]))
      then With(items, Item(KindNode, s.nodeLogicalId.value, ctx.admitted[s.nodeLogicalId.value].displayName), after)
      else after == items
    case GroupRef =>
      if s.targetGroupId.Some? && s.targetGroupId.value in ctx.groups
      then With(items, Item(KindGroup, s.targetGroupId.value, ctx.groups[s.targetGroupId.value].name), after)
      else after == items
    case TypedBuiltin =>
      if s.builtinName.Some?
      then var name := ctx.oracle.builtinName(s.builtinName.value); With(items, Item(KindBuiltin, name, name), after)
      else after == items
    case Regex =>
      if s.pattern.Some? && !ctx.oracle.blank(s.pattern.value) && ctx.oracle.compiles(s.pattern.value)
      then Appended(items, Listed(ctx), Matching(ctx, s.pattern.value), after) else after == items
    case Filter =>
      if s.filterSpec.Some? then Appended(items, Listed(ctx), Meeting(ctx, s.filterSpec.value), after) else after == items
    case GroupNodes =>
      if s.targetGroupId.Some? && s.targetGroupId.value in ctx.groups
      then Appended(items, child, LetThrough(ctx, s, child), after) else after == items
    case OtherKind(_) => after == items
  }

  lemma AddByPattern(ctx: Context, s: MemberSource, child: seq<Item>, items: seq<Item>)
    requires s.operation == Add && s.kind == Regex && NodesIndexed(ctx) && Distinct(items)
    ensures AdditionAppends(ctx, s, child, items, Step(ctx, s, child, items))
  {
    if s.pattern.Some? && !ctx.oracle.blank(s.pattern.value) && ctx.oracle.compiles(s.pattern.value) {
      var hits := Matching(ctx, s.pattern.value);
      forall i | 0 <= i < |ctx.ordered| ensures Listed(ctx)[i] in hits <==> Selects(ctx, s, ctx.ordered[i]) {
        if Listed(ctx)[i] in hits {
          var j :| 0 <= j < |ctx.ordered| && ctx.oracle.regexMatch(s.pattern.value, ctx.ordered[j].displayName) && Listed(ctx)[j] == Listed(ctx)[i];
        }
      }
      SelectionAppends(ctx, s, items, hits);
    } else {
      NothingSelected(ctx, s, ctx.ordered);
    }
  }

  lemma {:induction false} NothingSelected(ctx: Context, s: MemberSource, nodes: seq<Node>)
    requires forall n :: n in nodes ==> !Selects(ctx, s, n)
    ensures SelectNodes(ctx, s, nodes) == []
  {
    if nodes != [] { NothingSelected(ctx, s, nodes[..|nodes| - 1]); }
  }

  lemma AddByFilter(ctx: Context, s: MemberSource, child: seq<Item>, items: seq<Item>)
    requires s.operation == Add && s.kind == Filter && NodesIndexed(ctx) && Distinct(items)
    ensures AdditionAppends(ctx, s, child, items, Step(ctx, s, child, items))
  {
    if s.filterSpec.Some? {
      var hits := Meeting(ctx, s.filterSpec.value);
      forall i | 0 <= i < |ctx.ordered| ensures Listed(ctx)[i] in hits <==> Selects(ctx, s, ctx.ordered[i]) {
        MeetsIsMatch(ctx, s.filterSpec.value, ctx.ordered[i]);
        if Listed(ctx)[i] in hits {
          var j :| 0 <= j < |ctx.ordered| && Meets(ctx, s.filterSpec.value, ctx.ordered[j]) && Listed(ctx)[j] == Listed(ctx)[i];
          ListedNode(ctx, i, j);
        }
      }
      SelectionAppends(ctx, s, items, hits);
    } else {
      NothingSelected(ctx, s, ctx.ordered);
    }
  }

  lemma AddChildLeaves(ctx: Context, s: MemberSource, child: seq<Item>, items: seq<Item>)
    requires s.operation == Add && s.kind == GroupNodes && Distinct(items)
    ensures AdditionAppends(ctx, s, child, items, Step(ctx, s, child, items))
  {
    if s.targetGroupId.Some? && s.targetGroupId.value in ctx.groups {
      var hits := LetThrough(ctx, s, child);
      var gone := set x | x in child && x !in hits;
      forall x | x in child ensures x in gone <==> !KeepsLeaf(ctx, s, x) {
        if x.kind == KindNode && x.targetId in ctx.admitted && s.filterSpec.Some? {
          MeetsIsMatch(ctx, s.filterSpec.value, ctx.admitted[x.targetId]);
        }
      }
      KeptAreRest(ctx, s, child, gone);
      AddAllAppends(items, child, hits, gone);
    }
  }

  lemma AddSingle(ctx: Context, s: MemberSource, child: seq<Item>, items: seq<Item>)
    requires s.operation == Add
    requires s.kind == ManualNode || s.kind == GroupRef || s.kind == TypedBuiltin || s.kind.OtherKind?
    ensures AdditionAppends(ctx, s, child, items, Step(ctx, s, child, items))
  {
    var cs := Candidates(ctx, s, child);
    if s.kind == ManualNode && s.filterSpec.Some? && s.nodeLogicalId.Some? && s.nodeLogicalId.value in ctx.admitted {
      MeetsIsMatch(ctx, s.filterSpec.value, ctx.admitted[s.nodeLogicalId.value]);
    }
    if |cs| == 1 && cs == [cs[0]] { AddOne(items, cs[0]); }
  }

  // ---- Over a whole run ----

  /** Every source of every group acts as its kind says: nothing else comes in or goes. */
  lemma SourceActs(ctx: Context, rank: map<string, nat>, gid: string, n: nat)
    requires RankedContext(ctx, rank) && NodesIndexed(ctx) && gid in rank && n < |Sources(ctx, gid)|
    ensures var s, items, after := Sources(ctx, gid)[n], ItemsAfter(ctx, rank, gid, n), ItemsAfter(ctx, rank, gid, n + 1);
            match s.operation
            case Add => AdditionAppends(ctx, s, SourceLeaves(ctx, rank, gid, s), items, after)
            case Remove => RemovalLeaves(ctx, s, SourceLeaves(ctx, rank, gid, s), items, after)
            case OtherOperation(_) => after == items
  {
    ItemsDistinct(ctx, rank, gid, n);
    ItemsCanonical(ctx, rank, gid, n);
    var s := Sources(ctx, gid)[n];
    var child, items := SourceLeaves(ctx, rank, gid, s), ItemsAfter(ctx, rank, gid, n);
    match s.operation {
      case Add => AdditionActs(ctx, s, child, items);
      case Remove => RemovalActs(ctx, s, child, items);
      case OtherOperation(_) =>
    }
  }

  lemma AdditionActs(ctx: Context, s: MemberSource, child: seq<Item>, items: seq<Item>)
    requires s.operation == Add && NodesIndexed(ctx) && Distinct(items)
    ensures AdditionAppends(ctx, s, child, items, Step(ctx, s, child, items))
  {
    match s.kind {
      case Regex => AddByPattern(ctx, s, child, items);
      case Filter => AddByFilter(ctx, s, child, items);
      case GroupNodes => AddChildLeaves(ctx, s, child, items);
      case _ => AddSingle(ctx, s, child, items);
    }
  }

  lemma RemovalActs(ctx: Context, s: MemberSource, child: seq<Item>, items: seq<Item>)
    requires s.operation == Remove && Distinct(items) && AllCanonical(ctx, items)
    ensures RemovalLeaves(ctx, s, child, items, Step(ctx, s, child, items))
  {
    match s.kind {
      case Regex => RemoveMatching(ctx, s, child, items);
      case Filter => RemoveMatching(ctx, s, child, items);
      case GroupNodes => RemoveLeaves(ctx, s, child, items);
      case _ => RemoveOne(ctx, s, child, items);
    }
  }

  /**
   The candidates a source reports: one for a named node, the child's leaves for its nodes, all ordered
   nodes for a pattern or filter, usable or not; none for groups, builtins and removals.
   */
  lemma CandidatesCounted(ctx: Context, rank: map<string, nat>, gid: string, n: nat)
    requires RankedContext(ctx, rank) && gid in rank && n < |Sources(ctx, gid)|
    ensures var s, more := Sources(ctx, gid)[n], CountAfter(ctx, rank, gid, n + 1) - CountAfter(ctx, rank, gid, n);
            && (s.operation != Add ==> more == 0)
            && (s.operation == Add && s.kind == ManualNode ==> more == 1)
            && (s.operation == Add && (s.kind == Regex || s.kind == Filter) ==> more == |ctx.ordered|)
            && (s.operation == Add && s.kind == GroupNodes ==> more == |SourceLeaves(ctx, rank, gid, s)|)
            && (s.kind == GroupRef || s.kind == TypedBuiltin || s.kind.OtherKind? ==> more == 0)
  {
  }

  // ---- In which order ----

  /** The sources at a position, in their order. */
  ghost function At(ss: seq<MemberSource>, position: int): seq<MemberSource> {
    if ss == [] then []
    else At(ss[..|ss| - 1], position) + if ss[|ss| - 1].position == position then [ss[|ss| - 1]] else []
  }

  lemma {:induction false} AtIsClass(ss: seq<MemberSource>, k: MemberSource)
    ensures At(ss, k.position) == KeyClass(SourcePositionLe, k, ss)
  {
    if ss != [] { AtIsClass(ss[..|ss| - 1], k); }
  }

  /** Sources run by position, those at one position in the order they are listed. */
  lemma SourcesInOrder(ctx: Context, gid: string)
    requires gid in ctx.groups
    ensures multiset(Sources(ctx, gid)) == multiset(ctx.groups[gid].sources)
    ensures forall i, j :: 0 <= i < j < |Sources(ctx, gid)| ==> Sources(ctx, gid)[i].position <= Sources(ctx, gid)[j].position
    ensures forall p :: At(Sources(ctx, gid), p) == At(ctx.groups[gid].sources, p)
  {
    var ss, sorted := ctx.groups[gid].sources, Sources(ctx, gid);
    StableSortSorts(SourcePositionLe, ss);
    forall i, j | 0 <= i < j < |sorted| ensures sorted[i].position <= sorted[j].position {
      assert SourcePositionLe(sorted[i], sorted[j]);
    }
    forall p ensures At(sorted, p) == At(ss, p) {
      var k := MemberSource("", "", Add, ManualNode, p, None, None, None, None, None);
      AtIsClass(ss, k);
      AtIsClass(sorted, k);
      StableSortIsStable(SourcePositionLe, ss, k);
    }
  }

  // ---- Removal against addition ----

  /** Every admitted node is among the ordered ones. */
  ghost predicate AllOrdered(ctx: Context) {
    forall id :: id in ctx.admitted ==> ctx.admitted[id] in ctx.ordered
  }

  /**
   What a source removes although it would not add it: the named node although the filter rejects it,
   leaves of the group although pattern or filter reject them, and whatever a blank pattern matches.
   */
  ghost predicate Overreaches(ctx: Context, s: MemberSource, child: seq<Item>, x: Item) {
    && x.kind == KindNode && x.targetId in ctx.admitted
    && var n := ctx.admitted[x.targetId];
       match s.kind
       case ManualNode => s.nodeLogicalId == Some(x.targetId) && s.filterSpec.Some? && !Meets(ctx, s.filterSpec.value, n)
       case GroupNodes => s.targetGroupId.Some? && LeafNode(child, x.targetId) && !Admissible(ctx, s, x)
       case Regex =>
         && s.pattern.Some? && ctx.oracle.blank(s.pattern.value) && ctx.oracle.compiles(s.pattern.value)
         && ctx.oracle.regexMatch(s.pattern.value, n.displayName)
       case _ => false
  }

  /** A source turned into a removal drops, besides what it would add, exactly what it overreaches for. */
  lemma RemovalOverreaches(ctx: Context, s: MemberSource, child: seq<Item>, x: Item)
    requires NodesIndexed(ctx) && AllOrdered(ctx) && Canonical(ctx, x) && AllCanonical(ctx, child)
    requires s.targetGroupId.Some? && s.targetGroupId.value !in ctx.groups ==> child == []
    ensures Removes(ctx, s, NodeSet(child), x) && x !in Candidates(ctx, s, child) <==> Overreaches(ctx, s, child, x)
  {
    match s.kind {
      case ManualNode => SingleOverreach(ctx, s, child, x);
      case GroupRef => SingleOverreach(ctx, s, child, x);
      case TypedBuiltin => SingleOverreach(ctx, s, child, x);
      case GroupNodes => LeafOverreach(ctx, s, child, x);
      case Regex => MatchOverreach(ctx, s, child, x);
      case Filter => MatchOverreach(ctx, s, child, x);
      case OtherKind(_) =>
    }
  }

  lemma SingleOverreach(ctx: Context, s: MemberSource, child: seq<Item>, x: Item)
    requires NodesIndexed(ctx) && Canonical(ctx, x) && (s.kind == ManualNode || s.kind == GroupRef || s.kind == TypedBuiltin)
    ensures Removes(ctx, s, NodeSet(child), x) && x !in Candidates(ctx, s, child) <==> Overreaches(ctx, s, child, x)
  {
    if x.kind == KindNode && s.filterSpec.Some? { MeetsIsMatch(ctx, s.filterSpec.value, ctx.admitted[x.targetId]); }
  }

  lemma LeafOverreach(ctx: Context, s: MemberSource, child: seq<Item>, x: Item)
    requires NodesIndexed(ctx) && Canonical(ctx, x) && AllCanonical(ctx, child) && s.kind == GroupNodes
    requires s.targetGroupId.Some? && s.targetGroupId.value !in ctx.groups ==> child == []
    ensures Removes(ctx, s, NodeSet(child), x) && x !in Candidates(ctx, s, child) <==> Overreaches(ctx, s, child, x)
  {
    KeptLeavesFrom(ctx, s, child);
    LeafNodeSet(child, x.targetId);
    if x.kind == KindNode {
      if LeafNode(child, x.targetId) {
        var i :| 0 <= i < |child| && child[i].kind == KindNode && child[i].targetId == x.targetId;
        assert Canonical(ctx, child[i]) && child[i] == x && x in child;
      }
      if s.filterSpec.Some? { MeetsIsMatch(ctx, s.filterSpec.value, ctx.admitted[x.targetId]); }
    }
  }

  lemma MatchOverreach(ctx: Context, s: MemberSource, child: seq<Item>, x: Item)
    requires NodesIndexed(ctx) && AllOrdered(ctx) && Canonical(ctx, x) && (s.kind == Regex || s.kind == Filter)
    ensures Removes(ctx, s, NodeSet(child), x) && x !in Candidates(ctx, s, child) <==> Overreaches(ctx, s, child, x)
  {
    SelectedFrom(ctx, s, ctx.ordered);
    if x.kind == KindNode {
      var n := ctx.admitted[x.targetId];
      assert n in ctx.ordered && x == NodeItem(n.logicalId, n);
      if s.filterSpec.Some? { MeetsIsMatch(ctx, s.filterSpec.value, n); }
      forall n' | n' in ctx.ordered && x == NodeItem(n'.logicalId, n') ensures n' == n {}
    }
  }
}

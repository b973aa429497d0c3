/**
 The resolver's second stage. A member that references a child group through an item filter is
 redirected to a derived group holding the child's matching leaves, and every group's node set is
 then recollected over the rewritten graph by a depth-first walk that delivers exactly the reachable
 nodes. Both stages pick the same filter conditions where a parent refers to a child at most once.
 */
module DerivedGroups {
  import opened Wrappers
  import opened Policy
  import opened Sorting
  import opened Pipeline
  import opened PipelineFacts

  datatype ResolvedGroup = ResolvedGroup(
    id: string,
    name: string,
    groupType: GroupType,
    emptyFallbackPass: bool,
    effectiveEmptyPass: bool,
    members: seq<Member>,
    childGroupIds: seq<string>,
    nodeLogicalIds: seq<string>,
    allNodeIds: set<string>)

  /** A ranked context with the (hash-based) naming of derived groups. */
  datatype Stage = Stage(ctx: Context, ghost rank: map<string, nat>, derivedId: (string, string) -> string)

  /** Derived ids are new and name one (parent, child) pair each. */
  ghost predicate FreshIds(st: Stage) {
    && (forall p, c :: st.derivedId(p, c) !in st.ctx.groups)
    && (forall p, c, p', c' :: st.derivedId(p, c) == st.derivedId(p', c') ==> p == p' && c == c')
  }

  ghost predicate StageOk(st: Stage) {
    RankedContext(st.ctx, st.rank)
  }

  // ---- Which filter applies to a reference ----

  /** The rewrite's choice: the filter of the first add group_ref to the child. */
  function AddFilter(ss: seq<MemberSource>, child: string): Option<FilterSpec> {
    if ss == [] then None
    else if ss[0].operation == Add && ss[0].kind == GroupRef && ss[0].targetGroupId == Some(child) then ss[0].filterSpec
    else AddFilter(ss[1..], child)
  }

  method FindAddFilter(ss: seq<MemberSource>, child: string) returns (f: Option<FilterSpec>)
    ensures f == AddFilter(ss, child)
  {
    for k := 0 to |ss|
      invariant AddFilter(ss, child) == AddFilter(ss[k..], child)
    {
      if ss[k].operation == Add && ss[k].kind == GroupRef && ss[k].targetGroupId == Some(child) {
        return ss[k].filterSpec;
      }
      assert ss[k..][1..] == ss[k + 1..];
    }
    f := None;
  }

  ghost function Conditions(f: Option<FilterSpec>): set<Condition> {
    if f.None? then {} else set c | c in f.value.conditions
  }

  ghost predicate HasAddRef(ss: seq<MemberSource>, child: string) {
    exists i :: 0 <= i < |ss| && ss[i].operation == Add && ss[i].kind == GroupRef && ss[i].targetGroupId == Some(child)
  }

  /** Both stages pick filters with the same conditions for every reference a group can hold. */
  ghost predicate FiltersAgree(ctx: Context) {
    forall p, c :: p in ctx.groups && c in ctx.groups && HasAddRef(ctx.groups[p].sources, c) ==>
      Conditions(RefFilter(ctx.groups[p].sources, c)) == Conditions(AddFilter(Sources(ctx, p), c))
  }

  lemma MatchesByConditions(o: Oracle, f: Option<FilterSpec>, n: Node)
    ensures MatchesFilter(o, f, n) <==> forall c :: c in Conditions(f) ==> o.condition(c, n)
  {
    if f.Some? {
      forall i | 0 <= i < |f.value.conditions| ensures f.value.conditions[i] in Conditions(f) {}
    }
  }

  ghost predicate RefersTo(s: MemberSource, child: string) {
    s.kind == GroupRef && s.targetGroupId == Some(child)
  }

  ghost predicate AtMostOneRef(ss: seq<MemberSource>, child: string) {
    forall i, j :: 0 <= i < |ss| && 0 <= j < |ss| && RefersTo(ss[i], child) && RefersTo(ss[j], child) ==> ss[i] == ss[j]
  }

  lemma {:induction false} RefFilterIs(ss: seq<MemberSource>, child: string, s: MemberSource)
    requires s in ss && s.kind == GroupRef && s.targetGroupId == Some(child) && AtMostOneRef(ss, child)
    ensures RefFilter(ss, child) == s.filterSpec
  {
    if s in ss[1..] {
      RefFilterIs(ss[1..], child, s);
      if ss[0].kind == GroupRef && ss[0].targetGroupId == Some(child) {
        var j :| 0 <= j < |ss[1..]| && ss[1..][j] == s;
        assert ss[j + 1] == s;
      }
    } else {
      assert ss[0] == s;
      if s.filterSpec.None? { NoOtherRef(ss[1..], child, s, ss); }
    }
  }

  lemma {:induction false} NoOtherRef(ss: seq<MemberSource>, child: string, s: MemberSource, all: seq<MemberSource>)
    requires s in all && s.kind == GroupRef && s.targetGroupId == Some(child) && s.filterSpec.None?
    requires AtMostOneRef(all, child) && forall x :: x in ss ==> x in all
    ensures RefFilter(ss, child) == None
  {
    if ss != [] {
      assert ss[0] in all;
      NoOtherRef(ss[1..], child, s, all);
    }
  }

  lemma {:induction false} AddFilterIs(ss: seq<MemberSource>, child: string, s: MemberSource)
    requires s in ss && s.operation == Add && s.kind == GroupRef && s.targetGroupId == Some(child)
    requires AtMostOneRef(ss, child)
    ensures AddFilter(ss, child) == s.filterSpec
  {
    if ss[0].operation == Add && ss[0].kind == GroupRef && ss[0].targetGroupId == Some(child) {
      var j :| 0 <= j < |ss| && ss[j] == s;
    } else {
      assert ss == [ss[0]] + ss[1..];
      AddFilterIs(ss[1..], child, s);
    }
  }

  /** With at most one group_ref per (parent, child) the two stages cannot disagree. */
  lemma SingleRefsAgree(ctx: Context)
    requires forall p, c :: p in ctx.groups && c in ctx.groups ==> AtMostOneRef(ctx.groups[p].sources, c)
    ensures FiltersAgree(ctx)
  {
    forall p, c | p in ctx.groups && c in ctx.groups && HasAddRef(ctx.groups[p].sources, c)
      ensures RefFilter(ctx.groups[p].sources, c) == AddFilter(Sources(ctx, p), c)
    {
      var ss := ctx.groups[p].sources;
      var i :| 0 <= i < |ss| && ss[i].operation == Add && ss[i].kind == GroupRef && ss[i].targetGroupId == Some(c);
      RefFilterIs(ss, c, ss[i]);
      StableSortElements(SourcePositionLe, ss);
      var sorted := Sources(ctx, p);
      forall a, b | 0 <= a < |sorted| && 0 <= b < |sorted| && RefersTo(sorted[a], c) && RefersTo(sorted[b], c)
        ensures sorted[a] == sorted[b]
      {
        assert sorted[a] in ss && sorted[b] in ss;
      }
      AddFilterIs(sorted, c, ss[i]);
    }
  }

  lemma GroupCandidate(ctx: Context, rank: map<string, nat>, gid: string, n: nat, x: Item)
    requires RankedContext(ctx, rank) && gid in rank && n < |Sources(ctx, gid)| && x.kind == KindGroup
    requires x in Candidates(ctx, Sources(ctx, gid)[n], SourceLeaves(ctx, rank, gid, Sources(ctx, gid)[n]))
    ensures RefersTo(Sources(ctx, gid)[n], x.targetId)
  {
    var s := Sources(ctx, gid)[n];
    if s.kind == GroupNodes {
      KeptLeavesFrom(ctx, s, SourceLeaves(ctx, rank, gid, s));
      SourceDependency(ctx, rank, gid, n);
      LeavesAreNotGroups(ctx, rank, s.targetGroupId.value);
    } else {
      SelectedFrom(ctx, s, ctx.ordered);
    }
  }

  /** A group that is a member was put there by an add group_ref. */
  lemma {:induction false} MemberHasRef(ctx: Context, rank: map<string, nat>, gid: string, n: nat, x: Item)
    requires RankedContext(ctx, rank) && gid in rank && n <= |Sources(ctx, gid)|
    requires x in ItemsAfter(ctx, rank, gid, n) && x.kind == KindGroup
    ensures HasAddRef(ctx.groups[gid].sources, x.targetId)
  {
    var s, items := Sources(ctx, gid)[n - 1], ItemsAfter(ctx, rank, gid, n - 1);
    if x in items {
      MemberHasRef(ctx, rank, gid, n - 1, x);
    } else {
      var child := SourceLeaves(ctx, rank, gid, s);
      AddedFrom(items, Candidates(ctx, s, child));
      SurvivorsFrom(ctx, s, NodeSet(child), items);
      GroupCandidate(ctx, rank, gid, n - 1, x);
      StableSortElements(SourcePositionLe, ctx.groups[gid].sources);
      assert s in ctx.groups[gid].sources;
    }
  }

  // ---- The rewrite ----

  /** A reference is redirected when its filter rejects at least one leaf node of the child. */
  ghost predicate Redirected(st: Stage, p: string, c: string)
    requires StageOk(st) && p in st.rank && c in st.rank
  {
    var f := AddFilter(Sources(st.ctx, p), c);
    !IsEmptyFilter(f) && AnyRejected(st.ctx, f, Leaves(st.ctx, st.rank, c))
  }

  ghost function NewTarget(st: Stage, p: string, c: string): string
    requires StageOk(st) && p in st.rank
  {
    if c in st.rank && Redirected(st, p, c) then st.derivedId(p, c) else c
  }

  function DerivedName(parent: string, child: string): string {
    child + " [" + parent + "]"
  }

  function FromMemo(g: NodeGroup, m: GroupMemo): ResolvedGroup {
    ResolvedGroup(g.id, g.name, g.groupType, g.emptyFallbackPass, m.effectiveEmptyPass,
                  m.members, m.childGroupIds, m.nodeLogicalIds, m.leafNodes)
  }

  /** A leaf as a member of a derived group; nodes are shown under their admitted name. */
  function LeafMember(ctx: Context, x: Item, position: nat): Member {
    Member(x.kind, x.targetId,
           if x.kind == KindNode && x.targetId in ctx.admitted then ctx.admitted[x.targetId].displayName else x.displayName,
           position)
  }

  function LeafMembers(ctx: Context, xs: seq<Item>): seq<Member> {
    if xs == [] then [] else LeafMembers(ctx, xs[..|xs| - 1]) + [LeafMember(ctx, xs[|xs| - 1], |xs| - 1)]
  }

  predicate AnyRejected(ctx: Context, f: Option<FilterSpec>, leaves: seq<Item>) {
    leaves != [] && (AnyRejected(ctx, f, leaves[..|leaves| - 1]) || !PassesRef(ctx, f, leaves[|leaves| - 1]))
  }

  lemma {:induction false} AnyRejectedExists(ctx: Context, f: Option<FilterSpec>, leaves: seq<Item>)
    ensures AnyRejected(ctx, f, leaves) <==> exists x :: x in leaves && !PassesRef(ctx, f, x)
  {
    if leaves != [] {
      AnyRejectedExists(ctx, f, leaves[..|leaves| - 1]);
      assert leaves == leaves[..|leaves| - 1] + [leaves[|leaves| - 1]];
    }
  }

  lemma {:induction false} NoneRejected(ctx: Context, f: Option<FilterSpec>, leaves: seq<Item>)
    requires !AnyRejected(ctx, f, leaves)
    ensures Projected(ctx, f, leaves) == leaves
  {
    if leaves != [] {
      NoneRejected(ctx, f, leaves[..|leaves| - 1]);
      assert leaves == leaves[..|leaves| - 1] + [leaves[|leaves| - 1]];
    }
  }

  lemma LeafMembersSnoc(ctx: Context, xs: seq<Item>, x: Item)
    ensures LeafMembers(ctx, xs + [x]) == LeafMembers(ctx, xs) + [LeafMember(ctx, x, |xs|)]
    ensures Targets(xs + [x], KindNode) == Targets(xs, KindNode) + if x.kind == KindNode then [x.targetId] else []
    ensures |LeafMembers(ctx, xs)| == |xs|
  {
    assert (xs + [x])[..|xs|] == xs;
    LeafMembersLength(ctx, xs);
  }

  lemma LeafMembersLength(ctx: Context, xs: seq<Item>)
    ensures |LeafMembers(ctx, xs)| == |xs|
  {
  }

  /** The child's leaves that pass the filter, and whether any node was filtered out. */
  method FilterLeaves(ctx: Context, f: Option<FilterSpec>, leaves: seq<Item>)
    returns (members: seq<Member>, nodeIds: seq<string>, anyOut: bool)
    requires f.Some?
    ensures anyOut == AnyRejected(ctx, f, leaves)
    ensures members == LeafMembers(ctx, Projected(ctx, f, leaves))
    ensures nodeIds == Targets(Projected(ctx, f, leaves), KindNode)
  {
    members, nodeIds, anyOut := [], [], false;
    for k := 0 to |leaves|
      invariant anyOut == AnyRejected(ctx, f, leaves[..k])
      invariant members == LeafMembers(ctx, Projected(ctx, f, leaves[..k]))
      invariant nodeIds == Targets(Projected(ctx, f, leaves[..k]), KindNode)
    {
      var x := leaves[k];
      assert leaves[..k + 1][..k] == leaves[..k];
      ghost var before := Projected(ctx, f, leaves[..k]);
      LeafMembersSnoc(ctx, before, x);
      assert before + [] == before;
      if x.kind == KindNode {
        if PassesRef(ctx, f, x) {
          members := members + [Member(KindNode, x.targetId, ctx.admitted[x.targetId].displayName, |members|)];
          nodeIds := nodeIds + [x.targetId];
        } else {
          anyOut := true;
        }
      } else {
        members := members + [Member(x.kind, x.targetId, x.displayName, |members|)];
      }
    }
    assert leaves[..|leaves|] == leaves;
  }

  /** The child's leaves that the reference from `p` keeps. */
  ghost function KeptLeavesOf(st: Stage, p: string, c: string): seq<Item>
    requires StageOk(st) && p in st.rank && c in st.rank
  {
    Projected(st.ctx, AddFilter(Sources(st.ctx, p), c), Leaves(st.ctx, st.rank, c))
  }

  /** `d` is the derived group of the redirected reference from `p` to `c`. */
  ghost predicate IsDerived(st: Stage, d: ResolvedGroup, p: string, c: string)
    requires StageOk(st) && p in st.rank && c in st.rank
  {
    && d.id == st.derivedId(p, c)
    && d.name == DerivedName(st.ctx.groups[p].name, st.ctx.groups[c].name)
    && d.groupType == st.ctx.groups[c].groupType
    && d.childGroupIds == [] && !d.emptyFallbackPass
    && d.members == LeafMembers(st.ctx, KeptLeavesOf(st, p, c))
    && d.nodeLogicalIds == Targets(KeptLeavesOf(st, p, c), KindNode)
  }

  /** The `k`-th entry of `ids` with every reference of `p` redirected. */
  ghost predicate RewrittenIds(st: Stage, p: string, ids: seq<string>, ids': seq<string>, done: nat)
    requires StageOk(st) && p in st.rank
  {
    |ids'| == |ids| && forall i :: 0 <= i < |ids| ==> ids'[i] == if i < done then NewTarget(st, p, ids[i]) else ids[i]
  }

  /** The first occurrence of `c` becomes `d`. */
  method ReplaceFirst(ids: seq<string>, c: string, d: string, ghost at: nat) returns (ids': seq<string>)
    requires at < |ids| && ids[at] == c && forall i :: 0 <= i < at ==> ids[i] != c
    ensures ids' == ids[at := d]
  {
    ids' := ids;
    for k := 0 to |ids|
      invariant ids' == ids && k <= at
    {
      if ids[k] == c {
        ids' := ids[k := d];
        return;
      }
    }
  }

  // ---- Recollecting node sets ----

  type Table = map<string, ResolvedGroup>

  ghost predicate TableRanked(t: Table, rk: map<string, nat>) {
    t.Keys == rk.Keys &&
    forall g, i :: g in t && 0 <= i < |t[g].childGroupIds| && t[g].childGroupIds[i] in t ==> rk[t[g].childGroupIds[i]] < rk[g]
  }

  /** The nodes reachable from a group through child links. */
  ghost function NodesIn(t: Table, rk: map<string, nat>, g: string): set<string>
    requires TableRanked(t, rk) && g in t
    decreases rk[g], 1, 0
  {
    Elements(t[g].nodeLogicalIds) + NodesBelow(t, rk, g, |t[g].childGroupIds|)
  }

  ghost function NodesBelow(t: Table, rk: map<string, nat>, g: string, n: nat): set<string>
    requires TableRanked(t, rk) && g in t && n <= |t[g].childGroupIds|
    decreases rk[g], 0, n
  {
    if n == 0 then {}
    else
      var c := t[g].childGroupIds[n - 1];
      NodesBelow(t, rk, g, n - 1) + if c in t then NodesIn(t, rk, c) else {}
  }

  /** Every visited group that is not above `g` has already delivered its nodes. */
  ghost predicate Delivered(t: Table, rk: map<string, nat>, visited: set<string>, all: set<string>, g: string)
    requires TableRanked(t, rk)
  {
    forall v :: v in visited && v in t && g in t && rk[v] <= rk[g] ==> NodesIn(t, rk, v) <= all
  }

  /** The depth-first collection with a shared visited set. */
  method Collect(t: Table, g: string, visited: set<string>, all: set<string>, ghost rk: map<string, nat>)
    returns (visited': set<string>, all': set<string>)
    requires TableRanked(t, rk) && Delivered(t, rk, visited, all, g)
    ensures visited <= visited' && all <= all'
    ensures forall v :: v in visited' && v !in visited && v in t ==> NodesIn(t, rk, v) <= all'
    ensures g in t ==> NodesIn(t, rk, g) <= all' && all' <= all + NodesIn(t, rk, g)
    ensures g !in t ==> all' == all
    decreases if g in rk then rk[g] + 1 else 0, if g in visited then 0 else 1
  {
    if g in visited { return visited, all; }
    visited', all' := visited + {g}, all;
    if g !in t { return; }
    var rg := t[g];
    for i := 0 to |rg.nodeLogicalIds|
      invariant all' == all + set j | 0 <= j < i :: rg.nodeLogicalIds[j]
    {
      all' := all' + {rg.nodeLogicalIds[i]};
    }
    ghost var own := Elements(rg.nodeLogicalIds);
    assert all' == all + own;
    for i := 0 to |rg.childGroupIds|
      invariant visited + {g} <= visited' && all + own + NodesBelow(t, rk, g, i) == all'
      invariant forall v :: v in visited' && v !in visited && v != g && v in t ==> NodesIn(t, rk, v) <= all'
    {
      visited', all' := Collect(t, rg.childGroupIds[i], visited', all', rk);
    }
  }
}

/**
 What the meaning of a pipeline depends on: neither on the rank, which is only a termination measure,
 nor on the ids and owners recorded with the sources, and on oracles only through their answers.
 */
module PipelineAlike {
  import opened Wrappers
  import opened Policy
  import opened Sorting
  import opened Pipeline
  import opened PipelineFacts

  /** A source without its id and owner. */
  function Plain(s: MemberSource): MemberSource {
    s.(id := "", groupId := "")
  }

  ghost predicate SourcesAlike(ss: seq<MemberSource>, ss': seq<MemberSource>) {
    |ss| == |ss'| && forall i :: 0 <= i < |ss| ==> Plain(ss[i]) == Plain(ss'[i])
  }

  ghost predicate GroupsAlike(g: NodeGroup, g': NodeGroup) {
    && g.id == g'.id && g.name == g'.name && g.groupType == g'.groupType && g.emptyFallbackPass == g'.emptyFallbackPass
    && SourcesAlike(g.sources, g'.sources)
  }

  ghost predicate ContextsAlike(ctx: Context, ctx': Context) {
    && ctx.groups.Keys == ctx'.groups.Keys && (forall g :: g in ctx.groups ==> GroupsAlike(ctx.groups[g], ctx'.groups[g]))
    && ctx.admitted == ctx'.admitted && ctx.ordered == ctx'.ordered && OraclesAlike(ctx.oracle, ctx'.oracle)
  }

  /** The oracles answer every question alike. */
  ghost predicate OraclesAlike(o: Oracle, o': Oracle) {
    && (forall c, n :: o.condition(c, n) == o'.condition(c, n))
    && (forall p :: o.compiles(p) == o'.compiles(p)) && (forall p, s :: o.regexMatch(p, s) == o'.regexMatch(p, s))
    && (forall s :: o.blank(s) == o'.blank(s)) && (forall s :: o.builtinName(s) == o'.builtinName(s))
  }

  lemma MatchesAlike(o: Oracle, o': Oracle, f: Option<FilterSpec>, n: Node)
    requires OraclesAlike(o, o')
    ensures MatchesFilter(o, f, n) == MatchesFilter(o', f, n)
  {
  }

  // ---- Sources ----

  lemma {:induction false} InsertAlike(ss: seq<MemberSource>, ss': seq<MemberSource>, s: MemberSource, s': MemberSource)
    requires SourcesAlike(ss, ss') && Plain(s) == Plain(s')
    ensures SourcesAlike(Insert(SourcePositionLe, ss, s), Insert(SourcePositionLe, ss', s'))
  {
    if ss != [] {
      var n := |ss| - 1;
      assert Plain(ss[n]) == Plain(ss'[n]);
      InsertAlike(ss[..n], ss'[..n], s, s');
    }
  }

  lemma {:induction false} SortAlike(ss: seq<MemberSource>, ss': seq<MemberSource>)
    requires SourcesAlike(ss, ss')
    ensures SourcesAlike(StableSort(SourcePositionLe, ss), StableSort(SourcePositionLe, ss'))
  {
    if ss != [] {
      var n := |ss| - 1;
      SortAlike(ss[..n], ss'[..n]);
      InsertAlike(StableSort(SourcePositionLe, ss[..n]), StableSort(SourcePositionLe, ss'[..n]), ss[n], ss'[n]);
    }
  }

  lemma {:induction false} RefFilterAlike(ss: seq<MemberSource>, ss': seq<MemberSource>, c: string)
    requires SourcesAlike(ss, ss')
    ensures RefFilter(ss, c) == RefFilter(ss', c)
  {
    if ss != [] {
      assert Plain(ss[0]) == Plain(ss'[0]);
      RefFilterAlike(ss[1..], ss'[1..], c);
    }
  }

  // ---- One step ----

  lemma {:induction false} SelectAlike(ctx: Context, ctx': Context, s: MemberSource, s': MemberSource, nodes: seq<Node>)
    requires ContextsAlike(ctx, ctx') && Plain(s) == Plain(s')
    ensures SelectNodes(ctx, s, nodes) == SelectNodes(ctx', s', nodes)
  {
    if nodes != [] { SelectAlike(ctx, ctx', s, s', nodes[..|nodes| - 1]); }
  }

  lemma {:induction false} KeptAlike(ctx: Context, ctx': Context, s: MemberSource, s': MemberSource, leaves: seq<Item>)
    requires ContextsAlike(ctx, ctx') && Plain(s) == Plain(s')
    ensures KeptLeaves(ctx, s, leaves) == KeptLeaves(ctx', s', leaves)
  {
    if leaves != [] { KeptAlike(ctx, ctx', s, s', leaves[..|leaves| - 1]); }
  }

  lemma {:induction false} SurvivorsAlike(ctx: Context, ctx': Context, s: MemberSource, s': MemberSource, nodes: set<string>, items: seq<Item>)
    requires ContextsAlike(ctx, ctx') && Plain(s) == Plain(s')
    ensures Survivors(ctx, s, nodes, items) == Survivors(ctx', s', nodes, items)
  {
    if items != [] { SurvivorsAlike(ctx, ctx', s, s', nodes, items[..|items| - 1]); }
  }

  lemma {:induction false} ProjectedAlike(ctx: Context, ctx': Context, f: Option<FilterSpec>, leaves: seq<Item>)
    requires ContextsAlike(ctx, ctx')
    ensures Projected(ctx, f, leaves) == Projected(ctx', f, leaves)
  {
    if leaves != [] { ProjectedAlike(ctx, ctx', f, leaves[..|leaves| - 1]); }
  }

  lemma CandidatesAlike(ctx: Context, ctx': Context, s: MemberSource, s': MemberSource, child: seq<Item>)
    requires ContextsAlike(ctx, ctx') && Plain(s) == Plain(s')
    ensures Candidates(ctx, s, child) == Candidates(ctx', s', child)
  {
    SelectAlike(ctx, ctx', s, s', ctx.ordered);
    KeptAlike(ctx, ctx', s, s', child);
    if s.kind == GroupRef && s.targetGroupId.Some? && s.targetGroupId.value in ctx.groups {
      assert GroupsAlike(ctx.groups[s.targetGroupId.value], ctx'.groups[s.targetGroupId.value]);
    }
  }

  lemma StepAlike(ctx: Context, ctx': Context, s: MemberSource, s': MemberSource, child: seq<Item>, items: seq<Item>)
    requires ContextsAlike(ctx, ctx') && Plain(s) == Plain(s')
    ensures Step(ctx, s, child, items) == Step(ctx', s', child, items)
  {
    CandidatesAlike(ctx, ctx', s, s', child);
    SurvivorsAlike(ctx, ctx', s, s', NodeSet(child), items);
  }

  // ---- Whole groups ----

  lemma SourcesOfAlike(ctx: Context, ctx': Context, gid: string)
    requires ContextsAlike(ctx, ctx') && gid in ctx.groups
    ensures SourcesAlike(Sources(ctx, gid), Sources(ctx', gid))
  {
    assert GroupsAlike(ctx.groups[gid], ctx'.groups[gid]);
    SortAlike(ctx.groups[gid].sources, ctx'.groups[gid].sources);
  }

  lemma {:induction false} SourceLeavesAlike(ctx: Context, r: map<string, nat>, ctx': Context, r': map<string, nat>, gid: string, n: nat)
    requires ContextsAlike(ctx, ctx') && RankedContext(ctx, r) && RankedContext(ctx', r') && gid in r
    requires n < |Sources(ctx, gid)| == |Sources(ctx', gid)| && Plain(Sources(ctx, gid)[n]) == Plain(Sources(ctx', gid)[n])
    ensures SourceLeaves(ctx, r, gid, Sources(ctx, gid)[n]) == SourceLeaves(ctx', r', gid, Sources(ctx', gid)[n])
    decreases r[gid], 0, 0
  {
    var s := Sources(ctx, gid)[n];
    SourceDependency(ctx, r, gid, n);
    SourceDependency(ctx', r', gid, n);
    if s.kind == GroupNodes && s.targetGroupId.Some? && s.targetGroupId.value in r {
      LeavesAlike(ctx, r, ctx', r', s.targetGroupId.value);
    }
  }

  /** The `n`-th sources of the group, and the leaves they expand, are alike. */
  ghost predicate SourceAlikeAt(ctx: Context, r: map<string, nat>, ctx': Context, r': map<string, nat>, gid: string, n: nat)
    requires ctx.groups.Keys == r.Keys && ctx'.groups.Keys == r'.Keys && gid in r && gid in r'
    requires n < |Sources(ctx, gid)| && n < |Sources(ctx', gid)|
  {
    var s, s' := Sources(ctx, gid)[n], Sources(ctx', gid)[n];
    Plain(s) == Plain(s') && SourceLeaves(ctx, r, gid, s) == SourceLeaves(ctx', r', gid, s')
  }

  ghost predicate ItemsAlikeAt(ctx: Context, r: map<string, nat>, ctx': Context, r': map<string, nat>, gid: string, n: nat)
    requires ctx.groups.Keys == r.Keys && ctx'.groups.Keys == r'.Keys && gid in r && gid in r'
    requires n <= |Sources(ctx, gid)| && n <= |Sources(ctx', gid)|
  {
    ItemsAfter(ctx, r, gid, n) == ItemsAfter(ctx', r', gid, n)
  }

  lemma NoItems(ctx: Context, r: map<string, nat>, ctx': Context, r': map<string, nat>, gid: string)
    requires ctx.groups.Keys == r.Keys && ctx'.groups.Keys == r'.Keys && gid in r && gid in r'
    ensures ItemsAlikeAt(ctx, r, ctx', r', gid, 0)
  {
  }

  lemma NextItems(ctx: Context, r: map<string, nat>, ctx': Context, r': map<string, nat>, gid: string, n: nat)
    requires ContextsAlike(ctx, ctx') && ctx.groups.Keys == r.Keys && ctx'.groups.Keys == r'.Keys && gid in r && gid in r'
    requires 0 < n <= |Sources(ctx, gid)| == |Sources(ctx', gid)| && SourceAlikeAt(ctx, r, ctx', r', gid, n - 1)
    requires ItemsAlikeAt(ctx, r, ctx', r', gid, n - 1)
    ensures ItemsAlikeAt(ctx, r, ctx', r', gid, n)
  {
    var s, s' := Sources(ctx, gid)[n - 1], Sources(ctx', gid)[n - 1];
    StepAlike(ctx, ctx', s, s', SourceLeaves(ctx, r, gid, s), ItemsAfter(ctx, r, gid, n - 1));
  }

  ghost function ItemFlags(ctx: Context, r: map<string, nat>, ctx': Context, r': map<string, nat>, gid: string): seq<bool>
    requires ctx.groups.Keys == r.Keys && ctx'.groups.Keys == r'.Keys && gid in r && gid in r'
    requires |Sources(ctx, gid)| == |Sources(ctx', gid)|
  {
    seq(|Sources(ctx, gid)| + 1, n requires 0 <= n <= |Sources(ctx, gid)| => ItemsAlikeAt(ctx, r, ctx', r', gid, n))
  }

  lemma ItemsFromSources(ctx: Context, r: map<string, nat>, ctx': Context, r': map<string, nat>, gid: string)
    requires ContextsAlike(ctx, ctx') && ctx.groups.Keys == r.Keys && ctx'.groups.Keys == r'.Keys && gid in r && gid in r'
    requires |Sources(ctx, gid)| == |Sources(ctx', gid)|
    requires forall n :: 0 <= n < |Sources(ctx, gid)| ==> SourceAlikeAt(ctx, r, ctx', r', gid, n)
    ensures ItemsAlikeAt(ctx, r, ctx', r', gid, |Sources(ctx, gid)|)
  {
    var flags := ItemFlags(ctx, r, ctx', r', gid);
    NoItems(ctx, r, ctx', r', gid);
    forall n | 0 < n < |flags| && flags[n - 1] ensures flags[n] {
      assert SourceAlikeAt(ctx, r, ctx', r', gid, n - 1);
      NextItems(ctx, r, ctx', r', gid, n);
    }
    AllHold(flags, |Sources(ctx, gid)|);
  }

  lemma {:induction false} ItemsAlike(ctx: Context, r: map<string, nat>, ctx': Context, r': map<string, nat>, gid: string)
    requires ContextsAlike(ctx, ctx') && RankedContext(ctx, r) && RankedContext(ctx', r') && gid in r
    ensures GroupItems(ctx, r, gid) == GroupItems(ctx', r', gid)
    decreases r[gid], 1, 0
  {
    SourcesOfAlike(ctx, ctx', gid);
    forall n | 0 <= n < |Sources(ctx, gid)| ensures SourceAlikeAt(ctx, r, ctx', r', gid, n) {
      assert Plain(Sources(ctx, gid)[n]) == Plain(Sources(ctx', gid)[n]);
      SourceLeavesAlike(ctx, r, ctx', r', gid, n);
    }
    ItemsFromSources(ctx, r, ctx', r', gid);
  }

  lemma {:induction false} FlattenAlike(ctx: Context, r: map<string, nat>, ctx': Context, r': map<string, nat>, gid: string, items: seq<Item>)
    requires ContextsAlike(ctx, ctx') && RankedContext(ctx, r) && RankedContext(ctx', r') && gid in r
    requires forall i :: 0 <= i < |items| ==> BelowIfGroup(ctx, r, gid, items[i]) && BelowIfGroup(ctx', r', gid, items[i])
    ensures Flatten(ctx, r, gid, items) == Flatten(ctx', r', gid, items)
    decreases r[gid], 0, |items|
  {
    if items != [] {
      FlattenAlike(ctx, r, ctx', r', gid, items[..|items| - 1]);
      var x := items[|items| - 1];
      if x.kind == KindGroup {
        LeavesAlike(ctx, r, ctx', r', x.targetId);
        assert GroupsAlike(ctx.groups[gid], ctx'.groups[gid]);
        RefFilterAlike(ctx.groups[gid].sources, ctx'.groups[gid].sources, x.targetId);
        ProjectedAlike(ctx, ctx', RefFilter(ctx.groups[gid].sources, x.targetId), ChildLeaves(ctx, r, gid, x.targetId));
      }
      assert LeavesOf(ctx, r, gid, x) == LeavesOf(ctx', r', gid, x);
    }
  }

  lemma ItemsBelowBoth(ctx: Context, r: map<string, nat>, ctx': Context, r': map<string, nat>, gid: string, items: seq<Item>)
    requires ContextsAlike(ctx, ctx') && RankedContext(ctx, r) && RankedContext(ctx', r') && gid in r
    requires items == GroupItems(ctx, r, gid) == GroupItems(ctx', r', gid)
    ensures forall i :: 0 <= i < |items| ==> BelowIfGroup(ctx, r, gid, items[i]) && BelowIfGroup(ctx', r', gid, items[i])
  {
    ItemsBelow(ctx, r, gid, |Sources(ctx, gid)|);
    ItemsBelow(ctx', r', gid, |Sources(ctx', gid)|);
    forall i | 0 <= i < |items| ensures BelowIfGroup(ctx, r, gid, items[i]) && BelowIfGroup(ctx', r', gid, items[i]) {
      assert items[i] in items;
    }
  }

  /** Alike contexts give a group the same members and leaves, by any ranks. */
  lemma {:induction false} LeavesAlike(ctx: Context, r: map<string, nat>, ctx': Context, r': map<string, nat>, gid: string)
    requires ContextsAlike(ctx, ctx') && RankedContext(ctx, r) && RankedContext(ctx', r') && gid in r
    ensures GroupItems(ctx, r, gid) == GroupItems(ctx', r', gid)
    ensures Leaves(ctx, r, gid) == Leaves(ctx', r', gid)
    decreases r[gid], 2, 0
  {
    ItemsAlike(ctx, r, ctx', r', gid);
    var items := GroupItems(ctx, r, gid);
    ItemsBelowBoth(ctx, r, ctx', r', gid, items);
    FlattenAlike(ctx, r, ctx', r', gid, items);
  }

  /** Any two ranks give a group the same leaves. */
  lemma LeavesRankFree(ctx: Context, r: map<string, nat>, r': map<string, nat>, gid: string)
    requires RankedContext(ctx, r) && RankedContext(ctx, r') && gid in r
    ensures Leaves(ctx, r, gid) == Leaves(ctx, r', gid)
  {
    LeavesAlike(ctx, r, ctx, r', gid);
  }
}

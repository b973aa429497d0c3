/**
 The group stage is a function of what its pipelines mean: over contexts that differ only in the
 ids and owners of sources it returns the same groups, whatever ranks it is measured by.
 */
module SnapshotAlike {
  import opened Wrappers
  import opened Policy
  import opened Pipeline
  import opened DerivedGroups
  import opened ResolveGroups
  import opened RewriteMeaning
  import opened GroupSnapshot
  import opened PipelineAlike

  ghost predicate StagesAlike(st: Stage, st': Stage) {
    StageOk(st) && StageOk(st') && ContextsAlike(st.ctx, st'.ctx) && st.derivedId == st'.derivedId
  }

  // ---- Redirections ----

  lemma {:induction false} AddFilterAlike(ss: seq<MemberSource>, ss': seq<MemberSource>, c: string)
    requires SourcesAlike(ss, ss')
    ensures AddFilter(ss, c) == AddFilter(ss', c)
  {
    if ss != [] {
      assert Plain(ss[0]) == Plain(ss'[0]);
      AddFilterAlike(ss[1..], ss'[1..], c);
    }
  }

  lemma {:induction false} RejectedAlike(ctx: Context, ctx': Context, f: Option<FilterSpec>, leaves: seq<Item>)
    requires ContextsAlike(ctx, ctx')
    ensures AnyRejected(ctx, f, leaves) == AnyRejected(ctx', f, leaves)
  {
    if leaves != [] { RejectedAlike(ctx, ctx', f, leaves[..|leaves| - 1]); }
  }

  lemma ChoiceAlike(st: Stage, st': Stage, p: string, c: string)
    requires StagesAlike(st, st') && p in st.rank
    ensures p in st'.rank && AddFilter(Sources(st.ctx, p), c) == AddFilter(Sources(st'.ctx, p), c)
  {
    SourcesOfAlike(st.ctx, st'.ctx, p);
    AddFilterAlike(Sources(st.ctx, p), Sources(st'.ctx, p), c);
  }

  lemma RedirectedAlike(st: Stage, st': Stage, p: string, c: string)
    requires StagesAlike(st, st') && p in st.rank && c in st.rank
    ensures p in st'.rank && c in st'.rank && Redirected(st, p, c) == Redirected(st', p, c)
    ensures KeptLeavesOf(st, p, c) == KeptLeavesOf(st', p, c)
  {
    ChoiceAlike(st, st', p, c);
    var f, leaves := AddFilter(Sources(st.ctx, p), c), Leaves(st.ctx, st.rank, c);
    LeavesAlike(st.ctx, st.rank, st'.ctx, st'.rank, c);
    RejectedAlike(st.ctx, st'.ctx, f, leaves);
    ProjectedAlike(st.ctx, st'.ctx, f, leaves);
  }

  lemma {:induction false} RedirectedOfAlike(st: Stage, st': Stage, g: string, refs: seq<string>)
    requires StagesAlike(st, st') && g in st.rank
    ensures g in st'.rank && RedirectedOf(st, g, refs) == RedirectedOf(st', g, refs)
  {
    if refs != [] {
      var c := refs[|refs| - 1];
      RedirectedOfAlike(st, st', g, refs[..|refs| - 1]);
      if c in st.rank { RedirectedAlike(st, st', g, c); }
    }
  }

  lemma {:induction false} RefsAlike(st: Stage, st': Stage, ids: seq<string>)
    requires StagesAlike(st, st') && forall i :: 0 <= i < |ids| ==> ids[i] in st.rank
    ensures (forall i :: 0 <= i < |ids| ==> ids[i] in st'.rank) && RefsOfAll(st, ids) == RefsOfAll(st', ids)
  {
    if ids != [] {
      var g := ids[|ids| - 1];
      RefsAlike(st, st', ids[..|ids| - 1]);
      LeavesAlike(st.ctx, st.rank, st'.ctx, st'.rank, g);
      RedirectedOfAlike(st, st', g, MemoOf(st.ctx, st.rank, g).childGroupIds);
    }
  }

  // ---- Contents ----

  lemma MembersAlike(st: Stage, st': Stage, g: string, m: Member)
    requires StagesAlike(st, st') && g in st.rank
    ensures g in st'.rank && Retarget(st, g, m) == Retarget(st', g, m) && NewTarget(st, g, m.targetId) == NewTarget(st', g, m.targetId)
  {
    if m.targetId in st.rank {
      RedirectedAlike(st, st', g, m.targetId);
      assert GroupsAlike(st.ctx.groups[g], st'.ctx.groups[g]) && GroupsAlike(st.ctx.groups[m.targetId], st'.ctx.groups[m.targetId]);
    }
  }

  lemma MembersSame(st: Stage, st': Stage, g: string, ms: seq<Member>, a: seq<Member>, b: seq<Member>)
    requires StagesAlike(st, st') && g in st.rank && g in st'.rank
    requires RewrittenMembers(st, g, ms, a, |ms|) && RewrittenMembers(st', g, ms, b, |ms|)
    ensures a == b
  {
    forall i | 0 <= i < |ms| ensures a[i] == b[i] { MembersAlike(st, st', g, ms[i]); }
  }

  lemma ChildrenSame(st: Stage, st': Stage, g: string, cs: seq<string>, a: seq<string>, b: seq<string>)
    requires StagesAlike(st, st') && g in st.rank && g in st'.rank
    requires RewrittenIds(st, g, cs, a, |cs|) && RewrittenIds(st', g, cs, b, |cs|)
    ensures a == b
  {
    forall i | 0 <= i < |cs| ensures a[i] == b[i] { MembersAlike(st, st', g, Member(KindGroup, cs[i], "", 0)); }
  }

  lemma RewrittenAlike(st: Stage, st': Stage, a: ResolvedGroup, b: ResolvedGroup, g: string)
    requires StagesAlike(st, st') && g in st.rank && g in st'.rank && Rewritten(st, a, g) && Rewritten(st', b, g)
    ensures Content(a) == Content(b)
  {
    LeavesAlike(st.ctx, st.rank, st'.ctx, st'.rank, g);
    var m := MemoOf(st.ctx, st.rank, g);
    assert GroupsAlike(st.ctx.groups[g], st'.ctx.groups[g]);
    MembersSame(st, st', g, m.members, a.members, b.members);
    ChildrenSame(st, st', g, m.childGroupIds, a.childGroupIds, b.childGroupIds);
  }

  lemma {:induction false} LeafMembersAlike(ctx: Context, ctx': Context, xs: seq<Item>)
    requires ContextsAlike(ctx, ctx')
    ensures LeafMembers(ctx, xs) == LeafMembers(ctx', xs)
  {
    if xs != [] { LeafMembersAlike(ctx, ctx', xs[..|xs| - 1]); }
  }

  lemma DerivedAlike(st: Stage, st': Stage, a: ResolvedGroup, b: ResolvedGroup, p: string, c: string)
    requires StagesAlike(st, st') && p in st.rank && c in st.rank && p in st'.rank && c in st'.rank
    requires IsDerived(st, a, p, c) && IsDerived(st', b, p, c)
    ensures Content(a) == Content(b)
  {
    RedirectedAlike(st, st', p, c);
    LeafMembersAlike(st.ctx, st'.ctx, KeptLeavesOf(st, p, c));
    assert GroupsAlike(st.ctx.groups[p], st'.ctx.groups[p]) && GroupsAlike(st.ctx.groups[c], st'.ctx.groups[c]);
  }

  /** The id determines the content, across alike stages. */
  lemma EntriesAlike(st: Stage, st': Stage, a: ResolvedGroup, b: ResolvedGroup)
    requires StagesAlike(st, st') && FreshIds(st') && EntryOk(st, a) && EntryOk(st', b) && a.id == b.id
    ensures Content(a) == Content(b)
  {
    if a.id in st.rank {
      RewrittenAlike(st, st', a, b, a.id);
    } else {
      var p, c :| RedirectedRef(st, p, c) && IsDerived(st, a, p, c);
      DerivedById(st', b, p, c);
      DerivedAlike(st, st', a, b, p, c);
    }
  }

  // ---- Reachable nodes ----

  ghost predicate TablesAlike(t: Table, t': Table) {
    t.Keys == t'.Keys && forall k :: k in t ==> Content(t[k]) == Content(t'[k])
  }

  lemma {:induction false} BelowAlike(t: Table, rk: map<string, nat>, t': Table, rk': map<string, nat>, g: string, n: nat)
    requires TableRanked(t, rk) && TableRanked(t', rk') && TablesAlike(t, t') && g in t && n <= |t[g].childGroupIds|
    ensures n <= |t'[g].childGroupIds| && NodesBelow(t, rk, g, n) == NodesBelow(t', rk', g, n)
    decreases rk[g], 0, n
  {
    assert Content(t[g]).childGroupIds == Content(t'[g]).childGroupIds;
    if n > 0 {
      BelowAlike(t, rk, t', rk', g, n - 1);
      var c := t[g].childGroupIds[n - 1];
      if c in t { NodesAlike(t, rk, t', rk', c); }
    }
  }

  lemma {:induction false} NodesAlike(t: Table, rk: map<string, nat>, t': Table, rk': map<string, nat>, g: string)
    requires TableRanked(t, rk) && TableRanked(t', rk') && TablesAlike(t, t') && g in t
    ensures NodesIn(t, rk, g) == NodesIn(t', rk', g)
    decreases rk[g], 1, 0
  {
    assert Content(t[g]).childGroupIds == Content(t'[g]).childGroupIds && Content(t[g]).nodeLogicalIds == Content(t'[g]).nodeLogicalIds;
    BelowAlike(t, rk, t', rk', g, |t[g].childGroupIds|);
  }

  lemma GraphsAlike(st: Stage, t: Table, st': Stage, t': Table)
    requires StagesAlike(st, st') && Graph(st, t) && Graph(st', t') && t.Keys == t'.Keys
    ensures TablesAlike(t, t')
  {
    forall k | k in t ensures Content(t[k]) == Content(t'[k]) { EntriesAlike(st, st', t[k], t'[k]); }
  }

  lemma FinishedAlike(st: Stage, t: Table, st': Stage, t': Table, a: ResolvedGroup, b: ResolvedGroup)
    requires StagesAlike(st, st') && Graph(st, t) && Graph(st', t') && TablesAlike(t, t')
    requires Finished(st, t, a) && Finished(st', t', b) && a.id == b.id
    ensures a == b
  {
    NodesAlike(t, TableRank(st, t), t', TableRank(st', t'), a.id);
    SameContent(a, b, NodesIn(t, TableRank(st, t), a.id));
  }

  lemma SameContent(a: ResolvedGroup, b: ResolvedGroup, nodes: set<string>)
    requires Content(a) == Content(b) && a == Recollected(a, nodes) && b == Recollected(b, nodes)
    ensures a == b
  {
    assert Content(a).members == a.members && Content(a).emptyFallbackPass == a.emptyFallbackPass;
    assert Content(b).members == b.members && Content(b).emptyFallbackPass == b.emptyFallbackPass;
  }

  /** Alike stages present the same groups. */
  lemma SnapshotsSame(st: Stage, t: Table, st': Stage, t': Table, ids: seq<string>, a: seq<ResolvedGroup>, b: seq<ResolvedGroup>)
    requires StagesAlike(st, st') && SnapshotOf(st, t, ids, a) && SnapshotOf(st', t', ids, b)
    ensures a == b
  {
    RefsAlike(st, st', ids);
    assert DerivedIds(st, RefsOfAll(st, ids)) == DerivedIds(st', RefsOfAll(st', ids));
    SameIdList(a, b);
    GraphsAlike(st, t, st', t');
    forall k | 0 <= k < |a| ensures a[k] == b[k] {
      assert IdList(a)[k] == IdList(b)[k];
      FinishedAlike(st, t, st', t', a[k], b[k]);
    }
  }
}

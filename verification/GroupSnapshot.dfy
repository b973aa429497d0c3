/**
 `resolveGroups` as a whole: memoised evaluation of every group, rewrite of filtered references,
 recollection of node sets. The result is determined, lists every group once, names and reaches
 admitted nodes only, refers to its own groups only, and carries the pipelines' meaning exactly when
 the two filter choices select the same nodes.
 */
module GroupSnapshot {
  import opened Wrappers
  import opened Pipeline
  import opened PipelineMeaning
  import opened GroupResolver
  import opened DerivedGroups
  import opened ResolveGroups
  import opened RewriteMeaning

  ghost predicate AllRewritten(st: Stage, ids: seq<string>, out: seq<ResolvedGroup>)
    requires StageOk(st)
  {
    |out| == |ids| && forall i :: 0 <= i < |ids| ==> ids[i] in st.rank && Rewritten(st, out[i], ids[i])
  }

  /** Derived groups with the (parent, child) pair each stands for. */
  ghost predicate AllDerived(st: Stage, derived: seq<ResolvedGroup>, pairs: seq<(string, string)>)
    requires StageOk(st)
  {
    |derived| == |pairs| && forall i :: 0 <= i < |pairs| ==> DerivedPair(st, derived[i], pairs[i])
  }

  ghost predicate DerivedPair(st: Stage, d: ResolvedGroup, pair: (string, string))
    requires StageOk(st)
  {
    RedirectedRef(st, pair.0, pair.1) && IsDerived(st, d, pair.0, pair.1)
  }

  ghost function Pairs(g: string, cs: seq<string>): seq<(string, string)> {
    seq(|cs|, i requires 0 <= i < |cs| => (g, cs[i]))
  }

  lemma PairsAre(g: string, cs: seq<string>)
    ensures forall p, c :: (p, c) in Pairs(g, cs) <==> p == g && c in cs
    ensures NoRepeats(cs) ==> NoRepeats(Pairs(g, cs))
  {
    var rs := Pairs(g, cs);
    forall c | c in cs ensures (g, c) in rs {
      var i :| 0 <= i < |cs| && cs[i] == c;
      assert rs[i] == (g, c);
    }
  }

  /** The redirected references of one group, in order. */
  ghost function RefsOf(st: Stage, g: string): seq<(string, string)>
    requires StageOk(st) && g in st.rank
  {
    Pairs(g, RedirectedOf(st, g, MemoOf(st.ctx, st.rank, g).childGroupIds))
  }

  /** ... and of the groups `ids`, one after the other. */
  ghost function RefsOfAll(st: Stage, ids: seq<string>): seq<(string, string)>
    requires StageOk(st) && forall i :: 0 <= i < |ids| ==> ids[i] in st.rank
  {
    if ids == [] then [] else RefsOfAll(st, ids[..|ids| - 1]) + RefsOf(st, ids[|ids| - 1])
  }

  lemma RefsOfNext(st: Stage, ids: seq<string>, k: nat)
    requires StageOk(st) && k < |ids| && forall i :: 0 <= i < |ids| ==> ids[i] in st.rank
    ensures RefsOfAll(st, ids[..k + 1]) == RefsOfAll(st, ids[..k]) + RefsOf(st, ids[k])
  {
    assert ids[..k + 1][..k] == ids[..k];
  }

  lemma RefsOfAre(st: Stage, g: string)
    requires StageOk(st) && g in st.rank
    ensures forall p, c :: (p, c) in RefsOf(st, g) <==> p == g && RedirectedRef(st, g, c)
    ensures NoRepeats(RefsOf(st, g))
  {
    var refs := MemoOf(st.ctx, st.rank, g).childGroupIds;
    RedirectedAre(st, g, refs);
    ChildrenDistinct(st, g);
    RedirectedOnce(st, g, refs);
    PairsAre(g, RedirectedOf(st, g, refs));
  }

  /** Every redirected reference of the listed groups, and no other. */
  lemma {:induction false} RefsOfAllAre(st: Stage, ids: seq<string>)
    requires StageOk(st) && forall i :: 0 <= i < |ids| ==> ids[i] in st.rank
    ensures forall p, c :: (p, c) in RefsOfAll(st, ids) <==> p in ids && RedirectedRef(st, p, c)
  {
    if ids != [] {
      RefsOfAllAre(st, ids[..|ids| - 1]);
      RefsOfAre(st, ids[|ids| - 1]);
      assert ids == ids[..|ids| - 1] + [ids[|ids| - 1]];
    }
  }

  lemma ExtendDerived(st: Stage, g: string, derived: seq<ResolvedGroup>, pairs: seq<(string, string)>,
                      ds: seq<ResolvedGroup>, cs: seq<string>)
    requires StageOk(st) && g in st.rank && AllDerived(st, derived, pairs) && DerivedFor(st, g, ds, cs)
    ensures AllDerived(st, derived + ds, pairs + Pairs(g, cs))
  {
    var all, ps := derived + ds, pairs + Pairs(g, cs);
    forall i | 0 <= i < |ps| ensures DerivedPair(st, all[i], ps[i]) {
      if i < |pairs| { assert DerivedPair(st, derived[i], pairs[i]); }
    }
  }

  lemma RewriteNext(st: Stage, ids: seq<string>, k: nat, out: seq<ResolvedGroup>, rg: ResolvedGroup)
    requires StageOk(st) && k < |ids| && AllRewritten(st, ids[..k], out) && ids[k] in st.rank && Rewritten(st, rg, ids[k])
    ensures AllRewritten(st, ids[..k + 1], out + [rg])
  {
    var longer := ids[..k + 1];
    forall i | 0 <= i < |longer| ensures longer[i] in st.rank && Rewritten(st, (out + [rg])[i], longer[i]) {
      assert i < k ==> longer[i] == ids[..k][i];
    }
  }

  method RewriteAll(st: Stage, ev: Evaluator, ids: seq<string>)
    returns (out: seq<ResolvedGroup>, derived: seq<ResolvedGroup>)
    requires StageOk(st) && FreshIds(st) && ev.Valid() && ev.resolving == {} && ev.ctx == st.ctx && ev.rank == st.rank
    requires forall i :: 0 <= i < |ids| ==> ids[i] in st.rank && st.ctx.groups[ids[i]].id == ids[i]
    modifies ev
    ensures AllRewritten(st, ids, out) && AllDerived(st, derived, RefsOfAll(st, ids))
  {
    var memos := ev.ResolveAll(ids);
    out, derived := [], [];
    for k := 0 to |ids|
      invariant ev.Valid() && ev.resolving == {}
      invariant AllRewritten(st, ids[..k], out) && AllDerived(st, derived, RefsOfAll(st, ids[..k]))
    {
      var rg := FromMemo(st.ctx.groups[ids[k]], memos[k]);
      var rg', ds := RewriteParent(st, ev, rg);
      ExtendDerived(st, ids[k], derived, RefsOfAll(st, ids[..k]), ds, RedirectedOf(st, ids[k], rg.childGroupIds));
      RefsOfNext(st, ids, k);
      RewriteNext(st, ids, k, out, rg');
      out, derived := out + [rg'], derived + ds;
    }
    assert ids[..|ids|] == ids;
  }

  // ---- Indexing ----

  /** An original group rewritten, or a derived one. */
  ghost predicate EntryOk(st: Stage, rg: ResolvedGroup)
    requires StageOk(st)
  {
    if rg.id in st.rank then Rewritten(st, rg, rg.id) else DerivedGroup(st, rg)
  }

  ghost predicate EntriesOk(st: Stage, t: Table)
    requires StageOk(st)
  {
    forall g :: g in t ==> t[g].id == g && EntryOk(st, t[g])
  }

  lemma DerivedEntryOk(st: Stage, d: ResolvedGroup, pair: (string, string))
    requires StageOk(st) && FreshIds(st) && DerivedPair(st, d, pair)
    ensures EntryOk(st, d) && d.id !in st.rank
  {
    assert d.id == st.derivedId(pair.0, pair.1);
  }

  ghost function IdsOf(groups: seq<ResolvedGroup>): set<string> {
    set i | 0 <= i < |groups| :: groups[i].id
  }

  lemma IdsOfConcat(a: seq<ResolvedGroup>, b: seq<ResolvedGroup>)
    ensures IdsOf(a + b) == IdsOf(a) + IdsOf(b)
  {
    forall i | 0 <= i < |a| ensures a[i].id in IdsOf(a + b) { assert (a + b)[i] == a[i]; }
    forall i | 0 <= i < |b| ensures b[i].id in IdsOf(a + b) { assert (a + b)[|a| + i] == b[i]; }
  }

  ghost predicate AllEntries(st: Stage, all: seq<ResolvedGroup>)
    requires StageOk(st)
  {
    forall k :: 0 <= k < |all| ==> EntryOk(st, all[k])
  }

  ghost predicate IndexOf(all: seq<ResolvedGroup>, t: Table) {
    t.Keys == IdsOf(all) && forall g :: g in t ==> t[g].id == g && t[g] in all
  }

  lemma IndexNext(all: seq<ResolvedGroup>, k: nat, t: Table)
    requires k < |all| && IndexOf(all[..k], t)
    ensures IndexOf(all[..k + 1], t[all[k].id := all[k]])
  {
    IdsOfSnoc(all[..k], all[k]);
    assert all[..k + 1] == all[..k] + [all[k]];
  }

  /** Indexes all groups by id, as `resolvedGroupMap` does. */
  method IndexGroups(all: seq<ResolvedGroup>) returns (t: Table)
    ensures IndexOf(all, t)
  {
    t := map[];
    for k := 0 to |all|
      invariant IndexOf(all[..k], t)
    {
      IndexNext(all, k, t);
      t := t[all[k].id := all[k]];
    }
    assert all[..|all|] == all;
  }

  lemma IndexedEntries(st: Stage, all: seq<ResolvedGroup>, t: Table)
    requires StageOk(st) && AllEntries(st, all) && IndexOf(all, t)
    ensures EntriesOk(st, t)
  {
    forall g | g in t ensures t[g].id == g && EntryOk(st, t[g]) {
      var k :| 0 <= k < |all| && all[k] == t[g];
    }
  }

  lemma EntriesListed(st: Stage, ids: seq<string>, out: seq<ResolvedGroup>, derived: seq<ResolvedGroup>)
    requires StageOk(st) && FreshIds(st) && AllRewritten(st, ids, out) && AllDerived(st, derived, RefsOfAll(st, ids))
    ensures AllEntries(st, out + derived)
  {
    var all, pairs := out + derived, RefsOfAll(st, ids);
    forall k | 0 <= k < |all| ensures EntryOk(st, all[k]) {
      if k < |out| {
        assert Rewritten(st, out[k], ids[k]);
      } else {
        DerivedEntryOk(st, derived[k - |out|], pairs[k - |out|]);
      }
    }
  }

  lemma OriginalsIn(st: Stage, ids: seq<string>, out: seq<ResolvedGroup>, g: string)
    requires StageOk(st) && AllRewritten(st, ids, out) && g in ids
    ensures g in IdsOf(out)
  {
    var i :| 0 <= i < |ids| && ids[i] == g;
    assert Rewritten(st, out[i], ids[i]);
  }

  lemma DerivedIn(st: Stage, derived: seq<ResolvedGroup>, pairs: seq<(string, string)>, g: string, c: string)
    requires StageOk(st) && AllDerived(st, derived, pairs) && (g, c) in pairs
    ensures st.derivedId(g, c) in IdsOf(derived)
  {
    var i :| 0 <= i < |pairs| && pairs[i] == (g, c);
    assert DerivedPair(st, derived[i], pairs[i]);
  }

  /** With all groups rewritten and all redirected references derived, the table is complete. */
  lemma TableComplete(st: Stage, ids: seq<string>, out: seq<ResolvedGroup>, derived: seq<ResolvedGroup>, t: Table)
    requires StageOk(st) && AllRewritten(st, ids, out) && AllDerived(st, derived, RefsOfAll(st, ids))
    requires forall g :: g in st.rank ==> g in ids
    requires EntriesOk(st, t) && t.Keys == IdsOf(out) + IdsOf(derived)
    ensures TableOk(st, t)
  {
    RefsOfAllAre(st, ids);
    forall g | g in st.rank ensures g in t { OriginalsIn(st, ids, out, g); }
    forall g, c | RedirectedRef(st, g, c) ensures st.derivedId(g, c) in t {
      DerivedIn(st, derived, RefsOfAll(st, ids), g, c);
    }
  }

  predicate HasBuiltinMember(ms: seq<Member>) {
    exists i :: 0 <= i < |ms| && ms[i].kind == KindBuiltin
  }

  /** A group with its recollected nodes and the empty-pass flag that follows from them. */
  function Recollected(rg: ResolvedGroup, all: set<string>): ResolvedGroup {
    rg.(allNodeIds := all,
        effectiveEmptyPass := rg.emptyFallbackPass && all == {} && !HasBuiltinMember(rg.members))
  }

  // ---- What a finished group is ----

  /** Everything but the recollected fields. */
  function Content(rg: ResolvedGroup): ResolvedGroup {
    rg.(allNodeIds := {}, effectiveEmptyPass := false)
  }

  lemma SameRewritten(st: Stage, a: ResolvedGroup, b: ResolvedGroup, g: string)
    requires StageOk(st) && g in st.rank && Rewritten(st, a, g) && Rewritten(st, b, g)
    ensures Content(a) == Content(b)
  {
    assert a.members == b.members && a.childGroupIds == b.childGroupIds;
  }

  /** The id determines the content. */
  lemma SameEntry(st: Stage, a: ResolvedGroup, b: ResolvedGroup)
    requires StageOk(st) && FreshIds(st) && EntryOk(st, a) && EntryOk(st, b) && a.id == b.id
    ensures Content(a) == Content(b)
  {
    if a.id in st.rank {
      SameRewritten(st, a, b, a.id);
    } else {
      var p, c :| RedirectedRef(st, p, c) && IsDerived(st, a, p, c);
      DerivedById(st, b, p, c);
    }
  }

  /**
   What the group stage promises about each group: an original or a derived one, with the content its
   id has in the graph `t`, the nodes reachable there, and the flag they imply.
   */
  ghost predicate Finished(st: Stage, t: Table, rg: ResolvedGroup)
    requires StageOk(st) && TableRanked(t, TableRank(st, t))
  {
    && EntryOk(st, rg) && rg.id in t && Content(rg) == Content(t[rg.id])
    && rg == Recollected(rg, NodesIn(t, TableRank(st, t), rg.id))
  }

  ghost predicate AllFinished(st: Stage, t: Table, groups: seq<ResolvedGroup>)
    requires StageOk(st) && TableRanked(t, TableRank(st, t))
  {
    forall k :: 0 <= k < |groups| ==> Finished(st, t, groups[k])
  }

  ghost function IdList(groups: seq<ResolvedGroup>): seq<string> {
    seq(|groups|, i requires 0 <= i < |groups| => groups[i].id)
  }

  /** The groups `ids`, then the derived group of every redirected reference, parent by parent. */
  ghost function SnapshotIds(st: Stage, ids: seq<string>): seq<string>
    requires StageOk(st) && forall i :: 0 <= i < |ids| ==> ids[i] in st.rank
  {
    ids + DerivedIds(st, RefsOfAll(st, ids))
  }

  ghost function DerivedIds(st: Stage, rs: seq<(string, string)>): seq<string> {
    seq(|rs|, i requires 0 <= i < |rs| => st.derivedId(rs[i].0, rs[i].1))
  }

  /**
   `groups` present the rewritten graph `t`: the groups `ids` in order, then the derived ones, each
   finished.
   */
  ghost predicate SnapshotOf(st: Stage, t: Table, ids: seq<string>, groups: seq<ResolvedGroup>)
    requires StageOk(st)
  {
    && (forall i :: 0 <= i < |ids| ==> ids[i] in st.rank)
    && Graph(st, t) && IdsOf(groups) == t.Keys && IdList(groups) == SnapshotIds(st, ids) && AllFinished(st, t, groups)
  }

  /** Recollecting changes no content. */
  lemma RecollectedEntry(st: Stage, rg: ResolvedGroup, all: set<string>)
    requires StageOk(st) && EntryOk(st, rg)
    ensures EntryOk(st, Recollected(rg, all)) && Content(Recollected(rg, all)) == Content(rg)
  {
    var rg' := Recollected(rg, all);
    if rg.id !in st.rank {
      var p, c :| RedirectedRef(st, p, c) && IsDerived(st, rg, p, c);
      assert IsDerived(st, rg', p, c);
    }
  }

  method CollectNodes(t: Table, g: string, ghost rk: map<string, nat>) returns (nodes: set<string>)
    requires TableRanked(t, rk) && g in t
    ensures nodes == NodesIn(t, rk, g)
  {
    var visited;
    visited, nodes := Collect(t, g, {}, {}, rk);
  }

  /** An unfinished group of the graph. */
  ghost predicate Ready(st: Stage, t: Table, rg: ResolvedGroup)
    requires StageOk(st)
  {
    EntryOk(st, rg) && rg.id in t && t[rg.id].id == rg.id && EntryOk(st, t[rg.id])
  }

  ghost predicate AllReady(st: Stage, t: Table, all: seq<ResolvedGroup>)
    requires StageOk(st)
  {
    forall k :: 0 <= k < |all| ==> Ready(st, t, all[k])
  }

  /** The group with its recollected nodes. */
  method RecollectOne(st: Stage, t: Table, rg: ResolvedGroup) returns (rg': ResolvedGroup)
    requires StageOk(st) && FreshIds(st) && TableRanked(t, TableRank(st, t)) && Ready(st, t, rg)
    ensures rg'.id == rg.id && Finished(st, t, rg')
  {
    var nodes := CollectNodes(t, rg.id, TableRank(st, t));
    rg' := Recollected(rg, nodes);
    SameEntry(st, rg, t[rg.id]);
    RecollectedEntry(st, rg, nodes);
  }

  /** The first `k` groups are finished. */
  ghost predicate FinishedUpTo(st: Stage, t: Table, all: seq<ResolvedGroup>, k: nat, groups: seq<ResolvedGroup>)
    requires StageOk(st) && TableRanked(t, TableRank(st, t))
  {
    k <= |all| && IdList(groups) == IdList(all[..k]) && AllFinished(st, t, groups)
  }

  lemma FinishedNext(st: Stage, t: Table, all: seq<ResolvedGroup>, k: nat, groups: seq<ResolvedGroup>, rg: ResolvedGroup)
    requires StageOk(st) && TableRanked(t, TableRank(st, t)) && FinishedUpTo(st, t, all, k, groups) && k < |all|
    requires rg.id == all[k].id && Finished(st, t, rg)
    ensures FinishedUpTo(st, t, all, k + 1, groups + [rg])
  {
    IdListNext(groups, all, k, rg);
    var longer := groups + [rg];
    forall i | 0 <= i < |longer| ensures Finished(st, t, longer[i]) { assert i < |groups| ==> Finished(st, t, groups[i]); }
  }

  lemma IdListNext(groups: seq<ResolvedGroup>, all: seq<ResolvedGroup>, k: nat, rg: ResolvedGroup)
    requires k < |all| && IdList(groups) == IdList(all[..k]) && rg.id == all[k].id
    ensures IdList(groups + [rg]) == IdList(all[..k + 1])
  {
    assert IdList(groups + [rg]) == IdList(groups) + [rg.id];
    assert IdList(all[..k + 1]) == IdList(all[..k]) + [all[k].id];
  }

  method RecollectAll(st: Stage, t: Table, all: seq<ResolvedGroup>) returns (groups: seq<ResolvedGroup>)
    requires StageOk(st) && FreshIds(st) && TableRanked(t, TableRank(st, t)) && AllReady(st, t, all)
    ensures IdList(groups) == IdList(all) && AllFinished(st, t, groups)
  {
    groups := [];
    for k := 0 to |all|
      invariant FinishedUpTo(st, t, all, k, groups)
    {
      var rg := RecollectOne(st, t, all[k]);
      FinishedNext(st, t, all, k, groups, rg);
      groups := groups + [rg];
    }
    assert all[..|all|] == all;
  }

  lemma SameIdList(a: seq<ResolvedGroup>, b: seq<ResolvedGroup>)
    requires IdList(a) == IdList(b)
    ensures |a| == |b| && IdsOf(a) == IdsOf(b)
  {
    assert |a| == |IdList(a)| == |b|;
    forall i | 0 <= i < |a| ensures a[i].id == b[i].id { assert IdList(a)[i] == IdList(b)[i]; }
  }

  lemma IdsOfSnoc(groups: seq<ResolvedGroup>, rg: ResolvedGroup)
    ensures IdsOf(groups + [rg]) == IdsOf(groups) + {rg.id}
  {
    IdsOfConcat(groups, [rg]);
    assert [rg][0].id in IdsOf([rg]);
  }

  // ---- What a snapshot promises ----

  /** Only admitted nodes are listed or reached, and only the snapshot's own groups are referred to. */
  ghost predicate GroupSafe(admitted: set<string>, names: set<string>, rg: ResolvedGroup) {
    MembersOk(admitted, names, rg) && rg.allNodeIds <= admitted
  }

  lemma SnapshotSafe(st: Stage, t: Table, ids: seq<string>, groups: seq<ResolvedGroup>, k: nat)
    requires StageOk(st) && SnapshotOf(st, t, ids, groups) && k < |groups|
    ensures GroupSafe(st.ctx.admitted.Keys, IdsOf(groups), groups[k])
  {
    var rg := groups[k];
    assert Finished(st, t, rg);
    ReachedNodesAdmitted(st, t, rg.id);
    if rg.id in st.rank {
      RewrittenMembersOk(st, t, rg.id, rg);
    } else {
      DerivedMembersOk(st, rg, t.Keys);
    }
  }

  lemma BuiltinMembersKept(st: Stage, g: string, rg: ResolvedGroup)
    requires StageOk(st) && g in st.rank && Rewritten(st, rg, g)
    ensures HasBuiltinMember(rg.members) <==> HasBuiltin(GroupItems(st.ctx, st.rank, g))
  {
    var items, ms := GroupItems(st.ctx, st.rank, g), MemoOf(st.ctx, st.rank, g).members;
    forall i | 0 <= i < |items| ensures rg.members[i].kind == items[i].kind {
      assert rg.members[i] == Retarget(st, g, ms[i]);
    }
  }

  /**
   A finished group offers its pipeline's leaf nodes, and passes through exactly when its pipeline
   would.
   */
  ghost predicate Faithful(st: Stage, g: string, rg: ResolvedGroup)
    requires StageOk(st) && g in st.rank
  {
    && rg.allNodeIds == NodeSet(Leaves(st.ctx, st.rank, g))
    && rg.effectiveEmptyPass == MemoOf(st.ctx, st.rank, g).effectiveEmptyPass
  }

  ghost predicate AllFaithful(st: Stage, ids: seq<string>, groups: seq<ResolvedGroup>)
    requires StageOk(st)
  {
    |ids| <= |groups| && forall k :: 0 <= k < |ids| ==> ids[k] in st.rank && Faithful(st, ids[k], groups[k])
  }

  lemma FaithfulIfPreserved(st: Stage, t: Table, rg: ResolvedGroup)
    requires StageOk(st) && Graph(st, t) && rg.id in st.rank && Finished(st, t, rg)
    ensures Faithful(st, rg.id, rg) <==> Preserved(st, t, rg.id)
  {
    BuiltinMembersKept(st, rg.id, rg);
  }

  lemma FaithfulAt(st: Stage, t: Table, ids: seq<string>, groups: seq<ResolvedGroup>, k: nat)
    requires StageOk(st) && SnapshotOf(st, t, ids, groups) && k < |ids|
    ensures k < |groups| && (Faithful(st, ids[k], groups[k]) <==> Preserved(st, t, ids[k]))
  {
    OriginalAt(st, ids, groups, k);
    FaithfulIfPreserved(st, t, groups[k]);
  }

  /** All original groups carry their pipelines' meaning exactly when the filter choices select alike. */
  lemma FaithfulExactly(st: Stage, t: Table, ids: seq<string>, groups: seq<ResolvedGroup>)
    requires StageOk(st) && SnapshotOf(st, t, ids, groups) && forall g :: g in st.rank ==> g in ids
    ensures AllFaithful(st, ids, groups) <==> SelectionsAgree(st)
  {
    MeaningExactly(st, t);
    if AllPreserved(st, t) { PreservedFaithful(st, t, ids, groups); }
    if AllFaithful(st, ids, groups) {
      forall g | g in st.rank ensures Preserved(st, t, g) {
        var k :| 0 <= k < |ids| && ids[k] == g;
        FaithfulAt(st, t, ids, groups, k);
      }
    }
  }

  lemma PreservedFaithful(st: Stage, t: Table, ids: seq<string>, groups: seq<ResolvedGroup>)
    requires StageOk(st) && SnapshotOf(st, t, ids, groups) && AllPreserved(st, t)
    ensures AllFaithful(st, ids, groups)
  {
    assert |groups| == |IdList(groups)|;
    forall k | 0 <= k < |ids| ensures ids[k] in st.rank && Faithful(st, ids[k], groups[k]) {
      FaithfulAt(st, t, ids, groups, k);
    }
  }

  lemma OriginalAt(st: Stage, ids: seq<string>, groups: seq<ResolvedGroup>, k: nat)
    requires StageOk(st) && (forall i :: 0 <= i < |ids| ==> ids[i] in st.rank) && IdList(groups) == SnapshotIds(st, ids) && k < |ids|
    ensures k < |groups| && groups[k].id == ids[k]
  {
    assert |groups| == |IdList(groups)|;
    assert IdList(groups)[k] == SnapshotIds(st, ids)[k];
  }

  lemma AllAreReady(st: Stage, t: Table, all: seq<ResolvedGroup>)
    requires StageOk(st) && AllEntries(st, all) && EntriesOk(st, t) && t.Keys == IdsOf(all)
    ensures AllReady(st, t, all)
  {
    forall k | 0 <= k < |all| ensures Ready(st, t, all[k]) { assert all[k].id in IdsOf(all); }
  }

  lemma ListedIds(st: Stage, ids: seq<string>, out: seq<ResolvedGroup>, derived: seq<ResolvedGroup>)
    requires StageOk(st) && AllRewritten(st, ids, out) && AllDerived(st, derived, RefsOfAll(st, ids))
    ensures IdList(out + derived) == SnapshotIds(st, ids)
  {
    OriginalIds(st, ids, out);
    DerivedIdsListed(st, derived, RefsOfAll(st, ids));
    IdListConcat(out, derived);
  }

  lemma IdListConcat(a: seq<ResolvedGroup>, b: seq<ResolvedGroup>)
    ensures IdList(a + b) == IdList(a) + IdList(b)
  {
  }

  lemma OriginalIds(st: Stage, ids: seq<string>, out: seq<ResolvedGroup>)
    requires StageOk(st) && AllRewritten(st, ids, out)
    ensures IdList(out) == ids
  {
    forall k | 0 <= k < |ids| ensures IdList(out)[k] == ids[k] { assert Rewritten(st, out[k], ids[k]); }
  }

  lemma DerivedIdsListed(st: Stage, derived: seq<ResolvedGroup>, rs: seq<(string, string)>)
    requires StageOk(st) && AllDerived(st, derived, rs)
    ensures IdList(derived) == DerivedIds(st, rs)
  {
    forall k | 0 <= k < |rs| ensures IdList(derived)[k] == DerivedIds(st, rs)[k] { assert DerivedPair(st, derived[k], rs[k]); }
  }

  // ---- No group is listed twice ----

  lemma {:induction false} RefsDistinct(st: Stage, ids: seq<string>)
    requires StageOk(st) && (forall i :: 0 <= i < |ids| ==> ids[i] in st.rank) && NoRepeats(ids)
    ensures NoRepeats(RefsOfAll(st, ids))
  {
    if ids != [] {
      var init, g := ids[..|ids| - 1], ids[|ids| - 1];
      RefsDistinct(st, init);
      RefsOfAllAre(st, init);
      RefsOfAre(st, g);
      DisjointRefs(RefsOfAll(st, init), RefsOf(st, g), g);
    }
  }

  lemma DisjointRefs(a: seq<(string, string)>, b: seq<(string, string)>, g: string)
    requires NoRepeats(a) && NoRepeats(b) && (forall c :: (g, c) !in a) && forall p, c :: (p, c) in b ==> p == g
    ensures NoRepeats(a + b)
  {
    forall i, j | 0 <= i < |a| && 0 <= j < |b| ensures a[i] != b[j] {
      var x, y := a[i], b[j];
      assert (x.0, x.1) in a && (y.0, y.1) in b;
    }
  }

  /** With distinct original groups no id is listed twice. */
  lemma SnapshotIdsDistinct(st: Stage, ids: seq<string>)
    requires StageOk(st) && FreshIds(st) && (forall i :: 0 <= i < |ids| ==> ids[i] in st.rank) && NoRepeats(ids)
    ensures NoRepeats(SnapshotIds(st, ids))
  {
    RefsDistinct(st, ids);
    var all, rs := SnapshotIds(st, ids), RefsOfAll(st, ids);
    forall i, j | 0 <= i < j < |all| ensures all[i] != all[j] {
      if j >= |ids| {
        var y := rs[j - |ids|];
        if i < |ids| {
          assert all[i] in st.ctx.groups && all[j] == st.derivedId(y.0, y.1);
        } else {
          var x := rs[i - |ids|];
          assert x != y && all[i] == st.derivedId(x.0, x.1) && all[j] == st.derivedId(y.0, y.1);
        }
      }
    }
  }

  /** `ids` lists every group of the stage once. */
  ghost predicate Lists(st: Stage, ids: seq<string>)
    requires StageOk(st)
  {
    && NoRepeats(ids) && (forall i :: 0 <= i < |ids| ==> ids[i] in st.rank && st.ctx.groups[ids[i]].id == ids[i])
    && forall g :: g in st.rank ==> g in ids
  }

  /**
   The resolver's group stage on the groups `ids`, in that order, followed by the derived groups, each
   group once. The result presents the rewritten graph; no group, original or derived, lists or
   reaches a node outside the admitted ones or refers to a group outside the result; and every
   original group offers exactly its pipeline's leaf nodes if and only if both filter choices select alike.
   */
  method Run(st: Stage, ids: seq<string>) returns (groups: seq<ResolvedGroup>, ghost t: Table)
    requires StageOk(st) && FreshIds(st) && NodesIndexed(st.ctx) && Lists(st, ids)
    ensures SnapshotOf(st, t, ids, groups) && NoRepeats(IdList(groups))
    ensures forall k :: 0 <= k < |groups| ==> GroupSafe(st.ctx.admitted.Keys, IdsOf(groups), groups[k])
    ensures AllFaithful(st, ids, groups) <==> SelectionsAgree(st)
  {
    var ev := new Evaluator(st.ctx, st.rank);
    var out, derived := RewriteAll(st, ev, ids);
    EntriesListed(st, ids, out, derived);
    var table := IndexGroups(out + derived);
    t := table;
    IndexedEntries(st, out + derived, t);
    IdsOfConcat(out, derived);
    TableComplete(st, ids, out, derived, t);
    TableIsRanked(st, t);
    AllAreReady(st, t, out + derived);
    ListedIds(st, ids, out, derived);
    SnapshotIdsDistinct(st, ids);
    groups := RecollectAll(st, table, out + derived);
    SameIdList(groups, out + derived);
    forall k | 0 <= k < |groups| ensures GroupSafe(st.ctx.admitted.Keys, IdsOf(groups), groups[k]) {
      SnapshotSafe(st, t, ids, groups, k);
    }
    FaithfulExactly(st, t, ids, groups);
  }
}

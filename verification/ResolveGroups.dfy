/**
 The rewrite of every parent's filtered references into derived groups, and the acyclic graph it
 leaves.
 */
module ResolveGroups {
  import opened Wrappers
  import opened Policy
  import opened Pipeline
  import opened PipelineFacts
  import opened GroupResolver
  import opened DerivedGroups

  // ---- Member targets ----

  lemma {:induction false} TargetsPrefix(items: seq<Item>, k: nat, kind: MemberKind)
    requires k <= |items|
    ensures Targets(items[..k], kind) <= Targets(items, kind)
    ensures k < |items| && items[k].kind == kind ==>
              |Targets(items[..k], kind)| < |Targets(items, kind)| &&
              Targets(items, kind)[|Targets(items[..k], kind)|] == items[k].targetId
    decreases |items| - k
  {
    if k == |items| {
      assert items[..k] == items;
    } else {
      assert items[..k + 1][..k] == items[..k];
      TargetsPrefix(items, k + 1, kind);
    }
  }

  lemma {:induction false} TargetFrom(items: seq<Item>, kind: MemberKind, c: string)
    requires c in Targets(items, kind)
    ensures exists i :: 0 <= i < |items| && items[i].kind == kind && items[i].targetId == c
  {
    var init, x := items[..|items| - 1], items[|items| - 1];
    if c in Targets(init, kind) {
      TargetFrom(init, kind, c);
      var i :| 0 <= i < |init| && init[i].kind == kind && init[i].targetId == c;
      assert items[i] == init[i];
    }
  }

  lemma {:induction false} TargetsDistinct(items: seq<Item>, kind: MemberKind)
    requires Distinct(items)
    ensures NoRepeats(Targets(items, kind))
  {
    if items != [] {
      var init, x := items[..|items| - 1], items[|items| - 1];
      TargetsDistinct(init, kind);
      assert items == init + [x];
      LastTargetNew(init, x);
    }
  }

  lemma {:induction false} LastTargetNew(init: seq<Item>, x: Item)
    requires Distinct(init + [x])
    ensures x.targetId !in Targets(init, x.kind)
  {
    if init != [] {
      var n := |init| - 1;
      assert (init + [x])[n].Id() != (init + [x])[n + 1].Id();
      forall i, j | 0 <= i < j < n + 1 ensures (init[..n] + [x])[i].Id() != (init[..n] + [x])[j].Id() {
        assert (init + [x])[i].Id() != (init + [x])[if j < n then j else n + 1].Id();
      }
      LastTargetNew(init[..n], x);
    }
  }

  lemma {:induction false} TargetsAreNodes(items: seq<Item>)
    ensures Elements(Targets(items, KindNode)) == NodeSet(items)
  {
    if items != [] {
      var init, x := items[..|items| - 1], items[|items| - 1];
      TargetsAreNodes(init);
      assert items == init + [x];
      NodeSetConcat(init, [x]);
      if x.kind == KindNode {
        ElementsSnoc(Targets(init, KindNode), x.targetId);
        assert NodeSet([x]) == {x.targetId};
      } else {
        assert Targets(init, KindNode) + [] == Targets(init, KindNode);
        assert NodeSet([x]) == {};
      }
    }
  }

  /** The children of a group: existing groups of lower rank, reached by an add group_ref, none twice. */
  lemma ChildrenOk(st: Stage, g: string, c: string)
    requires StageOk(st) && g in st.rank && c in MemoOf(st.ctx, st.rank, g).childGroupIds
    ensures c in st.rank && st.rank[c] < st.rank[g] && HasAddRef(st.ctx.groups[g].sources, c)
  {
    var items, n := GroupItems(st.ctx, st.rank, g), |Sources(st.ctx, g)|;
    TargetFrom(items, KindGroup, c);
    var i :| 0 <= i < |items| && items[i].kind == KindGroup && items[i].targetId == c;
    MembersBelow(st.ctx, st.rank, g, i);
    assert items[i] in items;
    MemberHasRef(st.ctx, st.rank, g, n, items[i]);
  }

  lemma ChildrenDistinct(st: Stage, g: string)
    requires StageOk(st) && g in st.rank
    ensures NoRepeats(MemoOf(st.ctx, st.rank, g).childGroupIds)
  {
    ItemsDistinct(st.ctx, st.rank, g, |Sources(st.ctx, g)|);
    TargetsDistinct(GroupItems(st.ctx, st.rank, g), KindGroup);
  }

  // ---- The rewrite of one parent ----

  /** A member of `g` after the rewrite: a redirected reference names its derived group. */
  ghost function Retarget(st: Stage, g: string, m: Member): Member
    requires StageOk(st) && g in st.rank
  {
    if m.kind == KindGroup && m.targetId in st.rank && Redirected(st, g, m.targetId)
    then m.(targetId := st.derivedId(g, m.targetId),
            displayName := DerivedName(st.ctx.groups[g].name, st.ctx.groups[m.targetId].name))
    else m
  }

  /** The rewritten group: its memo with every redirected reference retargeted. */
  ghost predicate Rewritten(st: Stage, rg: ResolvedGroup, g: string)
    requires StageOk(st) && g in st.rank
  {
    var m, group := MemoOf(st.ctx, st.rank, g), st.ctx.groups[g];
    && rg.id == g && rg.name == group.name && rg.groupType == group.groupType
    && rg.emptyFallbackPass == group.emptyFallbackPass
    && rg.nodeLogicalIds == m.nodeLogicalIds
    && RewrittenIds(st, g, m.childGroupIds, rg.childGroupIds, |m.childGroupIds|)
    && RewrittenMembers(st, g, m.members, rg.members, |m.members|)
  }

  /** The first `done` members are retargeted, the others as they were. */
  ghost predicate RewrittenMembers(st: Stage, g: string, ms: seq<Member>, ms': seq<Member>, done: nat)
    requires StageOk(st) && g in st.rank
  {
    |ms'| == |ms| && forall i :: 0 <= i < |ms| ==> ms'[i] == if i < done then Retarget(st, g, ms[i]) else ms[i]
  }

  /** The reference from `p` to its child `c` is redirected. */
  ghost predicate RedirectedRef(st: Stage, p: string, c: string)
    requires StageOk(st)
  {
    p in st.rank && c in st.rank && c in MemoOf(st.ctx, st.rank, p).childGroupIds && Redirected(st, p, c)
  }

  /** The derived groups `ds` belong to the redirected children `cs` of `g`. */
  ghost predicate DerivedFor(st: Stage, g: string, ds: seq<ResolvedGroup>, cs: seq<string>)
    requires StageOk(st) && g in st.rank
  {
    |ds| == |cs| && forall i :: 0 <= i < |ds| ==> RedirectedRef(st, g, cs[i]) && IsDerived(st, ds[i], g, cs[i])
  }

  /** The derived group of a reference, if its filter rejects some leaf of the child. */
  method DeriveChild(st: Stage, ev: Evaluator, parent: ResolvedGroup, c: string) returns (d: Option<ResolvedGroup>)
    requires StageOk(st) && ev.Valid() && ev.resolving == {} && ev.ctx == st.ctx && ev.rank == st.rank
    requires parent.id in st.rank && parent.name == st.ctx.groups[parent.id].name && c in st.rank
    modifies ev
    ensures ev.Valid() && ev.resolving == {}
    ensures d.Some? <==> Redirected(st, parent.id, c)
    ensures d.Some? ==> IsDerived(st, d.value, parent.id, c)
  {
    var f := FindAddFilter(Sources(st.ctx, parent.id), c);
    if IsEmptyFilter(f) { return None; }
    var child, _ := ev.ResolveGroupMemo(c);
    var members, nodeIds, anyOut := FilterLeaves(st.ctx, f, child.leafItems);
    if !anyOut { return None; }
    var group := st.ctx.groups[c];
    d := Some(ResolvedGroup(st.derivedId(parent.id, c), DerivedName(parent.name, group.name), group.groupType, false, false,
                            members, [], nodeIds, set x | x in nodeIds));
  }

  lemma AdvanceTargets(items: seq<Item>, k: nat)
    requires k < |items|
    ensures Targets(items[..k + 1], KindGroup) ==
            Targets(items[..k], KindGroup) + if items[k].kind == KindGroup then [items[k].targetId] else []
    ensures items[k].kind == KindGroup ==>
              |Targets(items[..k], KindGroup)| < |Targets(items, KindGroup)| &&
              Targets(items, KindGroup)[|Targets(items[..k], KindGroup)|] == items[k].targetId
  {
    assert items[..k + 1][..k] == items[..k];
    TargetsPrefix(items, k, KindGroup);
  }

  /** The redirected ones among the references `refs` of `g`, in order. */
  ghost function RedirectedOf(st: Stage, g: string, refs: seq<string>): seq<string>
    requires StageOk(st) && g in st.rank
  {
    if refs == [] then []
    else
      var c := refs[|refs| - 1];
      RedirectedOf(st, g, refs[..|refs| - 1]) + if c in st.rank && Redirected(st, g, c) then [c] else []
  }

  lemma {:induction false} RedirectedAre(st: Stage, g: string, refs: seq<string>)
    requires StageOk(st) && g in st.rank
    ensures forall c :: c in RedirectedOf(st, g, refs) <==> c in refs && c in st.rank && Redirected(st, g, c)
    decreases |refs|
  {
    if refs != [] {
      var init, c := refs[..|refs| - 1], refs[|refs| - 1];
      RedirectedAre(st, g, init);
      assert refs == init + [c];
    }
  }

  lemma {:induction false} RedirectedOnce(st: Stage, g: string, refs: seq<string>)
    requires StageOk(st) && g in st.rank && NoRepeats(refs)
    ensures NoRepeats(RedirectedOf(st, g, refs))
    decreases |refs|
  {
    if refs != [] {
      var init, c := refs[..|refs| - 1], refs[|refs| - 1];
      RedirectedOnce(st, g, init);
      RedirectedAre(st, g, init);
      assert c !in init;
    }
  }

  /** The in-place rewrite of the memo of `g`, `k` members done and `at` of its group references. */
  ghost predicate PartWritten(st: Stage, g: string, k: nat, at: nat, ms: seq<Member>, ids: seq<string>)
    requires StageOk(st) && g in st.rank
  {
    var m := MemoOf(st.ctx, st.rank, g);
    RewrittenMembers(st, g, m.members, ms, k) && RewrittenIds(st, g, m.childGroupIds, ids, at)
  }

  /** The derived groups collected so far, for the references `refs`. */
  ghost predicate PartDerived(st: Stage, g: string, refs: seq<string>, ds: seq<ResolvedGroup>, cs: seq<string>)
    requires StageOk(st) && g in st.rank
  {
    DerivedFor(st, g, ds, cs) && cs == RedirectedOf(st, g, refs)
  }

  lemma DerivedNext(st: Stage, g: string, refs: seq<string>, ds: seq<ResolvedGroup>, cs: seq<string>, c: string, d: Option<ResolvedGroup>)
    requires StageOk(st) && g in st.rank && PartDerived(st, g, refs, ds, cs) && c in MemoOf(st.ctx, st.rank, g).childGroupIds
    requires c in st.rank && (d.Some? <==> Redirected(st, g, c)) && (d.Some? ==> IsDerived(st, d.value, g, c))
    ensures d.Some? ==> PartDerived(st, g, refs + [c], ds + [d.value], cs + [c])
    ensures d.None? ==> PartDerived(st, g, refs + [c], ds, cs)
  {
    assert (refs + [c])[..|refs|] == refs;
  }

  lemma WrittenNext(st: Stage, g: string, k: nat, at: nat, ms: seq<Member>, ids: seq<string>, m: Member, c: string)
    requires StageOk(st) && g in st.rank && PartWritten(st, g, k, at, ms, ids) && k < |ms| && at < |ids|
    requires m == Retarget(st, g, MemoOf(st.ctx, st.rank, g).members[k])
    requires c == NewTarget(st, g, MemoOf(st.ctx, st.rank, g).childGroupIds[at])
    ensures PartWritten(st, g, k + 1, at + 1, ms[k := m], ids[at := c])
  {
  }

  /** The `k`-th member is a group reference: derive, retarget member and child id. */
  method RewriteReference(st: Stage, ev: Evaluator, rg: ResolvedGroup, k: nat, members: seq<Member>, children: seq<string>,
                          ghost at: nat)
    returns (members': seq<Member>, children': seq<string>, d: Option<ResolvedGroup>)
    requires StageOk(st) && FreshIds(st) && ev.Valid() && ev.resolving == {} && ev.ctx == st.ctx && ev.rank == st.rank
    requires rg.id in st.rank && rg == FromMemo(st.ctx.groups[rg.id], MemoOf(st.ctx, st.rank, rg.id))
    requires PartWritten(st, rg.id, k, at, members, children) && k < |rg.members| && rg.members[k].kind == KindGroup
    requires at < |rg.childGroupIds| && rg.childGroupIds[at] == rg.members[k].targetId
    modifies ev
    ensures ev.Valid() && ev.resolving == {} && rg.members[k].targetId in st.rank
    ensures PartWritten(st, rg.id, k + 1, at + 1, members', children')
    ensures d.Some? <==> Redirected(st, rg.id, rg.members[k].targetId)
    ensures d.Some? ==> IsDerived(st, d.value, rg.id, rg.members[k].targetId)
  {
    var m := members[k];
    var c := m.targetId;
    ChildrenOk(st, rg.id, c);
    ChildrenDistinct(st, rg.id);
    NotBefore(st, rg.id, rg.childGroupIds, children, at);
    d := DeriveChild(st, ev, rg, c);
    ghost var entry := NewTarget(st, rg.id, c);
    WrittenNext(st, rg.id, k, at, members, children, Retarget(st, rg.id, m), entry);
    if d.Some? {
      members' := members[k := m.(targetId := d.value.id, displayName := d.value.name)];
      children' := ReplaceFirst(children, c, d.value.id, at);
    } else {
      members', children' := members, children;
      assert members[k := m] == members && children[at := entry] == children;
    }
  }

  method RewriteParent(st: Stage, ev: Evaluator, rg: ResolvedGroup)
    returns (rg': ResolvedGroup, ds: seq<ResolvedGroup>)
    requires StageOk(st) && FreshIds(st) && ev.Valid() && ev.resolving == {} && ev.ctx == st.ctx && ev.rank == st.rank
    requires rg.id in st.rank && rg == FromMemo(st.ctx.groups[rg.id], MemoOf(st.ctx, st.rank, rg.id))
    modifies ev
    ensures ev.Valid() && ev.resolving == {}
    ensures Rewritten(st, rg', rg.id) && DerivedFor(st, rg.id, ds, RedirectedOf(st, rg.id, rg.childGroupIds))
  {
    ghost var g, items := rg.id, GroupItems(st.ctx, st.rank, rg.id);
    ghost var refs: seq<string> := [];
    ghost var cs: seq<string> := [];
    var members, children := rg.members, rg.childGroupIds;
    ds := [];
    for k := 0 to |rg.members|
      invariant ev.Valid() && ev.resolving == {} && refs == Targets(items[..k], KindGroup)
      invariant PartWritten(st, g, k, |refs|, members, children) && PartDerived(st, g, refs, ds, cs)
    {
      AdvanceTargets(items, k);
      if rg.members[k].kind != KindGroup {
        SkipMember(st, g, k, |refs|, members, children);
        assert refs + [] == refs;
        continue;
      }
      ghost var c := rg.members[k].targetId;
      var d;
      members, children, d := RewriteReference(st, ev, rg, k, members, children, |refs|);
      DerivedNext(st, g, refs, ds, cs, c, d);
      refs := refs + [c];
      if d.Some? {
        ds := ds + [d.value];
        cs := cs + [c];
      }
    }
    assert items[..|rg.members|] == items;
    rg' := rg.(members := members, childGroupIds := children);
  }

  lemma SkipMember(st: Stage, g: string, k: nat, at: nat, ms: seq<Member>, ids: seq<string>)
    requires StageOk(st) && g in st.rank && PartWritten(st, g, k, at, ms, ids) && k < |ms|
    requires MemoOf(st.ctx, st.rank, g).members[k].kind != KindGroup
    ensures PartWritten(st, g, k + 1, at, ms, ids)
  {
  }

  /** Rewritten entries are fresh ids or other children, so the next child is found where it stands. */
  lemma NotBefore(st: Stage, g: string, ids: seq<string>, ids': seq<string>, at: nat)
    requires StageOk(st) && FreshIds(st) && g in st.rank && RewrittenIds(st, g, ids, ids', at) && NoRepeats(ids)
    requires at < |ids| && ids[at] in st.rank
    ensures ids'[at] == ids[at] && forall i :: 0 <= i < at ==> ids'[i] != ids[at]
  {
    forall i | 0 <= i < at ensures ids'[i] != ids[at] {
      assert ids'[i] == NewTarget(st, g, ids[i]);
    }
  }

  // ---- The rewritten graph ----

  /** `d` is the derived group of some redirected reference. */
  ghost predicate DerivedGroup(st: Stage, d: ResolvedGroup)
    requires StageOk(st)
  {
    exists p, c :: RedirectedRef(st, p, c) && IsDerived(st, d, p, c)
  }

  /** The table holds every rewritten group and the derived group of every redirected reference. */
  ghost predicate TableOk(st: Stage, t: Table)
    requires StageOk(st)
  {
    && (forall g :: g in st.rank ==> g in t && Rewritten(st, t[g], g))
    && (forall k :: k in t ==> t[k].id == k)
    && (forall k :: k in t && k !in st.rank ==> DerivedGroup(st, t[k]))
    && (forall g, c :: RedirectedRef(st, g, c) ==> st.derivedId(g, c) in t)
  }

  ghost function TableRank(st: Stage, t: Table): map<string, nat> {
    map k | k in t :: if k in st.rank then st.rank[k] + 1 else 0
  }

  /** A derived group with the id of a reference is that reference's group. */
  lemma DerivedById(st: Stage, d: ResolvedGroup, g: string, c: string)
    requires StageOk(st) && FreshIds(st) && DerivedGroup(st, d) && g in st.rank && c in st.rank && d.id == st.derivedId(g, c)
    ensures IsDerived(st, d, g, c)
  {
    var p, c' :| RedirectedRef(st, p, c') && IsDerived(st, d, p, c');
    assert st.derivedId(p, c') == d.id;
  }

  lemma DerivedAt(st: Stage, t: Table, g: string, c: string)
    requires StageOk(st) && FreshIds(st) && TableOk(st, t) && g in st.rank && c in st.rank && st.derivedId(g, c) in t
    ensures IsDerived(st, t[st.derivedId(g, c)], g, c)
  {
    DerivedById(st, t[st.derivedId(g, c)], g, c);
  }

  lemma ChildAt(st: Stage, t: Table, g: string, i: nat)
    requires StageOk(st) && TableOk(st, t) && g in st.rank && i < |t[g].childGroupIds|
    ensures |t[g].childGroupIds| == |MemoOf(st.ctx, st.rank, g).childGroupIds|
    ensures t[g].childGroupIds[i] == NewTarget(st, g, MemoOf(st.ctx, st.rank, g).childGroupIds[i])
  {
    assert Rewritten(st, t[g], g);
  }

  /** The target of a rewritten reference is in the table. */
  lemma TargetInTable(st: Stage, t: Table, g: string, c: string)
    requires StageOk(st) && TableOk(st, t) && g in st.rank && c in MemoOf(st.ctx, st.rank, g).childGroupIds
    ensures NewTarget(st, g, c) in t
  {
    ChildrenOk(st, g, c);
    if Redirected(st, g, c) { assert RedirectedRef(st, g, c); }
  }

  lemma DerivedHasNoChildren(st: Stage, t: Table, k: string)
    requires StageOk(st) && TableOk(st, t) && k in t && k !in st.rank
    ensures t[k].childGroupIds == []
  {
    assert DerivedGroup(st, t[k]);
  }

  lemma TableIsRanked(st: Stage, t: Table)
    requires StageOk(st) && FreshIds(st) && TableOk(st, t)
    ensures TableRanked(t, TableRank(st, t))
  {
    var rk := TableRank(st, t);
    forall g, i | g in t && 0 <= i < |t[g].childGroupIds| && t[g].childGroupIds[i] in t
      ensures rk[t[g].childGroupIds[i]] < rk[g]
    {
      if g !in st.rank { DerivedHasNoChildren(st, t, g); }
      ChildAt(st, t, g, i);
      var c := MemoOf(st.ctx, st.rank, g).childGroupIds[i];
      ChildrenOk(st, g, c);
    }
  }
}

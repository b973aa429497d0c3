/**
 What pruning removes and what it spares, in the fields of the snapshot: on a consistent snapshot a
 pass drops a group exactly when it is empty, may not pass traffic through, is no rule's target, and
 every group with a member that mentions its id or name is a selector with a member for something
 else. A mention is not always a reference: a group named like another's id is taken for it. Groups
 that may pass traffic through outlive any number of passes, with the members standing for them.
 */
module PruneOutcomes {
  import opened Policy
  import opened Pipeline
  import opened DerivedGroups
  import opened Prune
  import opened PruneSafety
  import Rules

  /** Empty, and allowed to pass traffic through. */
  ghost predicate PassThrough(g: ResolvedGroup) {
    g.emptyFallbackPass && g.effectiveEmptyPass && g.allNodeIds == {}
  }

  /** The member stands for the group. */
  ghost predicate StandsFor(trim: Trim, m: Member, g: ResolvedGroup) {
    m.kind == KindGroup && trim(m.targetId) == g.id
  }

  /** The member's id or name is the group's id or name. */
  ghost predicate Mentions(trim: Trim, m: Member, g: ResolvedGroup) {
    m.kind == KindGroup &&
    (trim(m.targetId) == g.id || trim(m.displayName) == g.id || trim(m.targetId) == g.name || trim(m.displayName) == g.name)
  }

  /** A selector with a member for something else. */
  ghost predicate Optional(trim: Trim, p: ResolvedGroup, g: ResolvedGroup) {
    p.groupType == Select && exists m :: m in p.members && !StandsFor(trim, m, g)
  }

  ghost predicate Dispensable(trim: Trim, s: Snapshot, g: ResolvedGroup) {
    && g.members == [] && !PassThrough(g)
    && (forall r :: r in s.rules ==> trim(r.targetGroupId) != g.id)
    && (forall p, m :: p in s.groups && m in p.members && Mentions(trim, m, g) ==> Optional(trim, p, g))
  }

  // ---- One pass ----

  /** A referrer has a group member under the key. */
  lemma {:induction false} RefersByMember(trim: Trim, g: ResolvedGroup, ms: seq<Member>, key: string, p: ResolvedGroup) returns (m: Member)
    requires p in MemberRefs(trim, g, ms, key)
    ensures p == g && m in ms && m.kind == KindGroup && key != "" && (trim(m.targetId) == key || trim(m.displayName) == key)
  {
    var init, last := ms[..|ms| - 1], ms[|ms| - 1];
    assert ms == init + [last];
    if p in MemberRefs(trim, g, init, key) {
      m := RefersByMember(trim, g, init, key, p);
    } else {
      m := last;
    }
  }

  lemma {:induction false} ReferrerByMember(trim: Trim, gs: seq<ResolvedGroup>, key: string, p: ResolvedGroup) returns (m: Member)
    requires p in Referrers(trim, gs, key)
    ensures p in gs && m in p.members && m.kind == KindGroup && key != "" && (trim(m.targetId) == key || trim(m.displayName) == key)
  {
    var init, last := gs[..|gs| - 1], gs[|gs| - 1];
    assert gs == init + [last];
    if p in Referrers(trim, init, key) {
      m := ReferrerByMember(trim, init, key, p);
    } else {
      m := RefersByMember(trim, last, last.members, key, p);
    }
  }

  /** On a consistent snapshot a member under the id or the name of a group stands for it. */
  lemma UnderEither(trim: Trim, s: Snapshot, p: ResolvedGroup, m: Member, g: ResolvedGroup)
    requires Consistent(trim, s) && p in s.groups && m in p.members && g in s.groups
    ensures Denotes(trim, m, g) <==> StandsFor(trim, m, g)
  {
    assert MemberOk(trim, s.groups, m);
    if m.kind == KindGroup { var h :| GroupMember(trim, s.groups, m, h); }
  }

  lemma SpareExactly(trim: Trim, s: Snapshot, p: ResolvedGroup, g: ResolvedGroup)
    requires Consistent(trim, s) && p in s.groups && g in s.groups
    ensures CanSpare(trim, p, g) <==> Optional(trim, p, g)
  {
    forall m | m in p.members ensures Denotes(trim, m, g) <==> StandsFor(trim, m, g) { UnderEither(trim, s, p, m, g); }
    if CanSpare(trim, p, g) {
      var i :| 0 <= i < |p.members| && !Denotes(trim, p.members[i], g);
      assert p.members[i] in p.members;
    }
  }

  /** Every parent has a member that mentions the group. */
  lemma ParentByMember(trim: Trim, s: Snapshot, g: ResolvedGroup, p: ResolvedGroup) returns (m: Member)
    requires Consistent(trim, s) && g in s.groups && p in Parents(trim, s.groups, g)
    ensures p in s.groups && m in p.members && Mentions(trim, m, g)
  {
    var a, b := Referrers(trim, s.groups, g.id), Referrers(trim, s.groups, g.name);
    MergeFrom(a, b);
    if p in a {
      m := ReferrerByMember(trim, s.groups, g.id, p);
    } else {
      m := ReferrerByMember(trim, s.groups, g.name, p);
    }
  }

  lemma {:induction false} MemberRefers(trim: Trim, g: ResolvedGroup, ms: seq<Member>, m: Member, key: string)
    requires m in ms && m.kind == KindGroup && (trim(m.targetId) == key || trim(m.displayName) == key) && key != ""
    ensures g in MemberRefs(trim, g, ms, key)
  {
    var init, last := ms[..|ms| - 1], ms[|ms| - 1];
    assert ms == init + [last];
    if m in init {
      MemberRefers(trim, g, init, m, key);
    } else {
      assert IdRef(trim, g, last, key) == [g] || NameRef(trim, g, last, key) == [g];
    }
  }

  lemma {:induction false} MemberIsReferrer(trim: Trim, gs: seq<ResolvedGroup>, p: ResolvedGroup, m: Member, key: string)
    requires p in gs && m in p.members && m.kind == KindGroup && (trim(m.targetId) == key || trim(m.displayName) == key) && key != ""
    ensures p in Referrers(trim, gs, key)
  {
    var init, last := gs[..|gs| - 1], gs[|gs| - 1];
    assert gs == init + [last];
    if p in init {
      MemberIsReferrer(trim, init, p, m, key);
    } else {
      MemberRefers(trim, p, p.members, m, key);
    }
  }

  lemma OwnId(gs: seq<ResolvedGroup>, a: seq<ResolvedGroup>, b: seq<ResolvedGroup>, p: ResolvedGroup)
    requires (forall g, h :: g in gs && h in gs && g.id == h.id ==> g == h) && (forall x :: x in a || x in b ==> x in gs)
    requires p in gs && HasId(MergeById(a, b), p.id)
    ensures p in a || p in b
  {
    MergeFrom(a, b);
    var m := MergeById(a, b);
    var i :| 0 <= i < |m| && m[i].id == p.id;
    assert m[i] in m;
  }

  /** Merging by id loses no group where ids tell groups apart. */
  lemma {:induction false} MergeKeepsBoth(gs: seq<ResolvedGroup>, a: seq<ResolvedGroup>, b: seq<ResolvedGroup>, p: ResolvedGroup)
    requires (forall g, h :: g in gs && h in gs && g.id == h.id ==> g == h) && (forall x :: x in a || x in b ==> x in gs)
    requires p in a || p in b
    ensures p in MergeById(a, b)
  {
    MergeKeepsFirst(a, b);
    if b != [] {
      var init, last := b[..|b| - 1], b[|b| - 1];
      assert b == init + [last];
      var m := MergeById(a, init);
      if p in a || p in init {
        MergeKeepsBoth(gs, a, init, p);
      } else if HasId(m, p.id) {
        OwnId(gs, a, init, p);
      }
    }
  }

  /** A group with a member that mentions `g` is a parent. */
  lemma MentionIsParent(trim: Trim, s: Snapshot, g: ResolvedGroup, p: ResolvedGroup, m: Member)
    requires Consistent(trim, s) && g in s.groups && p in s.groups && m in p.members && Mentions(trim, m, g)
    ensures p in Parents(trim, s.groups, g)
  {
    var a, b := Referrers(trim, s.groups, g.id), Referrers(trim, s.groups, g.name);
    if trim(m.targetId) == g.id || trim(m.displayName) == g.id {
      MemberIsReferrer(trim, s.groups, p, m, g.id);
    } else {
      MemberIsReferrer(trim, s.groups, p, m, g.name);
    }
    forall x | x in a || x in b ensures x in s.groups {
      if x in a { OnlyFrom(trim, s.groups, g.id, x); } else { OnlyFrom(trim, s.groups, g.name, x); }
    }
    MergeKeepsBoth(s.groups, a, b, p);
  }

  lemma TargetedExactly(trim: Trim, s: Snapshot, g: ResolvedGroup)
    requires Consistent(trim, s) && g in s.groups
    ensures Targeted(trim, s.rules, g) <==> exists r :: r in s.rules && trim(r.targetGroupId) == g.id
  {
    if Targeted(trim, s.rules, g) {
      var i :| 0 <= i < |s.rules| && TargetedBy(trim, s.rules[i], g);
      assert s.rules[i] in s.rules && RuleResolves(trim, s.groups, s.rules[i]);
      var h :| RuleTarget(trim, s.groups, s.rules[i], h);
    }
    if r :| r in s.rules && trim(r.targetGroupId) == g.id {
      var i :| 0 <= i < |s.rules| && s.rules[i] == r;
      assert TargetedBy(trim, s.rules[i], g);
    }
  }

  lemma PrunableExactly(trim: Trim, s: Snapshot, g: ResolvedGroup)
    requires Consistent(trim, s) && g in s.groups
    ensures Prunable(trim, s, g) <==> Dispensable(trim, s, g)
  {
    TargetedExactly(trim, s, g);
    if Prunable(trim, s, g) {
      forall p, m | p in s.groups && m in p.members && Mentions(trim, m, g) ensures Optional(trim, p, g) {
        MentionIsParent(trim, s, g, p, m);
        var i :| 0 <= i < |Parents(trim, s.groups, g)| && Parents(trim, s.groups, g)[i] == p;
        SpareExactly(trim, s, p, g);
      }
    }
    if Dispensable(trim, s, g) {
      var parents := Parents(trim, s.groups, g);
      forall i | 0 <= i < |parents| ensures CanSpare(trim, parents[i], g) {
        var m := ParentByMember(trim, s, g, parents[i]);
        SpareExactly(trim, s, parents[i], g);
      }
    }
  }

  /** The snapshot has a group with this id. */
  ghost predicate Has(s: Snapshot, id: string) {
    exists g :: g in s.groups && g.id == id
  }

  /** A pass drops exactly the dispensable groups, with exactly the members that stand for them. */
  lemma PassDropsExactly(trim: Trim, s: Snapshot, g: ResolvedGroup)
    requires Consistent(trim, s) && g in s.groups
    ensures Has(Pass(trim, s), g.id) <==> !Dispensable(trim, s, g)
    ensures forall p, m :: p in s.groups && m in p.members && StandsFor(trim, m, g) ==>
              (m in After(trim, s, p).members <==> !Dispensable(trim, s, g))
  {
    PrunableExactly(trim, s, g);
    if !Prunable(trim, s, g) { PassKeeps(trim, s, g); }
    if Has(Pass(trim, s), g.id) {
      var g' :| g' in Pass(trim, s).groups && g'.id == g.id;
      var h := PassFrom(trim, s, g');
    }
    forall p, m | p in s.groups && m in p.members && StandsFor(trim, m, g)
      ensures m in After(trim, s, p).members <==> !Dispensable(trim, s, g)
    {
      KeptMembersAre(trim, PrunedIds(trim, s), PrunedNames(trim, s), p.members);
      assert MemberOk(trim, s.groups, m);
      var h :| GroupMember(trim, s.groups, m, h);
      MemberPrunedExactly(trim, s, m, h);
    }
  }

  // ---- Snapshots of any kind ----

  /** The member is listed under the group's id or name. */
  ghost predicate ListedFor(trim: Trim, m: Member, g: ResolvedGroup) {
    (trim(m.targetId) != "" && trim(m.targetId) == g.id) || (trim(m.displayName) != "" && trim(m.displayName) == g.name)
  }

  /**
   Consistent or not: what is found prunable is empty and no rule's target by id or name, and a group
   with a group member under its id is a selector that keeps a member not listed for it.
   */
  lemma PrunableIsHarmless(trim: Trim, s: Snapshot, g: ResolvedGroup)
    requires Prunable(trim, s, g)
    ensures g.members == [] && !PassThrough(g)
    ensures forall r :: r in s.rules ==> (trim(r.targetGroupId) == g.id ==> g.id == "") && (trim(r.targetGroupName) == g.name ==> g.name == "")
    ensures forall p, m :: p in s.groups && m in p.members && m.kind == KindGroup && g.id != "" && (trim(m.targetId) == g.id || trim(m.displayName) == g.id) ==>
              p.groupType == Select && exists k :: k in p.members && !ListedFor(trim, k, g)
  {
    forall r | r in s.rules ensures !TargetedBy(trim, r, g) { var i :| 0 <= i < |s.rules| && s.rules[i] == r; }
    forall p, m | p in s.groups && m in p.members && m.kind == KindGroup && g.id != "" && (trim(m.targetId) == g.id || trim(m.displayName) == g.id)
      ensures p.groupType == Select && exists k :: k in p.members && !ListedFor(trim, k, g)
    {
      var a, parents := Referrers(trim, s.groups, g.id), Parents(trim, s.groups, g);
      MemberIsReferrer(trim, s.groups, p, m, g.id);
      MergeKeepsFirst(a, Referrers(trim, s.groups, g.name));
      var i :| 0 <= i < |a| && a[i] == p;
      assert parents[i] == p;
      var j :| 0 <= j < |p.members| && !Denotes(trim, p.members[j], g);
      assert p.members[j] in p.members && !ListedFor(trim, p.members[j], g);
    }
  }

  /** Consistent or not: a group goes exactly when some prunable group shares its id or its name. */
  lemma DroppedExactly(trim: Trim, s: Snapshot, g: ResolvedGroup)
    requires g in s.groups
    ensures GroupPruned(PrunedIds(trim, s), PrunedNames(trim, s), g) <==>
            exists h :: h in s.groups && Prunable(trim, s, h) && ((h.id == g.id && g.id != "") || (h.name == g.name && g.name != ""))
  {
    if g.id in PrunedIds(trim, s) { var h := FromIds(trim, s, g.id); }
    if g.name in PrunedNames(trim, s) { var h := FromNames(trim, s, g.name); }
    if h :| h in s.groups && Prunable(trim, s, h) && ((h.id == g.id && g.id != "") || (h.name == g.name && g.name != "")) {
      InIds(trim, s, h);
    }
  }

  /** ... and a member exactly when it is listed under the id or the name of a prunable group. */
  lemma MemberDroppedExactly(trim: Trim, s: Snapshot, p: ResolvedGroup, m: Member)
    requires m in p.members
    ensures m !in After(trim, s, p).members <==> exists h :: h in s.groups && Prunable(trim, s, h) && ListedFor(trim, m, h)
  {
    KeptMembersAre(trim, PrunedIds(trim, s), PrunedNames(trim, s), p.members);
    if trim(m.targetId) in PrunedIds(trim, s) { var h := FromIds(trim, s, trim(m.targetId)); }
    if trim(m.displayName) in PrunedNames(trim, s) { var h := FromNames(trim, s, trim(m.displayName)); }
    if h :| h in s.groups && Prunable(trim, s, h) && ListedFor(trim, m, h) { InIds(trim, s, h); }
  }

  /** So of two groups with one name, the one with members goes with the empty one. */
  lemma NamesakeDropped(trim: Trim, s: Snapshot, g: ResolvedGroup, h: ResolvedGroup)
    requires g in s.groups && h in s.groups && g.name == h.name != "" && Prunable(trim, s, h)
    requires forall k :: k in s.groups && k.id == g.id ==> k == g
    ensures !Has(Pass(trim, s), g.id)
  {
    InIds(trim, s, h);
    KeptGroupsAre(trim, PrunedIds(trim, s), PrunedNames(trim, s), s.groups);
  }

  // ---- Any number of passes ----

  /** The group in some snapshot: same but for its members. */
  ghost predicate SameButMembers(g: ResolvedGroup, g': ResolvedGroup) {
    g' == g.(members := g'.members)
  }

  lemma {:induction false} PassThroughSurvives(trim: Trim, s: Snapshot, n: nat, g: ResolvedGroup) returns (g': ResolvedGroup)
    requires Consistent(trim, s) && g in s.groups && PassThrough(g)
    ensures g' in Passes(trim, s, n).groups && SameButMembers(g, g')
  {
    if n == 0 {
      g' := g;
    } else {
      var h := PassThroughSurvives(trim, s, n - 1, g);
      var before := Passes(trim, s, n - 1);
      RunConsistent(trim, s, n - 1);
      PassKeeps(trim, before, h);
      g' := After(trim, before, h);
    }
  }

  /** Members standing for a pass-through group stay in their groups, which stay with them. */
  lemma {:induction false} PassThroughStaysMember(trim: Trim, s: Snapshot, n: nat, g: ResolvedGroup, p: ResolvedGroup, m: Member)
    returns (p': ResolvedGroup)
    requires Consistent(trim, s) && g in s.groups && PassThrough(g) && p in s.groups && m in p.members && StandsFor(trim, m, g)
    ensures p' in Passes(trim, s, n).groups && SameButMembers(p, p') && m in p'.members
  {
    if n == 0 {
      p' := p;
    } else {
      var q := PassThroughStaysMember(trim, s, n - 1, g, p, m);
      var h := PassThroughSurvives(trim, s, n - 1, g);
      RunConsistent(trim, s, n - 1);
      p' := StaysMember(trim, Passes(trim, s, n - 1), h, q, m);
    }
  }

  lemma StaysMember(trim: Trim, s: Snapshot, g: ResolvedGroup, p: ResolvedGroup, m: Member) returns (p': ResolvedGroup)
    requires Consistent(trim, s) && g in s.groups && PassThrough(g) && p in s.groups && m in p.members && StandsFor(trim, m, g)
    ensures p' in Pass(trim, s).groups && SameButMembers(p, p') && m in p'.members
  {
    PassDropsExactly(trim, s, g);
    PassKeeps(trim, s, p);
    p' := After(trim, s, p);
  }

  // ---- Mentions and references ----

  /** No group is named like another group's id. */
  ghost predicate NamesApart(s: Snapshot) {
    forall g, h :: g in s.groups && h in s.groups && g.name == h.id ==> g == h
  }

  /** With names and ids apart a mention is a reference. */
  lemma MentionRefers(trim: Trim, s: Snapshot, g: ResolvedGroup, p: ResolvedGroup, m: Member)
    requires Consistent(trim, s) && NamesApart(s) && g in s.groups && p in s.groups && m in p.members
    ensures Mentions(trim, m, g) <==> StandsFor(trim, m, g)
  {
    assert MemberOk(trim, s.groups, m);
    if m.kind == KindGroup { var h :| GroupMember(trim, s.groups, m, h); }
  }

  // ---- A group spared by a name ----

  const anId := ResolvedGroup("A", "empty", Select, false, false, [], [], [], {})
  const namedLikeIt := ResolvedGroup("B", "A", Select, false, false, [Member(KindNode, "n", "node", 0)], [], ["n"], {"n"})
  const tester := ResolvedGroup("T", "test", UrlTest, false, false, [Member(KindGroup, "B", "A", 0)], ["B"], [], {"n"})
  const mistaken := Snapshot([anId, namedLikeIt, tester], [], [])

  lemma MistakenConsistent()
    ensures Consistent(identity, mistaken)
  {
    var gs := mistaken.groups;
    assert gs[0] == anId && gs[1] == namedLikeIt && gs[2] == tester;
    forall g | g in gs ensures g == anId || g == namedLikeIt || g == tester {}
    assert GroupMember(identity, gs, tester.members[0], namedLikeIt);
    forall g, m | g in gs && m in g.members ensures MemberOk(identity, gs, m) {
      assert m == namedLikeIt.members[0] || m == tester.members[0];
    }
  }

  /**
   An empty group that no rule and no member refers to stays for good when a group that is not a
   selector has a member named like its id.
   */
  lemma {:induction false} SparedByName(n: nat)
    ensures Consistent(identity, mistaken) && anId.members == [] && !PassThrough(anId) && mistaken.rules == []
    ensures forall p, m :: p in mistaken.groups && m in p.members ==> !StandsFor(identity, m, anId)
    ensures Passes(identity, mistaken, n) == mistaken && anId in mistaken.groups
  {
    MistakenConsistent();
    var gs := mistaken.groups;
    assert gs[0] == anId && gs[2] == tester;
    forall p, m | p in gs && m in p.members ensures !StandsFor(identity, m, anId) {
      assert m == namedLikeIt.members[0] || m == tester.members[0];
    }
    if n > 0 {
      SparedByName(n - 1);
      NothingDispensable();
    }
  }

  lemma NotOptional()
    ensures !Dispensable(identity, mistaken, anId)
  {
    var m := tester.members[0];
    assert tester == mistaken.groups[2] && m in tester.members && Mentions(identity, m, anId);
  }

  lemma IdlePass(trim: Trim, s: Snapshot)
    requires Consistent(trim, s) && forall g :: g in s.groups ==> !Dispensable(trim, s, g)
    ensures Pass(trim, s) == s
  {
    forall i | 0 <= i < |s.groups| ensures !Prunable(trim, s, s.groups[i]) {
      assert s.groups[i] in s.groups;
      PrunableExactly(trim, s, s.groups[i]);
    }
  }

  lemma NothingDispensable()
    ensures Pass(identity, mistaken) == mistaken
  {
    MistakenConsistent();
    NotOptional();
    forall g | g in mistaken.groups ensures !Dispensable(identity, mistaken, g) {
      assert g == anId || g == namedLikeIt || g == tester;
    }
    IdlePass(identity, mistaken);
  }
}

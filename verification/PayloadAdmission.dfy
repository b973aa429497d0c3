/**
 Which nodes inputs with one digest payload admit. The payload holds neither the excluded ids nor the
 action for nodes under review, and it sorts admission rules stably where the resolver's exchange sort
 does not. So two inputs with the same payload admit the same nodes, whatever expressions and
 conditions mean, exactly when they hold the same active nodes out and order the rules to the same verdicts.
 */
module PayloadAdmission {
  import opened Wrappers
  import opened Policy
  import opened Sorting
  import opened Pipeline
  import opened Admission
  import opened Resolve
  import Digest

  // ---- Verdicts of ordered rules ----

  /** The first rule whose expression is among the hits admits; without one the node is admitted. */
  predicate Verdict(s: seq<AdmissionRule>, hits: set<string>) {
    s == [] || if s[0].expression in hits then !Blocking(s[0].action) else Verdict(s[1..], hits)
  }

  /** Any two expressions, taken as all that match, get the same verdict. */
  ghost predicate SameVerdicts(s: seq<AdmissionRule>, s': seq<AdmissionRule>) {
    forall r, r' :: r in s && r' in s ==> PairVerdict(s, r, r') == PairVerdict(s', r, r')
  }

  predicate PairVerdict(s: seq<AdmissionRule>, r: AdmissionRule, r': AdmissionRule) {
    Verdict(s, {r.expression, r'.expression})
  }

  ghost predicate DecideAlike(s: seq<AdmissionRule>, s': seq<AdmissionRule>) {
    forall m: Expressions, n: Node :: FirstMatchAdmits(m, s, n) == FirstMatchAdmits(m, s', n)
  }

  lemma {:induction false} VerdictIsMatch(m: Expressions, s: seq<AdmissionRule>, n: Node, hits: set<string>)
    requires forall e :: m(n, e) <==> e in hits
    ensures FirstMatchAdmits(m, s, n) == Verdict(s, hits)
  {
    if s != [] { VerdictIsMatch(m, s[1..], n, hits); }
  }

  /** The first match decides, also when only it and other matching expressions count as hits. */
  lemma {:induction false} FirstHit(m: Expressions, s: seq<AdmissionRule>, n: Node) returns (r: AdmissionRule)
    requires !NoMatch(m, s, n)
    ensures r in s && m(n, r.expression) && FirstMatchAdmits(m, s, n) == !Blocking(r.action)
    ensures forall hits: set<string> :: r.expression in hits && (forall e :: e in hits ==> m(n, e)) ==>
              Verdict(s, hits) == !Blocking(r.action)
  {
    if m(n, s[0].expression) {
      r := s[0];
    } else {
      assert s == [s[0]] + s[1..];
      r := FirstHit(m, s[1..], n);
    }
  }

  lemma {:induction false} NoHit(m: Expressions, s: seq<AdmissionRule>, n: Node)
    requires NoMatch(m, s, n)
    ensures FirstMatchAdmits(m, s, n)
  {
    if s != [] {
      assert s[0] in s && s == [s[0]] + s[1..];
      NoHit(m, s[1..], n);
    }
  }

  lemma VerdictsDecide(m: Expressions, s: seq<AdmissionRule>, s': seq<AdmissionRule>, n: Node)
    requires SameVerdicts(s, s') && forall r :: r in s <==> r in s'
    ensures FirstMatchAdmits(m, s, n) == FirstMatchAdmits(m, s', n)
  {
    if NoMatch(m, s, n) {
      NoHit(m, s, n);
      NoHit(m, s', n);
    } else {
      var r := FirstHit(m, s, n);
      var r' := FirstHit(m, s', n);
      assert PairVerdict(s, r, r') == PairVerdict(s', r, r');
    }
  }

  /**
   Two arrangements of the same rules decide alike, whatever matches, exactly when all pairs of
   expressions get the same verdict.
   */
  lemma VerdictsExactly(s: seq<AdmissionRule>, s': seq<AdmissionRule>)
    requires forall r :: r in s <==> r in s'
    ensures DecideAlike(s, s') <==> SameVerdicts(s, s')
  {
    if SameVerdicts(s, s') {
      forall m: Expressions, n: Node ensures FirstMatchAdmits(m, s, n) == FirstMatchAdmits(m, s', n) {
        VerdictsDecide(m, s, s', n);
      }
    }
    if DecideAlike(s, s') {
      forall r, r' | r in s && r' in s ensures PairVerdict(s, r, r') == PairVerdict(s', r, r') {
        var hits, n := {r.expression, r'.expression}, Node("", "", "", true);
        var m: Expressions := (k: Node, e: string) => e in hits;
        VerdictIsMatch(m, s, n, hits);
        VerdictIsMatch(m, s', n, hits);
      }
    }
  }

  // ---- Inputs with one payload ----

  /** What is digested of an input whose groups have taken their sources. */
  function Digested(a: Input, gs: seq<NodeGroup>): Digest.DigestInput {
    Digest.DigestInput(a.nodes, gs, match a.groupSources case None => map[] case Some(m) => m, map[], a.policyRules,
                       a.admissionRules, a.riskRevision, a.riskDecisions, a.globalFilter)
  }

  ghost predicate SamePayload(a: Input, ga: seq<NodeGroup>, b: Input, gb: seq<NodeGroup>) {
    Digest.PayloadOf(Digested(a, ga), []) == Digest.PayloadOf(Digested(b, gb), [])
  }

  lemma SameElements<T(!new)>(le: (T, T) -> bool, s: seq<T>, s': seq<T>)
    requires Digest.SortedImage(Digest.Same, le, s) == Digest.SortedImage(Digest.Same, le, s')
    ensures forall x :: x in s <==> x in s'
  {
    Digest.MapSame(s);
    Digest.MapSame(s');
    StableSortElements(le, s);
    StableSortElements(le, s');
  }

  lemma PayloadElements(a: Input, ga: seq<NodeGroup>, b: Input, gb: seq<NodeGroup>)
    requires SamePayload(a, ga, b, gb)
    ensures forall n :: n in a.nodes <==> n in b.nodes
    ensures forall r :: r in a.admissionRules <==> r in b.admissionRules
    ensures forall d :: d in a.riskDecisions <==> d in b.riskDecisions
    ensures a.riskRevision == b.riskRevision
  {
    var p, q := Digest.PayloadOf(Digested(a, ga), []), Digest.PayloadOf(Digested(b, gb), []);
    assert p.nodes == q.nodes && p.admissionRules == q.admissionRules && p.riskDecisions == q.riskDecisions;
    SameElements(Digest.NodeLe, a.nodes, b.nodes);
    SameElements(Digest.AdmissionLe, a.admissionRules, b.admissionRules);
    SameElements(Digest.RiskLe, a.riskDecisions, b.riskDecisions);
  }

  lemma PayloadFilter(a: Input, ga: seq<NodeGroup>, b: Input, gb: seq<NodeGroup>, o: Oracle, n: Node)
    requires SamePayload(a, ga, b, gb)
    ensures MatchesFilter(o, a.globalFilter, n) == MatchesFilter(o, b.globalFilter, n)
  {
    var p, q := Digest.PayloadOf(Digested(a, ga), []), Digest.PayloadOf(Digested(b, gb), []);
    assert p.globalFilter == q.globalFilter;
  }

  // ---- Admission ----

  /** The node is out by its id or by risk, before any rule is asked. */
  ghost predicate HeldOut(a: Input, n: Node) {
    n.logicalId in a.excludedIds || RiskBlocked(a.riskDecisions, a.riskRevision, a.riskReview, n.logicalId)
  }

  ghost predicate AdmitAlike(env: Environment, a: Input, b: Input) {
    forall n :: n in a.nodes ==> Admitted(env, a, n) == Admitted(env, b, n)
  }

  ghost predicate AlwaysAdmitAlike(a: Input, b: Input) {
    forall env: Environment :: AdmitAlike(env, a, b)
  }

  ghost predicate HoldOutAlike(a: Input, b: Input) {
    forall n :: n in a.nodes && n.active ==> HeldOut(a, n) == HeldOut(b, n)
  }

  /** Some node gets as far as the rules. */
  ghost predicate RulesAsked(a: Input) {
    exists n :: n in a.nodes && n.active && !HeldOut(a, n)
  }

  ghost predicate RulesAlike(a: Input, b: Input) {
    SameVerdicts(Exchanged(a.admissionRules), Exchanged(b.admissionRules))
  }

  lemma RulesSame(a: Input, b: Input)
    requires forall r :: r in a.admissionRules <==> r in b.admissionRules
    ensures forall r :: r in Exchanged(a.admissionRules) <==> r in Exchanged(b.admissionRules)
  {
    ExchangedSorts(a.admissionRules);
    ExchangedSorts(b.admissionRules);
  }

  /** An environment in which every filter passes and exactly the given expressions match. */
  function Permissive(checks: Checks, hits: set<string>): Environment {
    Environment(checks, Oracle((c: Condition, n: Node) => true, (s: string) => true, (p: string, s: string) => true,
                               (s: string) => false, (s: string) => s),
                (n: Node, e: string) => e in hits, (f: FilterSpec) => true, (p: string, c: string) => p + c)
  }

  lemma PermissiveAdmits(checks: Checks, hits: set<string>, a: Input, n: Node)
    ensures Admitted(Permissive(checks, hits), a, n) <==>
            n.active && !HeldOut(a, n) && Verdict(Exchanged(a.admissionRules), hits)
  {
    var env := Permissive(checks, hits);
    VerdictIsMatch(env.expressions, Exchanged(a.admissionRules), n, hits);
  }

  lemma {:induction false} NoHitsVerdict(s: seq<AdmissionRule>)
    ensures Verdict(s, {})
  {
    if s != [] { NoHitsVerdict(s[1..]); }
  }

  const anyChecks := Checks((s: string) => true, (s: string) => true, (s: string) => false, (s: string) => false, (s: MemberSource) => None)

  lemma AlikeHoldsOut(a: Input, b: Input)
    requires AlwaysAdmitAlike(a, b)
    ensures HoldOutAlike(a, b)
  {
    forall n | n in a.nodes && n.active ensures HeldOut(a, n) == HeldOut(b, n) {
      assert AdmitAlike(Permissive(anyChecks, {}), a, b);
      PermissiveAdmits(anyChecks, {}, a, n);
      PermissiveAdmits(anyChecks, {}, b, n);
      NoHitsVerdict(Exchanged(a.admissionRules));
      NoHitsVerdict(Exchanged(b.admissionRules));
    }
  }

  lemma AlikeRules(a: Input, b: Input)
    requires AlwaysAdmitAlike(a, b) && RulesAsked(a)
    ensures RulesAlike(a, b)
  {
    AlikeHoldsOut(a, b);
    var s, s' := Exchanged(a.admissionRules), Exchanged(b.admissionRules);
    var n :| n in a.nodes && n.active && !HeldOut(a, n);
    forall r, r' | r in s && r' in s ensures PairVerdict(s, r, r') == PairVerdict(s', r, r') {
      var hits := {r.expression, r'.expression};
      assert AdmitAlike(Permissive(anyChecks, hits), a, b);
      PermissiveAdmits(anyChecks, hits, a, n);
      PermissiveAdmits(anyChecks, hits, b, n);
    }
  }

  lemma GuardsAdmit(env: Environment, a: Input, ga: seq<NodeGroup>, b: Input, gb: seq<NodeGroup>)
    requires SamePayload(a, ga, b, gb) && HoldOutAlike(a, b) && (RulesAsked(a) ==> RulesAlike(a, b))
    ensures AdmitAlike(env, a, b)
  {
    PayloadElements(a, ga, b, gb);
    RulesSame(a, b);
    forall n | n in a.nodes ensures Admitted(env, a, n) == Admitted(env, b, n) {
      PayloadFilter(a, ga, b, gb, env.oracle, n);
      if n.active && !HeldOut(a, n) {
        VerdictsDecide(env.expressions, Exchanged(a.admissionRules), Exchanged(b.admissionRules), n);
      }
    }
  }

  /**
   Inputs with one payload admit the same nodes in every environment exactly when they hold out the
   same active nodes and, if any node gets to the rules, order these to the same verdicts.
   */
  lemma AdmitAlikeExactly(a: Input, ga: seq<NodeGroup>, b: Input, gb: seq<NodeGroup>)
    requires SamePayload(a, ga, b, gb)
    ensures AlwaysAdmitAlike(a, b) <==> HoldOutAlike(a, b) && (RulesAsked(a) ==> RulesAlike(a, b))
  {
    if AlwaysAdmitAlike(a, b) {
      AlikeHoldsOut(a, b);
      if RulesAsked(a) { AlikeRules(a, b); }
    }
    if HoldOutAlike(a, b) && (RulesAsked(a) ==> RulesAlike(a, b)) {
      forall env: Environment ensures AdmitAlike(env, a, b) { GuardsAdmit(env, a, ga, b, gb); }
    }
  }

  // ---- What suffices, and what does not ----

  lemma SameExchanged(s: seq<AdmissionRule>, s': seq<AdmissionRule>)
    requires Digest.SortedImage(Digest.Same, Digest.AdmissionLe, s) == Digest.SortedImage(Digest.Same, Digest.AdmissionLe, s')
    requires KeysDecide(Digest.AdmissionLe, s)
    ensures Exchanged(s) == Exchanged(s')
  {
    Digest.MapSame(s);
    Digest.MapSame(s');
    Digest.Orders();
    StableSortSorts(Digest.AdmissionLe, s);
    StableSortSorts(Digest.AdmissionLe, s');
    ExchangedSorts(s);
    ExchangedSorts(s');
    SortedPermutationsAgree(Digest.AdmissionLe, Exchanged(s), Exchanged(s'));
  }

  /** With one rule per position, the payload, the excluded ids and whether review allows decide. */
  lemma PayloadSuffices(a: Input, ga: seq<NodeGroup>, b: Input, gb: seq<NodeGroup>)
    requires SamePayload(a, ga, b, gb) && KeysDecide(Digest.AdmissionLe, a.admissionRules)
    requires IdSet(a.excludedIds) == IdSet(b.excludedIds) && (a.riskReview == RiskAllow <==> b.riskReview == RiskAllow)
    ensures AlwaysAdmitAlike(a, b)
  {
    PayloadElements(a, ga, b, gb);
    var p, q := Digest.PayloadOf(Digested(a, ga), []), Digest.PayloadOf(Digested(b, gb), []);
    assert p.admissionRules == q.admissionRules;
    SameExchanged(a.admissionRules, b.admissionRules);
    forall n | n in a.nodes && n.active ensures HeldOut(a, n) == HeldOut(b, n) {
      assert n.logicalId in a.excludedIds <==> n.logicalId in IdSet(a.excludedIds);
      assert n.logicalId in b.excludedIds <==> n.logicalId in IdSet(b.excludedIds);
    }
    AdmitAlikeExactly(a, ga, b, gb);
  }

  /** The node is under review, and nothing else holds it out. */
  ghost predicate UnderReview(a: Input, n: Node) {
    && n in a.nodes && n.active && n.logicalId !in a.excludedIds && a.riskRevision != ""
    && (exists d :: d in a.riskDecisions && d.policyRevisionId == a.riskRevision && d.nodeLogicalId == n.logicalId && d.decision == RiskReview)
    && (forall d :: d in a.riskDecisions && d.policyRevisionId == a.riskRevision && d.nodeLogicalId == n.logicalId ==>
          d.decision != RiskBlock && d.decision != RiskUnknown)
  }

  /** The action for nodes under review is not digested, yet decides. */
  lemma ReviewActionDecides(a: Input, gs: seq<NodeGroup>, n: Node)
    requires UnderReview(a, n)
    ensures var lenient, strict := a.(riskReview := RiskAllow), a.(riskReview := RiskBlock);
            SamePayload(lenient, gs, strict, gs) && !AlwaysAdmitAlike(lenient, strict)
  {
    var lenient, strict := a.(riskReview := RiskAllow), a.(riskReview := RiskBlock);
    assert !HeldOut(lenient, n) && HeldOut(strict, n);
    AdmitAlikeExactly(lenient, gs, strict, gs);
  }

  /** Sorting three rules of which the last goes first. */
  lemma LastFirst(x: AdmissionRule, y: AdmissionRule, z: AdmissionRule)
    requires x.position == y.position && z.position < x.position
    ensures StableSort(Digest.AdmissionLe, [x, y, z]) == [z, x, y]
  {
    var le := Digest.AdmissionLe;
    assert [x, y, z][..2] == [x, y];
    PairSorted(le, x, y);
    assert [x, y][..1] == [x] && [x][..0] == [] && Insert(le, [], z) == [z];
    assert Insert(le, [x], z) == [z, x];
    assert Insert(le, [x, y], z) == [z, x, y];
  }

  lemma InPlace(z: AdmissionRule, x: AdmissionRule, y: AdmissionRule)
    requires x.position == y.position && z.position < x.position
    ensures StableSort(Digest.AdmissionLe, [z, x, y]) == [z, x, y]
  {
    var le := Digest.AdmissionLe;
    assert [z, x, y][..2] == [z, x];
    PairSorted(le, z, x);
    assert Insert(le, [z, x], y) == [z, x, y];
  }

  /** Three rules with the smallest in front are left alone. */
  lemma ExchangesNone(z: AdmissionRule, x: AdmissionRule, y: AdmissionRule)
    requires x.position == y.position && z.position < x.position
    ensures Rounds([z, x, y], 1) == [z, x, y] && Exchanged([z, x, y]) == [z, x, y]
  {
    var t := [z, x, y];
    assert SelectFrom(t, 0, 1) == t && SelectFrom(t, 0, 2) == t && SelectFrom(t, 0, 3) == t;
    assert SelectFrom(t, 1, 2) == t && SelectFrom(t, 1, 3) == t;
    assert Rounds(t, 0) == t && Rounds(t, 1) == t;
  }

  /** The exchange that puts the smallest in front swaps the tied ones. */
  lemma ExchangesTied(x: AdmissionRule, y: AdmissionRule, z: AdmissionRule)
    requires x.position == y.position && z.position < x.position
    ensures Exchanged([x, y, z]) == [z, y, x]
  {
    var s, t := [x, y, z], [z, y, x];
    assert SelectFrom(s, 0, 1) == s && SelectFrom(s, 0, 2) == s;
    assert Exchange(s, 0, 2) == t;
    assert SelectFrom(s, 0, 3) == t;
    assert Rounds(s, 0) == s && Rounds(s, 1) == t;
    assert SelectFrom(t, 1, 2) == t && SelectFrom(t, 1, 3) == t;
  }

  lemma SecondVerdict(z: AdmissionRule, x: AdmissionRule, y: AdmissionRule, hits: set<string>)
    requires z.expression !in hits && x.expression in hits
    ensures Verdict([z, x, y], hits) == !Blocking(x.action)
  {
    assert [z, x, y][1..] == [x, y];
  }

  /** Rules that share a position can be digested alike and still be tried in another order. */
  lemma TiedRulesDecide(a: Input, gs: seq<NodeGroup>, n: Node, x: AdmissionRule, y: AdmissionRule, z: AdmissionRule)
    requires n in a.nodes && n.active && !HeldOut(a, n)
    requires x.position == y.position && z.position < x.position && Blocking(x.action) != Blocking(y.action)
    requires z.expression != x.expression && z.expression != y.expression
    ensures var first, second := a.(admissionRules := [x, y, z]), a.(admissionRules := [z, x, y]);
            SamePayload(first, gs, second, gs) && !AlwaysAdmitAlike(first, second)
  {
    var first, second := a.(admissionRules := [x, y, z]), a.(admissionRules := [z, x, y]);
    Digest.MapSame([x, y, z]);
    Digest.MapSame([z, x, y]);
    LastFirst(x, y, z);
    InPlace(z, x, y);
    ExchangesTied(x, y, z);
    ExchangesNone(z, x, y);
    var s, s', hits := [z, y, x], [z, x, y], {x.expression, y.expression};
    SecondVerdict(z, y, x, hits);
    SecondVerdict(z, x, y, hits);
    assert x == s[2] && y == s[1] && PairVerdict(s, x, y) != PairVerdict(s', x, y);
    assert !HeldOut(first, n);
    AdmitAlikeExactly(first, gs, second, gs);
  }
}

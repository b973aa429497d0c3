/**
 Routing rules: validation, and the resolver's reordering that moves MATCH/FINAL rules last. The
 first-match routing decision survives the reordering exactly when every reachable rule standing
 behind the first MATCH has that MATCH's target; validation with a required terminal MATCH
 guarantees it, validation without one (as the resolver calls it) does not.
 */
module Rules {
  import opened Wrappers
  import opened Policy
  import opened Sorting

  predicate PositionLe(a: PolicyRule, b: PolicyRule) {
    a.position <= b.position
  }

  function ByPosition(rules: seq<PolicyRule>): seq<PolicyRule> {
    StableSort(PositionLe, rules)
  }

  // ---- Validation ----

  ghost predicate RuleOk(c: Checks, ids: set<string>, r: PolicyRule) {
    !c.blank(r.expression) && r.position >= 0 && (ids != {} ==> r.targetGroupId in ids)
  }

  ghost predicate SingleMatch(c: Checks, s: seq<PolicyRule>) {
    forall i, j :: 0 <= i < j < |s| ==> !(c.isMatch(s[i].expression) && c.isMatch(s[j].expression))
  }

  ghost predicate MatchIsLast(c: Checks, s: seq<PolicyRule>) {
    forall i :: 0 <= i < |s| - 1 ==> !c.isMatch(s[i].expression)
  }

  ghost predicate RulesOk(c: Checks, rules: seq<PolicyRule>, ids: set<string>, requireTerminalMatch: bool) {
    && (forall r :: r in rules ==> RuleOk(c, ids, r))
    && SingleMatch(c, ByPosition(rules))
    && (requireTerminalMatch ==> MatchIsLast(c, ByPosition(rules)))
  }

  method ValidatePolicyRules(c: Checks, rules: seq<PolicyRule>, ids: set<string>, requireTerminalMatch: bool)
    returns (err: Option<string>)
    ensures err.None? <==> RulesOk(c, rules, ids, requireTerminalMatch)
  {
    StableSortElements(PositionLe, rules);
    if |rules| == 0 { return None; }
    var sorted := ByPosition(rules);
    var matchIndices: seq<int> := [];
    for k := 0 to |sorted|
      invariant forall i :: 0 <= i < k ==> RuleOk(c, ids, sorted[i])
      invariant forall i :: i in matchIndices <==> 0 <= i < k && c.isMatch(sorted[i].expression)
      invariant forall i, j :: 0 <= i < j < |matchIndices| ==> matchIndices[i] < matchIndices[j]
    {
      var rule := sorted[k];
      assert rule in sorted;
      if c.blank(rule.expression) { return Some("invalid_expression"); }
      if rule.position < 0 { return Some("invalid_position"); }
      if ids != {} && rule.targetGroupId !in ids { return Some("target_group_not_found"); }
      if c.isMatch(rule.expression) {
        assert forall i :: 0 <= i < |matchIndices| ==> matchIndices[i] in matchIndices;
        matchIndices := matchIndices + [k];
      }
    }
    if |matchIndices| > 1 {
      assert matchIndices[0] in matchIndices && matchIndices[1] in matchIndices;
      return Some("invalid_match_rule_ordering");
    }
    if requireTerminalMatch && |matchIndices| == 1 && matchIndices[0] != |sorted| - 1 {
      assert matchIndices[0] in matchIndices;
      return Some("invalid_match_rule_ordering");
    }
    err := None;
  }

  // ---- Reordering ----

  datatype ResolvedRule = ResolvedRule(
    id: string,
    targetGroupId: string,
    targetGroupName: string,
    expression: string,
    position: int,
    isTerminal: bool)

  /** The rules of `s` that are (or are not) terminal, in order. */
  function Pick(c: Checks, s: seq<PolicyRule>, terminal: bool): seq<PolicyRule> {
    if s == [] then []
    else Pick(c, s[..|s| - 1], terminal) +
         if c.isMatch(s[|s| - 1].expression) == terminal then [s[|s| - 1]] else []
  }

  /** Standard rules first, terminal rules last. */
  function Arrange(c: Checks, s: seq<PolicyRule>): seq<PolicyRule> {
    Pick(c, s, false) + Pick(c, s, true)
  }

  function GroupName(groups: seq<NodeGroup>, id: string): string {
    if groups == [] then ""
    else if groups[|groups| - 1].id == id then groups[|groups| - 1].name
    else GroupName(groups[..|groups| - 1], id)
  }

  function Present(c: Checks, groups: seq<NodeGroup>, r: PolicyRule, position: int): ResolvedRule {
    ResolvedRule(r.id, r.targetGroupId, GroupName(groups, r.targetGroupId), r.expression, position, c.isMatch(r.expression))
  }

  method ResolveRules(c: Checks, rules: seq<PolicyRule>, groups: seq<NodeGroup>) returns (final: seq<ResolvedRule>)
    ensures |final| == |Arrange(c, ByPosition(rules))|
    ensures forall i :: 0 <= i < |final| ==> final[i] == Present(c, groups, Arrange(c, ByPosition(rules))[i], i)
  {
    var sorted := ByPosition(rules);
    var standard, terminal := [], [];
    for k := 0 to |sorted|
      invariant standard == Pick(c, sorted[..k], false) && terminal == Pick(c, sorted[..k], true)
    {
      assert sorted[..k + 1][..k] == sorted[..k];
      if c.isMatch(sorted[k].expression) {
        terminal := terminal + [sorted[k]];
      } else {
        standard := standard + [sorted[k]];
      }
    }
    assert sorted[..|sorted|] == sorted;
    final := [];
    var pos := 0;
    for k := 0 to |standard|
      invariant pos == |final| == k
      invariant forall i :: 0 <= i < k ==> final[i] == Present(c, groups, standard[i], i)
    {
      final := final + [Present(c, groups, standard[k], pos)];
      pos := pos + 1;
    }
    for k := 0 to |terminal|
      invariant pos == |final| == |standard| + k
      invariant forall i :: 0 <= i < pos ==> final[i] == Present(c, groups, (standard + terminal)[i], i)
    {
      final := final + [Present(c, groups, terminal[k], pos)];
      pos := pos + 1;
    }
  }

  lemma {:induction false} PickKind(c: Checks, s: seq<PolicyRule>, t: bool)
    ensures forall i :: 0 <= i < |Pick(c, s, t)| ==> c.isMatch(Pick(c, s, t)[i].expression) == t
  {
    if s != [] { PickKind(c, s[..|s| - 1], t); }
  }

  lemma PickSnoc(c: Checks, s: seq<PolicyRule>, x: PolicyRule, t: bool)
    ensures Pick(c, s + [x], t) == if c.isMatch(x.expression) == t then Pick(c, s, t) + [x] else Pick(c, s, t)
  {
    assert (s + [x])[..|s|] == s;
  }

  lemma SnocCounts(a: seq<PolicyRule>, b: seq<PolicyRule>, s: seq<PolicyRule>, x: PolicyRule)
    requires multiset(a) + multiset(b) == multiset(s)
    ensures multiset(a + [x]) + multiset(b) == multiset(s + [x]) == multiset(a) + multiset(b + [x])
  {
    assert multiset(s + [x]) == multiset(s) + multiset{x};
    assert multiset(a + [x]) == multiset(a) + multiset{x} && multiset(b + [x]) == multiset(b) + multiset{x};
  }

  lemma PickLast(c: Checks, s: seq<PolicyRule>)
    requires s != []
    ensures var init, last := s[..|s| - 1], s[|s| - 1];
            && s == init + [last]
            && (c.isMatch(last.expression) ==> Pick(c, s, true) == Pick(c, init, true) + [last] && Pick(c, s, false) == Pick(c, init, false))
            && (!c.isMatch(last.expression) ==> Pick(c, s, false) == Pick(c, init, false) + [last] && Pick(c, s, true) == Pick(c, init, true))
  {
  }

  lemma SplitCounts(a: seq<PolicyRule>, b: seq<PolicyRule>, s: seq<PolicyRule>, x: PolicyRule,
                    a': seq<PolicyRule>, b': seq<PolicyRule>, s': seq<PolicyRule>)
    requires multiset(a) + multiset(b) == multiset(s) && s' == s + [x]
    requires (a' == a + [x] && b' == b) || (a' == a && b' == b + [x])
    ensures multiset(a') + multiset(b') == multiset(s')
  {
    SnocCounts(a, b, s, x);
  }

  lemma {:induction false} PickSplits(c: Checks, s: seq<PolicyRule>)
    ensures multiset(Pick(c, s, false)) + multiset(Pick(c, s, true)) == multiset(s)
  {
    if s != [] {
      var init, last := s[..|s| - 1], s[|s| - 1];
      PickSplits(c, init);
      PickLast(c, s);
      SplitCounts(Pick(c, init, false), Pick(c, init, true), init, last, Pick(c, s, false), Pick(c, s, true), s);
    }
  }

  lemma {:induction false} PickAll(c: Checks, s: seq<PolicyRule>, t: bool)
    requires forall i :: 0 <= i < |s| ==> c.isMatch(s[i].expression) == t
    ensures Pick(c, s, t) == s && Pick(c, s, !t) == []
  {
    if s != [] {
      PickAll(c, s[..|s| - 1], t);
      assert s == s[..|s| - 1] + [s[|s| - 1]];
    }
  }

  /** Nothing is lost, terminal rules are all at the end, and both kinds keep their order. */
  lemma ArrangeIsStablePartition(c: Checks, s: seq<PolicyRule>)
    ensures multiset(Arrange(c, s)) == multiset(s)
    ensures forall i, j :: 0 <= i < j < |Arrange(c, s)| && c.isMatch(Arrange(c, s)[i].expression) ==>
              c.isMatch(Arrange(c, s)[j].expression)
    ensures Pick(c, Arrange(c, s), false) == Pick(c, s, false)
    ensures Pick(c, Arrange(c, s), true) == Pick(c, s, true)
  {
    var std, term := Pick(c, s, false), Pick(c, s, true);
    PickSplits(c, s);
    PickKind(c, s, false);
    PickKind(c, s, true);
    PickConcat(c, std, term, false);
    PickConcat(c, std, term, true);
    PickAll(c, std, false);
    PickAll(c, term, true);
  }

  lemma {:induction false} PickConcat(c: Checks, a: seq<PolicyRule>, b: seq<PolicyRule>, t: bool)
    ensures Pick(c, a + b, t) == Pick(c, a, t) + Pick(c, b, t)
  {
    if b == [] {
      assert a + b == a;
    } else {
      assert (a + b)[..|a + b| - 1] == a + b[..|b| - 1];
      PickConcat(c, a, b[..|b| - 1], t);
    }
  }

  // ---- What is listed ----

  ghost predicate Ascending(s: seq<PolicyRule>) {
    forall i, j :: 0 <= i < j < |s| ==> s[i].position <= s[j].position
  }

  lemma {:induction false} PickFrom(c: Checks, s: seq<PolicyRule>, t: bool)
    ensures forall r :: r in Pick(c, s, t) ==> r in s
  {
    if s != [] { PickFrom(c, s[..|s| - 1], t); }
  }

  lemma {:induction false} PickAscending(c: Checks, s: seq<PolicyRule>, t: bool)
    requires Ascending(s)
    ensures Ascending(Pick(c, s, t))
  {
    if s != [] {
      var init, last := s[..|s| - 1], s[|s| - 1];
      PickAscending(c, init, t);
      PickFrom(c, init, t);
      forall r | r in Pick(c, init, t) ensures r.position <= last.position {
        var i :| 0 <= i < |init| && init[i] == r;
        assert s[i] == r;
      }
    }
  }

  lemma ByPositionAscends(rules: seq<PolicyRule>)
    ensures Ascending(ByPosition(rules)) && multiset(ByPosition(rules)) == multiset(rules)
  {
    StableSortSorts(PositionLe, rules);
    var s := ByPosition(rules);
    forall i, j | 0 <= i < j < |s| ensures s[i].position <= s[j].position { assert PositionLe(s[i], s[j]); }
  }

  /** The entry shows the rule, under its place in the list and the name of its target group. */
  ghost predicate Shows(c: Checks, groups: seq<NodeGroup>, x: ResolvedRule, r: PolicyRule, place: int) {
    && x.id == r.id && x.targetGroupId == r.targetGroupId && x.expression == r.expression && x.position == place
    && (x.isTerminal <==> c.isMatch(r.expression))
    && if exists g :: g in groups && g.id == r.targetGroupId
       then exists g :: g in groups && g.id == r.targetGroupId && g.name == x.targetGroupName
       else x.targetGroupName == ""
  }

  lemma {:induction false} GroupNameIs(groups: seq<NodeGroup>, id: string)
    ensures var name := GroupName(groups, id);
            if exists g :: g in groups && g.id == id then exists g :: g in groups && g.id == id && g.name == name else name == ""
  {
    if groups != [] {
      var init, last := groups[..|groups| - 1], groups[|groups| - 1];
      GroupNameIs(init, id);
      assert groups == init + [last];
      if g :| g in init && g.id == id && last.id != id {
        var h :| h in init && h.id == id && h.name == GroupName(init, id);
        assert h in groups;
      }
    }
  }

  /** In the arrangement of ascending rules terminal ones come last and each kind ascends. */
  lemma ArrangedOrder(c: Checks, sorted: seq<PolicyRule>, i: nat, j: nat)
    requires Ascending(sorted) && i < j < |Arrange(c, sorted)|
    ensures var from := Arrange(c, sorted);
            && (c.isMatch(from[i].expression) ==> c.isMatch(from[j].expression))
            && (c.isMatch(from[i].expression) == c.isMatch(from[j].expression) ==> from[i].position <= from[j].position)
  {
    PickKind(c, sorted, false);
    PickKind(c, sorted, true);
    PickAscending(c, sorted, false);
    PickAscending(c, sorted, true);
  }

  /**
   The list is a permutation of the rules, each shown under its place; terminal ones come last, and
   rules of one kind are in the order of their positions.
   */
  lemma RulesListed(c: Checks, rules: seq<PolicyRule>, groups: seq<NodeGroup>, final: seq<ResolvedRule>)
    returns (from: seq<PolicyRule>)
    requires |final| == |Arrange(c, ByPosition(rules))|
    requires forall i :: 0 <= i < |final| ==> final[i] == Present(c, groups, Arrange(c, ByPosition(rules))[i], i)
    ensures multiset(from) == multiset(rules) && |from| == |final|
    ensures forall i :: 0 <= i < |final| ==> Shows(c, groups, final[i], from[i], i)
    ensures forall i, j :: 0 <= i < j < |final| && final[i].isTerminal ==> final[j].isTerminal
    ensures forall i, j :: 0 <= i < j < |final| && final[i].isTerminal == final[j].isTerminal ==> from[i].position <= from[j].position
  {
    var sorted := ByPosition(rules);
    from := Arrange(c, sorted);
    ByPositionAscends(rules);
    assert multiset(from) == multiset(rules) by { PickSplits(c, sorted); }
    forall i | 0 <= i < |final| ensures Shows(c, groups, final[i], from[i], i) { GroupNameIs(groups, from[i].targetGroupId); }
    forall i, j | 0 <= i < j < |final|
      ensures (final[i].isTerminal ==> final[j].isTerminal) &&
              (final[i].isTerminal == final[j].isTerminal ==> from[i].position <= from[j].position)
    {
      ArrangedOrder(c, sorted, i, j);
    }
  }

  // ---- Routing ----

  /** The target of the first rule whose expression is among those the traffic satisfies. */
  ghost function Decision(hits: iset<string>, s: seq<PolicyRule>): Option<string> {
    if s == [] then None
    else if s[0].expression in hits then Some(s[0].targetGroupId)
    else Decision(hits, s[1..])
  }

  /** Any traffic satisfies a MATCH/FINAL expression. */
  ghost predicate Traffic(c: Checks, hits: iset<string>) {
    forall e: string :: c.isMatch(e) ==> e in hits
  }

  ghost predicate RoutesAlike(c: Checks, a: seq<PolicyRule>, b: seq<PolicyRule>) {
    forall hits: iset<string> :: Traffic(c, hits) ==> Decision(hits, a) == Decision(hits, b)
  }

  ghost predicate FirstMatchAt(c: Checks, s: seq<PolicyRule>, k: nat) {
    k < |s| && c.isMatch(s[k].expression) && forall i :: 0 <= i < k ==> !c.isMatch(s[i].expression)
  }

  /**
   Every standard rule standing behind the first MATCH, unless an earlier standard rule has the same
   expression, routes where that MATCH does.
   */
  ghost predicate LateRulesAgree(c: Checks, s: seq<PolicyRule>) {
    forall k: nat, m: nat :: FirstMatchAt(c, s, k) && k <= m < |Pick(c, s, false)| && NewExpression(Pick(c, s, false), m)
      ==> Pick(c, s, false)[m].targetGroupId == s[k].targetGroupId
  }

  ghost predicate NewExpression(s: seq<PolicyRule>, m: nat) {
    m < |s| && forall i :: 0 <= i < m ==> s[i].expression != s[m].expression
  }

  lemma {:induction false} DecisionConcat(hits: iset<string>, a: seq<PolicyRule>, b: seq<PolicyRule>)
    ensures Decision(hits, a + b) == if Decision(hits, a).Some? then Decision(hits, a) else Decision(hits, b)
  {
    if a == [] {
      assert a + b == b;
    } else {
      assert (a + b)[1..] == a[1..] + b;
      DecisionConcat(hits, a[1..], b);
    }
  }

  /** A decision comes from a first hit. */
  lemma {:induction false} DecisionAt(hits: iset<string>, s: seq<PolicyRule>) returns (m: nat)
    ensures Decision(hits, s).None? <==> forall i :: 0 <= i < |s| ==> s[i].expression !in hits
    ensures Decision(hits, s).Some? ==> m < |s| && s[m].expression in hits && Decision(hits, s) == Some(s[m].targetGroupId)
    ensures Decision(hits, s).Some? ==> forall i :: 0 <= i < m ==> s[i].expression !in hits
  {
    if s == [] || s[0].expression in hits {
      m := 0;
    } else {
      var n := DecisionAt(hits, s[1..]);
      assert forall i :: 1 <= i < |s| ==> s[i] == s[1..][i - 1];
      m := n + 1;
    }
  }

  lemma PickMiddle(c: Checks, a: seq<PolicyRule>, t: seq<PolicyRule>, b: seq<PolicyRule>)
    requires Pick(c, a, false) == a && Pick(c, a, true) == [] && Pick(c, t, true) == t && Pick(c, t, false) == []
    ensures Pick(c, a + t + b, false) == a + Pick(c, b, false) && Pick(c, a + t + b, true) == t + Pick(c, b, true)
  {
    PickThree(c, a, t, b, false);
    PickThree(c, a, t, b, true);
    assert a + [] == a && [] + t == t;
  }

  lemma PickAroundMatch(c: Checks, s: seq<PolicyRule>, k: nat)
    requires FirstMatchAt(c, s, k)
    ensures Pick(c, s, false) == s[..k] + Pick(c, s[k + 1..], false)
    ensures Pick(c, s, true) == [s[k]] + Pick(c, s[k + 1..], true)
  {
    var a, t, b := s[..k], [s[k]], s[k + 1..];
    assert s == a + t + b;
    PickAll(c, a, false);
    PickAll(c, t, true);
    PickMiddle(c, a, t, b);
  }

  lemma PickThree(c: Checks, x: seq<PolicyRule>, y: seq<PolicyRule>, z: seq<PolicyRule>, t: bool)
    ensures Pick(c, x + y + z, t) == Pick(c, x, t) + Pick(c, y, t) + Pick(c, z, t)
  {
    PickConcat(c, x + y, z, t);
    PickConcat(c, x, y, t);
  }

  /** With `k` the first MATCH, both orders try the rules before it; only then do they differ. */
  lemma SplitAtMatch(c: Checks, s: seq<PolicyRule>, k: nat, hits: iset<string>)
    requires FirstMatchAt(c, s, k) && Traffic(c, hits)
    ensures Pick(c, s, false) == s[..k] + Pick(c, s[k + 1..], false)
    ensures Decision(hits, s) ==
            if Decision(hits, s[..k]).Some? then Decision(hits, s[..k]) else Some(s[k].targetGroupId)
    ensures Decision(hits, Arrange(c, s)) ==
            if Decision(hits, Pick(c, s, false)).Some? then Decision(hits, Pick(c, s, false)) else Some(s[k].targetGroupId)
  {
    PickAroundMatch(c, s, k);
    assert s == s[..k] + s[k..];
    DecisionConcat(hits, s[..k], s[k..]);
    DecisionConcat(hits, Pick(c, s, false), Pick(c, s, true));
  }

  /** Reordering keeps every routing decision exactly when the late rules agree with the MATCH. */
  lemma ReorderingPreservesRouting(c: Checks, s: seq<PolicyRule>)
    ensures RoutesAlike(c, s, Arrange(c, s)) <==> LateRulesAgree(c, s)
  {
    if k: nat :| FirstMatchAt(c, s, k) {
      if LateRulesAgree(c, s) {
        forall hits: iset<string> | Traffic(c, hits) ensures Decision(hits, s) == Decision(hits, Arrange(c, s)) {
          AgreeingRulesRoute(c, s, k, hits);
        }
      }
      if RoutesAlike(c, s, Arrange(c, s)) {
        forall k': nat, m: nat | FirstMatchAt(c, s, k') && k' <= m < |Pick(c, s, false)| && NewExpression(Pick(c, s, false), m)
          ensures Pick(c, s, false)[m].targetGroupId == s[k'].targetGroupId
        {
          LateRuleAgrees(c, s, k', m);
        }
      }
    } else {
      NoMatch(c, s, |s|);
      PickAll(c, s, false);
      assert Arrange(c, s) == s;
    }
  }

  lemma {:induction false} NoMatch(c: Checks, s: seq<PolicyRule>, n: nat)
    requires n <= |s| && forall k: nat :: !FirstMatchAt(c, s, k)
    ensures forall i :: 0 <= i < n ==> !c.isMatch(s[i].expression)
  {
    if n > 0 {
      NoMatch(c, s, n - 1);
      assert !FirstMatchAt(c, s, n - 1);
    }
  }

  lemma AgreeingRulesRoute(c: Checks, s: seq<PolicyRule>, k: nat, hits: iset<string>)
    requires FirstMatchAt(c, s, k) && LateRulesAgree(c, s) && Traffic(c, hits)
    ensures Decision(hits, s) == Decision(hits, Arrange(c, s))
  {
    SplitAtMatch(c, s, k, hits);
    var std, late := Pick(c, s, false), Pick(c, s[k + 1..], false);
    DecisionConcat(hits, s[..k], late);
    var m := DecisionAt(hits, std);
    var _ := DecisionAt(hits, s[..k]);
    if Decision(hits, s[..k]).None? && Decision(hits, std).Some? {
      assert NewExpression(std, m);
    }
  }

  /** Traffic that satisfies one late rule's expression only exposes its target. */
  lemma LateRuleAgrees(c: Checks, s: seq<PolicyRule>, k: nat, m: nat)
    requires FirstMatchAt(c, s, k) && RoutesAlike(c, s, Arrange(c, s))
    requires k <= m < |Pick(c, s, false)| && NewExpression(Pick(c, s, false), m)
    ensures Pick(c, s, false)[m].targetGroupId == s[k].targetGroupId
  {
    var std := Pick(c, s, false);
    var hits := iset e: string | c.isMatch(e) || e == std[m].expression;
    assert Traffic(c, hits);
    SplitAtMatch(c, s, k, hits);
    PickKind(c, s, false);
    forall i | 0 <= i < m ensures std[i].expression !in hits {
      assert !c.isMatch(std[i].expression);
    }
    var i := DecisionAt(hits, std);
    var j := DecisionAt(hits, s[..k]);
    assert forall x :: 0 <= x < k ==> s[..k][x] == std[x];
    assert Decision(hits, s) == Decision(hits, Arrange(c, s));
  }

  /** A required terminal MATCH makes the reordering invisible to routing. */
  lemma TerminalMatchPreservesRouting(c: Checks, rules: seq<PolicyRule>, ids: set<string>)
    requires RulesOk(c, rules, ids, true)
    ensures RoutesAlike(c, ByPosition(rules), Arrange(c, ByPosition(rules)))
  {
    var s := ByPosition(rules);
    forall k: nat | FirstMatchAt(c, s, k) ensures |Pick(c, s, false)| == k {
      PickAroundMatch(c, s, k);
      assert k == |s| - 1;
    }
    ReorderingPreservesRouting(c, s);
  }

  lemma PairPick(c: Checks, r0: PolicyRule, r1: PolicyRule)
    requires c.isMatch(r0.expression) && !c.isMatch(r1.expression)
    ensures Pick(c, [r0, r1], false) == [r1]
  {
    PickSnoc(c, [], r0, false);
    PickSnoc(c, [r0], r1, false);
    assert [] + [r0] == [r0] && [r0] + [r1] == [r0, r1] && [] + [r1] == [r1];
  }

  /**
   Without the requirement a valid rule list changes its routing when a MATCH precedes a rule with
   another target.
   */
  lemma OptionalMatchMayReroute(c: Checks, ids: set<string>, r0: PolicyRule, r1: PolicyRule)
    requires c.isMatch(r0.expression) && !c.isMatch(r1.expression) && r0.position <= r1.position
    requires RuleOk(c, ids, r0) && RuleOk(c, ids, r1) && r0.targetGroupId != r1.targetGroupId
    ensures RulesOk(c, [r0, r1], ids, false)
    ensures var s := ByPosition([r0, r1]); !RoutesAlike(c, s, Arrange(c, s))
  {
    var s := [r0, r1];
    PairSorted(PositionLe, r0, r1);
    assert ByPosition(s) == s;
    PairDisagrees(c, r0, r1);
    ReorderingPreservesRouting(c, s);
  }

  lemma PairDisagrees(c: Checks, r0: PolicyRule, r1: PolicyRule)
    requires c.isMatch(r0.expression) && !c.isMatch(r1.expression) && r0.targetGroupId != r1.targetGroupId
    ensures !LateRulesAgree(c, [r0, r1])
  {
    PairPick(c, r0, r1);
    assert FirstMatchAt(c, [r0, r1], 0) && NewExpression(Pick(c, [r0, r1], false), 0);
  }
}

/**
 Node admission: active state, explicit and risk exclusions, and admission rules taken in position
 order. Rules are ordered by an in-place exchange sort, which is not stable: a lowest-position
 matching rule decides, and for rules sharing a position the outcome of that very sort says which.
 */
module Admission {
  import opened Policy
  import opened Sorting

  datatype RuleAction = Allow | Reject | Quarantine | OtherAction(name: string)

  datatype AdmissionRule = AdmissionRule(name: string, expression: string, action: RuleAction, position: int)

  /** Evaluation of admission expressions. */
  type Expressions = (Node, string) -> bool

  predicate Blocking(a: RuleAction) {
    a == Reject || a == Quarantine
  }

  // ---- Exchange sort ----

  ghost predicate Ordered(s: seq<AdmissionRule>) {
    forall i, j :: 0 <= i < j < |s| ==> s[i].position <= s[j].position
  }

  /** The entry at `i` is no larger than those in `[i, hi)`. */
  ghost predicate LeastOf(s: seq<AdmissionRule>, i: nat, hi: nat) {
    i < hi <= |s| && forall j :: i <= j < hi ==> s[i].position <= s[j].position
  }

  /** Each of the first `n` entries is no larger than anything behind it. */
  ghost predicate Settled(s: seq<AdmissionRule>, n: nat) {
    n <= |s| && forall i, j :: 0 <= i < n && i < j < |s| ==> s[i].position <= s[j].position
  }

  /** The sort on values: an entry found too large is exchanged at once. */
  function Exchange(s: seq<AdmissionRule>, i: nat, j: nat): (r: seq<AdmissionRule>)
    requires i < j < |s|
    ensures |r| == |s|
  {
    if s[i].position <= s[j].position then s
    else seq(|s|, k requires 0 <= k < |s| => if k == i then s[j] else if k == j then s[i] else s[k])
  }

  function SelectFrom(s: seq<AdmissionRule>, i: nat, j: nat): (r: seq<AdmissionRule>)
    requires i < j <= |s|
    ensures |r| == |s|
  {
    if j == i + 1 then s else Exchange(SelectFrom(s, i, j - 1), i, j - 1)
  }

  function Rounds(s: seq<AdmissionRule>, n: nat): (r: seq<AdmissionRule>)
    requires n <= |s|
    ensures |r| == |s|
  {
    if n == 0 then s else SelectFrom(Rounds(s, n - 1), n - 1, |s|)
  }

  function Exchanged(s: seq<AdmissionRule>): seq<AdmissionRule> {
    Rounds(s, if s == [] then 0 else |s| - 1)
  }

  /** `i` entries are settled, and the next is the smallest of `[i, j)`. */
  ghost predicate Selecting(s: seq<AdmissionRule>, i: nat, j: nat) {
    Settled(s, i) && LeastOf(s, i, j)
  }

  lemma ExchangeSelects(s: seq<AdmissionRule>, i: nat, j: nat)
    requires Selecting(s, i, j) && i < j < |s|
    ensures Selecting(Exchange(s, i, j), i, j + 1)
  {
  }

  lemma ExchangePermutes(s: seq<AdmissionRule>, i: nat, j: nat)
    requires i < j < |s|
    ensures multiset(Exchange(s, i, j)) == multiset(s)
  {
    if s[i].position > s[j].position { assert Exchange(s, i, j) == s[i := s[j]][j := s[i]]; }
  }

  lemma SettleNext(s: seq<AdmissionRule>, i: nat)
    requires Selecting(s, i, |s|)
    ensures Settled(s, i + 1)
  {
  }

  lemma {:induction false} SelectSettles(s: seq<AdmissionRule>, i: nat, j: nat)
    requires Settled(s, i) && i < j <= |s|
    ensures Selecting(SelectFrom(s, i, j), i, j)
  {
    if j > i + 1 {
      SelectSettles(s, i, j - 1);
      ExchangeSelects(SelectFrom(s, i, j - 1), i, j - 1);
    }
  }

  lemma {:induction false} SelectPermutes(s: seq<AdmissionRule>, i: nat, j: nat)
    requires i < j <= |s|
    ensures multiset(SelectFrom(s, i, j)) == multiset(s)
  {
    if j > i + 1 {
      SelectPermutes(s, i, j - 1);
      ExchangePermutes(SelectFrom(s, i, j - 1), i, j - 1);
    }
  }

  lemma {:induction false} RoundsPermute(s: seq<AdmissionRule>, n: nat)
    requires n <= |s|
    ensures multiset(Rounds(s, n)) == multiset(s)
  {
    if n > 0 {
      RoundsPermute(s, n - 1);
      SelectPermutes(Rounds(s, n - 1), n - 1, |s|);
    }
  }

  lemma RoundSettles(s: seq<AdmissionRule>, i: nat)
    requires Settled(s, i) && i < |s|
    ensures Settled(SelectFrom(s, i, |s|), i + 1)
  {
    SelectSettles(s, i, |s|);
    SettleNext(SelectFrom(s, i, |s|), i);
  }

  lemma {:induction false} RoundsSettle(s: seq<AdmissionRule>, n: nat)
    requires n <= |s|
    ensures Settled(Rounds(s, n), n)
  {
    if n > 0 {
      RoundsSettle(s, n - 1);
      RoundSettles(Rounds(s, n - 1), n - 1);
    }
  }

  /** The sort orders the rules by position and permutes them. */
  lemma ExchangedSorts(s: seq<AdmissionRule>)
    ensures Ordered(Exchanged(s)) && multiset(Exchanged(s)) == multiset(s)
    ensures forall r :: r in Exchanged(s) <==> r in s
  {
    RoundsSettle(s, if s == [] then 0 else |s| - 1);
    RoundsPermute(s, if s == [] then 0 else |s| - 1);
    forall r ensures r in Exchanged(s) <==> r in s {
      assert r in multiset(Exchanged(s)) <==> r in multiset(s);
    }
  }

  /** Puts the smallest entry of `a[i..]` at `i`. */
  method SelectInto(a: array<AdmissionRule>, i: nat)
    requires i < a.Length
    modifies a
    ensures a[..] == SelectFrom(old(a[..]), i, a.Length)
  {
    for j := i + 1 to a.Length
      invariant a[..] == SelectFrom(old(a[..]), i, j)
    {
      ghost var s := a[..];
      if a[i].position > a[j].position {
        a[i], a[j] := a[j], a[i];
      }
      assert a[..] == Exchange(s, i, j);
    }
  }

  method ExchangeSort(a: array<AdmissionRule>)
    modifies a
    ensures Ordered(a[..]) && multiset(a[..]) == old(multiset(a[..])) && a[..] == Exchanged(old(a[..]))
  {
    var i := 0;
    while i < a.Length - 1
      invariant 0 <= i <= a.Length && (a.Length > 0 ==> i <= a.Length - 1)
      invariant a[..] == Rounds(old(a[..]), i)
    {
      SelectInto(a, i);
      i := i + 1;
    }
    ExchangedSorts(old(a[..]));
  }

  // ---- First match ----

  /** The first matching rule of `s` admits the node; without a match it is admitted. */
  predicate FirstMatchAdmits(m: Expressions, s: seq<AdmissionRule>, n: Node) {
    s == [] || if m(n, s[0].expression) then !Blocking(s[0].action) else FirstMatchAdmits(m, s[1..], n)
  }

  ghost predicate LowestMatch(m: Expressions, rules: seq<AdmissionRule>, n: Node, r: AdmissionRule) {
    && r in rules && m(n, r.expression)
    && forall r' :: r' in rules && m(n, r'.expression) ==> r.position <= r'.position
  }

  ghost predicate NoMatch(m: Expressions, rules: seq<AdmissionRule>, n: Node) {
    forall r :: r in rules ==> !m(n, r.expression)
  }

  /** Some lowest-position matching rule rejects or quarantines the node. */
  ghost predicate RuleBlocks(m: Expressions, rules: seq<AdmissionRule>, n: Node) {
    exists r :: LowestMatch(m, rules, n, r) && (r.action == Reject || r.action == Quarantine)
  }

  /** No rule matches, or some lowest-position matching rule lets the node through. */
  ghost predicate RulesAdmit(m: Expressions, rules: seq<AdmissionRule>, n: Node) {
    NoMatch(m, rules, n) || exists r :: LowestMatch(m, rules, n, r) && r.action != Reject && r.action != Quarantine
  }

  /** On ordered rules the first match is a lowest-position match. */
  lemma {:induction false} FirstMatchDecides(m: Expressions, s: seq<AdmissionRule>, n: Node)
    requires Ordered(s)
    ensures FirstMatchAdmits(m, s, n) ==> RulesAdmit(m, s, n)
    ensures !FirstMatchAdmits(m, s, n) ==> RuleBlocks(m, s, n)
  {
    if s != [] {
      if m(n, s[0].expression) {
        forall r | r in s ensures s[0].position <= r.position {
          var i :| 0 <= i < |s| && s[i] == r;
        }
        assert LowestMatch(m, s, n, s[0]);
      } else {
        FirstMatchDecides(m, s[1..], n);
        assert s == [s[0]] + s[1..];
        forall r | LowestMatch(m, s[1..], n, r) ensures LowestMatch(m, s, n, r) {
        }
      }
    }
  }

  /** There are lowest-position matches, and each of them rejects or quarantines. */
  ghost predicate AllRefuse(m: Expressions, rules: seq<AdmissionRule>, n: Node) {
    && (exists r :: r in rules && m(n, r.expression))
    && (forall r :: LowestMatch(m, rules, n, r) ==> r.action == Reject || r.action == Quarantine)
  }

  /** A match of least position. */
  lemma {:induction false} SomeLowest(m: Expressions, rules: seq<AdmissionRule>, n: Node) returns (r: AdmissionRule)
    requires exists x :: x in rules && m(n, x.expression)
    ensures LowestMatch(m, rules, n, r)
  {
    var init, last := rules[..|rules| - 1], rules[|rules| - 1];
    assert rules == init + [last];
    if exists x :: x in init && m(n, x.expression) {
      r := SomeLowest(m, init, n);
      if m(n, last.expression) && last.position < r.position { r := last; }
    } else {
      r := last;
    }
  }

  /** Rules may admit a node unless it matches and all its lowest matches refuse it. */
  lemma AdmitMeans(m: Expressions, rules: seq<AdmissionRule>, n: Node)
    ensures RulesAdmit(m, rules, n) <==> !AllRefuse(m, rules, n)
  {
    if !NoMatch(m, rules, n) { var r := SomeLowest(m, rules, n); }
  }

  /** When matching rules have distinct positions the decision is unambiguous. */
  lemma DecisionUnique(m: Expressions, rules: seq<AdmissionRule>, n: Node)
    requires forall r, r' :: r in rules && r' in rules && m(n, r.expression) && m(n, r'.expression) && r.position == r'.position
               ==> r == r'
    ensures !(RuleBlocks(m, rules, n) && RulesAdmit(m, rules, n))
  {
    forall r, r' | LowestMatch(m, rules, n, r) && LowestMatch(m, rules, n, r') ensures r == r' {}
  }

  /** Permuting the rules does not change which decisions are possible. */
  lemma SameRulesSameDecisions(m: Expressions, rules: seq<AdmissionRule>, rules': seq<AdmissionRule>, n: Node)
    requires forall r :: r in rules <==> r in rules'
    ensures RuleBlocks(m, rules, n) ==> RuleBlocks(m, rules', n)
    ensures RulesAdmit(m, rules, n) ==> RulesAdmit(m, rules', n)
  {
    forall r | LowestMatch(m, rules, n, r) ensures LowestMatch(m, rules', n, r) {}
  }

  method RulesByPosition(rules: seq<AdmissionRule>) returns (sorted: seq<AdmissionRule>)
    ensures sorted == Exchanged(rules) && Ordered(sorted) && forall r :: r in sorted <==> r in rules
  {
    var a := new AdmissionRule[|rules|](i requires 0 <= i < |rules| => rules[i]);
    assert a[..] == rules;
    ExchangeSort(a);
    sorted := a[..];
    forall r ensures r in sorted <==> r in rules {
      assert r in multiset(sorted) <==> r in multiset(rules);
    }
  }

  method FirstMatch(m: Expressions, sorted: seq<AdmissionRule>, n: Node) returns (admitted: bool)
    ensures admitted == FirstMatchAdmits(m, sorted, n)
  {
    for k := 0 to |sorted|
      invariant FirstMatchAdmits(m, sorted, n) == FirstMatchAdmits(m, sorted[k..], n)
    {
      if m(n, sorted[k].expression) {
        return !Blocking(sorted[k].action);
      }
      assert sorted[k..][1..] == sorted[k + 1..];
    }
    admitted := true;
  }

  // ---- Evaluation ----

  /** The node may take part in groups. */
  ghost predicate Admissible(m: Expressions, rules: seq<AdmissionRule>, excludedIds: set<string>, n: Node) {
    n.active && n.logicalId !in excludedIds && RulesAdmit(m, rules, n)
  }

  /** The decision taken: the first match in the sorted order. */
  predicate Admits(m: Expressions, rules: seq<AdmissionRule>, excludedIds: set<string>, n: Node) {
    n.active && n.logicalId !in excludedIds && FirstMatchAdmits(m, Exchanged(rules), n)
  }

  ghost predicate Inadmissible(m: Expressions, rules: seq<AdmissionRule>, excludedIds: set<string>, n: Node) {
    !n.active || n.logicalId in excludedIds || RuleBlocks(m, rules, n)
  }

  method EvaluateNodeAdmission(m: Expressions, nodes: seq<Node>, rules: seq<AdmissionRule>, excludedIds: set<string>)
    returns (admitted: seq<Node>, excluded: seq<string>)
    requires DistinctNodes(nodes)
    ensures forall n :: n in admitted <==> n in nodes && Admits(m, rules, excludedIds, n)
    ensures forall n :: n in admitted ==> Admissible(m, rules, excludedIds, n)
    ensures forall id :: id in excluded ==> ExcludedFor(m, rules, excludedIds, nodes, id)
    ensures forall n :: n in nodes && AllRefuse(m, rules, n) ==> n !in admitted && n.logicalId in excluded
    ensures Partitions(nodes, admitted, excluded) && DistinctNodes(admitted)
  {
    var sorted := RulesByPosition(rules);
    admitted, excluded := [], [];
    for k := 0 to |nodes|
      invariant forall n :: n in admitted <==> n in nodes[..k] && Admits(m, rules, excludedIds, n)
      invariant forall n :: n in admitted ==> Admissible(m, rules, excludedIds, n)
      invariant forall id :: id in excluded ==> ExcludedFor(m, rules, excludedIds, nodes, id)
      invariant Partitions(nodes[..k], admitted, excluded) && DistinctNodes(admitted)
    {
      var n := nodes[k];
      FirstMatchDecides(m, sorted, n);
      SameRulesSameDecisions(m, sorted, rules, n);
      PartitionStep(nodes, k, admitted, excluded);
      assert nodes[..k + 1] == nodes[..k] + [n];
      if !n.active || n.logicalId in excludedIds {
        excluded := excluded + [n.logicalId];
        assert Excludes(m, rules, excludedIds, nodes, n.logicalId, n);
      } else {
        var ok := FirstMatch(m, sorted, n);
        if ok {
          admitted := admitted + [n];
        } else {
          excluded := excluded + [n.logicalId];
          assert Excludes(m, rules, excludedIds, nodes, n.logicalId, n);
        }
      }
    }
    assert nodes[..|nodes|] == nodes;
    forall n | n in nodes && AllRefuse(m, rules, n) ensures n !in admitted && n.logicalId in excluded {
      AdmitMeans(m, rules, n);
      NotAdmitted(nodes, admitted, excluded, n);
    }
  }

  lemma NotAdmitted(nodes: seq<Node>, admitted: seq<Node>, excluded: seq<string>, n: Node)
    requires DistinctNodes(nodes) && Partitions(nodes, admitted, excluded) && (forall x :: x in admitted ==> x in nodes)
    requires n in nodes && n !in admitted
    ensures n.logicalId in excluded
  {
    var i :| 0 <= i < |nodes| && nodes[i] == n;
    assert n.logicalId in NodeIds(nodes);
    forall j | 0 <= j < |admitted| ensures admitted[j].logicalId != n.logicalId {
      assert admitted[j] in admitted;
      var k :| 0 <= k < |nodes| && nodes[k] == admitted[j];
    }
    assert n.logicalId in IdSet(excluded);
  }

  ghost predicate Excludes(m: Expressions, rules: seq<AdmissionRule>, excludedIds: set<string>, nodes: seq<Node>,
                           id: string, n: Node)
  {
    n in nodes && n.logicalId == id && Inadmissible(m, rules, excludedIds, n)
  }

  ghost predicate ExcludedFor(m: Expressions, rules: seq<AdmissionRule>, excludedIds: set<string>, nodes: seq<Node>, id: string) {
    exists n :: Excludes(m, rules, excludedIds, nodes, id, n)
  }

  ghost predicate DistinctNodes(nodes: seq<Node>) {
    forall i, j :: 0 <= i < j < |nodes| ==> nodes[i].logicalId != nodes[j].logicalId
  }

  ghost function NodeIds(nodes: seq<Node>): set<string> {
    set i | 0 <= i < |nodes| :: nodes[i].logicalId
  }

  ghost function IdSet(ids: seq<string>): set<string> {
    set x | x in ids
  }

  /** Admitted and excluded ids are disjoint and together are all ids. */
  ghost predicate Partitions(nodes: seq<Node>, admitted: seq<Node>, excluded: seq<string>) {
    NodeIds(admitted) + IdSet(excluded) == NodeIds(nodes) && NodeIds(admitted) !! IdSet(excluded)
  }

  lemma NodeIdsSnoc(nodes: seq<Node>, n: Node)
    ensures NodeIds(nodes + [n]) == NodeIds(nodes) + {n.logicalId}
  {
    assert (nodes + [n])[|nodes|] == n;
    forall i | 0 <= i < |nodes| ensures nodes[i].logicalId in NodeIds(nodes + [n]) { assert (nodes + [n])[i] == nodes[i]; }
  }

  lemma PartitionStep(nodes: seq<Node>, k: nat, admitted: seq<Node>, excluded: seq<string>)
    requires DistinctNodes(nodes) && k < |nodes| && Partitions(nodes[..k], admitted, excluded) && DistinctNodes(admitted)
    ensures Partitions(nodes[..k + 1], admitted + [nodes[k]], excluded)
    ensures Partitions(nodes[..k + 1], admitted, excluded + [nodes[k].logicalId])
    ensures DistinctNodes(admitted + [nodes[k]])
  {
    var n := nodes[k];
    assert nodes[..k + 1] == nodes[..k] + [n];
    NodeIdsSnoc(nodes[..k], n);
    NodeIdsSnoc(admitted, n);
    assert IdSet(excluded + [n.logicalId]) == IdSet(excluded) + {n.logicalId};
    assert n.logicalId !in NodeIds(nodes[..k]);
    forall i | 0 <= i < |admitted| ensures admitted[i].logicalId != n.logicalId {
      assert admitted[i].logicalId in NodeIds(admitted);
    }
  }

  // ---- Excluded ids, sorted and without repeats ----

  /** Adjacent repeats collapsed. */
  function Collapse(s: seq<string>): seq<string> {
    if |s| < 2 then s
    else
      var c := Collapse(s[..|s| - 1]);
      if s[|s| - 1] == s[|s| - 2] then c else c + [s[|s| - 1]]
  }

  lemma {:induction false} CollapseEnds(s: seq<string>)
    requires s != []
    ensures 0 < |Collapse(s)| <= |s| && Collapse(s)[|Collapse(s)| - 1] == s[|s| - 1]
    ensures IdSet(Collapse(s)) == IdSet(s)
  {
    if |s| >= 2 {
      var init, x := s[..|s| - 1], s[|s| - 1];
      CollapseEnds(init);
      assert s == init + [x];
      assert IdSet(s) == IdSet(init) + {x} && IdSet(Collapse(init) + [x]) == IdSet(Collapse(init)) + {x};
      assert init[|s| - 2] == s[|s| - 2];
    }
  }

  /** On sorted input the result is strictly increasing. */
  lemma {:induction false} CollapseSorted(s: seq<string>)
    requires SortedBy(StringLe, s)
    ensures SortedBy(StringLe, Collapse(s))
    ensures forall i, j :: 0 <= i < j < |Collapse(s)| ==> Collapse(s)[i] != Collapse(s)[j]
  {
    if |s| >= 2 {
      var init, x := s[..|s| - 1], s[|s| - 1];
      CollapseSorted(init);
      CollapseEnds(init);
      StringOrder();
      var c := Collapse(init);
      forall i | 0 <= i < |c| ensures StringLe(c[i], x) && (x != s[|s| - 2] ==> c[i] != x) {
        assert init[|init| - 1] == s[|s| - 2] == c[|c| - 1];
        assert StringLe(s[|s| - 2], x) && (i < |c| - 1 ==> StringLe(c[i], c[|c| - 1]));
        if c[i] == x { StringLeAntisymmetric(x, s[|s| - 2]); }
      }
    }
  }

  /** The first `k` strings of `s` are compacted into the first `n`; the others are where they were. */
  ghost predicate Compacted(v: seq<string>, s: seq<string>, n: nat, k: nat) {
    1 <= n <= k <= |s| == |v| && v[..n] == Collapse(s[..k]) && v[k..] == s[k..]
  }

  lemma CompactNext(v: seq<string>, s: seq<string>, n: nat, k: nat)
    requires Compacted(v, s, n, k) && k < |s|
    ensures v[k] == v[n - 1] ==> Compacted(v, s, n, k + 1)
    ensures v[k] != v[n - 1] ==> Compacted(v[n := v[k]], s, n + 1, k + 1)
  {
    var longer := s[..k + 1];
    assert longer[..k] == s[..k] && s[..k][k - 1] == longer[k - 1];
    CollapseEnds(s[..k]);
    assert v[k] == v[k..][0] == s[k..][0] == s[k];
    assert v[n - 1] == v[..n][n - 1] == longer[k - 1];
    if v[k] != v[n - 1] { assert v[n := v[k]][..n + 1] == v[..n] + [v[k]]; }
  }

  /** `uniqueStrings`: compacts the array in place and returns the new length. */
  method UniqueStrings(a: array<string>) returns (n: nat)
    modifies a
    ensures n <= a.Length && a[..n] == Collapse(old(a[..]))
  {
    if a.Length < 2 {
      n := a.Length;
      return;
    }
    ghost var s := a[..];
    n := 1;
    assert s[..1] == a[..1];
    for k := 1 to a.Length
      invariant Compacted(a[..], s, n, k)
    {
      ghost var v := a[..];
      CompactNext(v, s, n, k);
      if a[k] != a[n - 1] {
        a[n] := a[k];
        assert a[..] == v[n := v[k]];
        n := n + 1;
      }
    }
    assert s[..a.Length] == s;
  }

  /** The listing of a set of ids: sorted, each id once. */
  method SortUnique(ids: seq<string>) returns (r: seq<string>)
    ensures IdSet(r) == IdSet(ids) && SortedBy(StringLe, r)
    ensures forall i, j :: 0 <= i < j < |r| ==> r[i] != r[j]
  {
    var sorted := SortStrings(ids);
    StringOrder();
    StableSortSorts(StringLe, ids);
    StableSortElements(StringLe, ids);
    var a := new string[|sorted|](i requires 0 <= i < |sorted| => sorted[i]);
    assert a[..] == sorted;
    var n := UniqueStrings(a);
    r := a[..n];
    CollapseSorted(sorted);
    if sorted != [] { CollapseEnds(sorted); }
  }

  // ---- Risk ----

  datatype RiskAction = RiskAllow | RiskReview | RiskBlock | RiskUnknown | OtherRisk(name: string)

  datatype RiskDecision = RiskDecision(
    nodeLogicalId: string, policyRevisionId: string, decision: RiskAction, reasonCode: string, evaluatedAt: string)

  /** Blocked and undecided nodes are out; nodes under review are out unless review allows them. */
  predicate RiskExcludes(d: RiskAction, review: RiskAction) {
    d == RiskBlock || d == RiskUnknown || (d == RiskReview && review != RiskAllow)
  }

  ghost predicate RiskBlocked(decisions: seq<RiskDecision>, revision: string, review: RiskAction, id: string) {
    revision != "" &&
    exists d :: d in decisions && d.policyRevisionId == revision && d.nodeLogicalId == id &&
      (d.decision == RiskBlock || d.decision == RiskUnknown || (d.decision == RiskReview && review != RiskAllow))
  }

  /** The nodes the current revision's risk decisions exclude. */
  method EvaluateRiskAdmission(nodes: seq<Node>, revision: string, decisions: seq<RiskDecision>, reviewAction: RiskAction)
    returns (excluded: set<string>)
    ensures forall id :: id in excluded <==> id in NodeIds(nodes) && RiskBlocked(decisions, revision, reviewAction, id)
  {
    excluded := {};
    if revision == "" || |decisions| == 0 { return; }
    var nodeSet: set<string> := {};
    for k := 0 to |nodes|
      invariant nodeSet == set i | 0 <= i < k :: nodes[i].logicalId
    {
      nodeSet := nodeSet + {nodes[k].logicalId};
    }
    var review := if reviewAction != RiskAllow then RiskBlock else reviewAction;
    for k := 0 to |decisions|
      invariant forall id :: id in excluded <==> id in nodeSet && RiskBlocked(decisions[..k], revision, reviewAction, id)
    {
      var d := decisions[k];
      assert decisions[..k + 1] == decisions[..k] + [d];
      if d.policyRevisionId == revision && d.nodeLogicalId in nodeSet && RiskExcludes(d.decision, review) {
        excluded := excluded + {d.nodeLogicalId};
      }
    }
    assert decisions[..|decisions|] == decisions;
  }
}

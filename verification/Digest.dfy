/**
 The canonical payload behind the input digest: every list is reduced to its canonical fields and
 stably sorted. Edges come from a map that is walked in no particular order; stability alone makes
 their order irrelevant. For the lists the arrival order is irrelevant exactly when equal keys mean
 equal canonical elements.
 */
module Digest {
  import opened Wrappers
  import opened Policy
  import opened Sorting
  import opened Admission

  // ---- Sorting facts ----

  function Map<T, U>(f: T -> U, s: seq<T>): seq<U> {
    seq(|s|, i requires 0 <= i < |s| => f(s[i]))
  }

  lemma {:induction false} KeyClassConcat<T(!new)>(le: (T, T) -> bool, k: T, a: seq<T>, b: seq<T>)
    ensures KeyClass(le, k, a + b) == KeyClass(le, k, a) + KeyClass(le, k, b)
  {
    if b == [] {
      assert a + b == a;
    } else {
      KeyClassConcat(le, k, a, b[..|b| - 1]);
      assert (a + b)[..|a + b| - 1] == a + b[..|b| - 1];
    }
  }

  lemma {:induction false} KeyClassMembers<T(!new)>(le: (T, T) -> bool, k: T, s: seq<T>)
    ensures forall x :: x in KeyClass(le, k, s) <==> x in s && SameKey(le, k, x)
  {
    if s != [] {
      KeyClassMembers(le, k, s[..|s| - 1]);
      assert s == s[..|s| - 1] + [s[|s| - 1]];
    }
  }

  /**
   Equal classes with last elements of one key: the last elements are equal, and so are the classes
   of the rest.
   */
  lemma EndsAgree<T(!new)>(le: (T, T) -> bool, a: seq<T>, b: seq<T>, x: T, y: T)
    requires TotalPreorder(le) && SameKey(le, x, y)
    requires forall k :: KeyClass(le, k, a + [x]) == KeyClass(le, k, b + [y])
    ensures x == y && forall k :: KeyClass(le, k, a) == KeyClass(le, k, b)
  {
    ClassEnd(le, x, a, x);
    ClassEnd(le, x, b, y);
    assert SameKey(le, x, x);
    LastsEqual(KeyClass(le, x, a), x, KeyClass(le, x, b), y);
    forall k ensures KeyClass(le, k, a) == KeyClass(le, k, b) {
      ClassEnd(le, k, a, x);
      ClassEnd(le, k, b, y);
      if SameKey(le, k, x) { LastsEqual(KeyClass(le, k, a), x, KeyClass(le, k, b), y); }
    }
  }

  lemma ClassEnd<T(!new)>(le: (T, T) -> bool, k: T, s: seq<T>, x: T)
    ensures KeyClass(le, k, s + [x]) == if SameKey(le, k, x) then KeyClass(le, k, s) + [x] else KeyClass(le, k, s)
  {
    assert (s + [x])[..|s|] == s;
  }

  lemma LastsEqual<T>(a: seq<T>, x: T, b: seq<T>, y: T)
    requires a + [x] == b + [y]
    ensures a == b && x == y
  {
    assert a == (a + [x])[..|a|] && b == (b + [y])[..|b|] && (a + [x])[|a|] == x && (b + [y])[|b|] == y;
  }

  /** Two sorted sequences with the same key classes are the same sequence. */
  lemma {:induction false} ClassesDecide<T(!new)>(le: (T, T) -> bool, a: seq<T>, b: seq<T>)
    requires TotalPreorder(le) && SortedBy(le, a) && SortedBy(le, b)
    requires forall k :: KeyClass(le, k, a) == KeyClass(le, k, b)
    ensures a == b
  {
    if a == [] {
      EmptyClasses(le, a, b);
    } else if b == [] {
      EmptyClasses(le, b, a);
    } else {
      var x, y := a[|a| - 1], b[|b| - 1];
      var a', b' := a[..|a| - 1], b[..|b| - 1];
      assert a == a' + [x] && b == b' + [y];
      SameLastKey(le, a, b);
      EndsAgree(le, a', b', x, y);
      ClassesDecide(le, a', b');
    }
  }

  lemma EmptyClasses<T(!new)>(le: (T, T) -> bool, a: seq<T>, b: seq<T>)
    requires TotalPreorder(le) && a == [] && forall k :: KeyClass(le, k, a) == KeyClass(le, k, b)
    ensures b == []
  {
    if b != [] {
      assert KeyClass(le, b[0], a) == KeyClass(le, b[0], b) && SameKey(le, b[0], b[0]) && b[0] in b;
      KeyClassMembers(le, b[0], b);
    }
  }

  lemma SameLastKey<T(!new)>(le: (T, T) -> bool, a: seq<T>, b: seq<T>)
    requires TotalPreorder(le) && SortedBy(le, a) && SortedBy(le, b) && a != [] && b != []
    requires forall k :: KeyClass(le, k, a) == KeyClass(le, k, b)
    ensures SameKey(le, a[|a| - 1], b[|b| - 1])
  {
    var x, y := a[|a| - 1], b[|b| - 1];
    KeyClassMembers(le, x, a);
    KeyClassMembers(le, x, b);
    KeyClassMembers(le, y, a);
    KeyClassMembers(le, y, b);
    LastIsGreatest(le, b, x);
    LastIsGreatest(le, a, y);
  }

  // ---- Lists: when arrival order does not matter ----

  function SortedImage<T, U>(f: T -> U, le: (U, U) -> bool, s: seq<T>): seq<U> {
    StableSort(le, Map(f, s))
  }

  ghost predicate OrderFree<T(!new), U>(f: T -> U, le: (U, U) -> bool, s: seq<T>) {
    forall s' :: multiset(s') == multiset(s) ==> SortedImage(f, le, s') == SortedImage(f, le, s)
  }

  function Without<T>(s: seq<T>, i: nat): seq<T>
    requires i < |s|
  {
    s[..i] + s[i + 1..]
  }

  lemma WithoutMultiset<T>(s: seq<T>, i: nat)
    requires i < |s|
    ensures multiset(Without(s, i)) == multiset(s) - multiset{s[i]}
  {
    assert s == s[..i] + [s[i]] + s[i + 1..];
  }

  lemma AddBack<T>(s: seq<T>, i: nat)
    requires i < |s|
    ensures multiset(s) == multiset(Without(s, i)) + multiset{s[i]}
  {
    assert s == s[..i] + [s[i]] + s[i + 1..];
  }

  lemma MapConcat<T, U>(f: T -> U, a: seq<T>, b: seq<T>)
    ensures Map(f, a + b) == Map(f, a) + Map(f, b)
  {
  }

  lemma MapWithout<T, U>(f: T -> U, s: seq<T>, i: nat)
    requires i < |s|
    ensures Map(f, Without(s, i)) == Without(Map(f, s), i)
  {
  }

  lemma MapSame<T>(s: seq<T>)
    ensures Map(Same, s) == s
  {
    var m := Map(Same, s);
    assert |m| == |s|;
    forall i | 0 <= i < |s| ensures m[i] == s[i] { assert m[i] == Same(s[i]); }
  }

  lemma {:induction false} MapMultiset<T, U>(f: T -> U, a: seq<T>, b: seq<T>)
    requires multiset(a) == multiset(b)
    ensures multiset(Map(f, a)) == multiset(Map(f, b))
    decreases |a|
  {
    assert |a| == |multiset(a)| == |multiset(b)| == |b|;
    if a != [] {
      assert a[0] in multiset(b);
      var i :| 0 <= i < |b| && b[i] == a[0];
      WithoutMultiset(a, 0);
      WithoutMultiset(b, i);
      MapMultiset(f, Without(a, 0), Without(b, i));
      MapWithout(f, a, 0);
      MapWithout(f, b, i);
      AddBack(Map(f, a), 0);
      AddBack(Map(f, b), i);
    } else {
      assert Map(f, a) == Map(f, b);
    }
  }

  lemma DecidedIsOrderFree<T(!new), U(!new)>(f: T -> U, le: (U, U) -> bool, s: seq<T>)
    requires TotalPreorder(le) && KeysDecide(le, Map(f, s))
    ensures OrderFree(f, le, s)
  {
    forall s' | multiset(s') == multiset(s) ensures SortedImage(f, le, s') == SortedImage(f, le, s) {
      MapMultiset(f, s', s);
      StableSortSorts(le, Map(f, s'));
      StableSortSorts(le, Map(f, s));
      StableSortElements(le, Map(f, s));
      SortedPermutationsAgree(le, SortedImage(f, le, s), SortedImage(f, le, s'));
    }
  }

  /** `s` with its element `i` moved to the front; its key class then starts with it. */
  function Fronted<T>(s: seq<T>, i: nat): seq<T>
    requires i < |s|
  {
    [s[i]] + Without(s, i)
  }

  lemma FrontedStartsClass<T(!new), U(!new)>(f: T -> U, le: (U, U) -> bool, s: seq<T>, i: nat, k: U)
    requires TotalPreorder(le) && i < |s| && SameKey(le, k, f(s[i]))
    ensures multiset(Fronted(s, i)) == multiset(s)
    ensures var c := KeyClass(le, k, SortedImage(f, le, Fronted(s, i))); c != [] && c[0] == f(s[i])
  {
    WithoutMultiset(s, i);
    var rest := Map(f, Without(s, i));
    MapConcat(f, [s[i]], Without(s, i));
    assert Map(f, [s[i]]) == [f(s[i])];
    StableSortIsStable(le, Map(f, Fronted(s, i)), k);
    KeyClassConcat(le, k, [f(s[i])], rest);
    assert [f(s[i])][..0] == [];
  }

  lemma OrderFreeIsDecided<T(!new), U(!new)>(f: T -> U, le: (U, U) -> bool, s: seq<T>)
    requires TotalPreorder(le) && OrderFree(f, le, s)
    ensures KeysDecide(le, Map(f, s))
  {
    var m := Map(f, s);
    forall x, y | x in m && y in m && SameKey(le, x, y) ensures x == y {
      var i :| 0 <= i < |m| && m[i] == x;
      var j :| 0 <= j < |m| && m[j] == y;
      FrontedStartsClass(f, le, s, i, x);
      FrontedStartsClass(f, le, s, j, x);
    }
  }

  /** Sorting forgets the arrival order exactly when equal keys mean equal elements. */
  lemma OrderFreeExactly<T(!new), U(!new)>(f: T -> U, le: (U, U) -> bool, s: seq<T>)
    requires TotalPreorder(le)
    ensures OrderFree(f, le, s) <==> KeysDecide(le, Map(f, s))
  {
    if OrderFree(f, le, s) { OrderFreeIsDecided(f, le, s); }
    if KeysDecide(le, Map(f, s)) { DecidedIsOrderFree(f, le, s); }
  }

  // ---- Edges: the map is walked in any order ----

  datatype CanonicalEdge = CanonicalEdge(parentGroupId: string, childGroupId: Option<string>, nodeLogicalId: Option<string>, position: int)

  predicate EdgeLe(a: CanonicalEdge, b: CanonicalEdge) {
    if a.parentGroupId == b.parentGroupId then a.position <= b.position else StringLe(a.parentGroupId, b.parentGroupId)
  }

  lemma EdgeOrder()
    ensures TotalPreorder(EdgeLe)
    ensures forall a, b | SameKey(EdgeLe, a, b) :: a.parentGroupId == b.parentGroupId
  {
    StringOrder();
    forall x, y, z | EdgeLe(x, y) && EdgeLe(y, z) ensures EdgeLe(x, z) {
      StringLeTransitive(x.parentGroupId, y.parentGroupId, z.parentGroupId);
      assert x.parentGroupId == z.parentGroupId ==> SameKey(StringLe, x.parentGroupId, y.parentGroupId);
    }
    forall x, y | SameKey(EdgeLe, x, y) ensures x.parentGroupId == y.parentGroupId {
      assert x.parentGroupId != y.parentGroupId ==> SameKey(StringLe, x.parentGroupId, y.parentGroupId);
    }
  }

  function Block(parent: string, es: seq<GroupEdge>): seq<CanonicalEdge> {
    Map((e: GroupEdge) => CanonicalEdge(parent, e.childGroupId, e.nodeLogicalId, e.position), es)
  }

  /** The edges of the parents in `order`, one block after the other. */
  function Flatten(edges: map<string, seq<GroupEdge>>, order: seq<string>): seq<CanonicalEdge>
    requires forall p :: p in order ==> p in edges
  {
    if order == [] then []
    else Flatten(edges, order[..|order| - 1]) + Block(order[|order| - 1], edges[order[|order| - 1]])
  }

  ghost predicate Enumerates(order: seq<string>, keys: set<string>) {
    (forall i, j :: 0 <= i < j < |order| ==> order[i] != order[j]) && (set p | p in order) == keys
  }

  lemma {:induction false} BlockClass(k: CanonicalEdge, parent: string, es: seq<GroupEdge>)
    requires parent != k.parentGroupId
    ensures KeyClass(EdgeLe, k, Block(parent, es)) == []
  {
    if es != [] {
      EdgeOrder();
      BlockClass(k, parent, es[..|es| - 1]);
      assert Block(parent, es)[..|es| - 1] == Block(parent, es[..|es| - 1]);
    }
  }

  /** Parents of the map, none twice. */
  ghost predicate Parents(edges: map<string, seq<GroupEdge>>, order: seq<string>) {
    (forall p :: p in order ==> p in edges) && forall i, j :: 0 <= i < j < |order| ==> order[i] != order[j]
  }

  lemma ParentsPrefix(edges: map<string, seq<GroupEdge>>, order: seq<string>)
    requires order != [] && Parents(edges, order)
    ensures var init, last := order[..|order| - 1], order[|order| - 1];
            Parents(edges, init) && last !in init && forall p :: p in order <==> p in init || p == last
  {
    assert order == order[..|order| - 1] + [order[|order| - 1]];
  }

  /** The classes of a key in its own parent's block, if that parent is listed. */
  ghost function OwnClass(edges: map<string, seq<GroupEdge>>, order: seq<string>, k: CanonicalEdge): seq<CanonicalEdge>
    requires Parents(edges, order)
  {
    if k.parentGroupId in order then KeyClass(EdgeLe, k, Block(k.parentGroupId, edges[k.parentGroupId])) else []
  }

  /** A key class lies within its parent's block, wherever that block is. */
  lemma {:induction false} FlattenClass(edges: map<string, seq<GroupEdge>>, order: seq<string>, k: CanonicalEdge)
    requires Parents(edges, order)
    ensures KeyClass(EdgeLe, k, Flatten(edges, order)) == OwnClass(edges, order, k)
  {
    if order != [] {
      ParentsPrefix(edges, order);
      FlattenClass(edges, order[..|order| - 1], k);
      FlattenLast(edges, order, k);
    }
  }

  /** The last block adds its parent's classes only. */
  lemma FlattenLast(edges: map<string, seq<GroupEdge>>, order: seq<string>, k: CanonicalEdge)
    requires order != [] && Parents(edges, order) && Parents(edges, order[..|order| - 1])
    requires KeyClass(EdgeLe, k, Flatten(edges, order[..|order| - 1])) == OwnClass(edges, order[..|order| - 1], k)
    ensures KeyClass(EdgeLe, k, Flatten(edges, order)) == OwnClass(edges, order, k)
  {
    var init, last := order[..|order| - 1], order[|order| - 1];
    ParentsPrefix(edges, order);
    KeyClassConcat(EdgeLe, k, Flatten(edges, init), Block(last, edges[last]));
    if last != k.parentGroupId { BlockClass(k, last, edges[last]); }
  }

  /** The sorted edges do not depend on the order in which the map is walked. */
  lemma WalkOrderIrrelevant(edges: map<string, seq<GroupEdge>>, order: seq<string>, order': seq<string>)
    requires Enumerates(order, edges.Keys) && Enumerates(order', edges.Keys)
    ensures (forall p :: p in order ==> p in edges) && (forall p :: p in order' ==> p in edges)
    ensures StableSort(EdgeLe, Flatten(edges, order)) == StableSort(EdgeLe, Flatten(edges, order'))
  {
    var keys, keys' := set p | p in order, set p | p in order';
    assert forall p :: (p in order <==> p in keys) && (p in order' <==> p in keys');
    EdgeOrder();
    var a, b := Flatten(edges, order), Flatten(edges, order');
    StableSortSorts(EdgeLe, a);
    StableSortSorts(EdgeLe, b);
    forall k ensures KeyClass(EdgeLe, k, StableSort(EdgeLe, a)) == KeyClass(EdgeLe, k, StableSort(EdgeLe, b)) {
      StableSortIsStable(EdgeLe, a, k);
      StableSortIsStable(EdgeLe, b, k);
      FlattenClass(edges, order, k);
      FlattenClass(edges, order', k);
    }
    ClassesDecide(EdgeLe, StableSort(EdgeLe, a), StableSort(EdgeLe, b));
  }

  // ---- The payload ----

  datatype CanonicalSource = CanonicalSource(
    operation: Operation,
    kind: SourceKind,
    position: int,
    nodeLogicalId: Option<string>,
    targetGroupId: Option<string>,
    pattern: Option<string>,
    filterSpec: Option<FilterSpec>,
    builtinName: Option<string>)

  datatype CanonicalGroup = CanonicalGroup(
    id: string, name: string, groupType: GroupType, emptyFallbackPass: bool, sources: seq<CanonicalSource>)

  datatype CanonicalRule = CanonicalRule(targetGroupId: string, expression: string, position: int)

  type GroupSources = map<string, seq<MemberSource>>

  datatype DigestInput = DigestInput(
    nodes: seq<Node>,
    groups: seq<NodeGroup>,
    groupSources: GroupSources,
    edges: map<string, seq<GroupEdge>>,
    policyRules: seq<PolicyRule>,
    admissionRules: seq<AdmissionRule>,
    riskRevision: string,
    riskDecisions: seq<RiskDecision>,
    globalFilter: Option<FilterSpec>)

  datatype Payload = Payload(
    nodes: seq<Node>,
    groups: seq<CanonicalGroup>,
    edges: seq<CanonicalEdge>,
    policyRules: seq<CanonicalRule>,
    admissionRules: seq<AdmissionRule>,
    riskRevision: string,
    riskDecisions: seq<RiskDecision>,
    globalFilter: Option<FilterSpec>)

  function CanonicalizeSource(s: MemberSource): CanonicalSource {
    CanonicalSource(s.operation, s.kind, s.position, s.nodeLogicalId, s.targetGroupId, s.pattern, s.filterSpec, s.builtinName)
  }

  /** A group without sources of its own takes those listed for it on the side. */
  function CanonicalizeGroup(side: GroupSources, g: NodeGroup): CanonicalGroup {
    var sources := if g.sources == [] && g.id in side then side[g.id] else g.sources;
    CanonicalGroup(g.id, g.name, g.groupType, g.emptyFallbackPass, Map(CanonicalizeSource, sources))
  }

  function CanonicalizeRule(r: PolicyRule): CanonicalRule {
    CanonicalRule(r.targetGroupId, r.expression, r.position)
  }

  /** An empty filter is left out. */
  function CanonicalizeFilter(f: Option<FilterSpec>): Option<FilterSpec> {
    if IsEmptyFilter(f) then None else f
  }

  function Same<T>(x: T): T { x }

  predicate NodeLe(a: Node, b: Node) { StringLe(a.logicalId, b.logicalId) }

  predicate GroupLe(a: CanonicalGroup, b: CanonicalGroup) { StringLe(a.id, b.id) }

  predicate RuleLe(a: CanonicalRule, b: CanonicalRule) { a.position <= b.position }

  predicate AdmissionLe(a: AdmissionRule, b: AdmissionRule) { a.position <= b.position }

  predicate RiskLe(a: RiskDecision, b: RiskDecision) {
    if a.nodeLogicalId != b.nodeLogicalId then StringLe(a.nodeLogicalId, b.nodeLogicalId)
    else StringLe(a.reasonCode, b.reasonCode)
  }

  lemma Orders()
    ensures TotalPreorder(NodeLe) && TotalPreorder(GroupLe) && TotalPreorder(RuleLe) && TotalPreorder(AdmissionLe) && TotalPreorder(RiskLe)
  {
    StringOrder();
    assert TotalPreorder(NodeLe) && TotalPreorder(GroupLe);
    forall x, y, z | RiskLe(x, y) && RiskLe(y, z) ensures RiskLe(x, z) {
      if x.nodeLogicalId == y.nodeLogicalId == z.nodeLogicalId {
        StringLeTransitive(x.reasonCode, y.reasonCode, z.reasonCode);
      } else {
        StringLeTransitive(x.nodeLogicalId, y.nodeLogicalId, z.nodeLogicalId);
        assert x.nodeLogicalId == z.nodeLogicalId ==> SameKey(StringLe, x.nodeLogicalId, y.nodeLogicalId);
      }
    }
    forall x, y ensures RiskLe(x, y) || RiskLe(y, x) {
      StringLeTotal(x.nodeLogicalId, y.nodeLogicalId);
      StringLeTotal(x.reasonCode, y.reasonCode);
    }
  }

  /** The payload when the edge map is walked in `order`. */
  function PayloadOf(a: DigestInput, order: seq<string>): Payload
    requires forall p :: p in order ==> p in a.edges
  {
    Payload(SortedImage(Same, NodeLe, a.nodes),
            SortedImage((g: NodeGroup) => CanonicalizeGroup(a.groupSources, g), GroupLe, a.groups),
            StableSort(EdgeLe, Flatten(a.edges, order)),
            SortedImage(CanonicalizeRule, RuleLe, a.policyRules),
            SortedImage(Same, AdmissionLe, a.admissionRules),
            a.riskRevision,
            SortedImage(Same, RiskLe, a.riskDecisions),
            CanonicalizeFilter(a.globalFilter))
  }

  /** The strings are equal or in order. */
  ghost predicate UpTo(a: string, b: string) {
    a == b || Precedes(a, b)
  }

  lemma SortedPair<T(!new)>(le: (T, T) -> bool, s: seq<T>, i: nat, j: nat)
    requires TotalPreorder(le) && i < j < |StableSort(le, s)|
    ensures le(StableSort(le, s)[i], StableSort(le, s)[j])
  {
    StableSortSorts(le, s);
  }

  /**
   Each list of the payload, by its keys: nodes and groups by id, edges by parent and position, and
   so on.
   */
  lemma PayloadInOrder(a: DigestInput, order: seq<string>, i: nat, j: nat)
    requires (forall p :: p in order ==> p in a.edges) && i < j
    ensures var p := PayloadOf(a, order);
            && (j < |p.nodes| ==> UpTo(p.nodes[i].logicalId, p.nodes[j].logicalId))
            && (j < |p.groups| ==> UpTo(p.groups[i].id, p.groups[j].id))
            && (j < |p.edges| ==>
                  || (p.edges[i].parentGroupId == p.edges[j].parentGroupId && p.edges[i].position <= p.edges[j].position)
                  || Precedes(p.edges[i].parentGroupId, p.edges[j].parentGroupId))
            && (j < |p.policyRules| ==> p.policyRules[i].position <= p.policyRules[j].position)
            && (j < |p.admissionRules| ==> p.admissionRules[i].position <= p.admissionRules[j].position)
            && (j < |p.riskDecisions| ==>
                  || (p.riskDecisions[i].nodeLogicalId == p.riskDecisions[j].nodeLogicalId && UpTo(p.riskDecisions[i].reasonCode, p.riskDecisions[j].reasonCode))
                  || Precedes(p.riskDecisions[i].nodeLogicalId, p.riskDecisions[j].nodeLogicalId))
  {
    var p := PayloadOf(a, order);
    Orders();
    EdgeOrder();
    if j < |p.nodes| {
      SortedPair(NodeLe, Map(Same, a.nodes), i, j);
      StringLeMeans(p.nodes[i].logicalId, p.nodes[j].logicalId);
    }
    if j < |p.groups| {
      SortedPair(GroupLe, Map((g: NodeGroup) => CanonicalizeGroup(a.groupSources, g), a.groups), i, j);
      StringLeMeans(p.groups[i].id, p.groups[j].id);
    }
    if j < |p.edges| {
      SortedPair(EdgeLe, Flatten(a.edges, order), i, j);
      StringLeMeans(p.edges[i].parentGroupId, p.edges[j].parentGroupId);
    }
    if j < |p.policyRules| { SortedPair(RuleLe, Map(CanonicalizeRule, a.policyRules), i, j); }
    if j < |p.admissionRules| { SortedPair(AdmissionLe, Map(Same, a.admissionRules), i, j); }
    if j < |p.riskDecisions| {
      SortedPair(RiskLe, Map(Same, a.riskDecisions), i, j);
      StringLeMeans(p.riskDecisions[i].nodeLogicalId, p.riskDecisions[j].nodeLogicalId);
      StringLeMeans(p.riskDecisions[i].reasonCode, p.riskDecisions[j].reasonCode);
    }
  }

  /** Sources listed on the side matter only for groups that have none of their own. */
  lemma SideSourcesIgnored(a: DigestInput, order: seq<string>, side: GroupSources)
    requires forall p :: p in order ==> p in a.edges
    requires forall g :: g in a.groups && g.sources == [] ==>
               (g.id in side <==> g.id in a.groupSources) && (g.id in side ==> side[g.id] == a.groupSources[g.id])
    ensures PayloadOf(a.(groupSources := side), order) == PayloadOf(a, order)
  {
    var f := (g: NodeGroup) => CanonicalizeGroup(a.groupSources, g);
    var f' := (g: NodeGroup) => CanonicalizeGroup(side, g);
    assert Map(f, a.groups) == Map(f', a.groups);
  }

  /** A filter without conditions and none are digested alike; any other is digested as it is. */
  lemma FilterDigested(a: DigestInput, order: seq<string>, f: FilterSpec)
    requires forall p :: p in order ==> p in a.edges
    ensures PayloadOf(a.(globalFilter := Some(f)), order) == PayloadOf(a.(globalFilter := None), order) <==> |f.conditions| == 0
    ensures |f.conditions| > 0 ==> PayloadOf(a.(globalFilter := Some(f)), order).globalFilter == Some(f)
  {
  }

  /** The same input up to the arrival order of its lists. */
  ghost predicate Rearranged(a: DigestInput, b: DigestInput) {
    && multiset(a.nodes) == multiset(b.nodes) && multiset(a.groups) == multiset(b.groups)
    && a.groupSources == b.groupSources && a.edges == b.edges
    && multiset(a.policyRules) == multiset(b.policyRules) && multiset(a.admissionRules) == multiset(b.admissionRules)
    && multiset(a.riskDecisions) == multiset(b.riskDecisions)
    && a.riskRevision == b.riskRevision && a.globalFilter == b.globalFilter
  }

  /** Within each list, elements with the same sort key are canonically the same. */
  ghost predicate InputDecided(a: DigestInput) {
    && KeysDecide(NodeLe, Map(Same, a.nodes))
    && KeysDecide(GroupLe, Map((g: NodeGroup) => CanonicalizeGroup(a.groupSources, g), a.groups))
    && KeysDecide(RuleLe, Map(CanonicalizeRule, a.policyRules))
    && KeysDecide(AdmissionLe, Map(Same, a.admissionRules))
    && KeysDecide(RiskLe, Map(Same, a.riskDecisions))
  }

  /** No rearrangement and no walk of the edge map changes the payload. */
  ghost predicate PayloadOrderFree(a: DigestInput) {
    forall b, o, o' :: Rearranged(a, b) && Enumerates(o, a.edges.Keys) && Enumerates(o', a.edges.Keys) ==>
      SamePayload(a, o, b, o')
  }

  ghost predicate SamePayload(a: DigestInput, o: seq<string>, b: DigestInput, o': seq<string>) {
    && (forall p :: p in o ==> p in a.edges) && (forall p :: p in o' ==> p in b.edges)
    && PayloadOf(a, o) == PayloadOf(b, o')
  }

  ghost predicate ListsOrderFree(a: DigestInput) {
    && OrderFree(Same, NodeLe, a.nodes)
    && OrderFree((g: NodeGroup) => CanonicalizeGroup(a.groupSources, g), GroupLe, a.groups)
    && OrderFree(CanonicalizeRule, RuleLe, a.policyRules)
    && OrderFree(Same, AdmissionLe, a.admissionRules)
    && OrderFree(Same, RiskLe, a.riskDecisions)
  }

  lemma ListsExactly(a: DigestInput)
    ensures ListsOrderFree(a) <==> InputDecided(a)
  {
    Orders();
    OrderFreeExactly(Same, NodeLe, a.nodes);
    OrderFreeExactly((g: NodeGroup) => CanonicalizeGroup(a.groupSources, g), GroupLe, a.groups);
    OrderFreeExactly(CanonicalizeRule, RuleLe, a.policyRules);
    OrderFreeExactly(Same, AdmissionLe, a.admissionRules);
    OrderFreeExactly(Same, RiskLe, a.riskDecisions);
  }

  lemma {:induction false} EnumerationExists(keys: set<string>) returns (order: seq<string>)
    ensures Enumerates(order, keys)
  {
    if keys == {} {
      order := [];
    } else {
      var k :| k in keys;
      var rest := EnumerationExists(keys - {k});
      assert forall p :: p in rest <==> p in (set q | q in rest);
      order := rest + [k];
      assert (set p | p in order) == (set q | q in rest) + {k} == keys;
    }
  }

  lemma RearrangedSame(a: DigestInput, b: DigestInput, o: seq<string>, o': seq<string>)
    requires ListsOrderFree(a) && Rearranged(a, b) && Enumerates(o, a.edges.Keys) && Enumerates(o', a.edges.Keys)
    ensures SamePayload(a, o, b, o')
  {
    WalkOrderIrrelevant(a.edges, o, o');
  }

  /** One list rearranged at a time, the payload staying the same, makes every list order-free. */
  lemma PayloadFreeLists(a: DigestInput)
    requires PayloadOrderFree(a)
    ensures ListsOrderFree(a)
  {
    var o := EnumerationExists(a.edges.Keys);
    PayloadFreeMembers(a, o);
    PayloadFreeRules(a, o);
  }

  lemma PayloadFreeMembers(a: DigestInput, o: seq<string>)
    requires PayloadOrderFree(a) && Enumerates(o, a.edges.Keys)
    ensures OrderFree(Same, NodeLe, a.nodes)
    ensures OrderFree((g: NodeGroup) => CanonicalizeGroup(a.groupSources, g), GroupLe, a.groups)
  {
    forall s | multiset(s) == multiset(a.nodes) ensures SortedImage(Same, NodeLe, s) == SortedImage(Same, NodeLe, a.nodes) {
      assert SamePayload(a, o, a.(nodes := s), o);
    }
    var f := (g: NodeGroup) => CanonicalizeGroup(a.groupSources, g);
    forall s | multiset(s) == multiset(a.groups) ensures SortedImage(f, GroupLe, s) == SortedImage(f, GroupLe, a.groups) {
      assert SamePayload(a, o, a.(groups := s), o);
    }
  }

  lemma PayloadFreeRules(a: DigestInput, o: seq<string>)
    requires PayloadOrderFree(a) && Enumerates(o, a.edges.Keys)
    ensures OrderFree(CanonicalizeRule, RuleLe, a.policyRules)
    ensures OrderFree(Same, AdmissionLe, a.admissionRules) && OrderFree(Same, RiskLe, a.riskDecisions)
  {
    forall s | multiset(s) == multiset(a.policyRules)
      ensures SortedImage(CanonicalizeRule, RuleLe, s) == SortedImage(CanonicalizeRule, RuleLe, a.policyRules)
    {
      assert SamePayload(a, o, a.(policyRules := s), o);
    }
    forall s | multiset(s) == multiset(a.admissionRules)
      ensures SortedImage(Same, AdmissionLe, s) == SortedImage(Same, AdmissionLe, a.admissionRules)
    {
      assert SamePayload(a, o, a.(admissionRules := s), o);
    }
    forall s | multiset(s) == multiset(a.riskDecisions)
      ensures SortedImage(Same, RiskLe, s) == SortedImage(Same, RiskLe, a.riskDecisions)
    {
      assert SamePayload(a, o, a.(riskDecisions := s), o);
    }
  }

  /**
   The payload is independent of arrival and walking order exactly when equal sort keys mean equal
   canonical elements.
   */
  lemma PayloadOrderFreeExactly(a: DigestInput)
    ensures PayloadOrderFree(a) <==> InputDecided(a)
  {
    ListsExactly(a);
    if PayloadOrderFree(a) { PayloadFreeLists(a); }
    if InputDecided(a) {
      forall b, o, o' | Rearranged(a, b) && Enumerates(o, a.edges.Keys) && Enumerates(o', a.edges.Keys) ensures SamePayload(a, o, b, o') {
        RearrangedSame(a, b, o, o');
      }
    }
  }

  /** Two policy rules that share a position make the payload depend on how they arrive. */
  lemma SharedPositionsDepend(a: DigestInput, i: nat, j: nat)
    requires i < j < |a.policyRules| && a.policyRules[i].position == a.policyRules[j].position
    requires a.policyRules[i].expression != a.policyRules[j].expression
    ensures !PayloadOrderFree(a)
  {
    var m := Map(CanonicalizeRule, a.policyRules);
    assert m[i] in m && m[j] in m && SameKey(RuleLe, m[i], m[j]) && m[i].expression != m[j].expression;
    PayloadOrderFreeExactly(a);
  }

  /** Builds the payload, walking the edge map in whatever order it comes. */
  method Canonicalize(a: DigestInput) returns (p: Payload)
    ensures forall o :: Enumerates(o, a.edges.Keys) ==> (forall x :: x in o ==> x in a.edges) && p == PayloadOf(a, o)
  {
    var flat: seq<CanonicalEdge> := [];
    var todo := a.edges.Keys;
    ghost var walked: seq<string> := [];
    while todo != {}
      invariant todo <= a.edges.Keys && Enumerates(walked, a.edges.Keys - todo)
      invariant (forall x :: x in walked ==> x in a.edges) && flat == Flatten(a.edges, walked)
      decreases todo
    {
      var parent :| parent in todo;
      WalkNext(walked, a.edges.Keys - todo, parent);
      flat := flat + Block(parent, a.edges[parent]);
      assert (walked + [parent])[..|walked|] == walked;
      walked := walked + [parent];
      assert a.edges.Keys - (todo - {parent}) == (a.edges.Keys - todo) + {parent};
      todo := todo - {parent};
    }
    assert a.edges.Keys - {} == a.edges.Keys;
    p := Payload(StableSort(NodeLe, Map(Same, a.nodes)),
                 StableSort(GroupLe, Map((g: NodeGroup) => CanonicalizeGroup(a.groupSources, g), a.groups)),
                 StableSort(EdgeLe, flat),
                 StableSort(RuleLe, Map(CanonicalizeRule, a.policyRules)),
                 StableSort(AdmissionLe, Map(Same, a.admissionRules)),
                 a.riskRevision,
                 StableSort(RiskLe, Map(Same, a.riskDecisions)),
                 CanonicalizeFilter(a.globalFilter));
    forall o | Enumerates(o, a.edges.Keys) ensures (forall x :: x in o ==> x in a.edges) && p == PayloadOf(a, o) {
      WalkOrderIrrelevant(a.edges, walked, o);
    }
  }

  lemma WalkNext(walked: seq<string>, keys: set<string>, x: string)
    requires Enumerates(walked, keys) && x !in keys
    ensures Enumerates(walked + [x], keys + {x})
  {
    assert forall p :: p in walked <==> p in (set q | q in walked);
    assert (set p | p in walked + [x]) == (set q | q in walked) + {x};
  }
}

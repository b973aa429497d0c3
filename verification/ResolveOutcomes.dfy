/**
 What `Resolve` lets through, said on its result in the constructors of the policy: which rule
 actions, risk decisions and filter conditions keep a node out of the snapshot, and in what order
 the nodes and groups are listed.
 */
module ResolveOutcomes {
  import opened Wrappers
  import opened Policy
  import opened Sorting
  import opened Pipeline
  import opened Admission
  import opened DerivedGroups
  import opened ResolveGroups
  import opened GroupSnapshot
  import opened Resolve

  // ---- Which nodes ----

  /** Some condition of the global filter fails. */
  ghost predicate Misses(env: Environment, input: Input, n: Node) {
    input.globalFilter.Some? && exists c :: c in input.globalFilter.value.conditions && !env.oracle.condition(c, n)
  }

  lemma MissMeans(env: Environment, input: Input, n: Node)
    ensures Misses(env, input, n) <==> !MatchesFilter(env.oracle, input.globalFilter, n)
  {
    if input.globalFilter.Some? {
      var cs := input.globalFilter.value.conditions;
      if c :| c in cs && !env.oracle.condition(c, n) { var i :| 0 <= i < |cs| && cs[i] == c; }
    }
  }

  /** What bars a node whatever the order among rules of one position. */
  ghost predicate Barred(env: Environment, input: Input, n: Node) {
    || !n.active
    || n.logicalId in input.excludedIds
    || RiskBlocked(input.riskDecisions, input.riskRevision, input.riskReview, n.logicalId)
    || AllRefuse(env.expressions, input.admissionRules, n)
    || Misses(env, input, n)
  }

  /** No node of the snapshot is barred. */
  lemma KeptNotBarred(env: Environment, input: Input, e: Evaluation, s: Snapshot, n: Node)
    requires ResolvesTo(env, input, e, s) && n in s.nodes
    ensures n in input.nodes && !Barred(env, input, n)
  {
    assert Safe(env, input, n);
    MissMeans(env, input, n);
    AdmitMeans(env.expressions, input.admissionRules, n);
  }

  /** The snapshot lists a node exactly under the admitted ids. */
  lemma ListedExactly(env: Environment, input: Input, s: Snapshot, n: Node)
    requires NodesAccounted(env, input, s) && NodesListed(env, input, s) && DistinctNodes(input.nodes) && n in input.nodes
    ensures n in s.nodes <==> n.logicalId in s.admittedIds
    ensures n in s.nodes <==> n.logicalId !in s.excludedIds
  {
    var i :| 0 <= i < |input.nodes| && input.nodes[i] == n;
    assert n.logicalId in NodeIds(input.nodes);
    assert n.logicalId in IdSet(s.admittedIds) + IdSet(s.excludedIds);
    if n.logicalId in IdSet(s.admittedIds) {
      assert n.logicalId in NodeIds(s.nodes);
      var j :| 0 <= j < |s.nodes| && s.nodes[j].logicalId == n.logicalId;
      SameId(input.nodes, n, s.nodes[j]);
    }
    if n in s.nodes {
      var j :| 0 <= j < |s.nodes| && s.nodes[j] == n;
      assert n.logicalId in NodeIds(s.nodes);
    }
  }

  lemma SameId(nodes: seq<Node>, a: Node, b: Node)
    requires DistinctNodes(nodes) && a in nodes && b in nodes && a.logicalId == b.logicalId
    ensures a == b
  {
  }

  /** A barred node is not in the snapshot and its id is listed as excluded. */
  lemma BarredExcluded(env: Environment, input: Input, e: Evaluation, s: Snapshot, n: Node)
    requires ResolvesTo(env, input, e, s) && DistinctNodes(input.nodes) && n in input.nodes && Barred(env, input, n)
    ensures n !in s.nodes && n.logicalId in s.excludedIds && n.logicalId !in s.admittedIds
  {
    ListedExactly(env, input, s, n);
    if n in s.nodes { KeptNotBarred(env, input, e, s, n); }
  }

  /** No two matching rules share a position. */
  ghost predicate PositionsDecide(m: Expressions, rules: seq<AdmissionRule>, n: Node) {
    forall r, r' :: r in rules && r' in rules && m(n, r.expression) && m(n, r'.expression) && r.position == r'.position ==> r == r'
  }

  /** A node that is not barred is in the snapshot when the positions of its matching rules differ. */
  lemma InSnapshotExactly(env: Environment, input: Input, e: Evaluation, s: Snapshot, n: Node)
    requires ResolvesTo(env, input, e, s) && DistinctNodes(input.nodes) && n in input.nodes
    requires PositionsDecide(env.expressions, input.admissionRules, n)
    ensures n in s.nodes <==> !Barred(env, input, n)
    ensures n.logicalId in s.excludedIds <==> Barred(env, input, n)
  {
    ListedExactly(env, input, s, n);
    if n in s.nodes { KeptNotBarred(env, input, e, s, n); }
    if !Barred(env, input, n) { PassesAll(env, input, n); }
  }

  lemma PassesAll(env: Environment, input: Input, n: Node)
    requires !Barred(env, input, n) && PositionsDecide(env.expressions, input.admissionRules, n)
    ensures Admitted(env, input, n)
  {
    MissMeans(env, input, n);
    UnambiguousAdmits(env.expressions, input.admissionRules, n);
  }

  lemma UnambiguousAdmits(m: Expressions, rules: seq<AdmissionRule>, n: Node)
    requires PositionsDecide(m, rules, n) && !AllRefuse(m, rules, n)
    ensures FirstMatchAdmits(m, Exchanged(rules), n)
  {
    AdmitMeans(m, rules, n);
    DecisionUnique(m, rules, n);
    var sorted := Exchanged(rules);
    ExchangedSorts(rules);
    FirstMatchDecides(m, sorted, n);
    SameRulesSameDecisions(m, sorted, rules, n);
  }

  // ---- In what order, with which sources ----

  /** By name, and by id where names are equal. */
  ghost predicate TitlePrecedes(name: string, id: string, name': string, id': string) {
    Precedes(name, name') || (name == name' && Precedes(id, id'))
  }

  lemma TitleMeans(a: (string, string), b: (string, string))
    requires TitleLe(a, b) && a.1 != b.1
    ensures TitlePrecedes(a.0, a.1, b.0, b.1)
  {
    StringLeMeans(a.0, b.0);
    StringLeMeans(a.1, b.1);
  }

  /** Nodes and policy groups are listed by name and id, ids in their own order, each strictly. */
  lemma ListedInOrder(env: Environment, input: Input, e: Evaluation, s: Snapshot, i: nat, j: nat)
    requires ResolvesTo(env, input, e, s) && DistinctGroups(e.groups) && i < j
    ensures j < |s.nodes| ==>
              TitlePrecedes(s.nodes[i].displayName, s.nodes[i].logicalId, s.nodes[j].displayName, s.nodes[j].logicalId)
    ensures j < |s.admittedIds| ==> Precedes(s.admittedIds[i], s.admittedIds[j])
    ensures j < |s.excludedIds| ==> Precedes(s.excludedIds[i], s.excludedIds[j])
    ensures j < |e.groups| ==> j < |s.groups| && TitlePrecedes(s.groups[i].name, s.groups[i].id, s.groups[j].name, s.groups[j].id)
  {
    if j < |s.nodes| { TitleMeans(NodeTitle(s.nodes[i]), NodeTitle(s.nodes[j])); }
    if j < |s.admittedIds| { StringLeMeans(s.admittedIds[i], s.admittedIds[j]); }
    if j < |s.excludedIds| { StringLeMeans(s.excludedIds[i], s.excludedIds[j]); }
    if j < |e.groups| { GroupsInOrder(env, e, s, i, j); }
  }

  lemma GroupsInOrder(env: Environment, e: Evaluation, s: Snapshot, i: nat, j: nat)
    requires EvaluationOf(env, e, s.nodes) && GroupsPresented(env, e, s.groups) && DistinctGroups(e.groups) && i < j < |e.groups|
    ensures j < |s.groups| && TitlePrecedes(s.groups[i].name, s.groups[i].id, s.groups[j].name, s.groups[j].id)
  {
    var sorted := StableSort(GroupLe, e.groups);
    SortedGroups(e.groups, sorted, i, j);
    GroupShown(env, e, s, i, sorted[i]);
    GroupShown(env, e, s, j, sorted[j]);
    TitleMeans(GroupTitle(sorted[i]), GroupTitle(sorted[j]));
  }

  lemma SortedGroups(groups: seq<NodeGroup>, sorted: seq<NodeGroup>, i: nat, j: nat)
    requires sorted == StableSort(GroupLe, groups) && DistinctGroups(groups) && i < j < |groups|
    ensures |sorted| == |groups| && sorted[i] in groups && sorted[j] in groups
    ensures sorted[i].id != sorted[j].id && TitleLe(GroupTitle(sorted[i]), GroupTitle(sorted[j]))
  {
    TitleOrder();
    StableSortSorts(GroupLe, groups);
    StableSortElements(GroupLe, groups);
    StableSortDistinct(GroupLe, (g: NodeGroup) => g.id, groups);
    assert sorted[i] in sorted && sorted[j] in sorted;
    assert GroupLe(sorted[i], sorted[j]);
  }

  /** The policy group at a place of the order is shown there. */
  lemma GroupShown(env: Environment, e: Evaluation, s: Snapshot, i: nat, g: NodeGroup)
    requires EvaluationOf(env, e, s.nodes) && GroupsPresented(env, e, s.groups)
    requires i < |e.ids| && g in e.groups && e.ids[i] == g.id
    ensures i < |s.groups| && s.groups[i].id == g.id && s.groups[i].name == g.name
  {
    var st := Stage(e.ctx, e.rank, env.derivedId);
    OriginalAt(st, e.ids, s.groups, i);
    NamedAsDeclared(st, e.graph, s.groups, i);
  }

  lemma NamedAsDeclared(st: Stage, t: Table, groups: seq<ResolvedGroup>, i: nat)
    requires StageOk(st) && TableRanked(t, TableRank(st, t)) && AllFinished(st, t, groups) && i < |groups| && groups[i].id in st.rank
    ensures groups[i].name == st.ctx.groups[groups[i].id].name
  {
    assert Finished(st, t, groups[i]);
  }

  /**
   A group is resolved with its own sources, or with those supplied under its id, or none, if any are
   supplied.
   */
  lemma SourcesSupplied(env: Environment, input: Input, e: Evaluation, s: Snapshot, i: nat)
    requires ResolvesTo(env, input, e, s) && i < |input.groups|
    ensures i < |e.groups| && e.groups[i].(sources := []) == input.groups[i].(sources := [])
    ensures input.groupSources.None? ==> e.groups[i].sources == input.groups[i].sources
    ensures input.groupSources.Some? ==>
              e.groups[i].sources == if input.groups[i].id in input.groupSources.value
                                     then input.groupSources.value[input.groups[i].id] else []
  {
  }
}

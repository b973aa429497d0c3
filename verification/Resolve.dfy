/**
 `Resolve`, end to end: topology validation, risk and rule admission, the global filter, group
 resolution and rule ordering. Its nodes are exactly those of the input that all stages let through.
 No node of it, and no node of any resolved or derived group, is inactive, excluded, blocked by risk,
 blocked by its lowest-position admission rule, or outside the global filter; and every input node is
 accounted for as admitted or excluded, never both.
 */
module Resolve {
  import opened Wrappers
  import opened Policy
  import opened Sorting
  import opened Pipeline
  import opened PipelineMeaning
  import opened DerivedGroups
  import opened Admission
  import opened RewriteMeaning
  import opened GroupSnapshot
  import Topology
  import Rules

  /** What a node is reached by: resolution copies it, and no filter, rule or pattern reads it. */
  datatype Endpoint = Endpoint(server: string, port: int, credentials: string, connectionRevision: int)

  /** `endpoint` gives these fields of the node with that id. */
  datatype Input = Input(
    nodes: seq<Node>,
    groups: seq<NodeGroup>,
    groupSources: Option<map<string, seq<MemberSource>>>,
    policyRules: seq<PolicyRule>,
    admissionRules: seq<AdmissionRule>,
    excludedIds: seq<string>,
    riskRevision: string,
    riskDecisions: seq<RiskDecision>,
    riskReview: RiskAction,
    riskEvaluatedAt: Option<string>,
    globalFilter: Option<FilterSpec>,
    endpoint: string -> Endpoint)

  /** Syntax checks, matching oracles and the naming of derived groups. */
  datatype Environment = Environment(
    checks: Checks,
    oracle: Oracle,
    expressions: Expressions,
    validFilter: FilterSpec -> bool,
    derivedId: (string, string) -> string)

  /** `endpoints` are those of `nodes`, in the same order. */
  datatype Snapshot = Snapshot(
    nodes: seq<Node>,
    endpoints: seq<Endpoint>,
    groups: seq<ResolvedGroup>,
    rules: seq<Rules.ResolvedRule>,
    admittedIds: seq<string>,
    excludedIds: seq<string>,
    riskEvaluatedAt: Option<string>)

  // ---- Groups ----

  /** Separately supplied sources replace those of the group; a group without any gets none. */
  function Sourced(sources: Option<map<string, seq<MemberSource>>>, g: NodeGroup): NodeGroup {
    match sources
    case None => g
    case Some(m) => g.(sources := if g.id in m then m[g.id] else [])
  }

  method SourceGroups(input: Input) returns (groups: seq<NodeGroup>)
    ensures |groups| == |input.groups|
    ensures forall i :: 0 <= i < |groups| ==> groups[i] == Sourced(input.groupSources, input.groups[i])
  {
    groups := [];
    for k := 0 to |input.groups|
      invariant |groups| == k && forall i :: 0 <= i < k ==> groups[i] == Sourced(input.groupSources, input.groups[i])
    {
      groups := groups + [Sourced(input.groupSources, input.groups[k])];
    }
  }

  ghost predicate DistinctGroups(groups: seq<NodeGroup>) {
    DistinctKeys((g: NodeGroup) => g.id, groups)
  }

  ghost predicate IndexesGroups(groups: seq<NodeGroup>, m: map<string, NodeGroup>) {
    && m.Keys == Topology.GroupIds(groups)
    && (forall g :: g in m ==> m[g].id == g && m[g] in groups)
    && (forall g :: g in groups ==> g.id in m && m[g.id] == g)
  }

  method GroupsById(groups: seq<NodeGroup>) returns (m: map<string, NodeGroup>)
    requires DistinctGroups(groups)
    ensures IndexesGroups(groups, m)
  {
    m := map[];
    for k := 0 to |groups|
      invariant IndexesGroups(groups[..k], m)
    {
      IndexNextGroup(groups, k, m);
      m := m[groups[k].id := groups[k]];
    }
    assert groups[..|groups|] == groups;
  }

  lemma IndexNextGroup(groups: seq<NodeGroup>, k: nat, m: map<string, NodeGroup>)
    requires DistinctGroups(groups) && k < |groups| && IndexesGroups(groups[..k], m)
    ensures IndexesGroups(groups[..k + 1], m[groups[k].id := groups[k]])
  {
    assert groups[..k + 1] == groups[..k] + [groups[k]];
  }

  /** Display order: by name, then by id. */
  predicate TitleLe(a: (string, string), b: (string, string)) {
    if a.0 == b.0 then StringLe(a.1, b.1) else StringLe(a.0, b.0)
  }

  lemma TitleOrder()
    ensures TotalPreorder(TitleLe)
    ensures forall a, b | SameKey(TitleLe, a, b) :: a == b
  {
    StringOrder();
    forall x, y, z | TitleLe(x, y) && TitleLe(y, z) ensures TitleLe(x, z) {
      if x.0 == y.0 == z.0 {
        StringLeTransitive(x.1, y.1, z.1);
      } else {
        StringLeTransitive(x.0, y.0, z.0);
        assert x.0 == z.0 ==> SameKey(StringLe, x.0, y.0);
      }
    }
    forall x, y ensures TitleLe(x, y) || TitleLe(y, x) {
      StringLeTotal(x.0, y.0);
      StringLeTotal(x.1, y.1);
    }
    forall x, y | SameKey(TitleLe, x, y) ensures x == y {
      assert x.0 != y.0 ==> SameKey(StringLe, x.0, y.0);
      assert x.0 == y.0 ==> SameKey(StringLe, x.1, y.1);
    }
  }

  function GroupTitle(g: NodeGroup): (string, string) { (g.name, g.id) }

  function NodeTitle(n: Node): (string, string) { (n.displayName, n.logicalId) }

  predicate GroupLe(a: NodeGroup, b: NodeGroup) {
    TitleLe(GroupTitle(a), GroupTitle(b))
  }

  /** `ids` lists the groups by name, then id. */
  ghost predicate InOrder(groups: seq<NodeGroup>, ids: seq<string>) {
    var sorted := StableSort(GroupLe, groups);
    |ids| == |sorted| && forall i :: 0 <= i < |ids| ==> ids[i] == sorted[i].id
  }

  /** Group ids in display order. */
  method OrderedIds(groups: seq<NodeGroup>) returns (ids: seq<string>)
    requires DistinctGroups(groups)
    ensures InOrder(groups, ids) && NoRepeats(ids)
    ensures forall i :: 0 <= i < |ids| ==> ids[i] in Topology.GroupIds(groups)
    ensures forall g :: g in Topology.GroupIds(groups) ==> g in ids
  {
    var sorted := StableSort(GroupLe, groups);
    StableSortElements(GroupLe, groups);
    StableSortDistinct(GroupLe, (g: NodeGroup) => g.id, groups);
    ids := [];
    for k := 0 to |sorted|
      invariant |ids| == k && forall i :: 0 <= i < k ==> ids[i] == sorted[i].id
    {
      ids := ids + [sorted[k].id];
    }
    forall i | 0 <= i < |ids| ensures ids[i] in Topology.GroupIds(groups) { assert sorted[i] in sorted; }
    forall g | g in Topology.GroupIds(groups) ensures g in ids {
      var x :| x in groups && x.id == g;
      var i :| 0 <= i < |sorted| && sorted[i] == x;
      assert ids[i] == g;
    }
  }

  /** The validator's rank orders the evaluation context. */
  lemma ValidatedContext(c: Checks, groups: seq<NodeGroup>, rank: map<string, nat>, ctx: Context)
    requires Topology.ReferencesOk(c, groups, map[]) && !c.validUuid("")
    requires Topology.Ranked(Topology.DeclaredEdges(groups, map[]), rank) && rank.Keys == Topology.GroupIds(groups)
    requires ctx.groups.Keys == rank.Keys && forall g :: g in ctx.groups ==> ctx.groups[g].id == g && ctx.groups[g] in groups
    ensures RankedContext(ctx, rank)
  {
    forall g, i | g in ctx.groups && 0 <= i < |ctx.groups[g].sources|
      ensures DependencyBelow(ctx, rank, g, ctx.groups[g].sources[i])
    {
      var s := ctx.groups[g].sources[i];
      if (s.kind == GroupRef || s.kind == GroupNodes) && s.targetGroupId.Some? && s.targetGroupId.value in rank {
        var t := s.targetGroupId.value;
        var x :| x in groups && x.id == t;
        assert Topology.HeaderOk(c, x);
        assert Topology.SourceTarget(s) == Some(t);
        assert Topology.SourcesDeclare(ctx.groups[g].sources, t);
        assert Topology.GroupsDeclare(groups, g, t);
        assert (g, t) in Topology.DeclaredEdges(groups, map[]);
      }
    }
  }

  // ---- Nodes ----

  predicate NodeLe(a: Node, b: Node) {
    TitleLe(NodeTitle(a), NodeTitle(b))
  }

  ghost predicate FilteredOut(env: Environment, f: Option<FilterSpec>, nodes: seq<Node>, id: string) {
    exists n :: n in nodes && n.logicalId == id && !MatchesFilter(env.oracle, f, n)
  }

  /** The global filter over the admitted nodes; what it rejects joins the excluded ids. */
  method GlobalFilter(env: Environment, f: Option<FilterSpec>, admitted: seq<Node>, excluded: seq<string>, ghost all: seq<Node>)
    returns (kept: seq<Node>, byId: map<string, Node>, out: seq<string>)
    requires DistinctNodes(admitted) && Partitions(all, admitted, excluded)
    ensures DistinctNodes(kept) && Partitions(all, kept, out)
    ensures forall n :: n in kept <==> n in admitted && MatchesFilter(env.oracle, f, n)
    ensures byId.Keys == NodeIds(kept) && forall n :: n in kept ==> n.logicalId in byId && byId[n.logicalId] == n
    ensures forall id :: id in out ==> id in excluded || FilteredOut(env, f, admitted, id)
  {
    kept, byId, out := [], map[], excluded;
    for k := 0 to |admitted|
      invariant DistinctNodes(kept) && NodeIds(kept) <= NodeIds(admitted[..k])
      invariant NodeIds(kept) + IdSet(out) == NodeIds(admitted[..k]) + IdSet(excluded) && NodeIds(kept) !! IdSet(out)
      invariant IdSet(out) <= NodeIds(admitted[..k]) + IdSet(excluded)
      invariant forall n :: n in kept <==> n in admitted[..k] && MatchesFilter(env.oracle, f, n)
      invariant byId.Keys == NodeIds(kept) && forall n :: n in kept ==> n.logicalId in byId && byId[n.logicalId] == n
      invariant forall id :: id in out ==> id in excluded || FilteredOut(env, f, admitted, id)
    {
      var n := admitted[k];
      assert n in admitted && admitted[..k + 1] == admitted[..k] + [n];
      FilterStep(admitted, k, kept, out, excluded);
      if IsEmptyFilter(f) || MatchesFilter(env.oracle, f, n) {
        kept, byId := kept + [n], byId[n.logicalId := n];
      } else {
        out := out + [n.logicalId];
      }
    }
    assert admitted[..|admitted|] == admitted;
  }

  lemma FilterStep(admitted: seq<Node>, k: nat, kept: seq<Node>, out: seq<string>, excluded: seq<string>)
    requires DistinctNodes(admitted) && k < |admitted| && NodeIds(admitted) !! IdSet(excluded)
    requires DistinctNodes(kept) && NodeIds(kept) <= NodeIds(admitted[..k]) && IdSet(out) <= NodeIds(admitted[..k]) + IdSet(excluded)
    ensures NodeIds(admitted[..k + 1]) == NodeIds(admitted[..k]) + {admitted[k].logicalId}
    ensures admitted[k].logicalId !in NodeIds(kept) + IdSet(out)
    ensures NodeIds(kept + [admitted[k]]) == NodeIds(kept) + {admitted[k].logicalId} && DistinctNodes(kept + [admitted[k]])
    ensures IdSet(out + [admitted[k].logicalId]) == IdSet(out) + {admitted[k].logicalId}
    ensures forall n :: n in kept ==> n.logicalId != admitted[k].logicalId
  {
    var n := admitted[k];
    assert admitted[..k + 1] == admitted[..k] + [n];
    NodeIdsSnoc(admitted[..k], n);
    NodeIdsSnoc(kept, n);
    assert n.logicalId !in NodeIds(admitted[..k]);
    assert n.logicalId in NodeIds(admitted);
    forall i | 0 <= i < |kept| ensures kept[i].logicalId != n.logicalId { assert kept[i].logicalId in NodeIds(kept); }
  }

  lemma ContextIndexed(ctx: Context, kept: seq<Node>)
    requires ctx.ordered == StableSort(NodeLe, kept)
    requires ctx.admitted.Keys == NodeIds(kept) && forall n :: n in kept ==> n.logicalId in ctx.admitted && ctx.admitted[n.logicalId] == n
    ensures NodesIndexed(ctx)
  {
    StableSortElements(NodeLe, kept);
    forall id | id in ctx.admitted ensures ctx.admitted[id].logicalId == id {
      var i :| 0 <= i < |kept| && kept[i].logicalId == id;
      assert kept[i] in kept;
    }
    forall i | 0 <= i < |ctx.ordered|
      ensures ctx.ordered[i].logicalId in ctx.admitted && ctx.admitted[ctx.ordered[i].logicalId] == ctx.ordered[i]
    {
      assert ctx.ordered[i] in ctx.ordered;
    }
  }

  /** What every node offered by any group must satisfy. */
  ghost predicate Safe(env: Environment, input: Input, n: Node) {
    && n in input.nodes && n.active
    && n.logicalId !in input.excludedIds
    && !RiskBlocked(input.riskDecisions, input.riskRevision, input.riskReview, n.logicalId)
    && RulesAdmit(env.expressions, input.admissionRules, n)
    && MatchesFilter(env.oracle, input.globalFilter, n)
  }

  /** The decision taken, with the first match in the order the rules are sorted into. */
  ghost predicate Admitted(env: Environment, input: Input, n: Node) {
    && n.active
    && n.logicalId !in input.excludedIds
    && !RiskBlocked(input.riskDecisions, input.riskRevision, input.riskReview, n.logicalId)
    && FirstMatchAdmits(env.expressions, Exchanged(input.admissionRules), n)
    && MatchesFilter(env.oracle, input.globalFilter, n)
  }

  lemma AdmittedIsSafe(env: Environment, input: Input, n: Node)
    requires n in input.nodes && Admitted(env, input, n)
    ensures Safe(env, input, n)
  {
    var sorted := Exchanged(input.admissionRules);
    ExchangedSorts(input.admissionRules);
    FirstMatchDecides(env.expressions, sorted, n);
    SameRulesSameDecisions(env.expressions, sorted, input.admissionRules, n);
  }

  /** A reason to leave a node out. */
  ghost predicate Unsafe(env: Environment, input: Input, n: Node) {
    && n in input.nodes
    && (|| !n.active
        || n.logicalId in input.excludedIds
        || RiskBlocked(input.riskDecisions, input.riskRevision, input.riskReview, n.logicalId)
        || RuleBlocks(env.expressions, input.admissionRules, n)
        || !MatchesFilter(env.oracle, input.globalFilter, n))
  }

  ghost predicate UnsafeId(env: Environment, input: Input, id: string) {
    exists n :: Unsafe(env, input, n) && n.logicalId == id
  }

  ghost predicate SafeId(env: Environment, input: Input, id: string) {
    exists n :: Safe(env, input, n) && n.logicalId == id
  }

  ghost predicate AllKeptSafe(env: Environment, input: Input, nodes: seq<Node>) {
    forall n :: n in nodes ==> Safe(env, input, n)
  }

  ghost predicate AllSafe(env: Environment, input: Input, ids: set<string>) {
    forall id :: id in ids ==> SafeId(env, input, id)
  }

  /** Admission, risk and the global filter: safe nodes only, the rest listed as excluded. */
  method AdmitNodes(env: Environment, input: Input) returns (kept: seq<Node>, byId: map<string, Node>, out: seq<string>)
    requires DistinctNodes(input.nodes)
    ensures DistinctNodes(kept) && Partitions(input.nodes, kept, out)
    ensures forall n :: n in kept <==> n in input.nodes && Admitted(env, input, n)
    ensures byId.Keys == NodeIds(kept) && forall n :: n in kept ==> n.logicalId in byId && byId[n.logicalId] == n
    ensures forall id :: id in out ==> UnsafeId(env, input, id)
  {
    var risk := EvaluateRiskAdmission(input.nodes, input.riskRevision, input.riskDecisions, input.riskReview);
    var excludedIds := (set x | x in input.excludedIds) + risk;
    var admitted, excluded := EvaluateNodeAdmission(env.expressions, input.nodes, input.admissionRules, excludedIds);
    kept, byId, out := GlobalFilter(env, input.globalFilter, admitted, excluded, input.nodes);
    forall n | n in input.nodes ensures n.logicalId in risk <==> RiskBlocked(input.riskDecisions, input.riskRevision, input.riskReview, n.logicalId) {
      var i :| 0 <= i < |input.nodes| && input.nodes[i] == n;
      assert n.logicalId in NodeIds(input.nodes);
    }
    forall id | id in out ensures UnsafeId(env, input, id) {
      if id in excluded {
        assert ExcludedFor(env.expressions, input.admissionRules, excludedIds, input.nodes, id);
        var n :| Excludes(env.expressions, input.admissionRules, excludedIds, input.nodes, id, n);
        assert Unsafe(env, input, n);
      } else {
        var n :| n in admitted && n.logicalId == id && !MatchesFilter(env.oracle, input.globalFilter, n);
        assert Unsafe(env, input, n);
      }
    }
  }

  method IdsOfNodes(nodes: seq<Node>) returns (ids: seq<string>)
    ensures IdSet(ids) == NodeIds(nodes) && (DistinctNodes(nodes) ==> NoRepeats(ids))
  {
    ids := [];
    for k := 0 to |nodes|
      invariant |ids| == k && forall i :: 0 <= i < k ==> ids[i] == nodes[i].logicalId
    {
      ids := ids + [nodes[k].logicalId];
    }
    forall x ensures x in IdSet(ids) <==> x in NodeIds(nodes) {
      if x in NodeIds(nodes) {
        var i :| 0 <= i < |nodes| && nodes[i].logicalId == x;
        assert ids[i] == x;
      }
    }
  }

  lemma KeptSafe(env: Environment, input: Input, kept: seq<Node>, ids: set<string>)
    requires AllKeptSafe(env, input, kept) && ids <= NodeIds(kept)
    ensures AllSafe(env, input, ids)
  {
    forall id | id in ids ensures SafeId(env, input, id) {
      var i :| 0 <= i < |kept| && kept[i].logicalId == id;
      assert kept[i] in kept;
      assert Safe(env, input, kept[i]) && kept[i].logicalId == id;
    }
  }

  /** The policy is accepted: topology, references, rules and the global filter are in order. */
  ghost predicate Accepts(env: Environment, input: Input, groups: seq<NodeGroup>) {
    && Topology.ReferencesOk(env.checks, groups, map[])
    && Topology.Acyclic(Topology.DeclaredEdges(groups, map[]))
    && Rules.RulesOk(env.checks, input.policyRules, Topology.GroupIds(groups), false)
    && (input.globalFilter.None? || env.validFilter(input.globalFilter.value))
  }

  ghost predicate NamingOk(env: Environment, groups: seq<NodeGroup>) {
    && !env.checks.validUuid("")
    && (forall p, c :: env.derivedId(p, c) !in Topology.GroupIds(groups))
    && (forall p, c, p', c' :: env.derivedId(p, c) == env.derivedId(p', c') ==> p == p' && c == c')
  }

  /**
   The evaluation behind a snapshot: groups with their sources, the ranked context, the group order
   and the rewritten graph.
   */
  datatype Evaluation = Evaluation(groups: seq<NodeGroup>, ctx: Context, rank: map<string, nat>, ids: seq<string>, graph: Table)

  /** The groups were evaluated over exactly these nodes, in this order. */
  ghost predicate EvaluationOf(env: Environment, e: Evaluation, nodes: seq<Node>) {
    && RankedContext(e.ctx, e.rank) && (forall i :: 0 <= i < |e.ids| ==> e.ids[i] in e.rank)
    && InOrder(e.groups, e.ids)
    && IndexesGroups(e.groups, e.ctx.groups)
    && e.ctx.ordered == nodes && NodesIndexed(e.ctx) && e.ctx.admitted.Keys == NodeIds(nodes)
    && e.ctx.oracle == env.oracle
  }

  /**
   Every node a group lists or reaches is safe, every group it refers to is in the snapshot, and its
   id lists are its members'.
   */
  ghost predicate GroupAccounted(env: Environment, input: Input, names: set<string>, rg: ResolvedGroup) {
    && AllSafe(env, input, rg.allNodeIds) && AllSafe(env, input, Elements(rg.nodeLogicalIds))
    && (forall i :: 0 <= i < |rg.members| ==> MemberAccounted(env, input, names, rg.members[i]))
    && rg.nodeLogicalIds == MemberTargets(rg.members, KindNode)
    && rg.childGroupIds == MemberTargets(rg.members, KindGroup)
  }

  ghost predicate MemberAccounted(env: Environment, input: Input, names: set<string>, m: Member) {
    match m.kind
    case KindNode => SafeId(env, input, m.targetId)
    case KindGroup => m.targetId in names
    case KindBuiltin => true
  }

  /** What a snapshot promises about nodes: safe ones admitted, unsafe ones excluded, all accounted for. */
  ghost predicate NodesAccounted(env: Environment, input: Input, s: Snapshot) {
    && (forall i :: 0 <= i < |s.groups| ==> GroupAccounted(env, input, IdsOf(s.groups), s.groups[i]))
    && (forall id :: id in s.admittedIds ==> SafeId(env, input, id))
    && (forall id :: id in s.excludedIds ==> UnsafeId(env, input, id))
    && IdSet(s.admittedIds) + IdSet(s.excludedIds) == NodeIds(input.nodes)
    && IdSet(s.admittedIds) !! IdSet(s.excludedIds)
  }

  /**
   The nodes of a snapshot: exactly the admitted ones of the input with their endpoints, all safe,
   each once, by name and id; ids in order.
   */
  ghost predicate NodesListed(env: Environment, input: Input, s: Snapshot) {
    && (forall n :: n in s.nodes <==> n in input.nodes && Admitted(env, input, n))
    && AllKeptSafe(env, input, s.nodes) && DistinctNodes(s.nodes) && SortedBy(NodeLe, s.nodes)
    && NodeIds(s.nodes) == IdSet(s.admittedIds)
    && InIdOrder(s.admittedIds) && InIdOrder(s.excludedIds)
    && s.endpoints == EndpointsOf(input, s.nodes) && s.riskEvaluatedAt == input.riskEvaluatedAt
  }

  function EndpointsOf(input: Input, nodes: seq<Node>): seq<Endpoint> {
    seq(|nodes|, i requires 0 <= i < |nodes| => input.endpoint(nodes[i].logicalId))
  }

  ghost predicate InIdOrder(ids: seq<string>) {
    SortedBy(StringLe, ids) && NoRepeats(ids)
  }

  lemma {:induction false} NameOfGroup(groups: seq<NodeGroup>, id: string)
    requires id in Topology.GroupIds(groups)
    ensures exists g :: g in groups && g.id == id && g.name == Rules.GroupName(groups, id)
  {
    var init, last := groups[..|groups| - 1], groups[|groups| - 1];
    assert groups == init + [last];
    if last.id != id {
      NameOfGroup(init, id);
      var g :| g in init && g.id == id && g.name == Rules.GroupName(init, id);
      assert g in groups;
    }
  }

  ghost predicate RulesPresented(env: Environment, input: Input, groups: seq<NodeGroup>, rules: seq<Rules.ResolvedRule>) {
    var arranged := Rules.Arrange(env.checks, Rules.ByPosition(input.policyRules));
    |rules| == |arranged| && forall i :: 0 <= i < |rules| ==> rules[i] == Rules.Present(env.checks, groups, arranged[i], i)
  }

  /**
   The groups present the rewritten graph of the evaluation, and carry its meaning exactly when the
   filter choices select alike.
   */
  ghost predicate GroupsPresented(env: Environment, e: Evaluation, groups: seq<ResolvedGroup>) {
    && RankedContext(e.ctx, e.rank)
    && var st := Stage(e.ctx, e.rank, env.derivedId);
       && SnapshotOf(st, e.graph, e.ids, groups) && NoRepeats(IdList(groups))
       && (AllFaithful(st, e.ids, groups) <==> SelectionsAgree(st))
  }

  ghost predicate SourcesTaken(input: Input, groups: seq<NodeGroup>) {
    |groups| == |input.groups| && forall i :: 0 <= i < |groups| ==> groups[i] == Sourced(input.groupSources, input.groups[i])
  }

  /** `s` is the snapshot of the input, by the evaluation `e`. */
  ghost predicate ResolvesTo(env: Environment, input: Input, e: Evaluation, s: Snapshot) {
    && SourcesTaken(input, e.groups) && NodesAccounted(env, input, s) && NodesListed(env, input, s)
    && EvaluationOf(env, e, s.nodes) && GroupsPresented(env, e, s.groups)
    && RulesPresented(env, input, e.groups, s.rules)
  }

  method Resolve(env: Environment, input: Input) returns (r: Result<Snapshot>, ghost e: Evaluation)
    requires DistinctNodes(input.nodes) && DistinctGroups(input.groups) && NamingOk(env, input.groups)
    ensures SourcesTaken(input, e.groups)
    ensures r.Ok? <==> Accepts(env, input, e.groups)
    ensures r.Ok? ==> ResolvesTo(env, input, e, r.value)
  {
    var gs := SourceGroups(input);
    e := Evaluation(gs, Context(map[], map[], [], env.oracle), map[], [], map[]);
    ghost var rank;
    var ok;
    ok, rank := Topology.ValidatePolicyTopology(env.checks, gs, map[], input.policyRules, false);
    if ok.Err? { return Err(ok.code, ok.cyclePath), e; }
    if input.globalFilter.Some? && !env.validFilter(input.globalFilter.value) { return Err("invalid_filter", []), e; }
    SameIds(input, gs);

    var kept, byId, out := AdmitNodes(env, input);
    AdmittedAreSafe(env, input, kept);
    var resolved;
    resolved, e := ResolveAdmitted(env, gs, rank, kept, byId);
    var rules := Rules.ResolveRules(env.checks, input.policyRules, gs);
    var snapshot := Assemble(env, input, kept, out, resolved, rules);
    r := Ok(snapshot);
  }

  lemma AdmittedAreSafe(env: Environment, input: Input, kept: seq<Node>)
    requires forall n :: n in kept <==> n in input.nodes && Admitted(env, input, n)
    ensures AllKeptSafe(env, input, kept)
  {
    forall n | n in kept ensures Safe(env, input, n) { AdmittedIsSafe(env, input, n); }
  }

  method ListEndpoints(input: Input, nodes: seq<Node>) returns (endpoints: seq<Endpoint>)
    ensures endpoints == EndpointsOf(input, nodes)
  {
    endpoints := [];
    for k := 0 to |nodes|
      invariant endpoints == EndpointsOf(input, nodes[..k])
    {
      endpoints := endpoints + [input.endpoint(nodes[k].logicalId)];
    }
    assert nodes[..|nodes|] == nodes;
  }

  /** The kept nodes in display order. */
  method ListNodes(kept: seq<Node>) returns (nodes: seq<Node>)
    requires DistinctNodes(kept)
    ensures nodes == StableSort(NodeLe, kept) && (forall n :: n in nodes <==> n in kept)
    ensures DistinctNodes(nodes) && SortedBy(NodeLe, nodes) && NodeIds(nodes) == NodeIds(kept)
  {
    nodes := StableSort(NodeLe, kept);
    TitleOrder();
    StableSortSorts(NodeLe, kept);
    StableSortElements(NodeLe, kept);
    StableSortDistinct(NodeLe, (n: Node) => n.logicalId, kept);
    SortedIds(kept);
  }

  method ListIds(kept: seq<Node>) returns (ids: seq<string>)
    requires DistinctNodes(kept)
    ensures IdSet(ids) == NodeIds(kept) && InIdOrder(ids)
  {
    var unsorted := IdsOfNodes(kept);
    StringOrder();
    StableSortSorts(StringLe, unsorted);
    StableSortElements(StringLe, unsorted);
    StableSortDistinct(StringLe, (x: string) => x, unsorted);
    ids := SortStrings(unsorted);
  }

  method Assemble(env: Environment, input: Input, kept: seq<Node>, out: seq<string>, resolved: seq<ResolvedGroup>,
                  rules: seq<Rules.ResolvedRule>)
    returns (s: Snapshot)
    requires Partitions(input.nodes, kept, out) && forall id :: id in out ==> UnsafeId(env, input, id)
    requires DistinctNodes(kept) && AllKeptSafe(env, input, kept)
    requires forall n :: n in kept <==> n in input.nodes && Admitted(env, input, n)
    requires forall i :: 0 <= i < |resolved| ==> GroupSafe(NodeIds(kept), IdsOf(resolved), resolved[i])
    ensures NodesAccounted(env, input, s) && NodesListed(env, input, s)
    ensures s.groups == resolved && s.rules == rules && s.nodes == StableSort(NodeLe, kept)
  {
    forall i | 0 <= i < |resolved| ensures GroupAccounted(env, input, IdsOf(resolved), resolved[i]) {
      SafeGroupAccounted(env, input, kept, IdsOf(resolved), resolved[i]);
    }
    KeptSafe(env, input, kept, NodeIds(kept));
    var nodes := ListNodes(kept);
    var endpoints := ListEndpoints(input, nodes);
    var admitted := ListIds(kept);
    var excluded := SortUnique(out);
    forall id | id in admitted ensures SafeId(env, input, id) { assert id in IdSet(admitted); }
    forall id | id in excluded ensures UnsafeId(env, input, id) { assert id in IdSet(out); }
    s := Snapshot(nodes, endpoints, resolved, rules, admitted, excluded, input.riskEvaluatedAt);
  }

  lemma SafeGroupAccounted(env: Environment, input: Input, kept: seq<Node>, names: set<string>, rg: ResolvedGroup)
    requires AllKeptSafe(env, input, kept) && GroupSafe(NodeIds(kept), names, rg)
    ensures GroupAccounted(env, input, names, rg)
  {
    KeptSafe(env, input, kept, rg.allNodeIds);
    KeptSafe(env, input, kept, NodeIds(kept));
    ListedNodes(NodeIds(kept), names, rg.members);
    KeptSafe(env, input, kept, Elements(rg.nodeLogicalIds));
    forall i | 0 <= i < |rg.members| ensures MemberAccounted(env, input, names, rg.members[i]) {
      assert MemberOk(NodeIds(kept), names, rg.members[i]);
    }
  }

  lemma {:induction false} ListedNodes(admitted: set<string>, names: set<string>, ms: seq<Member>)
    requires forall i :: 0 <= i < |ms| ==> MemberOk(admitted, names, ms[i])
    ensures Elements(MemberTargets(ms, KindNode)) <= admitted
  {
    if ms != [] {
      var n := |ms| - 1;
      ListedNodes(admitted, names, ms[..n]);
      assert MemberOk(admitted, names, ms[n]);
      ElementsSnoc(MemberTargets(ms[..n], KindNode), ms[n].targetId);
    }
  }

  lemma SameIds(input: Input, groups: seq<NodeGroup>)
    requires SourcesTaken(input, groups)
    ensures DistinctGroups(input.groups) ==> DistinctGroups(groups)
    ensures Topology.GroupIds(groups) == Topology.GroupIds(input.groups)
  {
    forall x ensures x in Topology.GroupIds(groups) <==> x in Topology.GroupIds(input.groups) {
      if x in Topology.GroupIds(groups) {
        var g :| g in groups && g.id == x;
        var i :| 0 <= i < |groups| && groups[i] == g;
        assert input.groups[i] in input.groups;
      }
      if x in Topology.GroupIds(input.groups) {
        var g :| g in input.groups && g.id == x;
        var i :| 0 <= i < |groups| && input.groups[i] == g;
        assert groups[i] in groups;
      }
    }
  }

  lemma SortedIds(kept: seq<Node>)
    ensures NodeIds(StableSort(NodeLe, kept)) == NodeIds(kept)
  {
    var sorted := StableSort(NodeLe, kept);
    StableSortElements(NodeLe, kept);
    forall i | 0 <= i < |kept| ensures kept[i].logicalId in NodeIds(sorted) {
      assert kept[i] in kept;
      var j :| 0 <= j < |sorted| && sorted[j] == kept[i];
    }
    forall i | 0 <= i < |sorted| ensures sorted[i].logicalId in NodeIds(kept) {
      assert sorted[i] in sorted;
      var j :| 0 <= j < |kept| && kept[j] == sorted[i];
    }
  }

  /** The group stage over the admitted nodes. */
  method ResolveAdmitted(env: Environment, gs: seq<NodeGroup>, ghost rank: map<string, nat>, kept: seq<Node>,
                         byId: map<string, Node>)
    returns (resolved: seq<ResolvedGroup>, ghost e: Evaluation)
    requires NamingOk(env, gs) && DistinctGroups(gs) && Topology.ReferencesOk(env.checks, gs, map[])
    requires Topology.Ranked(Topology.DeclaredEdges(gs, map[]), rank) && rank.Keys == Topology.GroupIds(gs)
    requires byId.Keys == NodeIds(kept) && forall n :: n in kept ==> n.logicalId in byId && byId[n.logicalId] == n
    ensures e.groups == gs && EvaluationOf(env, e, StableSort(NodeLe, kept))
    ensures GroupsPresented(env, e, resolved)
    ensures NodeIds(StableSort(NodeLe, kept)) == NodeIds(kept)
    ensures forall i :: 0 <= i < |resolved| ==> GroupSafe(NodeIds(kept), IdsOf(resolved), resolved[i])
  {
    var groupMap := GroupsById(gs);
    var ctx := Context(groupMap, byId, StableSort(NodeLe, kept), env.oracle);
    ValidatedContext(env.checks, gs, rank, ctx);
    ContextIndexed(ctx, kept);
    SortedIds(kept);
    var ids := OrderedIds(gs);
    var st := Stage(ctx, rank, env.derivedId);
    ghost var graph;
    resolved, graph := Run(st, ids);
    e := Evaluation(gs, ctx, rank, ids, graph);
  }
}

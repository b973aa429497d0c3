/**
 What the digest payload determines: of two resolved inputs with the same payload the snapshots are
 the same, up to the ids of rules, exactly when both admit the same nodes and agree on what the
 snapshot copies and the payload lacks: the endpoints of those nodes and the time of the risk decisions.
 */
module PayloadSnapshot {
  import opened Wrappers
  import opened Policy
  import opened Sorting
  import opened Pipeline
  import opened PipelineMeaning
  import opened DerivedGroups
  import opened GroupSnapshot
  import opened PipelineAlike
  import opened SnapshotAlike
  import opened Admission
  import opened Resolve
  import opened PayloadAdmission
  import Digest
  import Rules
  import Topology

  // ---- Nodes ----

  lemma NodesSame(env: Environment, a: Input, sa: Snapshot, b: Input, sb: Snapshot)
    requires NodesListed(env, a, sa) && NodesListed(env, b, sb) && AdmitAlike(env, a, b)
    requires forall n :: n in a.nodes <==> n in b.nodes
    ensures sa.nodes == sb.nodes
  {
    NodeKeys(sa.nodes);
    NodeKeys(sb.nodes);
    forall n ensures n in sa.nodes <==> n in sb.nodes {}
    SortedDistinctAgree(NodeLe, sa.nodes, sb.nodes);
  }

  lemma NodeKeys(nodes: seq<Node>)
    requires DistinctNodes(nodes)
    ensures TotalPreorder(NodeLe) && KeysDecide(NodeLe, nodes) && NoRepeats(nodes)
  {
    TitleOrder();
    forall x, y | x in nodes && y in nodes && SameKey(NodeLe, x, y) ensures x == y {
      assert SameKey(TitleLe, NodeTitle(x), NodeTitle(y));
      var i :| 0 <= i < |nodes| && nodes[i] == x;
      var j :| 0 <= j < |nodes| && nodes[j] == y;
    }
  }

  lemma IdsSame(x: seq<string>, y: seq<string>)
    requires InIdOrder(x) && InIdOrder(y) && IdSet(x) == IdSet(y)
    ensures x == y
  {
    StringOrder();
    assert KeysDecide(StringLe, x);
    forall id ensures id in x <==> id in y { assert id in IdSet(x) <==> id in IdSet(y); }
    SortedDistinctAgree(StringLe, x, y);
  }

  lemma AllNodeIds(a: seq<Node>, b: seq<Node>)
    requires forall n :: n in a <==> n in b
    ensures NodeIds(a) == NodeIds(b)
  {
    forall i | 0 <= i < |a| ensures a[i].logicalId in NodeIds(b) {
      assert a[i] in a;
      var j :| 0 <= j < |b| && b[j] == a[i];
    }
    forall i | 0 <= i < |b| ensures b[i].logicalId in NodeIds(a) {
      assert b[i] in b;
      var j :| 0 <= j < |a| && a[j] == b[i];
    }
  }

  lemma IdListsSame(env: Environment, env': Environment, a: Input, sa: Snapshot, b: Input, sb: Snapshot)
    requires NodesListed(env, a, sa) && NodesListed(env, b, sb) && NodesAccounted(env, a, sa) && NodesAccounted(env', b, sb)
    requires sa.nodes == sb.nodes && forall n :: n in a.nodes <==> n in b.nodes
    ensures sa.admittedIds == sb.admittedIds && sa.excludedIds == sb.excludedIds
  {
    IdsSame(sa.admittedIds, sb.admittedIds);
    AllNodeIds(a.nodes, b.nodes);
    assert IdSet(sa.excludedIds) == NodeIds(a.nodes) - IdSet(sa.admittedIds);
    assert IdSet(sb.excludedIds) == NodeIds(b.nodes) - IdSet(sb.admittedIds);
    IdsSame(sa.excludedIds, sb.excludedIds);
  }

  // ---- Groups ----

  function Side(a: Input): Digest.GroupSources {
    match a.groupSources case None => map[] case Some(m) => m
  }

  /** The group as the digest of this input shows it. */
  function Canon(a: Input, g: NodeGroup): Digest.CanonicalGroup {
    Digest.CanonicalizeGroup(Side(a), g)
  }

  /** A group that has taken its sources is digested with them. */
  lemma CanonSources(a: Input, gs: seq<NodeGroup>, g: NodeGroup)
    requires SourcesTaken(a, gs) && g in gs
    ensures Canon(a, g).sources == Digest.Map(Digest.CanonicalizeSource, g.sources)
  {
    var i :| 0 <= i < |gs| && gs[i] == g;
    assert gs[i] == Sourced(a.groupSources, a.groups[i]);
  }

  lemma CanonSourcesAlike(ss: seq<MemberSource>, ss': seq<MemberSource>)
    requires Digest.Map(Digest.CanonicalizeSource, ss) == Digest.Map(Digest.CanonicalizeSource, ss')
    ensures SourcesAlike(ss, ss')
  {
    var m, m' := Digest.Map(Digest.CanonicalizeSource, ss), Digest.Map(Digest.CanonicalizeSource, ss');
    assert |ss| == |m| == |m'| == |ss'|;
    forall i | 0 <= i < |ss| ensures Plain(ss[i]) == Plain(ss'[i]) { assert m[i] == m'[i]; }
  }

  lemma CanonAlike(a: Input, ga: seq<NodeGroup>, g: NodeGroup, b: Input, gb: seq<NodeGroup>, g': NodeGroup)
    requires SourcesTaken(a, ga) && g in ga && SourcesTaken(b, gb) && g' in gb && Canon(a, g) == Canon(b, g')
    ensures GroupsAlike(g, g')
  {
    CanonSources(a, ga, g);
    CanonSources(b, gb, g');
    CanonSourcesAlike(g.sources, g'.sources);
  }

  lemma InMap<T, U>(f: T -> U, s: seq<T>, x: T)
    requires x in s
    ensures f(x) in Digest.Map(f, s)
  {
    var i :| 0 <= i < |s| && s[i] == x;
    assert Digest.Map(f, s)[i] == f(x);
  }

  /** Every group has its like in the other input. */
  lemma LikeGroup(a: Input, ga: seq<NodeGroup>, b: Input, gb: seq<NodeGroup>, g: NodeGroup) returns (g': NodeGroup)
    requires SamePayload(a, ga, b, gb) && SourcesTaken(a, ga) && SourcesTaken(b, gb) && g in ga
    ensures g' in gb && GroupsAlike(g, g')
  {
    var f, f' := (x: NodeGroup) => Digest.CanonicalizeGroup(Side(a), x), (x: NodeGroup) => Digest.CanonicalizeGroup(Side(b), x);
    var m, m' := Digest.Map(f, ga), Digest.Map(f', gb);
    GroupsDigested(a, ga, b, gb, f, f');
    InMap(f, ga, g);
    StableSortElements(Digest.GroupLe, m);
    StableSortElements(Digest.GroupLe, m');
    assert f(g) in m';
    var j :| 0 <= j < |m'| && m'[j] == f(g);
    g' := gb[j];
    CanonAlike(a, ga, g, b, gb, g');
  }

  lemma GroupsDigested(a: Input, ga: seq<NodeGroup>, b: Input, gb: seq<NodeGroup>,
                       f: NodeGroup -> Digest.CanonicalGroup, f': NodeGroup -> Digest.CanonicalGroup)
    requires SamePayload(a, ga, b, gb)
    requires (forall g :: f(g) == Canon(a, g)) && forall g :: f'(g) == Canon(b, g)
    ensures StableSort(Digest.GroupLe, Digest.Map(f, ga)) == StableSort(Digest.GroupLe, Digest.Map(f', gb))
  {
    var p, q := Digest.PayloadOf(Digested(a, ga), []), Digest.PayloadOf(Digested(b, gb), []);
    assert p.groups == q.groups;
    assert Digest.Map(f, ga) == Digest.Map((g: NodeGroup) => Digest.CanonicalizeGroup(Digested(a, ga).groupSources, g), ga);
    assert Digest.Map(f', gb) == Digest.Map((g: NodeGroup) => Digest.CanonicalizeGroup(Digested(b, gb).groupSources, g), gb);
  }

  lemma PayloadSymmetric(a: Input, ga: seq<NodeGroup>, b: Input, gb: seq<NodeGroup>)
    requires SamePayload(a, ga, b, gb)
    ensures SamePayload(b, gb, a, ga)
  {
  }

  lemma GroupMapsAlike(a: Input, ga: seq<NodeGroup>, b: Input, gb: seq<NodeGroup>, m: map<string, NodeGroup>, m': map<string, NodeGroup>)
    requires SamePayload(a, ga, b, gb) && SourcesTaken(a, ga) && SourcesTaken(b, gb)
    requires IndexesGroups(ga, m) && IndexesGroups(gb, m')
    ensures m.Keys == m'.Keys && forall id :: id in m ==> GroupsAlike(m[id], m'[id])
  {
    forall id | id in m ensures id in m' && GroupsAlike(m[id], m'[id]) {
      var g' := LikeGroup(a, ga, b, gb, m[id]);
    }
    PayloadSymmetric(a, ga, b, gb);
    forall id | id in m' ensures id in m {
      var g := LikeGroup(b, gb, a, ga, m'[id]);
    }
  }

  // ---- Group order ----

  function Titles(gs: seq<NodeGroup>): seq<(string, string)> {
    Digest.Map(GroupTitle, StableSort(GroupLe, gs))
  }

  lemma TitlesOf(gs: seq<NodeGroup>)
    ensures SortedBy(TitleLe, Titles(gs)) && TotalPreorder(TitleLe) && KeysDecide(TitleLe, Titles(gs))
    ensures forall t :: t in Titles(gs) <==> exists g :: g in gs && GroupTitle(g) == t
  {
    TitleOrder();
    var sorted, ts := StableSort(GroupLe, gs), Titles(gs);
    StableSortSorts(GroupLe, gs);
    StableSortElements(GroupLe, gs);
    forall i, j | 0 <= i < j < |ts| ensures TitleLe(ts[i], ts[j]) { assert GroupLe(sorted[i], sorted[j]); }
    forall g | g in gs ensures GroupTitle(g) in ts { InMap(GroupTitle, sorted, g); }
    forall t | t in ts ensures exists g :: g in gs && GroupTitle(g) == t {
      var i :| 0 <= i < |ts| && ts[i] == t;
      assert sorted[i] in sorted;
    }
  }

  lemma TitlesDistinct(gs: seq<NodeGroup>, ids: seq<string>)
    requires InOrder(gs, ids) && NoRepeats(ids)
    ensures NoRepeats(Titles(gs)) && |ids| == |Titles(gs)| && forall i :: 0 <= i < |ids| ==> ids[i] == Titles(gs)[i].1
  {
    var ts := Titles(gs);
    forall i | 0 <= i < |ids| ensures ids[i] == ts[i].1 { assert ts[i] == GroupTitle(StableSort(GroupLe, gs)[i]); }
  }

  lemma LikeTitles(a: Input, ga: seq<NodeGroup>, b: Input, gb: seq<NodeGroup>, t: (string, string))
    requires SamePayload(a, ga, b, gb) && SourcesTaken(a, ga) && SourcesTaken(b, gb) && t in Titles(ga)
    ensures t in Titles(gb)
  {
    TitlesOf(ga);
    TitlesOf(gb);
    var g :| g in ga && GroupTitle(g) == t;
    var g' := LikeGroup(a, ga, b, gb, g);
    assert GroupTitle(g') == t;
  }

  lemma OrdersSame(a: Input, ga: seq<NodeGroup>, ids: seq<string>, b: Input, gb: seq<NodeGroup>, ids': seq<string>)
    requires SamePayload(a, ga, b, gb) && SourcesTaken(a, ga) && SourcesTaken(b, gb)
    requires InOrder(ga, ids) && NoRepeats(ids) && InOrder(gb, ids') && NoRepeats(ids')
    ensures ids == ids'
  {
    TitlesOf(ga);
    TitlesOf(gb);
    TitlesDistinct(ga, ids);
    TitlesDistinct(gb, ids');
    PayloadSymmetric(a, ga, b, gb);
    forall t ensures t in Titles(ga) <==> t in Titles(gb) {
      if t in Titles(ga) { LikeTitles(a, ga, b, gb, t); }
      if t in Titles(gb) { LikeTitles(b, gb, a, ga, t); }
    }
    SortedDistinctAgree(TitleLe, Titles(ga), Titles(gb));
  }

  // ---- The group stage ----

  /** The environments differ at most in the oracle, and not in its answers. */
  ghost predicate EnvironmentsAlike(env: Environment, env': Environment) {
    env' == env.(oracle := env'.oracle) && OraclesAlike(env.oracle, env'.oracle)
  }

  lemma ListedAlike(env: Environment, env': Environment, b: Input, s: Snapshot)
    requires EnvironmentsAlike(env, env') && NodesListed(env', b, s)
    ensures NodesListed(env, b, s)
  {
    forall n ensures MatchesFilter(env.oracle, b.globalFilter, n) == MatchesFilter(env'.oracle, b.globalFilter, n) {
      MatchesAlike(env.oracle, env'.oracle, b.globalFilter, n);
    }
    forall n ensures Admitted(env, b, n) == Admitted(env', b, n) {}
    forall n | n in s.nodes ensures Safe(env, b, n) { assert Safe(env', b, n); }
  }

  lemma AdmittedMapsSame(ctx: Context, ctx': Context, nodes: seq<Node>)
    requires NodesIndexed(ctx) && NodesIndexed(ctx') && ctx.ordered == ctx'.ordered == nodes
    requires ctx.admitted.Keys == NodeIds(nodes) == ctx'.admitted.Keys
    ensures ctx.admitted == ctx'.admitted
  {
    forall id | id in ctx.admitted ensures ctx.admitted[id] == ctx'.admitted[id] {
      var i :| 0 <= i < |nodes| && nodes[i].logicalId == id;
    }
  }

  lemma IdsDistinct(env: Environment, e: Evaluation, groups: seq<ResolvedGroup>)
    requires GroupsPresented(env, e, groups)
    ensures NoRepeats(e.ids)
  {
    var all := IdList(groups);
    assert all == e.ids + DerivedIds(Stage(e.ctx, e.rank, env.derivedId), RefsOfAll(Stage(e.ctx, e.rank, env.derivedId), e.ids));
    forall i, j | 0 <= i < j < |e.ids| ensures e.ids[i] != e.ids[j] { assert all[i] != all[j]; }
  }

  lemma GroupsSame(env: Environment, env': Environment, a: Input, ea: Evaluation, b: Input, eb: Evaluation, nodes: seq<Node>,
                   x: seq<ResolvedGroup>, y: seq<ResolvedGroup>)
    requires EnvironmentsAlike(env, env')
    requires SamePayload(a, ea.groups, b, eb.groups) && SourcesTaken(a, ea.groups) && SourcesTaken(b, eb.groups)
    requires EvaluationOf(env, ea, nodes) && EvaluationOf(env', eb, nodes)
    requires GroupsPresented(env, ea, x) && GroupsPresented(env', eb, y)
    ensures x == y
  {
    GroupMapsAlike(a, ea.groups, b, eb.groups, ea.ctx.groups, eb.ctx.groups);
    AdmittedMapsSame(ea.ctx, eb.ctx, nodes);
    IdsDistinct(env, ea, x);
    IdsDistinct(env', eb, y);
    OrdersSame(a, ea.groups, ea.ids, b, eb.groups, eb.ids);
    SnapshotsSame(Stage(ea.ctx, ea.rank, env.derivedId), ea.graph, Stage(eb.ctx, eb.rank, env'.derivedId), eb.graph, ea.ids, x, y);
  }

  // ---- Rules ----

  lemma {:induction false} InsertCommutes<T, U>(f: T -> U, le: (T, T) -> bool, le': (U, U) -> bool, s: seq<T>, x: T)
    requires forall y :: y in s ==> le(y, x) == le'(f(y), f(x))
    ensures Digest.Map(f, Insert(le, s, x)) == Insert(le', Digest.Map(f, s), f(x))
  {
    if s != [] {
      var n := |s| - 1;
      assert s[n] in s && Digest.Map(f, s)[..n] == Digest.Map(f, s[..n]);
      InsertCommutes(f, le, le', s[..n], x);
    }
  }

  /** Sorting by a key commutes with a map that keeps the key. */
  lemma {:induction false} SortCommutes<T(!new), U>(f: T -> U, le: (T, T) -> bool, le': (U, U) -> bool, s: seq<T>)
    requires forall x, y :: le(x, y) == le'(f(x), f(y))
    ensures Digest.Map(f, StableSort(le, s)) == StableSort(le', Digest.Map(f, s))
  {
    if s != [] {
      var n := |s| - 1;
      assert Digest.Map(f, s)[..n] == Digest.Map(f, s[..n]);
      SortCommutes(f, le, le', s[..n]);
      InsertCommutes(f, le, le', StableSort(le, s[..n]), s[n]);
    }
  }

  function CanonRules(s: seq<PolicyRule>): seq<Digest.CanonicalRule> {
    Digest.Map(Digest.CanonicalizeRule, s)
  }

  lemma {:induction false} PickAlike(c: Checks, s: seq<PolicyRule>, s': seq<PolicyRule>, t: bool)
    requires CanonRules(s) == CanonRules(s')
    ensures CanonRules(Rules.Pick(c, s, t)) == CanonRules(Rules.Pick(c, s', t))
  {
    assert |s| == |CanonRules(s)| == |s'|;
    if s != [] {
      var n := |s| - 1;
      assert CanonRules(s[..n]) == CanonRules(s)[..n] && CanonRules(s'[..n]) == CanonRules(s')[..n];
      assert CanonRules(s)[n] == CanonRules(s')[n];
      PickAlike(c, s[..n], s'[..n], t);
      assert s == s[..n] + [s[n]] && s' == s'[..n] + [s'[n]];
      Rules.PickSnoc(c, s[..n], s[n], t);
      Rules.PickSnoc(c, s'[..n], s'[n], t);
      CanonSnoc(Rules.Pick(c, s[..n], t), s[n]);
      CanonSnoc(Rules.Pick(c, s'[..n], t), s'[n]);
    }
  }

  lemma CanonSnoc(s: seq<PolicyRule>, r: PolicyRule)
    ensures CanonRules(s + [r]) == CanonRules(s) + [Digest.CanonicalizeRule(r)]
  {
  }

  lemma ArrangedAlike(c: Checks, a: seq<PolicyRule>, b: seq<PolicyRule>)
    requires Digest.SortedImage(Digest.CanonicalizeRule, Digest.RuleLe, a) == Digest.SortedImage(Digest.CanonicalizeRule, Digest.RuleLe, b)
    ensures CanonRules(Rules.Arrange(c, Rules.ByPosition(a))) == CanonRules(Rules.Arrange(c, Rules.ByPosition(b)))
  {
    SortCommutes(Digest.CanonicalizeRule, Rules.PositionLe, Digest.RuleLe, a);
    SortCommutes(Digest.CanonicalizeRule, Rules.PositionLe, Digest.RuleLe, b);
    var s, s' := Rules.ByPosition(a), Rules.ByPosition(b);
    PickAlike(c, s, s', false);
    PickAlike(c, s, s', true);
    Digest.MapConcat(Digest.CanonicalizeRule, Rules.Pick(c, s, false), Rules.Pick(c, s, true));
    Digest.MapConcat(Digest.CanonicalizeRule, Rules.Pick(c, s', false), Rules.Pick(c, s', true));
  }

  lemma {:induction false} NoName(groups: seq<NodeGroup>, id: string)
    requires id !in Topology.GroupIds(groups)
    ensures Rules.GroupName(groups, id) == ""
  {
    if groups != [] {
      var n := |groups| - 1;
      assert groups[n].id in Topology.GroupIds(groups) && forall g :: g in groups[..n] ==> g in groups;
      NoName(groups[..n], id);
    }
  }

  lemma NamesSame(ga: seq<NodeGroup>, m: map<string, NodeGroup>, gb: seq<NodeGroup>, m': map<string, NodeGroup>, id: string)
    requires IndexesGroups(ga, m) && IndexesGroups(gb, m') && m.Keys == m'.Keys && (id in m ==> GroupsAlike(m[id], m'[id]))
    ensures Rules.GroupName(ga, id) == Rules.GroupName(gb, id)
  {
    if id in m {
      NameOfGroup(ga, id);
      NameOfGroup(gb, id);
    } else {
      NoName(ga, id);
      NoName(gb, id);
    }
  }

  /** The same rules up to their ids. */
  ghost predicate RulesAlikeUpToIds(x: seq<Rules.ResolvedRule>, y: seq<Rules.ResolvedRule>) {
    |x| == |y| && forall i :: 0 <= i < |x| ==> x[i].(id := "") == y[i].(id := "")
  }

  lemma RulesSameUpToIds(env: Environment, env': Environment, a: Input, ea: Evaluation, b: Input, eb: Evaluation,
                         x: seq<Rules.ResolvedRule>, y: seq<Rules.ResolvedRule>)
    requires SamePayload(a, ea.groups, b, eb.groups) && SourcesTaken(a, ea.groups) && SourcesTaken(b, eb.groups)
    requires IndexesGroups(ea.groups, ea.ctx.groups) && IndexesGroups(eb.groups, eb.ctx.groups)
    requires RulesPresented(env, a, ea.groups, x) && RulesPresented(env', b, eb.groups, y) && env.checks == env'.checks
    ensures RulesAlikeUpToIds(x, y)
  {
    var p, q := Digest.PayloadOf(Digested(a, ea.groups), []), Digest.PayloadOf(Digested(b, eb.groups), []);
    assert p.policyRules == q.policyRules;
    ArrangedAlike(env.checks, a.policyRules, b.policyRules);
    GroupMapsAlike(a, ea.groups, b, eb.groups, ea.ctx.groups, eb.ctx.groups);
    var s, s' := Rules.Arrange(env.checks, Rules.ByPosition(a.policyRules)), Rules.Arrange(env.checks, Rules.ByPosition(b.policyRules));
    assert |s| == |CanonRules(s)| == |s'|;
    forall i | 0 <= i < |x| ensures x[i].(id := "") == y[i].(id := "") {
      assert CanonRules(s)[i] == CanonRules(s')[i];
      NamesSame(ea.groups, ea.ctx.groups, eb.groups, eb.ctx.groups, s[i].targetGroupId);
      PresentAlike(env.checks, ea.groups, eb.groups, s[i], s'[i], i);
    }
  }

  lemma PresentAlike(c: Checks, ga: seq<NodeGroup>, gb: seq<NodeGroup>, r: PolicyRule, r': PolicyRule, i: int)
    requires Digest.CanonicalizeRule(r) == Digest.CanonicalizeRule(r')
    requires Rules.GroupName(ga, r.targetGroupId) == Rules.GroupName(gb, r.targetGroupId)
    ensures Rules.Present(c, ga, r, i).(id := "") == Rules.Present(c, gb, r', i).(id := "")
  {
    assert r.targetGroupId == r'.targetGroupId && r.expression == r'.expression;
  }

  // ---- Snapshots ----

  ghost predicate SnapshotsAlike(x: Snapshot, y: Snapshot) {
    && x.nodes == y.nodes && x.endpoints == y.endpoints && x.groups == y.groups && RulesAlikeUpToIds(x.rules, y.rules)
    && x.admittedIds == y.admittedIds && x.excludedIds == y.excludedIds && x.riskEvaluatedAt == y.riskEvaluatedAt
  }

  /**
   What is copied into the snapshot without being digested is the same: the endpoints of admitted
   nodes and the time of the risk decisions.
   */
  ghost predicate CopyAlike(env: Environment, a: Input, b: Input) {
    && (forall n :: n in a.nodes && Admitted(env, a, n) ==> a.endpoint(n.logicalId) == b.endpoint(n.logicalId))
    && a.riskEvaluatedAt == b.riskEvaluatedAt
  }

  lemma EndpointsExactly(env: Environment, a: Input, sa: Snapshot, b: Input, sb: Snapshot)
    requires NodesListed(env, a, sa) && NodesListed(env, b, sb) && sa.nodes == sb.nodes
    ensures sa.endpoints == sb.endpoints && sa.riskEvaluatedAt == sb.riskEvaluatedAt <==> CopyAlike(env, a, b)
  {
    var nodes := sa.nodes;
    if sa.endpoints == sb.endpoints {
      forall n | n in a.nodes && Admitted(env, a, n) ensures a.endpoint(n.logicalId) == b.endpoint(n.logicalId) {
        assert n in nodes;
        var i :| 0 <= i < |nodes| && nodes[i] == n;
        assert sa.endpoints[i] == sb.endpoints[i];
      }
    }
    if CopyAlike(env, a, b) {
      forall i | 0 <= i < |nodes| ensures sa.endpoints[i] == sb.endpoints[i] { assert nodes[i] in nodes; }
    }
  }

  /** Both inputs are resolved, in environments that answer alike, and have one payload. */
  ghost predicate BothResolve(env: Environment, a: Input, ea: Evaluation, sa: Snapshot,
                              env': Environment, b: Input, eb: Evaluation, sb: Snapshot)
  {
    && EnvironmentsAlike(env, env') && ResolvesTo(env, a, ea, sa) && ResolvesTo(env', b, eb, sb)
    && SamePayload(a, ea.groups, b, eb.groups)
  }

  lemma AdmittedSame(env: Environment, a: Input, ea: Evaluation, sa: Snapshot, env': Environment, b: Input, eb: Evaluation, sb: Snapshot)
    requires BothResolve(env, a, ea, sa, env', b, eb, sb) && AdmitAlike(env, a, b) && CopyAlike(env, a, b)
    ensures SnapshotsAlike(sa, sb)
  {
    PayloadElements(a, ea.groups, b, eb.groups);
    ListedAlike(env, env', b, sb);
    NodesSame(env, a, sa, b, sb);
    EndpointsExactly(env, a, sa, b, sb);
    IdListsSame(env, env', a, sa, b, sb);
    GroupsSame(env, env', a, ea, b, eb, sa.nodes, sa.groups, sb.groups);
    RulesSameUpToIds(env, env', a, ea, b, eb, sa.rules, sb.rules);
  }

  lemma NodesTell(env: Environment, a: Input, sa: Snapshot, b: Input, sb: Snapshot)
    requires NodesListed(env, a, sa) && NodesListed(env, b, sb) && sa.nodes == sb.nodes
    requires forall n :: n in a.nodes <==> n in b.nodes
    ensures AdmitAlike(env, a, b)
  {
    forall n | n in a.nodes ensures Admitted(env, a, n) == Admitted(env, b, n) {
      assert n in sa.nodes <==> n in sb.nodes;
    }
  }

  /**
   Inputs with one payload resolve to the same snapshot, up to rule ids, exactly when they admit the
   same nodes and agree on what is copied without being digested.
   */
  lemma SamePayloadSameSnapshot(env: Environment, a: Input, ea: Evaluation, sa: Snapshot,
                                env': Environment, b: Input, eb: Evaluation, sb: Snapshot)
    requires BothResolve(env, a, ea, sa, env', b, eb, sb)
    ensures SnapshotsAlike(sa, sb) <==> AdmitAlike(env, a, b) && CopyAlike(env, a, b)
  {
    if AdmitAlike(env, a, b) && CopyAlike(env, a, b) { AdmittedSame(env, a, ea, sa, env', b, eb, sb); }
    if SnapshotsAlike(sa, sb) {
      PayloadElements(a, ea.groups, b, eb.groups);
      ListedAlike(env, env', b, sb);
      NodesTell(env, a, sa, b, sb);
      EndpointsExactly(env, a, sa, b, sb);
    }
  }

  /** Resolution is deterministic. */
  lemma SameInputSameSnapshot(env: Environment, a: Input, ea: Evaluation, sa: Snapshot, eb: Evaluation, sb: Snapshot)
    requires ResolvesTo(env, a, ea, sa) && ResolvesTo(env, a, eb, sb)
    ensures SnapshotsAlike(sa, sb)
  {
    GroupsTakenSame(a, ea.groups, a, eb.groups);
    SelfAlike(env, a, ea.groups);
    AdmittedSame(env, a, ea, sa, env, a, eb, sb);
  }

  lemma SelfAlike(env: Environment, a: Input, gs: seq<NodeGroup>)
    ensures EnvironmentsAlike(env, env) && SamePayload(a, gs, a, gs) && AdmitAlike(env, a, a) && CopyAlike(env, a, a)
  {
  }

  // ---- In every environment ----

  /**
   The nodes that nothing but rules and filters can keep out have the same endpoints, and the time of
   the risk decisions is the same.
   */
  ghost predicate CandidatesCopyAlike(a: Input, b: Input) {
    && (forall n :: n in a.nodes && n.active && !HeldOut(a, n) ==> a.endpoint(n.logicalId) == b.endpoint(n.logicalId))
    && a.riskEvaluatedAt == b.riskEvaluatedAt
  }

  /** The guards on everything that is not digested. */
  ghost predicate UndigestedAlike(a: Input, b: Input) {
    HoldOutAlike(a, b) && (RulesAsked(a) ==> RulesAlike(a, b)) && CandidatesCopyAlike(a, b)
  }

  lemma CopyAlikeExactly(a: Input, b: Input)
    ensures (forall env: Environment :: CopyAlike(env, a, b)) <==> CandidatesCopyAlike(a, b)
  {
    if forall env: Environment :: CopyAlike(env, a, b) {
      assert CopyAlike(Permissive(anyChecks, {}), a, b);
      forall n | n in a.nodes && n.active && !HeldOut(a, n) ensures a.endpoint(n.logicalId) == b.endpoint(n.logicalId) {
        PermissiveAdmits(anyChecks, {}, a, n);
        NoHitsVerdict(Exchanged(a.admissionRules));
      }
    }
  }

  /**
   With one payload, the condition for equal snapshots holds in every environment exactly when those
   guards agree.
   */
  lemma AlwaysAlikeExactly(a: Input, ga: seq<NodeGroup>, b: Input, gb: seq<NodeGroup>)
    requires SamePayload(a, ga, b, gb)
    ensures (forall env: Environment :: AdmitAlike(env, a, b) && CopyAlike(env, a, b)) <==> UndigestedAlike(a, b)
  {
    AdmitAlikeExactly(a, ga, b, gb);
    CopyAlikeExactly(a, b);
    if forall env: Environment :: AdmitAlike(env, a, b) && CopyAlike(env, a, b) {
      forall env: Environment ensures AdmitAlike(env, a, b) {}
      forall env: Environment ensures CopyAlike(env, a, b) {}
    }
    if UndigestedAlike(a, b) {
      forall env: Environment ensures AdmitAlike(env, a, b) && CopyAlike(env, a, b) {}
    }
  }

  /** So the payload determines the snapshot where they agree. */
  lemma PayloadDetermines(env: Environment, a: Input, ea: Evaluation, sa: Snapshot,
                          env': Environment, b: Input, eb: Evaluation, sb: Snapshot)
    requires BothResolve(env, a, ea, sa, env', b, eb, sb) && UndigestedAlike(a, b)
    ensures SnapshotsAlike(sa, sb)
  {
    AlwaysAlikeExactly(a, ea.groups, b, eb.groups);
    SamePayloadSameSnapshot(env, a, ea, sa, env', b, eb, sb);
  }

  // ---- Endpoints ----

  /** The input with another endpoint for one node. */
  function Moved(a: Input, id: string, x: Endpoint): Input {
    a.(endpoint := (y: string) => if y == id then x else a.endpoint(y))
  }

  lemma MovedAlike(env: Environment, a: Input, gs: seq<NodeGroup>, id: string, x: Endpoint)
    ensures SamePayload(a, gs, Moved(a, id, x), gs) && AdmitAlike(env, a, Moved(a, id, x))
  {
  }

  lemma GroupsTakenSame(a: Input, ga: seq<NodeGroup>, b: Input, gb: seq<NodeGroup>)
    requires SourcesTaken(a, ga) && SourcesTaken(b, gb) && a.groups == b.groups && a.groupSources == b.groupSources
    ensures ga == gb
  {
  }

  lemma EndpointsTell(env: Environment, a: Input, sa: Snapshot, b: Input, sb: Snapshot, n: Node)
    requires NodesListed(env, a, sa) && NodesListed(env, b, sb) && n in sa.nodes
    requires a.endpoint(n.logicalId) != b.endpoint(n.logicalId)
    ensures !SnapshotsAlike(sa, sb)
  {
    if sa.nodes == sb.nodes { EndpointsExactly(env, a, sa, b, sb); }
  }

  /** Moving a listed node keeps the payload and the admitted nodes, and changes the snapshot. */
  lemma EndpointNotDigested(env: Environment, a: Input, ea: Evaluation, sa: Snapshot, n: Node, x: Endpoint, eb: Evaluation, sb: Snapshot)
    requires ResolvesTo(env, a, ea, sa) && ResolvesTo(env, Moved(a, n.logicalId, x), eb, sb)
    requires n in sa.nodes && x != a.endpoint(n.logicalId)
    ensures var b := Moved(a, n.logicalId, x);
            SamePayload(a, ea.groups, b, eb.groups) && AdmitAlike(env, a, b) && !SnapshotsAlike(sa, sb)
  {
    var b := Moved(a, n.logicalId, x);
    GroupsTakenSame(a, ea.groups, b, eb.groups);
    MovedAlike(env, a, ea.groups, n.logicalId, x);
    EndpointsTell(env, a, sa, b, sb, n);
  }
}

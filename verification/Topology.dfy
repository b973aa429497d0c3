/**
 Topology validation of a policy graph: adjacency from legacy edges and member sources, and the
 three-colour depth-first search. The search yields a cycle exactly when the declared graph has
 one, the reported path is a closed walk of declared edges, and acceptance comes with a rank that
 decreases along every edge.
 */
module Topology {
  import opened Wrappers
  import opened Policy
  import opened Sorting
  import Rules

  type Adjacency = map<string, seq<string>>
  type EdgeSet = iset<(string, string)>

  // ---- Graphs ----

  ghost predicate Walk(E: EdgeSet, p: seq<string>) {
    |p| >= 1 && forall i, j :: 0 <= i < |p| && j == i + 1 < |p| ==> (p[i], p[j]) in E
  }

  ghost predicate ClosedWalk(E: EdgeSet, p: seq<string>) {
    |p| >= 2 && Walk(E, p) && p[0] == p[|p| - 1]
  }

  ghost predicate Acyclic(E: EdgeSet) {
    forall p: seq<string> :: !ClosedWalk(E, p)
  }

  /** A topological rank: every edge goes strictly down. */
  ghost predicate Ranked(E: EdgeSet, rank: map<string, nat>) {
    forall u, v :: (u, v) in E ==> u in rank && v in rank && rank[v] < rank[u]
  }

  lemma {:induction false} RankFallsAlongWalk(E: EdgeSet, rank: map<string, nat>, p: seq<string>)
    requires Ranked(E, rank) && Walk(E, p) && |p| >= 2
    ensures p[0] in rank && p[|p| - 1] in rank && rank[p[|p| - 1]] < rank[p[0]]
  {
    assert (p[0], p[1]) in E;
    if |p| > 2 {
      RankFallsAlongWalk(E, rank, p[1..]);
    }
  }

  lemma RankedIsAcyclic(E: EdgeSet, rank: map<string, nat>)
    requires Ranked(E, rank)
    ensures Acyclic(E)
  {
    forall p: seq<string> ensures !ClosedWalk(E, p) {
      if ClosedWalk(E, p) { RankFallsAlongWalk(E, rank, p); }
    }
  }

  // ---- The declared graph ----

  function EdgeChild(e: GroupEdge): Option<string> {
    if HasText(e.childGroupId) then e.childGroupId else None
  }

  /** Both group_ref and group_nodes sources depend on their target group. */
  function SourceTarget(s: MemberSource): Option<string> {
    if (s.kind == GroupRef || s.kind == GroupNodes) && HasText(s.targetGroupId) then s.targetGroupId else None
  }

  ghost predicate EdgeListDeclares(es: seq<GroupEdge>, v: string) {
    exists i :: 0 <= i < |es| && EdgeChild(es[i]) == Some(v)
  }

  ghost predicate SourcesDeclare(ss: seq<MemberSource>, v: string) {
    exists i :: 0 <= i < |ss| && SourceTarget(ss[i]) == Some(v)
  }

  ghost predicate GroupsDeclare(groups: seq<NodeGroup>, u: string, v: string) {
    exists i :: 0 <= i < |groups| && groups[i].id == u && SourcesDeclare(groups[i].sources, v)
  }

  ghost function DeclaredEdges(groups: seq<NodeGroup>, edges: map<string, seq<GroupEdge>>): EdgeSet {
    iset u: string, v: string | (u in edges && EdgeListDeclares(edges[u], v)) || GroupsDeclare(groups, u, v) :: (u, v)
  }

  ghost function GroupIds(groups: seq<NodeGroup>): set<string> {
    set g | g in groups :: g.id
  }

  ghost predicate HeaderOk(c: Checks, g: NodeGroup) {
    c.validUuid(g.id) && !c.blank(g.name) && !g.groupType.OtherType?
  }

  ghost predicate TargetOk(ids: set<string>, parent: string, target: Option<string>) {
    target.Some? ==> target.value != parent && target.value in ids
  }

  ghost predicate EdgeOk(c: Checks, ids: set<string>, parent: string, e: GroupEdge) {
    && ValidateGroupEdge(c, e.(parentGroupId := parent)).None?
    && TargetOk(ids, parent, EdgeChild(e))
  }

  ghost predicate SourceOk(c: Checks, ids: set<string>, parent: string, s: MemberSource) {
    c.sourceError(s).None? && TargetOk(ids, parent, SourceTarget(s))
  }

  ghost predicate EdgeMapOk(c: Checks, ids: set<string>, edges: map<string, seq<GroupEdge>>, keys: set<string>) {
    forall p :: p in keys && p in edges ==> p in ids && forall i :: 0 <= i < |edges[p]| ==> EdgeOk(c, ids, p, edges[p][i])
  }

  ghost predicate SourcesOk(c: Checks, ids: set<string>, g: NodeGroup) {
    forall i :: 0 <= i < |g.sources| ==> SourceOk(c, ids, g.id, g.sources[i])
  }

  /** All per-item checks and references are in order; only cycles remain to be looked for. */
  ghost predicate ReferencesOk(c: Checks, groups: seq<NodeGroup>, edges: map<string, seq<GroupEdge>>) {
    && (forall i :: 0 <= i < |groups| ==> HeaderOk(c, groups[i]))
    && EdgeMapOk(c, GroupIds(groups), edges, edges.Keys)
    && (forall i :: 0 <= i < |groups| ==> SourcesOk(c, GroupIds(groups), groups[i]))
  }

  // ---- Adjacency construction ----

  method CheckHeaders(c: Checks, groups: seq<NodeGroup>) returns (err: Option<string>, ids: set<string>)
    ensures err.None? <==> forall i :: 0 <= i < |groups| ==> HeaderOk(c, groups[i])
    ensures err.None? ==> ids == GroupIds(groups)
  {
    ids := {};
    for k := 0 to |groups|
      invariant forall i :: 0 <= i < k ==> HeaderOk(c, groups[i])
      invariant ids == set i | 0 <= i < k :: groups[i].id
    {
      var g := groups[k];
      if !c.validUuid(g.id) { return Some("invalid_group_id"), ids; }
      if c.blank(g.name) { return Some("invalid_group_name"), ids; }
      if g.groupType.OtherType? { return Some("invalid_group_type"), ids; }
      ids := ids + {g.id};
    }
    forall x ensures x in ids <==> x in GroupIds(groups) {
      if x in GroupIds(groups) {
        var g :| g in groups && g.id == x;
        var i :| 0 <= i < |groups| && groups[i] == g;
      }
    }
    err := None;
  }

  /** The child groups of one parent's legacy edges, or the first error. */
  method ScanEdges(c: Checks, ids: set<string>, parent: string, es: seq<GroupEdge>)
    returns (err: Option<string>, children: seq<string>)
    ensures err.None? <==> forall i :: 0 <= i < |es| ==> EdgeOk(c, ids, parent, es[i])
    ensures err.None? ==> forall v :: v in children <==> EdgeListDeclares(es, v)
  {
    children := [];
    for k := 0 to |es|
      invariant forall i :: 0 <= i < k ==> EdgeOk(c, ids, parent, es[i])
      invariant forall v :: v in children <==> exists i :: 0 <= i < k && EdgeChild(es[i]) == Some(v)
    {
      var e := es[k].(parentGroupId := parent);
      var code := ValidateGroupEdge(c, e);
      if code.Some? { return code, children; }
      if HasText(e.childGroupId) {
        var child := e.childGroupId.value;
        if child == parent { return Some("self_loop_forbidden"), children; }
        if child !in ids { return Some("target_group_not_found"), children; }
        children := children + [child];
      }
    }
    err := None;
  }

  /** The dependency targets of one group's sources, or the first error. */
  method ScanSources(c: Checks, ids: set<string>, g: NodeGroup)
    returns (err: Option<string>, children: seq<string>)
    ensures err.None? <==> SourcesOk(c, ids, g)
    ensures err.None? ==> forall v :: v in children <==> SourcesDeclare(g.sources, v)
  {
    children := [];
    for k := 0 to |g.sources|
      invariant forall i :: 0 <= i < k ==> SourceOk(c, ids, g.id, g.sources[i])
      invariant forall v :: v in children <==> exists i :: 0 <= i < k && SourceTarget(g.sources[i]) == Some(v)
    {
      var s := g.sources[k];
      var code := c.sourceError(s);
      if code.Some? { return code, children; }
      if (s.kind == GroupRef || s.kind == GroupNodes) && HasText(s.targetGroupId) {
        var child := s.targetGroupId.value;
        if child == g.id { return Some("self_loop_forbidden"), children; }
        if child !in ids { return Some("target_group_not_found"), children; }
        children := children + [child];
      }
    }
    err := None;
  }

  /** Legacy edges are visited in no particular order, as map iteration is. */
  method AddLegacyEdges(c: Checks, ids: set<string>, edges: map<string, seq<GroupEdge>>, adj0: Adjacency)
    returns (err: Option<string>, adj: Adjacency)
    requires adj0.Keys == ids && forall u :: u in adj0 ==> adj0[u] == []
    ensures err.None? <==> EdgeMapOk(c, ids, edges, edges.Keys)
    ensures err.None? ==> adj.Keys == ids
    ensures err.None? ==> forall u, v :: u in ids ==> (v in adj[u] <==> u in edges && EdgeListDeclares(edges[u], v))
  {
    adj := adj0;
    var todo := edges.Keys;
    while todo != {}
      invariant todo <= edges.Keys && adj.Keys == ids
      invariant EdgeMapOk(c, ids, edges, edges.Keys - todo)
      invariant forall u, v :: u in ids ==>
                  (v in adj[u] <==> u in edges && u !in todo && EdgeListDeclares(edges[u], v))
      decreases todo
    {
      var parent :| parent in todo;
      if parent !in ids { return Some("parent_group_not_found"), adj; }
      var code, children := ScanEdges(c, ids, parent, edges[parent]);
      if code.Some? { return code, adj; }
      adj := adj[parent := adj[parent] + children];
      todo := todo - {parent};
    }
    err := None;
  }

  method AddSourceEdges(c: Checks, ids: set<string>, groups: seq<NodeGroup>, adj0: Adjacency)
    returns (err: Option<string>, adj: Adjacency)
    requires adj0.Keys == ids == GroupIds(groups)
    ensures err.None? <==> forall i :: 0 <= i < |groups| ==> SourcesOk(c, ids, groups[i])
    ensures err.None? ==> adj.Keys == ids
    ensures err.None? ==> forall u, v :: u in ids ==> (v in adj[u] <==> v in adj0[u] || GroupsDeclare(groups, u, v))
  {
    adj := adj0;
    for k := 0 to |groups|
      invariant adj.Keys == ids
      invariant forall i :: 0 <= i < k ==> SourcesOk(c, ids, groups[i])
      invariant forall u, v :: u in ids ==> (v in adj[u] <==> v in adj0[u] || GroupsDeclare(groups[..k], u, v))
    {
      assert groups[k] in groups;
      var code, children := ScanSources(c, ids, groups[k]);
      if code.Some? { return code, adj; }
      ghost var before := adj;
      adj := adj[groups[k].id := adj[groups[k].id] + children];
      forall u, v | u in ids ensures v in adj[u] <==> v in adj0[u] || GroupsDeclare(groups[..k + 1], u, v) {
        DeclareSnoc(groups, k, u, v);
      }
    }
    assert groups[..|groups|] == groups;
    err := None;
  }

  lemma DeclareSnoc(groups: seq<NodeGroup>, k: nat, u: string, v: string)
    requires k < |groups|
    ensures GroupsDeclare(groups[..k + 1], u, v) <==>
            GroupsDeclare(groups[..k], u, v) || (groups[k].id == u && SourcesDeclare(groups[k].sources, v))
  {
    var longer, shorter := groups[..k + 1], groups[..k];
    if GroupsDeclare(longer, u, v) {
      var i :| 0 <= i < |longer| && longer[i].id == u && SourcesDeclare(longer[i].sources, v);
      assert i < k ==> shorter[i] == longer[i];
    }
    if GroupsDeclare(shorter, u, v) {
      var i :| 0 <= i < |shorter| && shorter[i].id == u && SourcesDeclare(shorter[i].sources, v);
      assert longer[i] == shorter[i];
    }
    assert longer[k] == groups[k];
  }

  // ---- Cycle detection ----

  datatype Color = Gray | Black

  /** A reported cycle; `fallback` marks the `u, v, u` path used when `v` is not on the stack. */
  datatype Cycle = Cycle(path: seq<string>, fallback: bool)

  ghost function AdjacencyEdges(adj: Adjacency): EdgeSet {
    iset u: string, v: string | u in adj && v in adj[u] :: (u, v)
  }

  lemma ElementsNext(s: seq<string>, k: nat)
    requires k < |s|
    ensures Elements(s[..k + 1]) == Elements(s[..k]) + {s[k]}
  {
    assert s[..k + 1] == s[..k] + [s[k]];
  }

  ghost predicate Closed(adj: Adjacency) {
    forall u, v :: u in adj && v in adj[u] ==> v in adj
  }

  /** The gray groups are exactly those on the stack. */
  ghost predicate ColorsOk(adj: Adjacency, color: map<string, Color>, stack: seq<string>) {
    && color.Keys <= adj.Keys
    && (forall u :: u in color && color[u] == Gray ==> u in stack)
    && (forall i :: 0 <= i < |stack| ==> stack[i] in color && color[stack[i]] == Gray)
  }

  /** The stack is a simple path of the graph. */
  ghost predicate PathOk(adj: Adjacency, stack: seq<string>) {
    && (forall i :: 0 <= i < |stack| ==> stack[i] in adj)
    && (forall i, j :: 0 <= i < j < |stack| ==> stack[i] != stack[j])
    && (forall i, j :: 0 <= i < |stack| && j == i + 1 < |stack| ==> stack[j] in adj[stack[i]])
  }

  /** The black groups are ranked below their dependants, in finishing order. */
  ghost predicate RankOk(adj: Adjacency, color: map<string, Color>, rank: map<string, nat>) {
    && rank.Keys <= adj.Keys
    && (forall u :: u in rank <==> u in color && color[u] == Black)
    && (forall u :: u in rank ==> rank[u] < |rank|)
    && (forall u, v :: u in rank && v in adj[u] ==> v in rank && rank[v] < rank[u])
  }

  lemma PushKeepsPath(adj: Adjacency, color: map<string, Color>, stack: seq<string>, u: string)
    requires PathOk(adj, stack) && ColorsOk(adj, color, stack) && u in adj && u !in color
    requires stack != [] ==> u in adj[stack[|stack| - 1]]
    ensures PathOk(adj, stack + [u])
  {
  }

  lemma PushKeepsColors(adj: Adjacency, color: map<string, Color>, stack: seq<string>, u: string)
    requires ColorsOk(adj, color, stack) && u in adj
    ensures ColorsOk(adj, color[u := Gray], stack + [u])
  {
    assert (stack + [u])[|stack|] == u;
    forall x | x in color[u := Gray] && color[u := Gray][x] == Gray ensures x in stack + [u] {
      assert x != u ==> x in stack;
    }
  }

  /** The search state: an absent colour is white, the stack is the current path. */
  class CycleSearch {
    const adj: Adjacency
    var color: map<string, Color>
    var stack: seq<string>
    ghost var rank: map<string, nat>

    ghost predicate Valid()
      reads this
    {
      Closed(adj) && ColorsOk(adj, color, stack) && PathOk(adj, stack) && RankOk(adj, color, rank)
    }

    constructor (adj: Adjacency)
      requires Closed(adj)
      ensures Valid() && this.adj == adj && stack == [] && color == map[] && rank == map[]
    {
      this.adj := adj;
      this.color := map[];
      this.stack := [];
      this.rank := map[];
    }

    /** Where the stack holds `v`, or -1. */
    method StackIndex(v: string) returns (idx: int)
      ensures idx == -1 <==> v !in stack
      ensures -1 <= idx < |stack|
      ensures idx >= 0 ==> stack[idx] == v
    {
      for i := 0 to |stack|
        invariant v !in stack[..i]
      {
        if stack[i] == v { return i; }
      }
      assert stack[..|stack|] == stack;
      idx := -1;
    }

    /** The back edge `u -> v` to a gray `v` closes the stack's tail into a cycle. */
    method ReportCycle(u: string, v: string) returns (c: Cycle)
      requires Valid() && stack != [] && stack[|stack| - 1] == u && v in adj[u]
      requires v in color && color[v] == Gray
      ensures ClosedWalk(AdjacencyEdges(adj), c.path) && !c.fallback
    {
      var idx := StackIndex(v);
      if idx >= 0 {
        c := Cycle(stack[idx..] + [v], false);
        forall i, j | 0 <= i < |c.path| && j == i + 1 < |c.path|
          ensures (c.path[i], c.path[j]) in AdjacencyEdges(adj)
        {
          assert c.path[i] == stack[idx + i];
          assert j < |c.path| - 1 ==> c.path[j] == stack[idx + j];
        }
      } else {
        c := Cycle([u, v, u], true);
      }
    }

    method Enter(u: string)
      requires Valid() && u in adj && u !in color
      requires stack != [] ==> u in adj[stack[|stack| - 1]]
      modifies this`color, this`stack
      ensures Valid() && color == old(color)[u := Gray] && stack == old(stack) + [u]
    {
      PushKeepsPath(adj, color, stack, u);
      PushKeepsColors(adj, color, stack, u);
      color := color[u := Gray];
      stack := stack + [u];
    }

    method SortedNeighbors(u: string) returns (neighbors: seq<string>)
      requires u in adj
      ensures forall i :: 0 <= i < |neighbors| ==> neighbors[i] in adj[u]
      ensures Elements(neighbors) == Elements(adj[u])
    {
      neighbors := SortStrings(adj[u]);
      StableSortElements(StringLe, adj[u]);
    }

    /** One depth-first visit of the white group `u`. */
    method Dfs(u: string) returns (r: Option<Cycle>)
      requires Valid() && u in adj && u !in color
      requires stack != [] ==> u in adj[stack[|stack| - 1]]
      modifies this
      ensures r.Some? ==> ClosedWalk(AdjacencyEdges(adj), r.value.path) && !r.value.fallback
      ensures r.None? ==> Valid() && stack == old(stack) && u in rank
      ensures r.None? ==> old(rank.Keys) <= rank.Keys && old(color.Keys) <= color.Keys
      decreases adj.Keys - color.Keys, 0
    {
      Enter(u);
      var neighbors := SortedNeighbors(u);
      ghost var done: set<string> := {};
      for k := 0 to |neighbors|
        invariant Valid() && stack == old(stack) + [u]
        invariant old(rank.Keys) <= rank.Keys && old(color.Keys) + {u} <= color.Keys
        invariant done <= rank.Keys && done == Elements(neighbors[..k])
      {
        var sub := Follow(u, neighbors[k]);
        if sub.Some? { return sub; }
        ElementsNext(neighbors, k);
        done := done + {neighbors[k]};
      }
      assert neighbors[..|neighbors|] == neighbors;
      Finish(u, done);
      assert stack == old(stack);
      r := None;
    }

    /** Follows the edge `u -> v` from the top of the stack. */
    method Follow(u: string, v: string) returns (r: Option<Cycle>)
      requires Valid() && stack != [] && stack[|stack| - 1] == u && v in adj[u]
      modifies this
      ensures r.Some? ==> ClosedWalk(AdjacencyEdges(adj), r.value.path) && !r.value.fallback
      ensures r.None? ==> Valid() && stack == old(stack) && v in rank
      ensures r.None? ==> old(rank.Keys) <= rank.Keys && old(color.Keys) <= color.Keys
      decreases adj.Keys - color.Keys, 1
    {
      if v in color && color[v] == Gray {
        var c := ReportCycle(u, v);
        return Some(c);
      }
      r := None;
      if v !in color {
        r := Dfs(v);
      }
    }

    /** Pops `u`, all of whose neighbours are finished, and blackens it with the next rank. */
    method Finish(u: string, ghost done: set<string>)
      requires Valid() && stack != [] && stack[|stack| - 1] == u
      requires done <= rank.Keys && done == Elements(adj[u])
      modifies this
      ensures Valid() && stack == old(stack)[..|old(stack)| - 1]
      ensures color == old(color)[u := Black] && rank == old(rank)[u := |old(rank)|]
    {
      stack := stack[..|stack| - 1];
      color := color[u := Black];
      rank := rank[u := |rank|];
      assert old(color)[u] == Gray;
      assert |rank| == |old(rank)| + 1;
    }

    lemma AllFinished()
      requires Valid() && forall u :: u in adj ==> u in rank
      ensures Ranked(AdjacencyEdges(adj), rank) && rank.Keys == adj.Keys
    {
    }

    /** A root of the search, visited unless it is finished already. */
    method Visit(u: string) returns (r: Option<Cycle>)
      requires Valid() && stack == [] && u in adj
      modifies this
      ensures r.Some? ==> !Acyclic(AdjacencyEdges(adj)) && ClosedWalk(AdjacencyEdges(adj), r.value.path) && !r.value.fallback
      ensures r.None? ==> Valid() && stack == [] && u in rank && old(rank.Keys) <= rank.Keys
    {
      r := None;
      if u !in color { r := Dfs(u); }
    }

    /** The whole search: `None` exactly when the adjacency graph has no cycle. */
    method Run(ids: seq<string>) returns (r: Option<Cycle>)
      requires Valid() && stack == [] && forall u :: u in adj <==> u in ids
      modifies this
      ensures r.None? <==> Acyclic(AdjacencyEdges(adj))
      ensures r.None? ==> Ranked(AdjacencyEdges(adj), rank) && rank.Keys == adj.Keys
      ensures r.Some? ==> ClosedWalk(AdjacencyEdges(adj), r.value.path) && !r.value.fallback
    {
      for k := 0 to |ids|
        invariant Valid() && stack == [] && Elements(ids[..k]) <= rank.Keys
      {
        var sub := Visit(ids[k]);
        if sub.Some? { return sub; }
        ElementsNext(ids, k);
      }
      assert ids[..|ids|] == ids;
      assert forall u :: u in adj ==> u in Elements(ids);
      AllFinished();
      RankedIsAcyclic(AdjacencyEdges(adj), rank);
      r := None;
    }
  }

  method GroupIdList(groups: seq<NodeGroup>) returns (ids: seq<string>)
    ensures forall x :: x in ids <==> x in GroupIds(groups)
  {
    ids := [];
    for k := 0 to |groups|
      invariant |ids| == k && forall i :: 0 <= i < k ==> ids[i] == groups[i].id
    {
      ids := ids + [groups[k].id];
    }
    forall x ensures x in ids <==> x in GroupIds(groups) {
      if x in GroupIds(groups) {
        var g :| g in groups && g.id == x;
        var i :| 0 <= i < |groups| && groups[i] == g;
        assert ids[i] == x;
      }
    }
  }

  /**
   The validator. It accepts exactly the policies whose references are in order, whose declared
   graph is acyclic and whose rules pass; acceptance yields a rank for the graph, and a cycle error
   reports a closed walk of declared edges.
   */
  method ValidatePolicyTopology(c: Checks, groups: seq<NodeGroup>, edges: map<string, seq<GroupEdge>>,
                                rules: seq<PolicyRule>, requireTerminalMatch: bool)
    returns (r: Result<()>, ghost rank: map<string, nat>)
    ensures r.Ok? <==> ReferencesOk(c, groups, edges) && Acyclic(DeclaredEdges(groups, edges)) &&
                       Rules.RulesOk(c, rules, GroupIds(groups), requireTerminalMatch)
    ensures r.Ok? ==> Ranked(DeclaredEdges(groups, edges), rank) && rank.Keys == GroupIds(groups)
    ensures r.Err? && r.cyclePath != [] ==> ClosedWalk(DeclaredEdges(groups, edges), r.cyclePath)
    ensures ReferencesOk(c, groups, edges) && !Acyclic(DeclaredEdges(groups, edges)) ==>
              r.Err? && r.code == "cycle_detected" && r.cyclePath != []
  {
    rank := map[];
    var err, ids := CheckHeaders(c, groups);
    if err.Some? { return Err(err.value, []), rank; }
    var adj: Adjacency := map u | u in ids :: [];
    err, adj := AddLegacyEdges(c, ids, edges, adj);
    if err.Some? { return Err(err.value, []), rank; }
    err, adj := AddSourceEdges(c, ids, groups, adj);
    if err.Some? { return Err(err.value, []), rank; }
    AdjacencyIsDeclared(c, groups, edges, adj);

    var list := GroupIdList(groups);
    var sorted := SortStrings(list);
    StableSortElements(StringLe, list);
    var search := new CycleSearch(adj);
    var cycle := search.Run(sorted);
    if cycle.Some? { return Err("cycle_detected", cycle.value.path), rank; }
    rank := search.rank;
    var ruleError := Rules.ValidatePolicyRules(c, rules, ids, requireTerminalMatch);
    r := if ruleError.Some? then Err(ruleError.value, []) else Ok(());
  }

  lemma AdjacencyIsDeclared(c: Checks, groups: seq<NodeGroup>, edges: map<string, seq<GroupEdge>>, adj: Adjacency)
    requires ReferencesOk(c, groups, edges) && adj.Keys == GroupIds(groups)
    requires forall u, v :: u in adj ==>
               (v in adj[u] <==> (u in edges && EdgeListDeclares(edges[u], v)) || GroupsDeclare(groups, u, v))
    ensures AdjacencyEdges(adj) == DeclaredEdges(groups, edges)
    ensures Closed(adj)
  {
    forall u: string, v: string ensures (u, v) in AdjacencyEdges(adj) <==> (u, v) in DeclaredEdges(groups, edges)
      ensures (u, v) in DeclaredEdges(groups, edges) ==> v in adj
    {
      if u in edges && EdgeListDeclares(edges[u], v) {
        var i :| 0 <= i < |edges[u]| && EdgeChild(edges[u][i]) == Some(v);
        assert EdgeOk(c, GroupIds(groups), u, edges[u][i]);
      }
      if GroupsDeclare(groups, u, v) {
        var i :| 0 <= i < |groups| && groups[i].id == u && SourcesDeclare(groups[i].sources, v);
        assert groups[i] in groups && SourcesOk(c, GroupIds(groups), groups[i]);
      }
    }
  }
}

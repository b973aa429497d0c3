/**
 The meaning of a policy group: an ordered pipeline of add/remove sources over nodes, child groups
 and builtins, evaluated by plain recursion over a ranked (hence acyclic) group graph.
 */
module Pipeline {
  import opened Wrappers
  import opened Policy
  import opened Sorting

  datatype MemberKind = KindNode | KindGroup | KindBuiltin

  /** One resolved candidate; its identity is the kind-tagged target. */
  datatype Item = Item(kind: MemberKind, targetId: string, displayName: string) {
    function Id(): string {
      match kind
      case KindNode => "node:" + targetId
      case KindGroup => "group:" + targetId
      case KindBuiltin => "builtin:" + targetId
    }
  }

  /** Regex engine, filter conditions and builtin spelling, as the pipeline consults them. */
  datatype Oracle = Oracle(
    condition: (Condition, Node) -> bool,
    compiles: string -> bool,
    regexMatch: (string, string) -> bool,
    blank: string -> bool,
    builtinName: string -> string)

  /** What one resolution works on: groups by id, admitted nodes by id and in display order. */
  datatype Context = Context(
    groups: map<string, NodeGroup>,
    admitted: map<string, Node>,
    ordered: seq<Node>,
    oracle: Oracle)

  predicate MatchesFilter(o: Oracle, f: Option<FilterSpec>, n: Node) {
    f.None? || forall i :: 0 <= i < |f.value.conditions| ==> o.condition(f.value.conditions[i], n)
  }

  predicate SourcePositionLe(a: MemberSource, b: MemberSource) {
    a.position <= b.position
  }

  function Sources(ctx: Context, gid: string): seq<MemberSource>
    requires gid in ctx.groups
  {
    StableSort(SourcePositionLe, ctx.groups[gid].sources)
  }

  // ---- Items ----

  function NodeItem(id: string, n: Node): Item {
    Item(KindNode, id, n.displayName)
  }

  ghost function Ids(items: seq<Item>): set<string> {
    set i | 0 <= i < |items| :: items[i].Id()
  }

  ghost predicate Distinct(items: seq<Item>) {
    forall i, j :: 0 <= i < j < |items| ==> items[i].Id() != items[j].Id()
  }

  function NodeSet(items: seq<Item>): set<string> {
    set x | x in items && x.kind == KindNode :: x.targetId
  }

  lemma IdInjective(a: Item, b: Item)
    requires a.Id() == b.Id()
    ensures a.kind == b.kind && a.targetId == b.targetId
  {
    assert a.Id()[0] == b.Id()[0];
    var n := match a.kind case KindNode => 5 case KindGroup => 6 case KindBuiltin => 8;
    assert a.targetId == a.Id()[n..] && b.targetId == b.Id()[n..];
  }

  // ---- One source ----

  function AddUnique(items: seq<Item>, x: Item): seq<Item> {
    if exists i :: 0 <= i < |items| && items[i].Id() == x.Id() then items else items + [x]
  }

  function AddAll(items: seq<Item>, xs: seq<Item>): seq<Item> {
    if xs == [] then items else AddUnique(AddAll(items, xs[..|xs| - 1]), xs[|xs| - 1])
  }

  /** A non-blank pattern that compiles restricts by display name; any other is ignored. */
  predicate PatternAllows(ctx: Context, p: Option<string>, name: string) {
    p.Some? && !ctx.oracle.blank(p.value) && ctx.oracle.compiles(p.value) ==> ctx.oracle.regexMatch(p.value, name)
  }

  /** Whether a regex or filter source picks a node. */
  predicate Selects(ctx: Context, s: MemberSource, n: Node) {
    match s.kind
    case Regex =>
      && s.pattern.Some? && !ctx.oracle.blank(s.pattern.value) && ctx.oracle.compiles(s.pattern.value)
      && ctx.oracle.regexMatch(s.pattern.value, n.displayName)
    case Filter => s.filterSpec.Some? && MatchesFilter(ctx.oracle, s.filterSpec, n)
    case _ => false
  }

  function SelectNodes(ctx: Context, s: MemberSource, nodes: seq<Node>): seq<Item> {
    if nodes == [] then []
    else
      var n := nodes[|nodes| - 1];
      SelectNodes(ctx, s, nodes[..|nodes| - 1]) + if Selects(ctx, s, n) then [NodeItem(n.logicalId, n)] else []
  }

  /** Whether a group_nodes source lets a leaf of its target through. */
  predicate KeepsLeaf(ctx: Context, s: MemberSource, leaf: Item) {
    leaf.kind == KindNode ==>
      && leaf.targetId in ctx.admitted
      && PatternAllows(ctx, s.pattern, ctx.admitted[leaf.targetId].displayName)
      && MatchesFilter(ctx.oracle, s.filterSpec, ctx.admitted[leaf.targetId])
  }

  function KeptLeaves(ctx: Context, s: MemberSource, leaves: seq<Item>): seq<Item> {
    if leaves == [] then []
    else
      var x := leaves[|leaves| - 1];
      KeptLeaves(ctx, s, leaves[..|leaves| - 1]) + if KeepsLeaf(ctx, s, x) then [x] else []
  }

  /** What an add source offers; `child` are the leaves of the group it expands, if any. */
  function Candidates(ctx: Context, s: MemberSource, child: seq<Item>): seq<Item> {
    match s.kind
    case ManualNode =>
      if s.nodeLogicalId.Some? && s.nodeLogicalId.value in ctx.admitted &&
         MatchesFilter(ctx.oracle, s.filterSpec, ctx.admitted[s.nodeLogicalId.value])
      then [NodeItem(s.nodeLogicalId.value, ctx.admitted[s.nodeLogicalId.value])] else []
    case GroupRef =>
      if s.targetGroupId.Some? && s.targetGroupId.value in ctx.groups
      then [Item(KindGroup, s.targetGroupId.value, ctx.groups[s.targetGroupId.value].name)] else []
    case GroupNodes =>
      if s.targetGroupId.Some? && s.targetGroupId.value in ctx.groups then KeptLeaves(ctx, s, child) else []
    case Regex => SelectNodes(ctx, s, ctx.ordered)
    case Filter => SelectNodes(ctx, s, ctx.ordered)
    case TypedBuiltin =>
      if s.builtinName.Some?
      then var name := ctx.oracle.builtinName(s.builtinName.value); [Item(KindBuiltin, name, name)] else []
    case OtherKind(_) => []
  }

  /** How many candidates an add source reports to have considered. */
  function CandidateCount(ctx: Context, s: MemberSource, child: seq<Item>): nat {
    if s.operation != Add then 0 else
    match s.kind
    case ManualNode => 1
    case GroupNodes => if s.targetGroupId.Some? && s.targetGroupId.value in ctx.groups then |child| else 0
    case Regex => |ctx.ordered|
    case Filter => |ctx.ordered|
    case _ => 0
  }

  /** Whether a remove source drops an item. */
  predicate Removes(ctx: Context, s: MemberSource, childNodes: set<string>, x: Item) {
    match s.kind
    case ManualNode => s.nodeLogicalId.Some? && x.kind == KindNode && x.targetId == s.nodeLogicalId.value
    case GroupRef => s.targetGroupId.Some? && x.kind == KindGroup && x.targetId == s.targetGroupId.value
    case GroupNodes => s.targetGroupId.Some? && x.kind == KindNode && x.targetId in childNodes
    case Regex =>
      && s.pattern.Some? && x.kind == KindNode && ctx.oracle.compiles(s.pattern.value)
      && ctx.oracle.regexMatch(s.pattern.value, x.displayName)
    case Filter =>
      && s.filterSpec.Some? && x.kind == KindNode && x.targetId in ctx.admitted
      && MatchesFilter(ctx.oracle, s.filterSpec, ctx.admitted[x.targetId])
    case TypedBuiltin =>
      s.builtinName.Some? && x.kind == KindBuiltin && x.targetId == ctx.oracle.builtinName(s.builtinName.value)
    case OtherKind(_) => false
  }

  function Survivors(ctx: Context, s: MemberSource, childNodes: set<string>, items: seq<Item>): seq<Item> {
    if items == [] then []
    else
      var x := items[|items| - 1];
      Survivors(ctx, s, childNodes, items[..|items| - 1]) + if Removes(ctx, s, childNodes, x) then [] else [x]
  }

  function Step(ctx: Context, s: MemberSource, child: seq<Item>, items: seq<Item>): seq<Item> {
    match s.operation
    case Add => AddAll(items, Candidates(ctx, s, child))
    case Remove => Survivors(ctx, s, NodeSet(child), items)
    case OtherOperation(_) => items
  }

  // ---- Groups ----

  /** The filter the leaf expansion applies to a child: the first present on any group_ref to it. */
  function RefFilter(ss: seq<MemberSource>, child: string): Option<FilterSpec> {
    if ss == [] then None
    else if ss[0].kind == GroupRef && ss[0].targetGroupId == Some(child) && ss[0].filterSpec.Some? then ss[0].filterSpec
    else RefFilter(ss[1..], child)
  }

  predicate PassesRef(ctx: Context, f: Option<FilterSpec>, leaf: Item) {
    leaf.kind == KindNode && f.Some? ==>
      leaf.targetId in ctx.admitted && MatchesFilter(ctx.oracle, f, ctx.admitted[leaf.targetId])
  }

  function Projected(ctx: Context, f: Option<FilterSpec>, leaves: seq<Item>): seq<Item> {
    if leaves == [] then []
    else
      var x := leaves[|leaves| - 1];
      Projected(ctx, f, leaves[..|leaves| - 1]) + if PassesRef(ctx, f, x) then [x] else []
  }

  /** Every group a pipeline depends on, by reference or by expansion, has a lower rank. */
  ghost predicate RankedContext(ctx: Context, rank: map<string, nat>) {
    && ctx.groups.Keys == rank.Keys
    && forall g, i :: g in ctx.groups && 0 <= i < |ctx.groups[g].sources| ==>
         DependencyBelow(ctx, rank, g, ctx.groups[g].sources[i])
  }

  ghost predicate DependencyBelow(ctx: Context, rank: map<string, nat>, g: string, s: MemberSource)
    requires ctx.groups.Keys == rank.Keys && g in rank
  {
    (s.kind == GroupRef || s.kind == GroupNodes) && s.targetGroupId.Some? && s.targetGroupId.value in rank ==>
      rank[s.targetGroupId.value] < rank[g]
  }

  /** The leaves of a group that `gid` may depend on; anything else contributes nothing. */
  ghost function ChildLeaves(ctx: Context, rank: map<string, nat>, gid: string, child: string): seq<Item>
    requires ctx.groups.Keys == rank.Keys && gid in rank
    decreases rank[gid], 0, 0
  {
    if child in rank && rank[child] < rank[gid] then Leaves(ctx, rank, child) else []
  }

  ghost function SourceLeaves(ctx: Context, rank: map<string, nat>, gid: string, s: MemberSource): seq<Item>
    requires ctx.groups.Keys == rank.Keys && gid in rank
    decreases rank[gid], 0, 1
  {
    if s.kind == GroupNodes && s.targetGroupId.Some? then ChildLeaves(ctx, rank, gid, s.targetGroupId.value) else []
  }

  /** The current items after the first `n` sources of `gid`. */
  ghost function ItemsAfter(ctx: Context, rank: map<string, nat>, gid: string, n: nat): seq<Item>
    requires ctx.groups.Keys == rank.Keys && gid in rank && n <= |Sources(ctx, gid)|
    decreases rank[gid], 1, n
  {
    if n == 0 then []
    else
      var s := Sources(ctx, gid)[n - 1];
      Step(ctx, s, SourceLeaves(ctx, rank, gid, s), ItemsAfter(ctx, rank, gid, n - 1))
  }

  ghost function CountAfter(ctx: Context, rank: map<string, nat>, gid: string, n: nat): nat
    requires ctx.groups.Keys == rank.Keys && gid in rank && n <= |Sources(ctx, gid)|
  {
    if n == 0 then 0
    else
      var s := Sources(ctx, gid)[n - 1];
      CountAfter(ctx, rank, gid, n - 1) + CandidateCount(ctx, s, SourceLeaves(ctx, rank, gid, s))
  }

  /** A group's members: what its whole pipeline leaves. */
  ghost function GroupItems(ctx: Context, rank: map<string, nat>, gid: string): seq<Item>
    requires ctx.groups.Keys == rank.Keys && gid in rank
    decreases rank[gid], 2, 0
  {
    ItemsAfter(ctx, rank, gid, |Sources(ctx, gid)|)
  }

  /** What one member contributes to its group's leaves. */
  ghost function LeavesOf(ctx: Context, rank: map<string, nat>, gid: string, x: Item): seq<Item>
    requires ctx.groups.Keys == rank.Keys && gid in rank
    decreases rank[gid], 1, 0
  {
    if x.kind == KindGroup
    then Projected(ctx, RefFilter(ctx.groups[gid].sources, x.targetId), ChildLeaves(ctx, rank, gid, x.targetId))
    else [x]
  }

  ghost function Flatten(ctx: Context, rank: map<string, nat>, gid: string, items: seq<Item>): seq<Item>
    requires ctx.groups.Keys == rank.Keys && gid in rank
    decreases rank[gid], 2, |items|
  {
    if items == [] then []
    else Flatten(ctx, rank, gid, items[..|items| - 1]) + LeavesOf(ctx, rank, gid, items[|items| - 1])
  }

  /** The nodes and builtins a group finally offers, child groups expanded. */
  ghost function Leaves(ctx: Context, rank: map<string, nat>, gid: string): seq<Item>
    requires ctx.groups.Keys == rank.Keys && gid in rank
    decreases rank[gid], 3, 0
  {
    Flatten(ctx, rank, gid, GroupItems(ctx, rank, gid))
  }

  // ---- Memos ----

  datatype Member = Member(kind: MemberKind, targetId: string, displayName: string, position: nat)

  datatype GroupMemo = GroupMemo(
    members: seq<Member>,
    childGroupIds: seq<string>,
    nodeLogicalIds: seq<string>,
    leafItems: seq<Item>,
    leafNodes: set<string>,
    effectiveEmptyPass: bool,
    candidateCount: nat)

  const EmptyMemo := GroupMemo([], [], [], [], {}, false, 0)

  function Members(items: seq<Item>): seq<Member> {
    seq(|items|, i requires 0 <= i < |items| => Member(items[i].kind, items[i].targetId, items[i].displayName, i))
  }

  function Targets(items: seq<Item>, kind: MemberKind): seq<string> {
    if items == [] then []
    else Targets(items[..|items| - 1], kind) +
         if items[|items| - 1].kind == kind then [items[|items| - 1].targetId] else []
  }

  predicate HasBuiltin(items: seq<Item>) {
    exists i :: 0 <= i < |items| && items[i].kind == KindBuiltin
  }

  /** The memo the recursion assigns to a group. */
  ghost function MemoOf(ctx: Context, rank: map<string, nat>, gid: string): GroupMemo
    requires ctx.groups.Keys == rank.Keys && gid in rank
  {
    var items, leaves := GroupItems(ctx, rank, gid), Leaves(ctx, rank, gid);
    GroupMemo(Members(items), Targets(items, KindGroup), Targets(items, KindNode), leaves, NodeSet(leaves),
              ctx.groups[gid].emptyFallbackPass && NodeSet(leaves) == {} && !HasBuiltin(items),
              CountAfter(ctx, rank, gid, |Sources(ctx, gid)|))
  }
}

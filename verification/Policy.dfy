/**
 The policy entities of internal/domain: groups with their ordered member sources, legacy edges,
 routing rules and nodes. Text syntax (UUIDs, blank names, regexes, filter conditions) is consulted
 only through the oracles below, so every result holds for any such syntax.
 */
module Policy {
  import opened Wrappers

  datatype GroupType = Select | UrlTest | Fallback | LoadBalance | OtherType(name: string)

  datatype Operation = Add | Remove | OtherOperation(name: string)

  datatype SourceKind =
    | ManualNode | GroupRef | GroupNodes | Regex | Filter | TypedBuiltin | OtherKind(name: string)

  datatype Condition = Condition(text: string)

  datatype FilterSpec = FilterSpec(conditions: seq<Condition>)

  datatype MemberSource = MemberSource(
    id: string,
    groupId: string,
    operation: Operation,
    kind: SourceKind,
    position: int,
    nodeLogicalId: Option<string>,
    targetGroupId: Option<string>,
    pattern: Option<string>,
    filterSpec: Option<FilterSpec>,
    builtinName: Option<string>)

  datatype NodeGroup = NodeGroup(
    id: string,
    name: string,
    groupType: GroupType,
    emptyFallbackPass: bool,
    sources: seq<MemberSource>)

  datatype GroupEdge = GroupEdge(
    id: string,
    parentGroupId: string,
    childGroupId: Option<string>,
    nodeLogicalId: Option<string>,
    position: int)

  datatype PolicyRule = PolicyRule(id: string, targetGroupId: string, expression: string, position: int)

  datatype Node = Node(logicalId: string, displayName: string, protocol: string, active: bool)

  /** The syntax checks a policy is validated with. */
  datatype Checks = Checks(
    validUuid: string -> bool,
    validLogicalId: string -> bool,
    blank: string -> bool,
    isMatch: string -> bool,
    sourceError: MemberSource -> Option<string>)

  /** `NodeFilterSpec.IsEmpty`: an absent filter and one without conditions are the same. */
  predicate IsEmptyFilter(f: Option<FilterSpec>) {
    f.None? || f.value.conditions == []
  }

  function HasText(s: Option<string>): bool {
    s.Some? && s.value != ""
  }

  /** The edge has one target, a valid other group or a valid node, and a position. */
  ghost predicate EdgeWellFormed(c: Checks, e: GroupEdge) {
    && c.validUuid(e.parentGroupId) && e.position >= 0
    && match (e.childGroupId, e.nodeLogicalId)
       case (Some(g), None) => g != "" && c.validUuid(g) && g != e.parentGroupId
       case (None, Some(n)) => n != "" && c.validLogicalId(n)
       case (Some(g), Some(n)) =>
         || (g != "" && n == "" && c.validUuid(g) && g != e.parentGroupId)
         || (g == "" && n != "" && c.validLogicalId(n))
       case (None, None) => false
  }

  /** The error code of an ill-formed edge, checks in the source's order. */
  function ValidateGroupEdge(c: Checks, e: GroupEdge): (code: Option<string>)
    ensures code.None? <==> EdgeWellFormed(c, e)
    ensures code.None? ==> (HasText(e.childGroupId) != HasText(e.nodeLogicalId)) && e.position >= 0
    ensures code.None? && HasText(e.childGroupId) ==> e.childGroupId.value != e.parentGroupId
  {
    if !c.validUuid(e.parentGroupId) then Some("invalid_parent_group_id")
    else if !HasText(e.childGroupId) && !HasText(e.nodeLogicalId) then Some("empty_edge_target")
    else if HasText(e.childGroupId) && HasText(e.nodeLogicalId) then Some("ambiguous_edge_target")
    else if HasText(e.childGroupId) && !c.validUuid(e.childGroupId.value) then Some("invalid_child_group_id")
    else if HasText(e.childGroupId) && e.childGroupId.value == e.parentGroupId then Some("self_loop_forbidden")
    else if HasText(e.nodeLogicalId) && !c.validLogicalId(e.nodeLogicalId.value) then Some("invalid_node_logical_id")
    else if e.position < 0 then Some("invalid_position")
    else None
  }
}

/**
 The compatibility view of a group's sources as plain edges, and editing through that view. An edit
 is refused for any pipeline the view cannot show; an accepted one reads back exactly as submitted.
 Submitting the unchanged view is not always the identity: it is exactly when the pipeline carries
 one common filter.
 */
module LegacyEdges {
  import opened Wrappers
  import opened Policy

  /** A source the old interface knows: an added node, group or filter. */
  predicate Plain(s: MemberSource) {
    s.operation == Add && (s.kind == ManualNode || s.kind == GroupRef || s.kind == Filter)
  }

  /** A source the view shows. */
  predicate Shown(s: MemberSource) {
    s.operation == Add && (s.kind == ManualNode || s.kind == GroupRef)
  }

  function AsEdge(s: MemberSource): GroupEdge {
    GroupEdge(s.id, s.groupId, s.targetGroupId, s.nodeLogicalId, s.position)
  }

  function Projected(sources: seq<MemberSource>): seq<GroupEdge> {
    if sources == [] then []
    else
      var last := sources[|sources| - 1];
      Projected(sources[..|sources| - 1]) + if Shown(last) then [AsEdge(last)] else []
  }

  method ProjectSourceEdges(sources: seq<MemberSource>) returns (edges: seq<GroupEdge>)
    ensures edges == Projected(sources)
  {
    edges := [];
    for k := 0 to |sources|
      invariant edges == Projected(sources[..k])
    {
      assert sources[..k + 1][..k] == sources[..k];
      var s := sources[k];
      if s.operation != Add { continue; }
      if s.kind != GroupRef && s.kind != ManualNode { continue; }
      edges := edges + [GroupEdge(s.id, s.groupId, s.targetGroupId, s.nodeLogicalId, s.position)];
    }
    assert sources[..|sources|] == sources;
  }

  // ---- What an edit produces ----

  /** A submitted edge, placed under its group at its index. */
  function Placed(gid: string, e: GroupEdge, i: nat): GroupEdge {
    e.(parentGroupId := gid, position := i)
  }

  function PlacedAll(gid: string, es: seq<GroupEdge>): seq<GroupEdge> {
    seq(|es|, i requires 0 <= i < |es| => Placed(gid, es[i], i))
  }

  function AsSource(gid: string, e: GroupEdge, i: nat): MemberSource {
    MemberSource(e.id, gid, Add, if e.childGroupId.Some? then GroupRef else ManualNode, i,
                 e.nodeLogicalId, e.childGroupId, None, None, None)
  }

  function FromEdges(gid: string, es: seq<GroupEdge>): seq<MemberSource> {
    seq(|es|, i requires 0 <= i < |es| => AsSource(gid, es[i], i))
  }

  /** An empty filter is no filter. */
  function Normal(f: Option<FilterSpec>): Option<FilterSpec> {
    if IsEmptyFilter(f) then None else f
  }

  /** All members under the one filter; filter members give way. */
  function Refiltered(sources: seq<MemberSource>, f: Option<FilterSpec>): seq<MemberSource> {
    if sources == [] then []
    else
      var last := sources[|sources| - 1];
      Refiltered(sources[..|sources| - 1], f) + if last.kind == Filter then [] else [last.(filterSpec := Normal(f))]
  }

  function LoneFilter(gid: string, f: Option<FilterSpec>): MemberSource {
    MemberSource("", gid, Add, Filter, 0, None, None, None, f, None)
  }

  function WithFilter(gid: string, sources: seq<MemberSource>, f: Option<FilterSpec>): seq<MemberSource> {
    var r := Refiltered(sources, f);
    if r == [] && !IsEmptyFilter(f) then [LoneFilter(gid, f)] else r
  }

  /** The filter an edit puts on the members, if it sets one. */
  function EffectiveFilter(current: seq<MemberSource>, edges: Option<seq<GroupEdge>>, changeFilter: bool, f: Option<FilterSpec>): Option<Option<FilterSpec>> {
    if edges.Some? && !changeFilter && current != [] then Some(current[0].filterSpec)
    else if changeFilter then Some(f)
    else None
  }

  function Edited(gid: string, current: seq<MemberSource>, edges: Option<seq<GroupEdge>>, changeFilter: bool, f: Option<FilterSpec>): seq<MemberSource> {
    var base := if edges.Some? then FromEdges(gid, edges.value) else current;
    match EffectiveFilter(current, edges, changeFilter, f)
    case Some(g) => WithFilter(gid, base, g)
    case None => base
  }

  ghost predicate EdgesOk(c: Checks, gid: string, es: seq<GroupEdge>) {
    forall i :: 0 <= i < |es| ==> ValidateGroupEdge(c, Placed(gid, es[i], i)).None?
  }

  predicate FilterOk(validFilter: FilterSpec -> bool, f: Option<FilterSpec>) {
    IsEmptyFilter(f) || validFilter(f.value)
  }

  ghost predicate AllPlain(current: seq<MemberSource>) {
    forall i :: 0 <= i < |current| ==> Plain(current[i])
  }

  /** The sources the submitted edges stand for. */
  method ConvertEdges(c: Checks, gid: string, es: seq<GroupEdge>) returns (r: Result<seq<MemberSource>>)
    ensures r.Ok? <==> EdgesOk(c, gid, es)
    ensures r.Ok? ==> r.value == FromEdges(gid, es)
  {
    var out: seq<MemberSource> := [];
    for i := 0 to |es|
      invariant out == FromEdges(gid, es[..i])
      invariant forall k :: 0 <= k < i ==> ValidateGroupEdge(c, Placed(gid, es[k], k)).None?
    {
      var e := es[i].(parentGroupId := gid, position := i);
      var error := ValidateGroupEdge(c, e);
      if error.Some? { return Err(error.value, []); }
      var s := MemberSource(e.id, gid, Add, ManualNode, i, e.nodeLogicalId, None, None, None, None);
      if e.childGroupId.Some? { s := s.(kind := GroupRef, targetGroupId := e.childGroupId); }
      out := out + [s];
    }
    assert es[..|es|] == es;
    r := Ok(out);
  }

  method ApplyFilter(gid: string, sources: seq<MemberSource>, f: Option<FilterSpec>) returns (out: seq<MemberSource>)
    ensures out == WithFilter(gid, sources, f)
  {
    out := [];
    for k := 0 to |sources|
      invariant out == Refiltered(sources[..k], f)
    {
      assert sources[..k + 1][..k] == sources[..k];
      var s := sources[k];
      if s.kind == Filter { continue; }
      s := s.(filterSpec := None);
      if !IsEmptyFilter(f) { s := s.(filterSpec := f); }
      out := out + [s];
    }
    assert sources[..|sources|] == sources;
    if |out| == 0 && !IsEmptyFilter(f) { out := [LoneFilter(gid, f)]; }
  }

  /** An edit through the view: refused for anything the view cannot show, else as specified. */
  method EditLegacySources(c: Checks, validFilter: FilterSpec -> bool, gid: string, current: seq<MemberSource>,
                           edges: Option<seq<GroupEdge>>, changeFilter: bool, f: Option<FilterSpec>)
    returns (r: Result<seq<MemberSource>>)
    ensures r.Ok? <==> && AllPlain(current) && (edges.Some? ==> EdgesOk(c, gid, edges.value))
                       && var g := EffectiveFilter(current, edges, changeFilter, f); g.Some? ==> FilterOk(validFilter, g.value)
    ensures r.Ok? ==> r.value == Edited(gid, current, edges, changeFilter, f)
    ensures !AllPlain(current) ==> r == Err("sources_edit_required", [])
  {
    for k := 0 to |current|
      invariant forall i :: 0 <= i < k ==> Plain(current[i])
    {
      var s := current[k];
      if s.operation != Add || (s.kind != ManualNode && s.kind != GroupRef && s.kind != Filter) {
        return Err("sources_edit_required", []);
      }
    }
    var out, filter, change := current, f, changeFilter;
    if edges.Some? {
      r := ConvertEdges(c, gid, edges.value);
      if r.Err? { return; }
      out := r.value;
      if !changeFilter && |current| > 0 {
        filter, change := current[0].filterSpec, true;
      }
    }
    if change {
      if !FilterOk(validFilter, filter) { return Err("invalid_filter", []); }
      out := ApplyFilter(gid, out, filter);
    }
    r := Ok(out);
  }

  // ---- Reading back ----

  lemma ProjectedSnoc(sources: seq<MemberSource>, s: MemberSource)
    ensures Projected(sources + [s]) == Projected(sources) + if Shown(s) then [AsEdge(s)] else []
  {
    assert (sources + [s])[..|sources|] == sources;
  }

  lemma {:induction false} RefilteredView(sources: seq<MemberSource>, f: Option<FilterSpec>)
    ensures Projected(Refiltered(sources, f)) == Projected(sources)
  {
    if sources != [] {
      var init, last := sources[..|sources| - 1], sources[|sources| - 1];
      RefilteredView(init, f);
      var r := Refiltered(init, f);
      if last.kind == Filter {
        assert r + [] == r && Projected(init) + [] == Projected(init);
      } else {
        ProjectedSnoc(r, last.(filterSpec := Normal(f)));
      }
    }
  }

  lemma {:induction false} FromEdgesView(gid: string, es: seq<GroupEdge>)
    ensures Projected(FromEdges(gid, es)) == PlacedAll(gid, es)
  {
    if es != [] {
      var n := |es| - 1;
      FromEdgesView(gid, es[..n]);
      assert FromEdges(gid, es)[..n] == FromEdges(gid, es[..n]);
      assert PlacedAll(gid, es) == PlacedAll(gid, es[..n]) + [Placed(gid, es[n], n)];
    }
  }

  lemma WithFilterView(gid: string, sources: seq<MemberSource>, f: Option<FilterSpec>)
    ensures Projected(WithFilter(gid, sources, f)) == Projected(sources)
  {
    RefilteredView(sources, f);
    var lone := [LoneFilter(gid, f)];
    assert lone[..0] == [];
  }

  /** What an edit stored reads back as the submitted edges; a filter edit leaves the view as it was. */
  lemma EditReadsBack(gid: string, current: seq<MemberSource>, edges: Option<seq<GroupEdge>>, changeFilter: bool, f: Option<FilterSpec>)
    ensures Projected(Edited(gid, current, edges, changeFilter, f)) ==
            if edges.Some? then PlacedAll(gid, edges.value) else Projected(current)
  {
    if edges.Some? { FromEdgesView(gid, edges.value); }
    var base := if edges.Some? then FromEdges(gid, edges.value) else current;
    var g := EffectiveFilter(current, edges, changeFilter, f);
    if g.Some? { WithFilterView(gid, base, g.value); }
  }

  lemma {:induction false} RefilteredPlain(sources: seq<MemberSource>, f: Option<FilterSpec>)
    requires AllPlain(sources)
    ensures AllPlain(Refiltered(sources, f))
  {
    if sources != [] { RefilteredPlain(sources[..|sources| - 1], f); }
  }

  /** An edited pipeline can be edited again. */
  lemma EditedStaysPlain(gid: string, current: seq<MemberSource>, edges: Option<seq<GroupEdge>>, changeFilter: bool, f: Option<FilterSpec>)
    requires AllPlain(current)
    ensures AllPlain(Edited(gid, current, edges, changeFilter, f))
  {
    var base := if edges.Some? then FromEdges(gid, edges.value) else current;
    var g := EffectiveFilter(current, edges, changeFilter, f);
    assert AllPlain(base);
    if g.Some? { RefilteredPlain(base, g.value); }
  }

  // ---- Filters ----

  /** The filter, unless it is missing or has no conditions. */
  ghost function Meant(f: Option<FilterSpec>): Option<FilterSpec> {
    if f.Some? && |f.value.conditions| > 0 then f else None
  }

  lemma {:induction false} RefilteredCarry(sources: seq<MemberSource>, f: Option<FilterSpec>)
    ensures forall s :: s in Refiltered(sources, f) ==> s.filterSpec == Meant(f) && s.kind != Filter
  {
    if sources != [] { RefilteredCarry(sources[..|sources| - 1], f); }
  }

  lemma WithFilterCarries(gid: string, sources: seq<MemberSource>, f: Option<FilterSpec>)
    ensures forall s :: s in WithFilter(gid, sources, f) ==> s.filterSpec == Meant(f)
  {
    RefilteredCarry(sources, f);
  }

  /**
   The filter every source carries after an edit: the one set, or else, when edges are submitted, that
   of the first source before; a filter without conditions is none. Nothing submitted changes nothing.
   */
  lemma EditSetsFilter(gid: string, current: seq<MemberSource>, edges: Option<seq<GroupEdge>>, changeFilter: bool, f: Option<FilterSpec>)
    ensures var r := Edited(gid, current, edges, changeFilter, f);
            && (changeFilter ==> forall s :: s in r ==> s.filterSpec == Meant(f))
            && (!changeFilter && edges.Some? ==>
                  forall s :: s in r ==> s.filterSpec == if current == [] then None else Meant(current[0].filterSpec))
            && (!changeFilter && edges.None? ==> r == current)
  {
    var base := if edges.Some? then FromEdges(gid, edges.value) else current;
    WithFilterCarries(gid, base, f);
    if current != [] { WithFilterCarries(gid, base, current[0].filterSpec); }
  }

  // ---- Submitting the view unchanged ----

  /** Sources as they are stored: under their group, numbered, each kind with its own target only. */
  ghost predicate Stored(gid: string, current: seq<MemberSource>) {
    forall i :: 0 <= i < |current| ==>
      && current[i].groupId == gid && current[i].position == i && current[i].builtinName == None
      && (current[i].kind == ManualNode ==> current[i].targetGroupId == None)
      && (current[i].kind == GroupRef ==> current[i].targetGroupId.Some?)
  }

  /** Nothing about the source is lost when it is rebuilt from its edge under the filter `f`. */
  predicate Rebuilt(s: MemberSource, f: Option<FilterSpec>) {
    s.kind != Filter && s.pattern == None && s.filterSpec == Normal(f)
  }

  /** One common filter throughout, or nothing but the filter. */
  ghost predicate OneFilter(gid: string, current: seq<MemberSource>) {
    || (forall i :: 0 <= i < |current| ==> Rebuilt(current[i], current[0].filterSpec))
    || (current != [] && current == [LoneFilter(gid, current[0].filterSpec)] && !IsEmptyFilter(current[0].filterSpec))
  }

  function Resubmitted(gid: string, current: seq<MemberSource>): seq<MemberSource> {
    Edited(gid, current, Some(Projected(current)), false, None)
  }

  lemma {:induction false} RefilteredFromEdges(gid: string, es: seq<GroupEdge>, f: Option<FilterSpec>)
    ensures var r := Refiltered(FromEdges(gid, es), f);
            |r| == |es| && forall i :: 0 <= i < |es| ==> r[i] == AsSource(gid, es[i], i).(filterSpec := Normal(f))
  {
    if es != [] {
      var n := |es| - 1;
      RefilteredFromEdges(gid, es[..n], f);
      assert FromEdges(gid, es)[..n] == FromEdges(gid, es[..n]);
    }
  }

  /** Without filter members the view shows every source at its own index. */
  lemma {:induction false} ProjectedAll(current: seq<MemberSource>)
    requires AllPlain(current)
    ensures |Projected(current)| <= |current|
    ensures |Projected(current)| == |current| <==> forall i :: 0 <= i < |current| ==> current[i].kind != Filter
    ensures |Projected(current)| == |current| ==> forall i :: 0 <= i < |current| ==> Projected(current)[i] == AsEdge(current[i])
  {
    if current != [] {
      var n := |current| - 1;
      ProjectedAll(current[..n]);
      assert current == current[..n] + [current[n]];
    }
  }

  lemma ResubmittedShape(gid: string, current: seq<MemberSource>)
    requires AllPlain(current) && current != []
    ensures var f, es, r := current[0].filterSpec, Projected(current), Resubmitted(gid, current);
            if es == [] && !IsEmptyFilter(f) then r == [LoneFilter(gid, f)]
            else |r| == |es| && forall i :: 0 <= i < |es| ==> r[i] == AsSource(gid, es[i], i).(filterSpec := Normal(f))
  {
    RefilteredFromEdges(gid, Projected(current), current[0].filterSpec);
  }

  lemma RebuiltAt(gid: string, s: MemberSource, i: nat, f: Option<FilterSpec>)
    requires Plain(s) && s.kind != Filter && s.groupId == gid && s.position == i && s.builtinName == None
    requires (s.kind == ManualNode ==> s.targetGroupId == None) && (s.kind == GroupRef ==> s.targetGroupId.Some?)
    ensures AsSource(gid, AsEdge(s), i).(filterSpec := Normal(f)) == s <==> Rebuilt(s, f)
  {
  }

  /** Every member is shown. */
  lemma ResubmitMembers(gid: string, current: seq<MemberSource>)
    requires AllPlain(current) && Stored(gid, current) && current != [] && |Projected(current)| == |current|
    ensures Resubmitted(gid, current) == current <==> forall i :: 0 <= i < |current| ==> Rebuilt(current[i], current[0].filterSpec)
  {
    ResubmittedShape(gid, current);
    ProjectedAll(current);
    var f, r := current[0].filterSpec, Resubmitted(gid, current);
    forall i | 0 <= i < |current| ensures r[i] == current[i] <==> Rebuilt(current[i], f) { RebuiltAt(gid, current[i], i, f); }
  }

  /** Some member is a filter, which the view does not show. */
  lemma ResubmitFilter(gid: string, current: seq<MemberSource>)
    requires AllPlain(current) && current != [] && |Projected(current)| < |current|
    ensures var f := current[0].filterSpec;
            Resubmitted(gid, current) == current <==> current == [LoneFilter(gid, f)] && !IsEmptyFilter(f)
  {
    ResubmittedShape(gid, current);
    var one := [LoneFilter(gid, current[0].filterSpec)];
    if current == one { assert Projected(one) == [] by { assert one[..0] == []; } }
  }

  /**
   Submitting the view unchanged gives back the stored pipeline exactly when it carries one common
   filter.
   */
  lemma ResubmitExactly(gid: string, current: seq<MemberSource>)
    requires AllPlain(current) && Stored(gid, current)
    ensures Resubmitted(gid, current) == current <==> OneFilter(gid, current)
  {
    ProjectedAll(current);
    if current == [] {
      assert Resubmitted(gid, current) == [];
    } else if |Projected(current)| == |current| {
      ResubmitMembers(gid, current);
      assert current[0].kind != Filter;
    } else {
      ResubmitFilter(gid, current);
      var i :| 0 <= i < |current| && current[i].kind == Filter;
      assert !Rebuilt(current[i], current[0].filterSpec);
    }
  }

  /** A filter of one member spreads to all of them when the view is submitted unchanged. */
  lemma ResubmitSpreadsFilter(gid: string, f: FilterSpec)
    requires f.conditions != []
    ensures var a := MemberSource("a", gid, Add, ManualNode, 0, Some("node_1"), None, None, Some(f), None);
            var b := MemberSource("b", gid, Add, ManualNode, 1, Some("node_2"), None, None, None, None);
            Resubmitted(gid, [a, b]) == [a, b.(filterSpec := Some(f))]
  {
    var a := MemberSource("a", gid, Add, ManualNode, 0, Some("node_1"), None, None, Some(f), None);
    var b := MemberSource("b", gid, Add, ManualNode, 1, Some("node_2"), None, None, None, None);
    ResubmittedShape(gid, [a, b]);
    ProjectedAll([a, b]);
  }
}

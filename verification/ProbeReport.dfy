/**
 The probe report of a maintenance run. Every task of a node and a kind ends in exactly one of eight
 counters and in one row, so the counters add up to the tasks. Tasks that neither completed nor failed
 make the report PARTIAL, but the aggregate status at the end of the run is computed afresh and
 knows of tasks only whether some node was available.
 */
module ProbeReport {
  import opened Wrappers

  const BASELINE := "baseline"

  datatype ProbedNode = ProbedNode(logicalId: string, connectionRevision: int)

  datatype Attempt = Attempt(category: string, bodyBytes: int)

  datatype Observation = Observation(
    nodeLogicalId: string,
    kind: string,
    verdict: string,
    attempt: Option<Attempt>,
    connectionRevision: Option<int>,
    detailCode: string)

  // ---- Observations by node and kind ----

  type Index = map<string, map<string, Observation>>

  function Lookup(m: Index, id: string, kind: string): Option<Observation> {
    if id in m && kind in m[id] then Some(m[id][kind]) else None
  }

  /** The last observation of a node and kind, evidence synchronised. */
  function Latest(sync: Observation -> Observation, list: seq<Observation>, id: string, kind: string): Option<Observation> {
    if list == [] then None
    else
      var o := list[|list| - 1];
      if o.nodeLogicalId == id && o.kind == kind then Some(sync(o)) else Latest(sync, list[..|list| - 1], id, kind)
  }

  function BodyBytes(sync: Observation -> Observation, list: seq<Observation>): int {
    if list == [] then 0
    else
      var o := sync(list[|list| - 1]);
      BodyBytes(sync, list[..|list| - 1]) + if o.attempt.Some? then o.attempt.value.bodyBytes else 0
  }

  method IndexObservations(sync: Observation -> Observation, list: seq<Observation>) returns (m: Index, bytes: int)
    ensures forall id, kind :: Lookup(m, id, kind) == Latest(sync, list, id, kind)
    ensures bytes == BodyBytes(sync, list)
  {
    m, bytes := map[], 0;
    for k := 0 to |list|
      invariant forall id, kind :: Lookup(m, id, kind) == Latest(sync, list[..k], id, kind)
      invariant bytes == BodyBytes(sync, list[..k])
    {
      assert list[..k + 1][..k] == list[..k];
      var o := list[k];
      var s := sync(o);
      var kinds := if o.nodeLogicalId in m then m[o.nodeLogicalId] else map[];
      m := m[o.nodeLogicalId := kinds[o.kind := s]];
      if s.attempt.Some? { bytes := bytes + s.attempt.value.bodyBytes; }
    }
    assert list[..|list|] == list;
  }

  // ---- One task ----

  datatype Counter = Completed | Failed | Restricted | Cancelled | BudgetNotExecuted | Skipped | Stale | Unknown

  /** What an observation says about the node as it is now. */
  function Status(n: ProbedNode, o: Observation): string {
    if o.connectionRevision != Some(n.connectionRevision) then "stale"
    else if o.attempt.Some? then o.attempt.value.category
    else if o.verdict == "error" then "fail"
    else o.verdict
  }

  function CounterOfStatus(status: string): Counter {
    match status
    case "available" => Completed
    case "fail" => Failed
    case "error" => Failed
    case "restricted" => Restricted
    case "cancelled" => Cancelled
    case "deadline_exceeded" => Cancelled
    case "budget_not_executed" => BudgetNotExecuted
    case "dependency_skipped" => Skipped
    case "stale" => Stale
    case "configuration_mismatch" => Stale
    case _ => Unknown
  }

  datatype Task = Task(node: ProbedNode, kind: string)

  datatype Row = Row(nodeId: string, kind: string, status: string, skipReason: string, errorCode: string)

  /** The node's baseline observation says it is available. */
  predicate Alive(baseline: Option<Observation>) {
    baseline.Some? && baseline.value.verdict == "available"
  }

  /** Without an observation a task was gated by the baseline, or did not get to run. */
  predicate Gated(t: Task, alive: bool) {
    t.kind != BASELINE && !alive
  }

  function EndOf(t: Task, seen: Option<Observation>, alive: bool): Counter {
    match seen
    case Some(o) => CounterOfStatus(Status(t.node, o))
    case None => if Gated(t, alive) then Skipped else Cancelled
  }

  function RowFor(t: Task, seen: Option<Observation>, alive: bool): Row {
    match seen
    case Some(o) =>
      var status := Status(t.node, o);
      Row(t.node.logicalId, t.kind, status,
          if status == "dependency_skipped" then "alive_gating_dependency_failed" else "",
          if o.detailCode != "" then o.detailCode else if status == "fail" then "probe_failed" else "")
    case None =>
      if Gated(t, alive) then Row(t.node.logicalId, t.kind, "skipped", "alive_gating_dependency_failed", "dependency_skipped")
      else Row(t.node.logicalId, t.kind, "cancelled", "task_not_completed", "incomplete")
  }

  predicate PassedAlive(m: Index, n: ProbedNode) {
    Alive(Lookup(m, n.logicalId, BASELINE))
  }

  function CounterOf(m: Index, t: Task): Counter {
    EndOf(t, Lookup(m, t.node.logicalId, t.kind), PassedAlive(m, t.node))
  }

  function RowOf(m: Index, t: Task): Row {
    RowFor(t, Lookup(m, t.node.logicalId, t.kind), PassedAlive(m, t.node))
  }

  // ---- All tasks ----

  function NodeTasks(n: ProbedNode, kinds: seq<string>): seq<Task> {
    seq(|kinds|, i requires 0 <= i < |kinds| => Task(n, kinds[i]))
  }

  /** Every node with every kind, node by node. */
  function Tasks(nodes: seq<ProbedNode>, kinds: seq<string>): seq<Task> {
    if nodes == [] then [] else Tasks(nodes[..|nodes| - 1], kinds) + NodeTasks(nodes[|nodes| - 1], kinds)
  }

  function RowsOf(m: Index, ts: seq<Task>): seq<Row> {
    seq(|ts|, i requires 0 <= i < |ts| => RowOf(m, ts[i]))
  }

  /** How each task ended. */
  function Ends(m: Index, ts: seq<Task>): seq<Counter> {
    seq(|ts|, i requires 0 <= i < |ts| => CounterOf(m, ts[i]))
  }

  function Count(ends: seq<Counter>, c: Counter): nat {
    if ends == [] then 0 else Count(ends[..|ends| - 1], c) + if ends[|ends| - 1] == c then 1 else 0
  }

  function CountAlive(m: Index, nodes: seq<ProbedNode>): nat {
    if nodes == [] then 0 else CountAlive(m, nodes[..|nodes| - 1]) + if PassedAlive(m, nodes[|nodes| - 1]) then 1 else 0
  }

  datatype Counters = Counters(
    completed: nat, failed: nat, restricted: nat, cancelled: nat, budgetNotExecuted: nat, skipped: nat, stale: nat, unknown: nat)
  {
    function Of(c: Counter): nat {
      match c
      case Completed => completed
      case Failed => failed
      case Restricted => restricted
      case Cancelled => cancelled
      case BudgetNotExecuted => budgetNotExecuted
      case Skipped => skipped
      case Stale => stale
      case Unknown => unknown
    }

    function Total(): nat {
      completed + failed + restricted + cancelled + budgetNotExecuted + skipped + stale + unknown
    }

    function Bumped(c: Counter): Counters {
      match c
      case Completed => this.(completed := completed + 1)
      case Failed => this.(failed := failed + 1)
      case Restricted => this.(restricted := restricted + 1)
      case Cancelled => this.(cancelled := cancelled + 1)
      case BudgetNotExecuted => this.(budgetNotExecuted := budgetNotExecuted + 1)
      case Skipped => this.(skipped := skipped + 1)
      case Stale => this.(stale := stale + 1)
      case Unknown => this.(unknown := unknown + 1)
    }
  }

  const NO_TASKS := Counters(0, 0, 0, 0, 0, 0, 0, 0)

  /** The counters tell how the tasks ended. */
  ghost predicate Counted(ends: seq<Counter>, cs: Counters) {
    forall c :: cs.Of(c) == Count(ends, c)
  }

  lemma BumpedOf(cs: Counters, c: Counter)
    ensures forall d :: cs.Bumped(c).Of(d) == cs.Of(d) + if c == d then 1 else 0
    ensures cs.Bumped(c).Total() == cs.Total() + 1
  {
  }

  lemma CountNext(ends: seq<Counter>, cs: Counters, c: Counter)
    requires Counted(ends, cs)
    ensures Counted(ends + [c], cs.Bumped(c))
  {
    BumpedOf(cs, c);
    assert (ends + [c])[..|ends|] == ends;
  }

  function CountersOf(ends: seq<Counter>): (cs: Counters)
    ensures Counted(ends, cs)
  {
    Counters(Count(ends, Completed), Count(ends, Failed), Count(ends, Restricted), Count(ends, Cancelled),
             Count(ends, BudgetNotExecuted), Count(ends, Skipped), Count(ends, Stale), Count(ends, Unknown))
  }

  lemma SameCounters(ends: seq<Counter>, a: Counters, b: Counters)
    requires Counted(ends, a) && Counted(ends, b)
    ensures a == b
  {
    assert a.Of(Completed) == b.Of(Completed) && a.Of(Failed) == b.Of(Failed) && a.Of(Restricted) == b.Of(Restricted);
    assert a.Of(Cancelled) == b.Of(Cancelled) && a.Of(BudgetNotExecuted) == b.Of(BudgetNotExecuted);
    assert a.Of(Skipped) == b.Of(Skipped) && a.Of(Stale) == b.Of(Stale) && a.Of(Unknown) == b.Of(Unknown);
  }

  /** Whatever ends in exactly one counter is counted once. */
  lemma {:induction false} CountersAddUp(ends: seq<Counter>, cs: Counters)
    requires Counted(ends, cs)
    ensures cs.Total() == |ends|
  {
    if ends == [] {
      SameCounters(ends, cs, NO_TASKS);
    } else {
      var init, c := ends[..|ends| - 1], ends[|ends| - 1];
      var before := CountersOf(init);
      CountersAddUp(init, before);
      BumpedOf(before, c);
      CountNext(init, before, c);
      assert ends == init + [c];
      SameCounters(ends, cs, before.Bumped(c));
    }
  }

  lemma TaskNext(m: Index, ts: seq<Task>, t: Task)
    ensures Ends(m, ts + [t]) == Ends(m, ts) + [CounterOf(m, t)] && RowsOf(m, ts + [t]) == RowsOf(m, ts) + [RowOf(m, t)]
  {
  }

  lemma {:induction false} TaskCount(nodes: seq<ProbedNode>, kinds: seq<string>)
    ensures |Tasks(nodes, kinds)| == |nodes| * |kinds|
  {
    if nodes != [] {
      TaskCount(nodes[..|nodes| - 1], kinds);
      OneMore(|nodes| - 1, |kinds|);
    }
  }

  lemma OneMore(n: nat, k: nat)
    ensures n * k + k == (n + 1) * k
  {
  }

  lemma NodeTasksNext(n: ProbedNode, kinds: seq<string>, j: nat)
    requires j < |kinds|
    ensures NodeTasks(n, kinds[..j + 1]) == NodeTasks(n, kinds[..j]) + [Task(n, kinds[j])]
  {
  }

  // ---- The tally ----

  /** The counters, rows and available nodes of a report over these nodes and kinds. */
  ghost predicate Tallied(m: Index, nodes: seq<ProbedNode>, kinds: seq<string>, cs: Counters, rows: seq<Row>, alive: nat) {
    && Counted(Ends(m, Tasks(nodes, kinds)), cs) && rows == RowsOf(m, Tasks(nodes, kinds)) && alive == CountAlive(m, nodes)
  }

  /** The tasks of one node, counted and listed behind the others. */
  method TallyNode(m: Index, n: ProbedNode, kinds: seq<string>, cs0: Counters, rows0: seq<Row>, ghost before: seq<Task>)
    returns (cs: Counters, rows: seq<Row>)
    requires Counted(Ends(m, before), cs0) && rows0 == RowsOf(m, before)
    ensures Counted(Ends(m, before + NodeTasks(n, kinds)), cs) && rows == RowsOf(m, before + NodeTasks(n, kinds))
  {
    cs, rows := cs0, rows0;
    ghost var done := before;
    for j := 0 to |kinds|
      invariant done == before + NodeTasks(n, kinds[..j])
      invariant Counted(Ends(m, done), cs) && rows == RowsOf(m, done)
    {
      var t := Task(n, kinds[j]);
      NodeTasksNext(n, kinds, j);
      TaskNext(m, done, t);
      CountNext(Ends(m, done), cs, CounterOf(m, t));
      cs, rows := cs.Bumped(CounterOf(m, t)), rows + [RowOf(m, t)];
      done := done + [t];
    }
    assert kinds[..|kinds|] == kinds;
  }

  method Tally(m: Index, nodes: seq<ProbedNode>, kinds: seq<string>) returns (cs: Counters, rows: seq<Row>, alive: nat)
    ensures Tallied(m, nodes, kinds, cs, rows, alive)
    ensures cs.Total() == |rows| == |nodes| * |kinds|
  {
    cs, rows, alive := NO_TASKS, [], 0;
    for i := 0 to |nodes|
      invariant Tallied(m, nodes[..i], kinds, cs, rows, alive)
    {
      assert nodes[..i + 1][..i] == nodes[..i];
      if PassedAlive(m, nodes[i]) { alive := alive + 1; }
      cs, rows := TallyNode(m, nodes[i], kinds, cs, rows, Tasks(nodes[..i], kinds));
    }
    assert nodes[..|nodes|] == nodes;
    CountersAddUp(Ends(m, Tasks(nodes, kinds)), cs);
    TaskCount(nodes, kinds);
  }

  // ---- What the counters and rows say ----

  /** What an observation reports: the category of its attempt, or its verdict. */
  ghost function Says(o: Observation): string {
    if o.attempt.Some? then o.attempt.value.category else o.verdict
  }

  /** An observation of the node as it is now that reports one of these. */
  ghost predicate Now(t: Task, seen: Option<Observation>, words: set<string>) {
    seen.Some? && seen.value.connectionRevision == Some(t.node.connectionRevision) && Says(seen.value) in words
  }

  /**
   How a task ends, by its observation: one of another revision is stale whatever it says; without any
   it was skipped for want of a live baseline, or did not get to run.
   */
  lemma TaskEnds(t: Task, seen: Option<Observation>, alive: bool)
    ensures EndOf(t, seen, alive) == Completed <==> Now(t, seen, {"available"})
    ensures EndOf(t, seen, alive) == Failed <==> Now(t, seen, {"fail", "error"})
    ensures EndOf(t, seen, alive) == Restricted <==> Now(t, seen, {"restricted"})
    ensures EndOf(t, seen, alive) == Cancelled <==>
              Now(t, seen, {"cancelled", "deadline_exceeded"}) || (seen.None? && (t.kind == "baseline" || alive))
    ensures EndOf(t, seen, alive) == BudgetNotExecuted <==> Now(t, seen, {"budget_not_executed"})
    ensures EndOf(t, seen, alive) == Skipped <==> Now(t, seen, {"dependency_skipped"}) || (seen.None? && t.kind != "baseline" && !alive)
    ensures EndOf(t, seen, alive) == Stale <==>
              seen.Some? && (seen.value.connectionRevision != Some(t.node.connectionRevision) ||
                             Says(seen.value) in {"stale", "configuration_mismatch"})
  {
    if seen.Some? {
      var status := Status(t.node, seen.value);
      assert seen.value.connectionRevision == Some(t.node.connectionRevision) ==>
               status == Says(seen.value) || (Says(seen.value) == "error" && status == "fail");
    }
  }

  /** The counter a status and a skip reason belong to. */
  ghost function BinOf(status: string, reason: string): Counter {
    if reason == "alive_gating_dependency_failed" then Skipped
    else if status == "available" then Completed
    else if status == "fail" || status == "error" then Failed
    else if status == "restricted" then Restricted
    else if status == "cancelled" || status == "deadline_exceeded" then Cancelled
    else if status == "budget_not_executed" then BudgetNotExecuted
    else if status == "stale" || status == "configuration_mismatch" then Stale
    else Unknown
  }

  ghost function Bin(r: Row): Counter {
    BinOf(r.status, r.skipReason)
  }

  lemma StatusBin(status: string)
    requires status != "dependency_skipped"
    ensures BinOf(status, "") == CounterOfStatus(status)
  {
  }

  lemma RowBin(t: Task, seen: Option<Observation>, alive: bool)
    ensures Bin(RowFor(t, seen, alive)) == EndOf(t, seen, alive)
  {
    if seen.Some? {
      var status := Status(t.node, seen.value);
      if status != "dependency_skipped" { StatusBin(status); }
    }
  }

  /**
   A row names its task and explains itself: a failure and a task without observation always carry a
   code, an observation's own code comes first, and exactly the tasks that did not run carry a reason.
   */
  lemma RowExplains(t: Task, seen: Option<Observation>, alive: bool)
    ensures var r := RowFor(t, seen, alive);
            && r.nodeId == t.node.logicalId && r.kind == t.kind
            && (r.status == "fail" || seen.None? ==> r.errorCode != "")
            && (seen.Some? && seen.value.detailCode != "" ==> r.errorCode == seen.value.detailCode)
            && (r.skipReason != "" <==> seen.None? || r.status == "dependency_skipped")
  {
  }

  ghost function Bins(rows: seq<Row>): seq<Counter> {
    seq(|rows|, i requires 0 <= i < |rows| => Bin(rows[i]))
  }

  /** The counters can be read off the rows: status, and the skip reason for gated tasks. */
  lemma RowsTellCounters(m: Index, nodes: seq<ProbedNode>, kinds: seq<string>, cs: Counters, rows: seq<Row>, alive: nat)
    requires Tallied(m, nodes, kinds, cs, rows, alive)
    ensures Counted(Bins(rows), cs)
  {
    var ts := Tasks(nodes, kinds);
    forall i | 0 <= i < |ts| ensures Bin(rows[i]) == Ends(m, ts)[i] {
      RowBin(ts[i], Lookup(m, ts[i].node.logicalId, ts[i].kind), PassedAlive(m, ts[i].node));
    }
    assert Bins(rows) == Ends(m, ts);
  }

  // ---- The probe of a maintenance run ----

  datatype Summary = Summary(
    targeted: nat, scheduled: nat, counters: Counters, available: nat, rows: seq<Row>, bytes: int)

  datatype Probe = Probe(
    dryRun: bool,
    kinds: seq<string>,
    total: nat,
    nodes: seq<ProbedNode>,
    runFailed: bool,
    observations: Option<seq<Observation>>)

  const PASS := "PASS"
  const PARTIAL := "PARTIAL"
  const BLOCKED := "BLOCKED"

  /** There is something to probe, and it is probed. */
  predicate Executes(p: Probe) {
    !p.dryRun && p.total > 0 && p.nodes != []
  }

  /** Some task neither completed nor failed. */
  predicate Short(s: Summary, tasks: nat) {
    s.counters.completed + s.counters.failed < tasks
  }

  /** The summary of a probe whose observations were read. */
  ghost predicate SummaryOf(sync: Observation -> Observation, p: Probe, s: Summary) {
    && s.targeted == p.total && s.scheduled == p.total * |p.kinds|
    && if !Executes(p) then s.counters == NO_TASKS && s.rows == [] && s.available == 0 && s.bytes == 0
       else
         && p.observations.Some? && s.bytes == BodyBytes(sync, p.observations.value)
         && exists m :: Reads(sync, p.observations.value, m) && Tallied(m, p.nodes, p.kinds, s.counters, s.rows, s.available)
  }

  ghost predicate Reads(sync: Observation -> Observation, list: seq<Observation>, m: Index) {
    forall id, kind :: Lookup(m, id, kind) == Latest(sync, list, id, kind)
  }

  /** Without readable observations there is no summary. */
  method ExecuteProbe(sync: Observation -> Observation, p: Probe, status: string) returns (s: Option<Summary>, status': string)
    ensures s.None? <==> Executes(p) && p.observations.None?
    ensures s.Some? ==> SummaryOf(sync, p, s.value)
    ensures s.Some? && Executes(p) ==> s.value.counters.Total() == |s.value.rows| == |p.nodes| * |p.kinds|
    ensures status' == if Executes(p) && (p.runFailed || (s.Some? && Short(s.value, |p.nodes| * |p.kinds|))) then PARTIAL else status
  {
    status' := status;
    var summary := Summary(p.total, p.total * |p.kinds|, NO_TASKS, 0, [], 0);
    if p.dryRun || p.total == 0 || |p.nodes| == 0 { return Some(summary), status'; }
    if p.runFailed { status' := PARTIAL; }
    if p.observations.None? { return None, status'; }
    var m, bytes := IndexObservations(sync, p.observations.value);
    var cs, rows, alive := Tally(m, p.nodes, p.kinds);
    s := Some(summary.(counters := cs, rows := rows, available := alive, bytes := bytes));
    assert Reads(sync, p.observations.value, m);
    if cs.skipped + cs.restricted + cs.unknown + cs.cancelled + cs.budgetNotExecuted + cs.stale > 0 { status' := PARTIAL; }
  }

  /**
   The scheduled number of tasks is the reported one exactly when the listing was complete or no kind
   was asked for.
   */
  lemma ScheduledExactly(sync: Observation -> Observation, p: Probe, s: Summary)
    requires Executes(p) && SummaryOf(sync, p, s)
    ensures |s.rows| == |p.nodes| * |p.kinds|
    ensures s.scheduled == |s.rows| <==> p.total == |p.nodes| || p.kinds == []
  {
    TaskCount(p.nodes, p.kinds);
    if p.kinds != [] { ProductDecides(p.total, |p.nodes|, |p.kinds|); }
  }

  lemma ProductDecides(x: nat, y: nat, k: nat)
    requires k > 0
    ensures x * k == y * k <==> x == y
  {
  }

  // ---- The aggregate status ----

  datatype Preview = Preview(allowed: bool, status: string)

  datatype Report = Report(
    failedSources: Option<nat>, probe: Option<Summary>, preview: Option<Preview>, publishState: Option<string>, status: string)

  /** Publication is blocked. */
  predicate HasBlocked(r: Report) {
    r.preview.Some? && (!r.preview.value.allowed || r.preview.value.status == "blocked")
  }

  /** A source failed, no targeted node was available, or the preview or the publication failed. */
  predicate HasFailure(r: Report) {
    || (r.failedSources.Some? && r.failedSources.value > 0)
    || (r.probe.Some? && r.probe.value.targeted > 0 && r.probe.value.available == 0)
    || (r.preview.Some? && !HasBlocked(r) && r.preview.value.status == "failed")
    || r.publishState == Some("failed")
  }

  method EvaluateOverallStatus(r: Report) returns (r': Report)
    ensures r' == r.(status := if HasBlocked(r) then BLOCKED else if HasFailure(r) then PARTIAL else PASS)
  {
    var hasFailure, hasBlocked := false, false;
    if r.failedSources.Some? && r.failedSources.value > 0 { hasFailure := true; }
    if r.probe.Some? {
      if r.probe.value.targeted > 0 && r.probe.value.available == 0 { hasFailure := true; }
    }
    if r.preview.Some? {
      if !r.preview.value.allowed || r.preview.value.status == "blocked" {
        hasBlocked := true;
      } else if r.preview.value.status == "failed" {
        hasFailure := true;
      }
    }
    if r.publishState == Some("failed") { hasFailure := true; }
    if hasBlocked {
      r' := r.(status := BLOCKED);
    } else if hasFailure {
      r' := r.(status := PARTIAL);
    } else {
      r' := r.(status := PASS);
    }
  }

  /**
   A maintenance run that only probes. What the probe made of the status is replaced: the run is
   PARTIAL exactly when there were nodes to probe and none was found available, whatever became of the
   tasks. So the probe's own status is the final one exactly when tasks are left over, or the runner
   failed, just in case no node is available.
   */
  method RunProbe(sync: Observation -> Observation, p: Probe) returns (r: Report, probed: string)
    ensures r.probe.None? <==> Executes(p) && p.observations.None?
    ensures r.probe.Some? ==> SummaryOf(sync, p, r.probe.value)
    ensures probed == if Executes(p) && (p.runFailed || (r.probe.Some? && Short(r.probe.value, |p.nodes| * |p.kinds|)))
                      then PARTIAL else PASS
    ensures r.status == if r.probe.Some? && p.total > 0 && r.probe.value.available == 0 then PARTIAL else PASS
    ensures Executes(p) && p.observations.Some? ==>
              var list := p.observations.value;
              r.status == probed <==>
              (AllDone(sync, list, p.nodes, p.kinds) && !p.runFailed <==> exists n :: n in p.nodes && AliveIn(sync, list, n))
  {
    var s;
    s, probed := ExecuteProbe(sync, p, PASS);
    r := EvaluateOverallStatus(Report(None, s, None, None, probed));
    if Executes(p) && p.observations.Some? { ProbeOutcome(sync, p, s.value); }
    assert |PASS| != |PARTIAL|;
  }

  // ---- What decides ----

  lemma {:induction false} SomeAlive(m: Index, nodes: seq<ProbedNode>)
    ensures CountAlive(m, nodes) > 0 <==> exists n :: n in nodes && PassedAlive(m, n)
  {
    if nodes != [] {
      SomeAlive(m, nodes[..|nodes| - 1]);
      assert nodes == nodes[..|nodes| - 1] + [nodes[|nodes| - 1]];
    }
  }

  predicate Done(c: Counter) {
    c == Completed || c == Failed
  }

  lemma {:induction false} DoneCount(ends: seq<Counter>)
    ensures Count(ends, Completed) + Count(ends, Failed) <= |ends|
    ensures Count(ends, Completed) + Count(ends, Failed) == |ends| <==> forall i :: 0 <= i < |ends| ==> Done(ends[i])
  {
    if ends != [] {
      var n := |ends| - 1;
      DoneCount(ends[..n]);
      assert forall i :: 0 <= i < n ==> ends[..n][i] == ends[i];
    }
  }

  lemma {:induction false} TaskIn(nodes: seq<ProbedNode>, kinds: seq<string>, t: Task)
    ensures t in Tasks(nodes, kinds) <==> t.node in nodes && t.kind in kinds
  {
    if nodes != [] {
      var init, last := nodes[..|nodes| - 1], nodes[|nodes| - 1];
      TaskIn(init, kinds, t);
      assert nodes == init + [last];
      var own := NodeTasks(last, kinds);
      if t.node == last && t.kind in kinds {
        var i :| 0 <= i < |kinds| && kinds[i] == t.kind;
        assert own[i] == t;
      }
    }
  }

  /** How a task ended, read off the list of observations. */
  function EndIn(sync: Observation -> Observation, list: seq<Observation>, t: Task): Counter {
    EndOf(t, Latest(sync, list, t.node.logicalId, t.kind), AliveIn(sync, list, t.node))
  }

  predicate AliveIn(sync: Observation -> Observation, list: seq<Observation>, n: ProbedNode) {
    var o := Latest(sync, list, n.logicalId, "baseline");
    o.Some? && o.value.verdict == "available"
  }

  /** Every task completed or failed. */
  ghost predicate AllDone(sync: Observation -> Observation, list: seq<Observation>, nodes: seq<ProbedNode>, kinds: seq<string>) {
    forall n, k :: n in nodes && k in kinds ==> Done(EndIn(sync, list, Task(n, k)))
  }

  lemma ShortExactly(sync: Observation -> Observation, list: seq<Observation>, m: Index, nodes: seq<ProbedNode>, kinds: seq<string>, cs: Counters)
    requires Reads(sync, list, m) && Counted(Ends(m, Tasks(nodes, kinds)), cs)
    ensures cs.completed + cs.failed < |nodes| * |kinds| <==> !AllDone(sync, list, nodes, kinds)
  {
    var ts := Tasks(nodes, kinds);
    var ends := Ends(m, ts);
    TaskCount(nodes, kinds);
    DoneCount(ends);
    assert cs.Of(Completed) == Count(ends, Completed) && cs.Of(Failed) == Count(ends, Failed);
    forall i | 0 <= i < |ts| ensures ts[i].node in nodes && ts[i].kind in kinds && ends[i] == EndIn(sync, list, ts[i]) {
      TaskIn(nodes, kinds, ts[i]);
    }
    forall n, k | n in nodes && k in kinds ensures exists i :: 0 <= i < |ts| && ts[i] == Task(n, k) { TaskIn(nodes, kinds, Task(n, k)); }
    if AllDone(sync, list, nodes, kinds) {
      forall i | 0 <= i < |ends| ensures Done(ends[i]) { assert ts[i] == Task(ts[i].node, ts[i].kind); }
    }
    if forall i :: 0 <= i < |ends| ==> Done(ends[i]) {
      forall n, k | n in nodes && k in kinds ensures Done(EndIn(sync, list, Task(n, k))) {
        var i :| 0 <= i < |ts| && ts[i] == Task(n, k);
      }
    }
  }

  /**
   The probe falls short exactly when some task neither completed nor failed; no node is available
   exactly when no baseline says so.
   */
  lemma ProbeOutcome(sync: Observation -> Observation, p: Probe, s: Summary)
    requires Executes(p) && SummaryOf(sync, p, s)
    ensures Short(s, |p.nodes| * |p.kinds|) <==> !AllDone(sync, p.observations.value, p.nodes, p.kinds)
    ensures s.available == 0 <==> forall n :: n in p.nodes ==> !AliveIn(sync, p.observations.value, n)
  {
    var list := p.observations.value;
    var m :| Reads(sync, list, m) && Tallied(m, p.nodes, p.kinds, s.counters, s.rows, s.available);
    ShortExactly(sync, list, m, p.nodes, p.kinds, s.counters);
    SomeAlive(m, p.nodes);
    assert forall n :: n in p.nodes ==> PassedAlive(m, n) == AliveIn(sync, list, n);
  }

  lemma CutOffEnds(sync: Observation -> Observation, m: Index, n: ProbedNode, o: Observation)
    requires n == ProbedNode("n", 1) && o == Observation("n", BASELINE, "available", None, Some(1), "") && sync(o) == o
    requires Reads(sync, [o], m)
    ensures Ends(m, Tasks([n], [BASELINE, "geo"])) == [Completed, Cancelled] && CountAlive(m, [n]) == 1
  {
    assert [o][..0] == [] && [n][..0] == [];
    assert Latest(sync, [o], "n", BASELINE) == Some(o) && Latest(sync, [o], "n", "geo") == None;
    assert Lookup(m, "n", BASELINE) == Some(o) && Lookup(m, "n", "geo") == None;
    var ts := [Task(n, BASELINE), Task(n, "geo")];
    assert Tasks([n], [BASELINE, "geo"]) == ts;
    assert CounterOf(m, ts[0]) == Completed && CounterOf(m, ts[1]) == Cancelled;
  }

  lemma CutOff(sync: Observation -> Observation, p: Probe, n: ProbedNode, o: Observation, s: Summary)
    requires n == ProbedNode("n", 1) && o == Observation("n", BASELINE, "available", None, Some(1), "") && sync(o) == o
    requires p == Probe(false, [BASELINE, "geo"], 1, [n], false, Some([o])) && SummaryOf(sync, p, s)
    ensures s.counters.cancelled == 1 && s.available == 1 && Short(s, 2)
  {
    var m :| Reads(sync, [o], m) && Tallied(m, p.nodes, p.kinds, s.counters, s.rows, s.available);
    CutOffEnds(sync, m, n, o);
    var ends := [Completed, Cancelled];
    assert ends[..1] == [Completed] && [Completed][..0] == [];
    assert Count(ends, Cancelled) == 1 && Count(ends, Completed) == 1 && Count(ends, Failed) == 0;
    assert s.counters.Of(Cancelled) == 1 && s.counters.Of(Completed) == 1 && s.counters.Of(Failed) == 0;
  }

  /**
   A run cut off after the baseline of its only node: one task is cancelled, the probe is PARTIAL,
   the run passes.
   */
  method RunCutOff() returns (r: Report, probed: string)
    ensures r.probe.Some? && r.probe.value.counters.cancelled == 1 && probed == PARTIAL && r.status == PASS
  {
    var n, o := ProbedNode("n", 1), Observation("n", BASELINE, "available", None, Some(1), "");
    var sync := (x: Observation) => x;
    var p := Probe(false, [BASELINE, "geo"], 1, [n], false, Some([o]));
    r, probed := RunProbe(sync, p);
    CutOff(sync, p, n, o, r.probe.value);
  }
}

/**
 The experiment's `execute`: it starts the ledger, launches four baseline sides, the platform stages
 on the nodes available in all of them, then the native sides, and always closes the ledger. Every
 launch creates its quotas first; probe children reserve and settle at will. However the run ends,
 it followed a prefix of the planned schedule, so the budget theorems apply to it.
 */
module Experiment {
  import opened BudgetLedger
  import opened Allocation

  datatype Outcome = Outcome(available: bool, executed: bool)

  /**
   The parts outside the program: what each launched child does to the ledger, reports, and whether
   it fails.
   */
  datatype Children = Children(
    activity: (int, string) -> seq<Op>,
    report: (int, string) -> map<string, Outcome>,
    receipt: (int, string) -> string,
    fails: (int, string) -> bool)

  /** Children reach the ledger through reserve and settle only. */
  ghost predicate Confined(c: Children) {
    forall round, stage, i :: 0 <= i < |c.activity(round, stage)| ==>
      c.activity(round, stage)[i].Reserve? || c.activity(round, stage)[i].Settle?
  }

  /** Ops that create no quota leave the schedule untouched. */
  lemma {:induction false} NoQuotas(ops: seq<Op>)
    requires forall i :: 0 <= i < |ops| ==> !ops[i].AddQuota?
    ensures QuotaOps(ops) == []
  {
    if ops != [] { NoQuotas(ops[..|ops| - 1]); }
  }

  /** `done` extended by `more`, as runs and as schedules. */
  lemma Extend(st: State, done: seq<Op>, more: seq<Op>)
    ensures Run(st, done + more) == Run(Run(st, done), more)
    ensures QuotaOps(done + more) == QuotaOps(done) + QuotaOps(more)
  {
    RunConcat(st, done, more);
    QuotaOpsConcat(done, more);
  }

  lemma RunOne(st: State, op: Op)
    ensures Run(st, [op]) == Step(st, op) && QuotaOps([op]) == if op.AddQuota? then [op] else []
  {
    assert [op][..0] == [];
    assert Run(st, []) == st;
  }

  /** A child's requests over the loopback bridge; refused ones change nothing. */
  method Serve(l: Ledger, requests: seq<Op>)
    requires forall i :: 0 <= i < |requests| ==> requests[i].Reserve? || requests[i].Settle?
    modifies l
    ensures l.View() == Run(old(l.View()), requests)
  {
    for k := 0 to |requests|
      invariant l.View() == Run(old(l.View()), requests[..k])
    {
      assert requests[..k + 1][..k] == requests[..k];
      match requests[k] {
        case Reserve(scope, amount, now, token) => var _ := l.Reserve(scope, amount, now, token);
        case Settle(token, used) => var _ := l.Settle(token, used);
      }
    }
    assert requests[..|requests|] == requests;
  }

  method CreateQuotas(l: Ledger, round: int, stage: string, nodes: seq<string>, limit: int) returns (ok: bool, ghost ops: seq<Op>)
    modifies l
    ensures l.View() == Run(old(l.View()), ops)
    ensures QuotaOps(ops) <= LaunchQuotas(round, stage, nodes, limit)
    ensures ok ==> QuotaOps(ops) == LaunchQuotas(round, stage, nodes, limit)
  {
    ops := [];
    for k := 0 to |nodes|
      invariant l.View() == Run(old(l.View()), ops)
      invariant QuotaOps(ops) == LaunchQuotas(round, stage, nodes[..k], limit)
    {
      ghost var op := Op.AddQuota(Scope(round, stage, nodes[k]), limit);
      NextQuota(round, stage, nodes, limit, k, ops, op);
      Extend(old(l.View()), ops, [op]);
      RunOne(l.View(), op);
      var r := l.AddQuota(Scope(round, stage, nodes[k]), limit);
      ops := ops + [op];
      if r.Err? { return false, ops; }
    }
    assert nodes[..|nodes|] == nodes;
    ok := true;
  }

  lemma NextQuota(round: int, stage: string, nodes: seq<string>, limit: int, k: nat, ops: seq<Op>, op: Op)
    requires k < |nodes| && QuotaOps(ops) == LaunchQuotas(round, stage, nodes[..k], limit)
    requires op == Op.AddQuota(Scope(round, stage, nodes[k]), limit)
    ensures QuotaOps(ops) + [op] == LaunchQuotas(round, stage, nodes[..k + 1], limit)
    ensures QuotaOps(ops) + [op] <= LaunchQuotas(round, stage, nodes, limit)
  {
    assert nodes[..k + 1][..k] == nodes[..k];
    LaunchPrefix(round, stage, nodes, limit, k + 1);
  }

  lemma {:induction false} LaunchPrefix(round: int, stage: string, nodes: seq<string>, limit: int, k: nat)
    requires k <= |nodes|
    ensures LaunchQuotas(round, stage, nodes[..k], limit) <= LaunchQuotas(round, stage, nodes, limit)
    decreases |nodes| - k
  {
    if k == |nodes| {
      assert nodes[..k] == nodes;
    } else {
      assert nodes[..k + 1][..k] == nodes[..k];
      LaunchPrefix(round, stage, nodes, limit, k + 1);
    }
  }

  /** One launch: quotas, attempt record, the child's own activity, receipt. */
  method Launch(l: Ledger, c: Children, round: int, stage: string, nodes: seq<string>, limit: int)
    returns (ok: bool, ghost ops: seq<Op>)
    requires Confined(c)
    modifies l
    ensures l.View() == Run(old(l.View()), ops)
    ensures QuotaOps(ops) <= LaunchQuotas(round, stage, nodes, limit)
    ensures ok ==> QuotaOps(ops) == LaunchQuotas(round, stage, nodes, limit)
  {
    ghost var st := l.View();
    ok, ops := CreateQuotas(l, round, stage, nodes, limit);
    if !ok { return; }
    ghost var more;
    ok, more := RunAttempt(l, c, round, stage);
    Extend(st, ops, more);
    assert QuotaOps(ops) + [] == QuotaOps(ops);
    ops := ops + more;
  }

  /** The attempt record, the child's own activity and the receipt create no quota. */
  method RunAttempt(l: Ledger, c: Children, round: int, stage: string) returns (ok: bool, ghost ops: seq<Op>)
    requires Confined(c)
    modifies l
    ensures l.View() == Run(old(l.View()), ops) && QuotaOps(ops) == []
  {
    ghost var st := l.View();
    ops := [];
    var key, receipt := AttemptKey(round, stage), c.receipt(round, stage);
    Extend(st, ops, [Op.BeginAttempt(key)]);
    RunOne(l.View(), Op.BeginAttempt(key));
    var r := l.BeginAttempt(key);
    ops := ops + [Op.BeginAttempt(key)];
    if r.Err? { return false, ops; }
    var requests := c.activity(round, stage);
    Extend(st, ops, requests);
    NoQuotas(requests);
    Serve(l, requests);
    ops := ops + requests;
    if c.fails(round, stage) { return false, ops; }
    Extend(st, ops, [Op.FinishAttempt(key, receipt)]);
    RunOne(l.View(), Op.FinishAttempt(key, receipt));
    r := l.FinishAttempt(key, receipt);
    ops := ops + [Op.FinishAttempt(key, receipt)];
    ok := r.Ok?;
  }

  /** A stage over all four sides. */
  method LaunchSides(l: Ledger, c: Children, stage: string, nodes: seq<string>, limit: int)
    returns (ok: bool, ghost ops: seq<Op>)
    requires Confined(c)
    modifies l
    ensures l.View() == Run(old(l.View()), ops)
    ensures QuotaOps(ops) <= StageQuotas(stage, nodes, limit, Sides)
    ensures ok ==> QuotaOps(ops) == StageQuotas(stage, nodes, limit, Sides)
  {
    ghost var st := l.View();
    ops := [];
    for round := 0 to Sides
      invariant l.View() == Run(st, ops) && QuotaOps(ops) == StageQuotas(stage, nodes, limit, round)
    {
      ghost var more;
      ok, more := Launch(l, c, round, stage, nodes, limit);
      Extend(st, ops, more);
      SidesNext(stage, nodes, limit, round, ops, more);
      ops := ops + more;
      if !ok { return; }
    }
    ok := true;
  }

  /** One more side extends the stage's quotas, whether it completes or not. */
  lemma SidesNext(stage: string, nodes: seq<string>, limit: int, round: nat, ops: seq<Op>, more: seq<Op>)
    requires round < Sides && QuotaOps(ops) == StageQuotas(stage, nodes, limit, round)
    requires QuotaOps(more) <= LaunchQuotas(round, stage, nodes, limit)
    ensures QuotaOps(ops) + QuotaOps(more) <= StageQuotas(stage, nodes, limit, Sides)
    ensures QuotaOps(more) == LaunchQuotas(round, stage, nodes, limit) ==>
              QuotaOps(ops) + QuotaOps(more) == StageQuotas(stage, nodes, limit, round + 1)
  {
    StagePrefix(stage, nodes, limit, round + 1);
  }

  lemma {:induction false} StagePrefix(stage: string, nodes: seq<string>, limit: int, k: nat)
    requires k <= Sides
    ensures StageQuotas(stage, nodes, limit, k) <= StageQuotas(stage, nodes, limit, Sides)
    decreases Sides - k
  {
    if k < Sides { StagePrefix(stage, nodes, limit, k + 1); }
  }

  method LaunchPlatforms(l: Ledger, c: Children, stages: seq<string>, selected: seq<string>, limit: int)
    returns (ok: bool, ghost ops: seq<Op>)
    requires Confined(c)
    modifies l
    ensures l.View() == Run(old(l.View()), ops)
    ensures QuotaOps(ops) <= PlatformQuotas(stages, selected, limit)
    ensures ok ==> QuotaOps(ops) == PlatformQuotas(stages, selected, limit)
  {
    ghost var st := l.View();
    ops := [];
    for k := 0 to |stages|
      invariant l.View() == Run(st, ops) && QuotaOps(ops) == PlatformQuotas(stages[..k], selected, limit)
    {
      assert stages[..k + 1][..k] == stages[..k];
      ghost var more;
      ok, more := LaunchSides(l, c, stages[k], selected, limit);
      Extend(st, ops, more);
      PlatformPrefix(stages, selected, limit, k + 1);
      ops := ops + more;
      if !ok { return; }
    }
    assert stages[..|stages|] == stages;
    ok := true;
  }

  lemma {:induction false} PlatformPrefix(stages: seq<string>, selected: seq<string>, limit: int, k: nat)
    requires k <= |stages|
    ensures PlatformQuotas(stages[..k], selected, limit) <= PlatformQuotas(stages, selected, limit)
    decreases |stages| - k
  {
    if k == |stages| {
      assert stages[..k] == stages;
    } else {
      assert stages[..k + 1][..k] == stages[..k];
      PlatformPrefix(stages, selected, limit, k + 1);
    }
  }

  method LaunchNative(l: Ledger, c: Children, kept: seq<string>, native: nat)
    returns (ok: bool, ghost ops: seq<Op>)
    requires Confined(c)
    modifies l
    ensures l.View() == Run(old(l.View()), ops)
    ensures QuotaOps(ops) <= NativeQuotas(kept, native)
  {
    ghost var st := l.View();
    ops := [];
    for k := 0 to native
      invariant l.View() == Run(st, ops) && QuotaOps(ops) == NativeQuotas(kept, k)
    {
      ghost var more;
      ok, more := Launch(l, c, Sides + k, "baseline", kept, BaselineLimit);
      Extend(st, ops, more);
      NativePrefix(kept, k + 1, native);
      ops := ops + more;
      if !ok { return; }
    }
    ok := true;
  }

  lemma {:induction false} NativePrefix(kept: seq<string>, k: nat, n: nat)
    requires k <= n
    ensures NativeQuotas(kept, k) <= NativeQuotas(kept, n)
    decreases n - k
  {
    if k < n { NativePrefix(kept, k + 1, n); }
  }

  // ---- Eligibility ----

  /** The side's baseline report lists the node as available and executed. */
  ghost predicate Passed(c: Children, node: string, round: int) {
    var m := c.report(round, "baseline");
    node in m && m[node].available && m[node].executed
  }

  method PassedAll(c: Children, node: string) returns (all: bool)
    ensures all <==> forall r :: 0 <= r < Sides ==> Passed(c, node, r)
  {
    for round := 0 to Sides
      invariant forall r :: 0 <= r < round ==> Passed(c, node, r)
    {
      var rows := c.report(round, "baseline");
      if node !in rows || !rows[node].available || !rows[node].executed {
        assert !Passed(c, node, round);
        return false;
      }
    }
    all := true;
  }

  /** The nodes available and executed on all four baseline sides, in inventory order. */
  method Intersection(c: Children, nodes: seq<string>) returns (eligible: seq<string>)
    ensures forall n :: n in eligible <==> n in nodes && forall r :: 0 <= r < Sides ==> Passed(c, n, r)
    ensures |eligible| <= |nodes|
  {
    eligible := [];
    for k := 0 to |nodes|
      invariant forall n :: n in eligible <==> n in nodes[..k] && forall r :: 0 <= r < Sides ==> Passed(c, n, r)
      invariant |eligible| <= k
    {
      assert nodes[..k + 1] == nodes[..k] + [nodes[k]];
      var all := PassedAll(c, nodes[k]);
      if all { eligible := eligible + [nodes[k]]; }
    }
    assert nodes[..|nodes|] == nodes;
  }

  // ---- The run ----

  lemma FollowsBaseline(p: Plan, nodes: seq<string>, stages: seq<string>, kept: seq<string>, native: nat, a: seq<Op>)
    requires p.platformPerSide >= 0 && stages != [] && a <= StageQuotas("baseline", nodes, BaselineLimit, Sides)
    ensures a <= Schedule(p, nodes, [], stages, kept, native)
  {
  }

  lemma FollowsPlatforms(p: Plan, nodes: seq<string>, selected: seq<string>, stages: seq<string>, kept: seq<string>, native: nat, a: seq<Op>)
    requires p.platformPerSide >= 0 && stages != [] && a <= PlatformPart(p, selected, stages)
    ensures StageQuotas("baseline", nodes, BaselineLimit, Sides) + a <= Schedule(p, nodes, selected, stages, kept, native)
  {
  }

  lemma FollowsNative(p: Plan, nodes: seq<string>, selected: seq<string>, stages: seq<string>, kept: seq<string>, native: nat, a: seq<Op>)
    requires p.platformPerSide >= 0 && stages != [] && a <= NativeQuotas(kept, native)
    ensures StageQuotas("baseline", nodes, BaselineLimit, Sides) + PlatformPart(p, selected, stages) + a
            <= Schedule(p, nodes, selected, stages, kept, native)
  {
  }

  /** The launches of one run; it stops at the first failing launch. */
  method LaunchAll(l: Ledger, c: Children, plan: Plan, native: nat, nodes: seq<string>, stages: seq<string>, kept: seq<string>)
    returns (ok: bool, ghost ops: seq<Op>, ghost selected: seq<string>)
    requires Confined(c) && plan.platformPerSide >= 0 && stages != []
    modifies l
    ensures l.View() == Run(old(l.View()), ops)
    ensures QuotaOps(ops) <= Schedule(plan, nodes, selected, stages, kept, native)
  {
    ghost var st, more := l.View(), [];
    selected := [];
    ok, ops := LaunchSides(l, c, "baseline", nodes, BaselineLimit);
    FollowsBaseline(plan, nodes, stages, kept, native, QuotaOps(ops));
    if !ok { return; }
    var eligible := Intersection(c, nodes);
    selected := eligible;
    if eligible != [] {
      ok, more := LaunchPlatforms(l, c, stages, eligible, PlatformLimit(plan, |stages|, |eligible|));
    }
    Extend(st, ops, more);
    FollowsPlatforms(plan, nodes, selected, stages, kept, native, QuotaOps(more));
    ops := ops + more;
    if !ok { return; }
    ok, more := LaunchNative(l, c, kept, native);
    Extend(st, ops, more);
    FollowsNative(plan, nodes, selected, stages, kept, native, QuotaOps(more));
    ops := ops + more;
  }

  /** What a run leaves behind: a closed, balanced ledger whose quotas fit the approved cap. */
  ghost predicate RunOk(total: int, st: State) {
    Balanced(st) && QuotasFit(st) && st.cap == total && st.phase == Closed
  }

  method Execute(l: Ledger, c: Children, manifest: string, total: int, native: nat, now: int, seconds: int,
                 nodes: seq<string>, stages: seq<string>, kept: seq<string>)
    returns (ok: bool, ghost ops: seq<Op>, ghost selected: seq<string>)
    requires l.View() == Created(manifest, total)
    requires Confined(c) && AllocationPlan(total, native).Some? && |nodes| == NodeCount && |kept| <= NodeCount && stages != []
    modifies l
    ensures l.View() == Run(Created(manifest, total), ops)
    ensures QuotaOps(ops) <= Schedule(AllocationPlan(total, native).value, nodes, selected, stages, kept, native)
    ensures RunOk(total, l.View())
  {
    ghost var st, more := l.View(), [];
    var start := Op.Start(manifest, now, seconds);
    RunOne(st, start);
    var started := l.Start(manifest, now, seconds);
    ok, more, selected := LaunchAll(l, c, AllocationPlan(total, native).value, native, nodes, stages, kept);
    Extend(st, [start], more);
    ops := [start] + more;
    Extend(st, ops, [Op.Close]);
    RunOne(l.View(), Op.Close);
    l.Close();
    ops := ops + [Op.Close];
    ScheduledRunsFit(manifest, total, native, nodes, selected, stages, kept, ops);
    CapKept(st, ops);
  }

  lemma {:induction false} CapKept(st: State, ops: seq<Op>)
    ensures Run(st, ops).cap == st.cap
  {
    if ops != [] { CapKept(st, ops[..|ops| - 1]); }
  }
}

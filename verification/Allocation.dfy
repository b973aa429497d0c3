/**
 The comparison experiment's budget plan and the quotas its execution creates. For every accepted
 plan, whatever nodes turn out eligible and however the probe children behave, the quotas created
 along the way fit the approved cap, so no scope is ever throttled by the experiment as a whole.
 */
module Allocation {
  import opened Wrappers
  import opened BudgetLedger

  const MaxCap := 1024 * 1024 * 1024
  const NodeCount := 90
  const BaselineLimit := 65536
  const Sides := 4

  datatype Plan = Plan(baselineTotal: int, platformPerSide: int, unusedRounding: int)

  /** Rejects caps outside the approved range and caps that leave nothing for the platforms. */
  function AllocationPlan(total: int, native: int): (p: Option<Plan>)
    ensures p.Some? <==> 0 < total <= MaxCap && (native == 0 || native == 2) && total > NodeCount * (Sides + native) * BaselineLimit
    ensures p.Some? ==> p.value.baselineTotal + Sides * p.value.platformPerSide + p.value.unusedRounding == total
    ensures p.Some? ==> 0 <= p.value.platformPerSide && 0 <= p.value.unusedRounding < Sides
  {
    if !(0 < total <= MaxCap) || (native != 0 && native != 2) then None
    else
      var baseline := NodeCount * (Sides + native) * BaselineLimit;
      if total <= baseline then None
      else Some(Plan(baseline, (total - baseline) / Sides, (total - baseline) % Sides))
  }

  /** The per-node quota of a platform stage: equal sides, equal groups, equal eligible nodes, floored. */
  function PlatformLimit(p: Plan, groups: int, selected: int): (limit: int)
    requires p.platformPerSide >= 0 && groups > 0 && selected > 0
    ensures 0 <= limit && limit * groups * selected <= p.platformPerSide < (limit + 1) * groups * selected
  {
    var perGroup := p.platformPerSide / groups;
    var limit := perGroup / selected;
    FloorFits(p.platformPerSide, groups, selected);
    FloorTight(p.platformPerSide, groups, selected);
    limit
  }

  lemma FloorFits(a: int, g: int, n: int)
    requires a >= 0 && g > 0 && n > 0
    ensures a / g / n >= 0 && a / g / n * g * n <= a
  {
    var q := a / g;
    var r := q / n;
    DivFloor(q, n);
    DivFloor(a, g);
    assert r * n * g <= q * g by { Scale(r * n, q, g); }
    assert r * g * n == r * n * g by { Swap(r, g, n); }
  }

  lemma FloorTight(a: int, g: int, n: int)
    requires a >= 0 && g > 0 && n > 0
    ensures a < (a / g / n + 1) * g * n
  {
    var q := a / g;
    var r := q / n;
    NextMultiple(a, g);
    NextMultiple(q, n);
    assert (q + 1) * g <= (r + 1) * n * g by { Scale(q + 1, (r + 1) * n, g); }
    assert (r + 1) * g * n == (r + 1) * n * g by { Swap(r + 1, g, n); }
  }

  lemma NextMultiple(x: int, k: int)
    requires x >= 0 && k > 0
    ensures x < (x / k + 1) * k
  {
    assert x == x / k * k + x % k;
  }

  lemma DivFloor(x: int, k: int)
    requires x >= 0 && k > 0
    ensures x / k >= 0 && x / k * k <= x
  {
    assert x == x / k * k + x % k;
  }

  lemma Scale(x: int, y: int, k: int)
    requires x <= y && k >= 0
    ensures x * k <= y * k
  {
  }

  lemma Swap(x: int, y: int, z: int)
    ensures x * y * z == x * z * y
  {
  }

  // ---- The quotas a launch creates ----

  function LaunchQuotas(round: int, stage: string, nodes: seq<string>, limit: int): seq<Op> {
    if nodes == [] then []
    else LaunchQuotas(round, stage, nodes[..|nodes| - 1], limit) + [AddQuota(Scope(round, stage, nodes[|nodes| - 1]), limit)]
  }

  /** One stage over the first `rounds` sides. */
  function StageQuotas(stage: string, selected: seq<string>, limit: int, rounds: nat): seq<Op> {
    if rounds == 0 then []
    else StageQuotas(stage, selected, limit, rounds - 1) + LaunchQuotas(rounds - 1, stage, selected, limit)
  }

  function PlatformQuotas(stages: seq<string>, selected: seq<string>, limit: int): seq<Op> {
    if stages == [] then []
    else PlatformQuotas(stages[..|stages| - 1], selected, limit) + StageQuotas(stages[|stages| - 1], selected, limit, Sides)
  }

  function NativeQuotas(kept: seq<string>, sides: nat): seq<Op> {
    if sides == 0 then []
    else NativeQuotas(kept, sides - 1) + LaunchQuotas(Sides + sides - 1, "baseline", kept, BaselineLimit)
  }

  /** Every quota of a run that is not cut short, in order. */
  function Schedule(p: Plan, nodes: seq<string>, selected: seq<string>, stages: seq<string>, kept: seq<string>, native: nat): seq<Op>
    requires p.platformPerSide >= 0 && stages != []
  {
    StageQuotas("baseline", nodes, BaselineLimit, Sides) + PlatformPart(p, selected, stages) + NativeQuotas(kept, native)
  }

  // ---- What they cost ----

  ghost function Cost(ops: seq<Op>): int {
    if ops == [] then 0
    else Cost(ops[..|ops| - 1]) + if ops[|ops| - 1].AddQuota? then ops[|ops| - 1].cap else 0
  }

  ghost predicate NonNegative(ops: seq<Op>) {
    forall i :: 0 <= i < |ops| && ops[i].AddQuota? ==> ops[i].cap >= 0
  }

  lemma {:induction false} CostConcat(a: seq<Op>, b: seq<Op>)
    ensures Cost(a + b) == Cost(a) + Cost(b)
  {
    if b == [] {
      assert a + b == a;
    } else {
      assert (a + b)[..|a + b| - 1] == a + b[..|b| - 1];
      CostConcat(a, b[..|b| - 1]);
    }
  }

  lemma {:induction false} CostNonNegative(ops: seq<Op>)
    requires NonNegative(ops)
    ensures Cost(ops) >= 0
  {
    if ops != [] { CostNonNegative(ops[..|ops| - 1]); }
  }

  lemma {:induction false} LaunchCost(round: int, stage: string, nodes: seq<string>, limit: int)
    requires limit >= 0
    ensures Cost(LaunchQuotas(round, stage, nodes, limit)) == |nodes| * limit && NonNegative(LaunchQuotas(round, stage, nodes, limit))
  {
    if nodes != [] {
      var init := LaunchQuotas(round, stage, nodes[..|nodes| - 1], limit);
      LaunchCost(round, stage, nodes[..|nodes| - 1], limit);
      CostConcat(init, [AddQuota(Scope(round, stage, nodes[|nodes| - 1]), limit)]);
      assert Cost([AddQuota(Scope(round, stage, nodes[|nodes| - 1]), limit)]) == limit;
      assert |nodes| * limit == (|nodes| - 1) * limit + limit;
    }
  }

  lemma {:induction false} StageCost(stage: string, selected: seq<string>, limit: int, rounds: nat)
    requires limit >= 0
    ensures Cost(StageQuotas(stage, selected, limit, rounds)) == rounds * (|selected| * limit)
    ensures NonNegative(StageQuotas(stage, selected, limit, rounds))
  {
    if rounds > 0 {
      StageCost(stage, selected, limit, rounds - 1);
      LaunchCost(rounds - 1, stage, selected, limit);
      CostConcat(StageQuotas(stage, selected, limit, rounds - 1), LaunchQuotas(rounds - 1, stage, selected, limit));
      assert rounds * (|selected| * limit) == (rounds - 1) * (|selected| * limit) + |selected| * limit;
    }
  }

  lemma {:induction false} PlatformCost(stages: seq<string>, selected: seq<string>, limit: int)
    requires limit >= 0
    ensures Cost(PlatformQuotas(stages, selected, limit)) == |stages| * (Sides * (|selected| * limit))
    ensures NonNegative(PlatformQuotas(stages, selected, limit))
  {
    if stages != [] {
      var init, last := stages[..|stages| - 1], stages[|stages| - 1];
      PlatformCost(init, selected, limit);
      StageCost(last, selected, limit, Sides);
      CostConcat(PlatformQuotas(init, selected, limit), StageQuotas(last, selected, limit, Sides));
      var c := Sides * (|selected| * limit);
      assert |stages| * c == (|stages| - 1) * c + c;
    }
  }

  lemma {:induction false} NativeCost(kept: seq<string>, sides: nat)
    ensures Cost(NativeQuotas(kept, sides)) == sides * (|kept| * BaselineLimit) && NonNegative(NativeQuotas(kept, sides))
  {
    if sides > 0 {
      NativeCost(kept, sides - 1);
      LaunchCost(Sides + sides - 1, "baseline", kept, BaselineLimit);
      CostConcat(NativeQuotas(kept, sides - 1), LaunchQuotas(Sides + sides - 1, "baseline", kept, BaselineLimit));
      var c := |kept| * BaselineLimit;
      assert sides * c == (sides - 1) * c + c;
    }
  }

  lemma PlatformsFit(p: Plan, stages: seq<string>, selected: seq<string>)
    requires p.platformPerSide >= 0 && stages != [] && selected != []
    ensures Cost(PlatformQuotas(stages, selected, PlatformLimit(p, |stages|, |selected|))) <= Sides * p.platformPerSide
  {
    var limit := PlatformLimit(p, |stages|, |selected|);
    PlatformCost(stages, selected, limit);
    var s, n := |stages|, |selected|;
    assert s * (Sides * (n * limit)) == Sides * (limit * s * n) by { Regroup(s, n, limit); }
  }

  lemma Regroup(s: int, n: int, limit: int)
    ensures s * (4 * (n * limit)) == 4 * (limit * s * n)
  {
    assert s * (4 * (n * limit)) == 4 * (s * (n * limit));
    assert s * (n * limit) == limit * s * n by {
      assert limit * s * n == (limit * s) * n;
      assert (limit * s) * n == s * (limit * n) by { assert limit * s == s * limit; }
    }
  }

  lemma NativeFits(kept: seq<string>, native: nat)
    requires (native == 0 || native == 2) && |kept| <= NodeCount
    ensures Cost(NativeQuotas(kept, native)) <= NodeCount * native * BaselineLimit
  {
    NativeCost(kept, native);
  }

  function PlatformPart(p: Plan, selected: seq<string>, stages: seq<string>): seq<Op>
    requires p.platformPerSide >= 0 && stages != []
  {
    if selected == [] then [] else PlatformQuotas(stages, selected, PlatformLimit(p, |stages|, |selected|))
  }

  lemma PlatformPartFits(p: Plan, selected: seq<string>, stages: seq<string>)
    requires p.platformPerSide >= 0 && stages != []
    ensures Cost(PlatformPart(p, selected, stages)) <= Sides * p.platformPerSide && NonNegative(PlatformPart(p, selected, stages))
  {
    if selected != [] {
      PlatformsFit(p, stages, selected);
      PlatformCost(stages, selected, PlatformLimit(p, |stages|, |selected|));
    }
  }

  lemma CostOfThree(a: seq<Op>, b: seq<Op>, c: seq<Op>)
    requires NonNegative(a) && NonNegative(b) && NonNegative(c)
    ensures Cost(a + b + c) == Cost(a) + Cost(b) + Cost(c) && NonNegative(a + b + c)
  {
    CostConcat(a, b);
    CostConcat(a + b, c);
  }

  /** The whole schedule of an accepted plan costs at most the approved cap. */
  lemma ScheduleFits(total: int, native: nat, nodes: seq<string>, selected: seq<string>, stages: seq<string>, kept: seq<string>)
    requires AllocationPlan(total, native).Some?
    requires |nodes| == NodeCount && |kept| <= NodeCount && stages != []
    ensures Cost(Schedule(AllocationPlan(total, native).value, nodes, selected, stages, kept, native)) <= total
    ensures NonNegative(Schedule(AllocationPlan(total, native).value, nodes, selected, stages, kept, native))
  {
    var p := AllocationPlan(total, native).value;
    StageCost("baseline", nodes, BaselineLimit, Sides);
    PlatformPartFits(p, selected, stages);
    NativeFits(kept, native);
    NativeCost(kept, native);
    CostOfThree(StageQuotas("baseline", nodes, BaselineLimit, Sides), PlatformPart(p, selected, stages), NativeQuotas(kept, native));
  }

  // ---- Runs ----

  /** The quota creations among the operations of a run. */
  function QuotaOps(ops: seq<Op>): seq<Op> {
    if ops == [] then []
    else QuotaOps(ops[..|ops| - 1]) + if ops[|ops| - 1].AddQuota? then [ops[|ops| - 1]] else []
  }

  lemma {:induction false} QuotaOpsConcat(a: seq<Op>, b: seq<Op>)
    ensures QuotaOps(a + b) == QuotaOps(a) + QuotaOps(b)
  {
    if b == [] {
      assert a + b == a;
    } else {
      assert (a + b)[..|a + b| - 1] == a + b[..|b| - 1];
      QuotaOpsConcat(a, b[..|b| - 1]);
    }
  }

  lemma {:induction false} RunConcat(st: State, a: seq<Op>, b: seq<Op>)
    ensures Run(st, a + b) == Run(Run(st, a), b)
  {
    if b == [] {
      assert a + b == a;
    } else {
      assert (a + b)[..|a + b| - 1] == a + b[..|b| - 1];
      RunConcat(st, a, b[..|b| - 1]);
    }
  }

  /** A ledger's quota caps never exceed what the run tried to create. */
  lemma {:induction false} CapsBounded(manifest: string, cap: int, ops: seq<Op>)
    requires NonNegative(QuotaOps(ops))
    ensures Sum(Cap, Run(Created(manifest, cap), ops).quotas) <= Cost(QuotaOps(ops))
    ensures forall s :: s in Run(Created(manifest, cap), ops).quotas ==> Run(Created(manifest, cap), ops).quotas[s].cap >= 0
    ensures Run(Created(manifest, cap), ops).cap == cap
  {
    if ops != [] {
      var init, op := ops[..|ops| - 1], ops[|ops| - 1];
      assert op.AddQuota? ==> QuotaOps(ops)[|QuotaOps(init)|] == op;
      forall i | 0 <= i < |QuotaOps(init)| && QuotaOps(init)[i].AddQuota? ensures QuotaOps(init)[i].cap >= 0 {
        assert QuotaOps(ops)[i] == QuotaOps(init)[i];
      }
      CapsBounded(manifest, cap, init);
      CostConcat(QuotaOps(init), if op.AddQuota? then [op] else []);
      CapsStep(Run(Created(manifest, cap), init), op);
      assert op.AddQuota? ==> Cost([op]) == op.cap;
    }
  }

  lemma CapsStep(st: State, op: Op)
    requires op.AddQuota? ==> op.cap >= 0
    ensures Sum(Cap, Step(st, op).quotas) <= Sum(Cap, st.quotas) + if op.AddQuota? then op.cap else 0
    ensures forall s :: s in Step(st, op).quotas ==>
              (|| (s in st.quotas && Step(st, op).quotas[s].cap == st.quotas[s].cap)
               || (op.AddQuota? && Step(st, op).quotas[s].cap == op.cap))
    ensures Step(st, op).cap == st.cap
  {
    if Accepts(st, op) {
      match op
      case AddQuota(scope, cap) => SumUpdate(Cap, st.quotas, scope, Quota(cap, 0, 0));
      case Reserve(scope, amount, _, _) =>
        SumUpdate(Cap, st.quotas, scope, Step(st, op).quotas[scope]);
      case Settle(token, _) =>
        var r := st.reservations[token];
        if r.scope in st.quotas { SumUpdate(Cap, st.quotas, r.scope, Step(st, op).quotas[r.scope]); }
      case _ =>
    }
  }

  /** What is left of a non-negative schedule costs no less than nothing. */
  lemma PrefixCost(a: seq<Op>, b: seq<Op>)
    requires a <= b && NonNegative(b)
    ensures NonNegative(a) && Cost(a) <= Cost(b)
  {
    var rest := b[|a|..];
    assert b == a + rest;
    forall i | 0 <= i < |a| && a[i].AddQuota? ensures a[i].cap >= 0 { assert b[i] == a[i]; }
    forall i | 0 <= i < |rest| && rest[i].AddQuota? ensures rest[i].cap >= 0 { assert b[|a| + i] == rest[i]; }
    CostConcat(a, rest);
    CostNonNegative(rest);
  }

  /**
   In every reachable state of a run that follows (a prefix of) an accepted plan's schedule, with any
   reservations and settlements in between, the quotas fit and a grant depends on its scope alone.
   */
  lemma ScheduledRunsFit(manifest: string, total: int, native: nat, nodes: seq<string>, selected: seq<string>,
                         stages: seq<string>, kept: seq<string>, ops: seq<Op>)
    requires AllocationPlan(total, native).Some?
    requires |nodes| == NodeCount && |kept| <= NodeCount && stages != []
    requires QuotaOps(ops) <= Schedule(AllocationPlan(total, native).value, nodes, selected, stages, kept, native)
    ensures Balanced(Run(Created(manifest, total), ops)) && QuotasFit(Run(Created(manifest, total), ops))
    ensures forall s, amount :: s in Run(Created(manifest, total), ops).quotas ==>
              Grant(Run(Created(manifest, total), ops), s, amount) ==
              Min(amount, Remaining(Run(Created(manifest, total), ops).quotas[s]))
  {
    var st, plan := Run(Created(manifest, total), ops), AllocationPlan(total, native).value;
    ScheduleFits(total, native, nodes, selected, stages, kept);
    PrefixCost(QuotaOps(ops), Schedule(plan, nodes, selected, stages, kept, native));
    CapsBounded(manifest, total, ops);
    CreatedBalanced(manifest, total);
    RunBalanced(Created(manifest, total), ops);
    forall s, amount | s in st.quotas ensures Grant(st, s, amount) == Min(amount, Remaining(st.quotas[s])) {
      ScopeDecidesGrant(st, s, amount);
    }
  }
}

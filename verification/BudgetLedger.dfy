/**
 The probe comparison's body-budget ledger. Every method is one serialised transaction that either
 commits or leaves the tables alone; the class is proved against a step function, and what every
 run keeps is proved about that function.
 */
module BudgetLedger {
  import opened Wrappers

  /** A quota scope `round/stage/node`, by its parts. */
  datatype Scope = Scope(round: int, stage: string, node: string)

  datatype Phase = New | Running | Closed

  datatype Quota = Quota(cap: int, used: int, reserved: int)

  /** A reservation is settled once it records how much was used. */
  datatype Reservation = Reservation(scope: Scope, amount: int, used: Option<int>)

  /** One launch of a side in a stage. */
  datatype AttemptKey = AttemptKey(round: int, stage: string)

  datatype Attempt = Queued | Finished(receipt: string)

  datatype State = State(
    manifest: string,
    cap: int,
    deadline: int,
    used: int,
    reserved: int,
    phase: Phase,
    quotas: map<Scope, Quota>,
    reservations: map<string, Reservation>,
    attempts: map<AttemptKey, Attempt>)

  const MaxAmount := 64 * 1024 * 1024

  function Min(a: int, b: int): int {
    if a < b then a else b
  }

  // ---- One transaction ----

  datatype Op =
    | Start(manifest: string, now: int, seconds: int)
    | AddQuota(scope: Scope, cap: int)
    | Reserve(scope: Scope, amount: int, now: int, token: string)
    | Settle(token: string, used: int)
    | BeginAttempt(key: AttemptKey)
    | FinishAttempt(key: AttemptKey, receipt: string)
    | Close

  function Created(manifest: string, cap: int): State {
    State(manifest, cap, 0, 0, 0, New, map[], map[], map[])
  }

  /** What a reservation of `amount` is granted: no more than either remainder. */
  function Grant(st: State, scope: Scope, amount: int): int
    requires scope in st.quotas
  {
    var q := st.quotas[scope];
    Min(Min(amount, st.cap - st.used - st.reserved), q.cap - q.used - q.reserved)
  }

  /** The operation commits. */
  predicate Accepts(st: State, op: Op) {
    match op
    case Start(manifest, _, _) => st.manifest == manifest && st.phase == New
    case AddQuota(scope, _) => scope !in st.quotas
    case Reserve(scope, amount, now, token) =>
      && 0 < amount <= MaxAmount && st.phase == Running && now < st.deadline && scope in st.quotas
      && Grant(st, scope, amount) > 0 && token !in st.reservations
    case Settle(token, used) =>
      && token in st.reservations && st.reservations[token].used.None?
      && 0 <= used <= st.reservations[token].amount
    case BeginAttempt(key) => key !in st.attempts
    case FinishAttempt(key, _) => key in st.attempts && st.attempts[key] == Queued
    case Close => true
  }

  function Charge(m: map<Scope, Quota>, scope: Scope, used: int, reserved: int): map<Scope, Quota> {
    if scope in m
    then m[scope := m[scope].(used := m[scope].used + used, reserved := m[scope].reserved + reserved)]
    else m
  }

  /** The tables after the operation; a refused operation rolls back. */
  function Step(st: State, op: Op): State {
    if !Accepts(st, op) then st else
    match op
    case Start(_, now, seconds) => st.(deadline := now + seconds, phase := Running)
    case AddQuota(scope, cap) => st.(quotas := st.quotas[scope := Quota(cap, 0, 0)])
    case Reserve(scope, amount, _, token) =>
      var n := Grant(st, scope, amount);
      st.(reservations := st.reservations[token := Reservation(scope, n, None)],
          reserved := st.reserved + n,
          quotas := Charge(st.quotas, scope, 0, n))
    case Settle(token, used) =>
      var r := st.reservations[token];
      st.(reservations := st.reservations[token := r.(used := Some(used))],
          used := st.used + used, reserved := st.reserved - r.amount,
          quotas := Charge(st.quotas, r.scope, used, -r.amount))
    case BeginAttempt(key) => st.(attempts := st.attempts[key := Queued])
    case FinishAttempt(key, receipt) => st.(attempts := st.attempts[key := Finished(receipt)])
    case Close => st.(phase := Closed)
  }

  function Run(st: State, ops: seq<Op>): State {
    if ops == [] then st else Step(Run(st, ops[..|ops| - 1]), ops[|ops| - 1])
  }

  // ---- The ledger object ----

  class Ledger {
    var manifest: string
    var cap: int
    var deadline: int
    var used: int
    var reserved: int
    var phase: Phase
    var quotas: map<Scope, Quota>
    var reservations: map<string, Reservation>
    var attempts: map<AttemptKey, Attempt>

    function View(): State
      reads this
    {
      State(manifest, cap, deadline, used, reserved, phase, quotas, reservations, attempts)
    }

    constructor (manifest: string, cap: int)
      ensures View() == Created(manifest, cap)
    {
      this.manifest, this.cap, this.deadline, this.used, this.reserved := manifest, cap, 0, 0, 0;
      this.phase, this.quotas, this.reservations, this.attempts := New, map[], map[], map[];
    }

    method Start(manifest: string, now: int, seconds: int) returns (r: Result<int>)
      modifies this
      ensures r.Ok? == Accepts(old(View()), Op.Start(manifest, now, seconds))
      ensures r.Ok? ==> r.value == deadline
      ensures View() == Step(old(View()), Op.Start(manifest, now, seconds))
    {
      if this.manifest != manifest || phase != New {
        return Err("ledger binding/state mismatch", []);
      }
      deadline, phase := now + seconds, Running;
      r := Ok(now + seconds);
    }

    method AddQuota(scope: Scope, cap: int) returns (r: Result<()>)
      modifies this`quotas
      ensures r.Ok? == Accepts(old(View()), Op.AddQuota(scope, cap))
      ensures View() == Step(old(View()), Op.AddQuota(scope, cap))
    {
      if scope in quotas { return Err("duplicate quota", []); }
      quotas := quotas[scope := Quota(cap, 0, 0)];
      r := Ok(());
    }

    /** Reserves under a fresh random token; a token collision rolls back like any failed insert. */
    method Reserve(scope: Scope, amount: int, now: int, token: string) returns (r: Result<int>)
      modifies this
      ensures r.Ok? == Accepts(old(View()), Op.Reserve(scope, amount, now, token))
      ensures r.Ok? ==> r.value == Grant(old(View()), scope, amount)
      ensures View() == Step(old(View()), Op.Reserve(scope, amount, now, token))
    {
      if !(0 < amount <= MaxAmount) { return Err("invalid reservation", []); }
      if phase != Running || now >= deadline || scope !in quotas { return Err("cancelled or unknown quota", []); }
      var q := quotas[scope];
      var n := Min(Min(amount, cap - used - reserved), q.cap - q.used - q.reserved);
      if n <= 0 { return Err("body budget exhausted", []); }
      if token in reservations { return Err("duplicate reservation", []); }
      reservations := reservations[token := Reservation(scope, n, None)];
      reserved := reserved + n;
      quotas := quotas[scope := q.(reserved := q.reserved + n)];
      r := Ok(n);
    }

    method Settle(token: string, used: int) returns (r: Result<()>)
      modifies this
      ensures r.Ok? == Accepts(old(View()), Op.Settle(token, used))
      ensures View() == Step(old(View()), Op.Settle(token, used))
    {
      if token !in reservations || reservations[token].used.Some? || !(0 <= used <= reservations[token].amount) {
        return Err("invalid or duplicate settlement", []);
      }
      var row := reservations[token];
      reservations := reservations[token := row.(used := Some(used))];
      this.used := this.used + used;
      reserved := reserved - row.amount;
      if row.scope in quotas {
        var q := quotas[row.scope];
        quotas := quotas[row.scope := q.(used := q.used + used, reserved := q.reserved - row.amount)];
      }
      r := Ok(());
    }

    method BeginAttempt(key: AttemptKey) returns (r: Result<()>)
      modifies this`attempts
      ensures r.Ok? == Accepts(old(View()), Op.BeginAttempt(key))
      ensures View() == Step(old(View()), Op.BeginAttempt(key))
    {
      if key in attempts { return Err("duplicate attempt", []); }
      attempts := attempts[key := Queued];
      r := Ok(());
    }

    method FinishAttempt(key: AttemptKey, receipt: string) returns (r: Result<()>)
      modifies this`attempts
      ensures r.Ok? == Accepts(old(View()), Op.FinishAttempt(key, receipt))
      ensures View() == Step(old(View()), Op.FinishAttempt(key, receipt))
    {
      if key !in attempts || attempts[key] != Queued { return Err("duplicate or unknown attempt", []); }
      attempts := attempts[key := Finished(receipt)];
      r := Ok(());
    }

    method Close()
      modifies this`phase
      ensures View() == Step(old(View()), Op.Close)
    {
      phase := Closed;
    }
  }

  // ---- Totals ----

  /** Which part of a reservation a total counts: used or still reserved, over all scopes or one. */
  datatype Part = Part(settled: bool, scope: Option<Scope>)

  ghost function Share(p: Part, r: Reservation): int {
    if p.scope.Some? && p.scope.value != r.scope then 0
    else if p.settled then (if r.used.Some? then r.used.value else 0)
    else if r.used.None? then r.amount else 0
  }

  ghost function Total(p: Part, m: map<string, Reservation>): int {
    if m == map[] then 0 else
      var k :| k in m;
      Share(p, m[k]) + Total(p, m - {k})
  }

  lemma {:induction false} TotalWithout(p: Part, m: map<string, Reservation>, k: string)
    requires k in m
    ensures Total(p, m) == Share(p, m[k]) + Total(p, m - {k})
  {
    var x :| x in m && Total(p, m) == Share(p, m[x]) + Total(p, m - {x});
    if x != k {
      TotalWithout(p, m - {x}, k);
      TotalWithout(p, m - {k}, x);
      assert m - {x} - {k} == m - {k} - {x};
    }
  }

  /** Inserting or replacing one reservation changes a total by the difference of its shares. */
  lemma TotalUpdate(p: Part, m: map<string, Reservation>, k: string, r: Reservation)
    ensures Total(p, m[k := r]) == Total(p, m) + Share(p, r) - if k in m then Share(p, m[k]) else 0
  {
    TotalWithout(p, m[k := r], k);
    if k in m {
      TotalWithout(p, m, k);
      assert m[k := r] - {k} == m - {k};
    } else {
      assert m[k := r] - {k} == m;
    }
  }

  datatype Column = Used | Held | Cap

  ghost function Cell(c: Column, q: Quota): int {
    match c case Used => q.used case Held => q.reserved case Cap => q.cap
  }

  ghost function Sum(c: Column, m: map<Scope, Quota>): int {
    if m == map[] then 0 else
      var k :| k in m;
      Cell(c, m[k]) + Sum(c, m - {k})
  }

  lemma {:induction false} SumWithout(c: Column, m: map<Scope, Quota>, k: Scope)
    requires k in m
    ensures Sum(c, m) == Cell(c, m[k]) + Sum(c, m - {k})
  {
    var x :| x in m && Sum(c, m) == Cell(c, m[x]) + Sum(c, m - {x});
    if x != k {
      SumWithout(c, m - {x}, k);
      SumWithout(c, m - {k}, x);
      assert m - {x} - {k} == m - {k} - {x};
    }
  }

  lemma SumUpdate(c: Column, m: map<Scope, Quota>, k: Scope, q: Quota)
    ensures Sum(c, m[k := q]) == Sum(c, m) + Cell(c, q) - if k in m then Cell(c, m[k]) else 0
  {
    SumWithout(c, m[k := q], k);
    if k in m {
      SumWithout(c, m, k);
      assert m[k := q] - {k} == m - {k};
    } else {
      assert m[k := q] - {k} == m;
    }
  }

  // ---- What every run keeps ----

  ghost function Ceiling(cap: int): int {
    if cap < 0 then 0 else cap
  }

  ghost predicate QuotaOk(st: State, s: Scope)
    requires s in st.quotas
  {
    var q := st.quotas[s];
    && q.used == Total(Part(true, Some(s)), st.reservations) && q.reserved == Total(Part(false, Some(s)), st.reservations)
    && 0 <= q.used && 0 <= q.reserved && q.used + q.reserved <= Ceiling(q.cap)
  }

  /** Reservations belong to known quotas and record legal amounts. */
  ghost predicate RowOk(st: State, t: string)
    requires t in st.reservations
  {
    var r := st.reservations[t];
    r.scope in st.quotas && 0 < r.amount && (r.used.Some? ==> 0 <= r.used.value <= r.amount)
  }

  /**
   The budget is respected and accounted for: experiment and quota totals are the sums over
   reservations, never above their caps, and the experiment is the sum of its quotas.
   */
  ghost predicate Balanced(st: State) {
    && (forall t :: t in st.reservations ==> RowOk(st, t))
    && (forall s :: s in st.quotas ==> QuotaOk(st, s))
    && st.used == Total(Part(true, None), st.reservations) == Sum(Used, st.quotas)
    && st.reserved == Total(Part(false, None), st.reservations) == Sum(Held, st.quotas)
    && 0 <= st.used && 0 <= st.reserved && st.used + st.reserved <= Ceiling(st.cap)
  }

  lemma CreatedBalanced(manifest: string, cap: int)
    ensures Balanced(Created(manifest, cap))
  {
  }

  /** A scope without reservations has nothing used or reserved. */
  lemma {:induction false} NoRowsNoTotal(p: Part, m: map<string, Reservation>)
    requires p.scope.Some? && forall t :: t in m ==> m[t].scope != p.scope.value
    ensures Total(p, m) == 0
  {
    if m != map[] {
      var k :| k in m;
      TotalWithout(p, m, k);
      NoRowsNoTotal(p, m - {k});
    }
  }

  lemma AddQuotaBalanced(st: State, scope: Scope, cap: int)
    requires Balanced(st) && scope !in st.quotas
    ensures Balanced(Step(st, Op.AddQuota(scope, cap)))
  {
    var st' := Step(st, Op.AddQuota(scope, cap));
    NoRowsNoTotal(Part(true, Some(scope)), st.reservations);
    NoRowsNoTotal(Part(false, Some(scope)), st.reservations);
    SumUpdate(Used, st.quotas, scope, Quota(cap, 0, 0));
    SumUpdate(Held, st.quotas, scope, Quota(cap, 0, 0));
    forall s | s in st'.quotas ensures QuotaOk(st', s) { assert s != scope ==> QuotaOk(st, s); }
    forall t | t in st'.reservations ensures RowOk(st', t) { assert RowOk(st, t); }
  }

  /** What changing the row `token` to `r` adds to the used and reserved totals. */
  ghost predicate Moves(st: State, token: string, r: Reservation, used: int, held: int) {
    && r.scope in st.quotas && (token in st.reservations ==> st.reservations[token].scope == r.scope)
    && used == Share(Part(true, None), r) - (if token in st.reservations then Share(Part(true, None), st.reservations[token]) else 0)
    && held == Share(Part(false, None), r) - (if token in st.reservations then Share(Part(false, None), st.reservations[token]) else 0)
  }

  /** One row changes; the experiment's totals and the quotas' sums move by exactly its difference. */
  lemma TotalsFollow(st: State, token: string, r: Reservation, used: int, held: int)
    requires Balanced(st) && Moves(st, token, r, used, held)
    ensures var qs := Charge(st.quotas, r.scope, used, held); var rs := st.reservations[token := r];
            && Total(Part(true, None), rs) == st.used + used == Sum(Used, qs)
            && Total(Part(false, None), rs) == st.reserved + held == Sum(Held, qs)
  {
    var qs := Charge(st.quotas, r.scope, used, held);
    TotalUpdate(Part(true, None), st.reservations, token, r);
    TotalUpdate(Part(false, None), st.reservations, token, r);
    SumUpdate(Used, st.quotas, r.scope, qs[r.scope]);
    SumUpdate(Held, st.quotas, r.scope, qs[r.scope]);
  }

  /** ... and so does each quota. */
  lemma QuotasFollow(st: State, token: string, r: Reservation, used: int, held: int)
    requires Balanced(st) && Moves(st, token, r, used, held)
    ensures var qs := Charge(st.quotas, r.scope, used, held); var rs := st.reservations[token := r];
            forall s :: s in qs ==> qs[s].used == Total(Part(true, Some(s)), rs) && qs[s].reserved == Total(Part(false, Some(s)), rs)
  {
    var qs := Charge(st.quotas, r.scope, used, held);
    forall s | s in qs
      ensures qs[s].used == Total(Part(true, Some(s)), st.reservations[token := r])
      ensures qs[s].reserved == Total(Part(false, Some(s)), st.reservations[token := r])
    {
      assert QuotaOk(st, s);
      TotalUpdate(Part(true, Some(s)), st.reservations, token, r);
      TotalUpdate(Part(false, Some(s)), st.reservations, token, r);
    }
  }

  lemma ReserveBalanced(st: State, scope: Scope, amount: int, now: int, token: string)
    requires Balanced(st) && Accepts(st, Op.Reserve(scope, amount, now, token))
    ensures Balanced(Step(st, Op.Reserve(scope, amount, now, token)))
  {
    var st', n := Step(st, Op.Reserve(scope, amount, now, token)), Grant(st, scope, amount);
    TotalsFollow(st, token, Reservation(scope, n, None), 0, n);
    QuotasFollow(st, token, Reservation(scope, n, None), 0, n);
    forall s | s in st'.quotas ensures QuotaOk(st', s) { assert QuotaOk(st, s); }
    forall t | t in st'.reservations ensures RowOk(st', t) { assert t != token ==> RowOk(st, t); }
  }

  lemma SettleBalanced(st: State, token: string, used: int)
    requires Balanced(st) && Accepts(st, Op.Settle(token, used))
    ensures Balanced(Step(st, Op.Settle(token, used)))
  {
    SettledTotals(st, token, used);
    SettledQuotas(st, token, used);
    SettledRows(st, token, used);
  }

  lemma SettledTotals(st: State, token: string, used: int)
    requires Balanced(st) && Accepts(st, Op.Settle(token, used))
    ensures var st' := Step(st, Op.Settle(token, used));
            && st'.used == st.used + used == Total(Part(true, None), st'.reservations) == Sum(Used, st'.quotas)
            && st'.reserved == st.reserved - st.reservations[token].amount
                            == Total(Part(false, None), st'.reservations) == Sum(Held, st'.quotas)
            && st'.reserved >= 0 && 0 <= used <= st.reservations[token].amount && st'.cap == st.cap
  {
    var r := st.reservations[token];
    assert RowOk(st, token);
    TotalsFollow(st, token, r.(used := Some(used)), used, -r.amount);
    HeldAtLeast(st, token);
  }

  lemma SettledQuotas(st: State, token: string, used: int)
    requires Balanced(st) && Accepts(st, Op.Settle(token, used))
    ensures var st' := Step(st, Op.Settle(token, used)); forall s :: s in st'.quotas ==> QuotaOk(st', s)
  {
    var st', r := Step(st, Op.Settle(token, used)), st.reservations[token];
    assert RowOk(st, token);
    QuotasFollow(st, token, r.(used := Some(used)), used, -r.amount);
    HeldAtLeast(st, token);
    forall s | s in st'.quotas ensures QuotaOk(st', s) { SettledQuota(st, token, used, s); }
  }

  lemma SettledRows(st: State, token: string, used: int)
    requires Balanced(st) && Accepts(st, Op.Settle(token, used))
    ensures var st' := Step(st, Op.Settle(token, used)); forall t :: t in st'.reservations ==> RowOk(st', t)
  {
    var st' := Step(st, Op.Settle(token, used));
    forall t | t in st'.reservations ensures RowOk(st', t) { assert RowOk(st, t); }
  }

  lemma SettledQuota(st: State, token: string, used: int, s: Scope)
    requires Balanced(st) && Accepts(st, Op.Settle(token, used)) && s in st.quotas
    requires st.reservations[token].scope in st.quotas
    requires st.quotas[st.reservations[token].scope].reserved >= st.reservations[token].amount
    requires var st' := Step(st, Op.Settle(token, used));
             s in st'.quotas && st'.quotas[s].used == Total(Part(true, Some(s)), st'.reservations) &&
             st'.quotas[s].reserved == Total(Part(false, Some(s)), st'.reservations)
    ensures s in Step(st, Op.Settle(token, used)).quotas && QuotaOk(Step(st, Op.Settle(token, used)), s)
  {
    assert QuotaOk(st, s) && RowOk(st, token);
  }

  lemma {:induction false} TotalNonNegative(p: Part, m: map<string, Reservation>)
    requires forall t :: t in m ==> m[t].amount > 0 && (m[t].used.Some? ==> m[t].used.value >= 0)
    ensures Total(p, m) >= 0
  {
    if m != map[] {
      var k :| k in m;
      TotalWithout(p, m, k);
      TotalNonNegative(p, m - {k});
    }
  }

  /** An unsettled reservation is covered by both reserved totals. */
  lemma HeldAtLeast(st: State, token: string)
    requires Balanced(st) && token in st.reservations && st.reservations[token].used.None?
    ensures st.reserved >= st.reservations[token].amount
    ensures st.reservations[token].scope in st.quotas
    ensures st.quotas[st.reservations[token].scope].reserved >= st.reservations[token].amount
  {
    var r := st.reservations[token];
    assert RowOk(st, token) && QuotaOk(st, r.scope);
    var rest := st.reservations - {token};
    forall t | t in rest ensures rest[t].amount > 0 && (rest[t].used.Some? ==> rest[t].used.value >= 0) { assert RowOk(st, t); }
    TotalWithout(Part(false, None), st.reservations, token);
    TotalWithout(Part(false, Some(r.scope)), st.reservations, token);
    TotalNonNegative(Part(false, None), rest);
    TotalNonNegative(Part(false, Some(r.scope)), rest);
  }

  /** Every operation keeps the ledger balanced. */
  lemma StepBalanced(st: State, op: Op)
    requires Balanced(st)
    ensures Balanced(Step(st, op))
  {
    if Accepts(st, op) {
      match op
      case AddQuota(scope, cap) => AddQuotaBalanced(st, scope, cap);
      case Reserve(scope, amount, now, token) => ReserveBalanced(st, scope, amount, now, token);
      case Settle(token, used) => SettleBalanced(st, token, used);
      case _ =>
        var st' := Step(st, op);
        forall s | s in st'.quotas ensures QuotaOk(st', s) { assert QuotaOk(st, s); }
        forall t | t in st'.reservations ensures RowOk(st', t) { assert RowOk(st, t); }
    }
  }

  /** Every reachable ledger is balanced. */
  lemma {:induction false} RunBalanced(st: State, ops: seq<Op>)
    requires Balanced(st)
    ensures Balanced(Run(st, ops))
  {
    if ops != [] {
      RunBalanced(st, ops[..|ops| - 1]);
      StepBalanced(Run(st, ops[..|ops| - 1]), ops[|ops| - 1]);
    }
  }

  /** A reservation is never dropped or resized, and once settled never changes again. */
  lemma {:induction false} SettledOnce(st: State, ops: seq<Op>, token: string)
    requires token in st.reservations
    ensures var r, r' := st.reservations[token], Run(st, ops).reservations;
            token in r' && r'[token].scope == r.scope && r'[token].amount == r.amount && (r.used.Some? ==> r'[token] == r)
  {
    if ops != [] { SettledOnce(st, ops[..|ops| - 1], token); }
  }

  lemma ClosedStep(st: State, op: Op)
    requires Balanced(st) && st.phase == Closed
    ensures Step(st, op).phase == Closed && Step(st, op).reservations.Keys == st.reservations.Keys
    ensures Step(st, op).used + Step(st, op).reserved <= st.used + st.reserved
  {
    if op.Settle? && Accepts(st, op) {
      assert RowOk(st, op.token);
      assert st.reservations[op.token := st.reservations[op.token].(used := Some(op.used))].Keys == st.reservations.Keys;
    }
  }

  /** After close nothing more can be reserved, and what is not settled stays charged. */
  lemma {:induction false} ClosedStaysCharged(st: State, ops: seq<Op>)
    requires Balanced(st) && st.phase == Closed
    ensures Run(st, ops).phase == Closed && Run(st, ops).reservations.Keys == st.reservations.Keys
    ensures Run(st, ops).used + Run(st, ops).reserved <= st.used + st.reserved
    ensures forall t :: t in Run(st, ops).reservations && Run(st, ops).reservations[t].used.None? ==>
              Run(st, ops).reserved >= Run(st, ops).reservations[t].amount
  {
    var last := Run(st, ops);
    RunBalanced(st, ops);
    forall t | t in last.reservations && last.reservations[t].used.None? ensures last.reserved >= last.reservations[t].amount {
      HeldAtLeast(last, t);
    }
    if ops != [] {
      ClosedStaysCharged(st, ops[..|ops| - 1]);
      RunBalanced(st, ops[..|ops| - 1]);
      ClosedStep(Run(st, ops[..|ops| - 1]), ops[|ops| - 1]);
    }
  }

  // ---- Quotas that fit the budget ----

  ghost predicate QuotasFit(st: State) {
    Sum(Cap, st.quotas) <= st.cap && forall s :: s in st.quotas ==> st.quotas[s].cap >= 0
  }

  ghost function Remaining(q: Quota): int {
    q.cap - q.used - q.reserved
  }

  lemma {:induction false} RemainderSum(m: map<Scope, Quota>, s: Scope)
    requires s in m && forall k :: k in m ==> m[k].used + m[k].reserved <= m[k].cap
    ensures Remaining(m[s]) <= Sum(Cap, m) - Sum(Used, m) - Sum(Held, m)
  {
    SumWithout(Cap, m, s);
    SumWithout(Used, m, s);
    SumWithout(Held, m, s);
    RemainderNonNegative(m - {s});
  }

  lemma {:induction false} RemainderNonNegative(m: map<Scope, Quota>)
    requires forall k :: k in m ==> m[k].used + m[k].reserved <= m[k].cap
    ensures 0 <= Sum(Cap, m) - Sum(Used, m) - Sum(Held, m)
  {
    if m != map[] {
      var k :| k in m;
      SumWithout(Cap, m, k);
      SumWithout(Used, m, k);
      SumWithout(Held, m, k);
      RemainderNonNegative(m - {k});
    }
  }

  /**
   When the quotas fit, the experiment never constrains a scope: a grant is limited by its own quota
   only.
   */
  lemma ScopeDecidesGrant(st: State, s: Scope, amount: int)
    requires Balanced(st) && QuotasFit(st) && s in st.quotas
    ensures Remaining(st.quotas[s]) <= st.cap - st.used - st.reserved
    ensures Grant(st, s, amount) == Min(amount, Remaining(st.quotas[s]))
  {
    forall k | k in st.quotas ensures st.quotas[k].used + st.quotas[k].reserved <= st.quotas[k].cap { assert QuotaOk(st, k); }
    RemainderSum(st.quotas, s);
  }

  // ---- In time ----

  /** The `i`-th operation is the start that committed. */
  ghost predicate StartedAt(st: State, ops: seq<Op>, i: nat)
    requires i < |ops|
  {
    ops[i].Start? && Accepts(Run(st, ops[..i]), ops[i])
  }

  /** A running ledger was started once, has that start's deadline, and was not closed. */
  ghost predicate Timed(st: State, ops: seq<Op>) {
    var now := Run(st, ops);
    now.phase == Running ==>
      && (exists i: nat :: i < |ops| && StartedAt(st, ops, i) && now.deadline == ops[i].now + ops[i].seconds)
      && (forall i :: 0 <= i < |ops| ==> !ops[i].Close?)
  }

  lemma StartedBefore(st: State, ops: seq<Op>, op: Op, i: nat)
    requires i < |ops| && StartedAt(st, ops, i)
    ensures StartedAt(st, ops + [op], i)
  {
    assert (ops + [op])[..i] == ops[..i];
  }

  lemma TimedStep(st: State, ops: seq<Op>, op: Op)
    requires Timed(st, ops)
    ensures Timed(st, ops + [op])
  {
    var longer, before := ops + [op], Run(st, ops);
    assert longer[..|ops|] == ops;
    if Run(st, longer).phase == Running {
      if op.Start? && Accepts(before, op) {
        assert StartedAt(st, longer, |ops|);
        NotClosed(st, ops);
      } else {
        var i: nat :| i < |ops| && StartedAt(st, ops, i) && before.deadline == ops[i].now + ops[i].seconds;
        StartedBefore(st, ops, op, i);
        assert longer[i] == ops[i];
      }
    }
  }

  /** A new ledger was never closed. */
  lemma {:induction false} NotClosed(st: State, ops: seq<Op>)
    requires Run(st, ops).phase == New
    ensures forall i :: 0 <= i < |ops| ==> !ops[i].Close?
  {
    if ops != [] {
      NotClosed(st, ops[..|ops| - 1]);
      assert ops == ops[..|ops| - 1] + [ops[|ops| - 1]];
    }
  }

  lemma {:induction false} RunTimed(manifest: string, cap: int, ops: seq<Op>)
    ensures Timed(Created(manifest, cap), ops)
  {
    if ops != [] {
      RunTimed(manifest, cap, ops[..|ops| - 1]);
      TimedStep(Created(manifest, cap), ops[..|ops| - 1], ops[|ops| - 1]);
      assert ops == ops[..|ops| - 1] + [ops[|ops| - 1]];
    }
  }

  /**
   In every run a reservation is granted only between the start of this manifest and the end of the
   time it allowed, and never after a close.
   */
  lemma ReservedInTime(manifest: string, cap: int, ops: seq<Op>, scope: Scope, amount: int, now: int, token: string) returns (i: nat)
    requires Accepts(Run(Created(manifest, cap), ops), Op.Reserve(scope, amount, now, token))
    ensures i < |ops| && StartedAt(Created(manifest, cap), ops, i) && ops[i].manifest == manifest
    ensures now < ops[i].now + ops[i].seconds && forall j :: 0 <= j < |ops| ==> !ops[j].Close?
  {
    var st := Created(manifest, cap);
    RunTimed(manifest, cap, ops);
    i :| i < |ops| && StartedAt(st, ops, i) && Run(st, ops).deadline == ops[i].now + ops[i].seconds;
    ManifestKept(st, ops[..i]);
  }

  lemma {:induction false} ManifestKept(st: State, ops: seq<Op>)
    ensures Run(st, ops).manifest == st.manifest && Run(st, ops).cap == st.cap
  {
    if ops != [] { ManifestKept(st, ops[..|ops| - 1]); }
  }

  // ---- Single reservations ----

  /** Every reservation is positive and at most 64 MiB. */
  ghost predicate Sized(st: State) {
    forall k :: k in st.reservations ==> 0 < st.reservations[k].amount <= 67108864
  }

  lemma {:induction false} RunSized(manifest: string, cap: int, ops: seq<Op>)
    ensures Sized(Run(Created(manifest, cap), ops))
  {
    if ops != [] { RunSized(manifest, cap, ops[..|ops| - 1]); }
  }

  /**
   Whatever is granted can be settled at any part of it: the part is charged, the rest released, and
   everything else is as before the reservation.
   */
  lemma ReserveSettle(st: State, scope: Scope, amount: int, now: int, token: string, used: int)
    requires Accepts(st, Op.Reserve(scope, amount, now, token)) && 0 <= used <= Grant(st, scope, amount)
    ensures var mid := Step(st, Op.Reserve(scope, amount, now, token));
            var end := Step(mid, Op.Settle(token, used));
            && Accepts(mid, Op.Settle(token, used))
            && end.used == st.used + used && end.reserved == st.reserved
            && end.quotas == st.quotas[scope := st.quotas[scope].(used := st.quotas[scope].used + used)]
            && end == st.(used := end.used, quotas := end.quotas, reservations := end.reservations)
            && end.reservations == st.reservations[token := Reservation(scope, Grant(st, scope, amount), Some(used))]
  {
  }
}

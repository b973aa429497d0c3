/**
 Restoring mis-deactivated nodes: an all-or-nothing compare-and-set over the plan's candidates, and
 its rollback, which touches only rows that still carry the timestamp of the restoration.
 */
module Recovery {
  import opened Wrappers

  datatype Row = Row(active: bool, updatedAt: string)

  datatype Candidate = Candidate(id: string, updatedAt: string)

  datatype Approval = Approval(approver: string, evidence: string, simulated: bool)

  datatype Plan = Plan(target: string, candidates: seq<Candidate>, approval: Option<Approval>, hash: string)

  /** Trimming, the two path tests and the plan digest. */
  datatype Environment = Environment(
    trim: string -> string,
    production: string -> bool,
    sandbox: string -> bool,
    digest: (seq<Candidate>, Option<Approval>) -> string)

  type Nodes = map<string, Row>

  // ---- Specification ----

  /**
   The plan carries evidence, names someone to restore, targets a sandbox under simulated approval,
   and is untampered.
   */
  ghost predicate Permitted(env: Environment, p: Plan) {
    && p.approval.Some? && env.trim(p.approval.value.approver) != "" && env.trim(p.approval.value.evidence) != ""
    && p.candidates != [] && p.approval.value.simulated
    && !env.production(p.target) && env.sandbox(p.target)
    && (p.hash == "" || p.hash == env.digest(p.candidates, p.approval))
  }

  ghost predicate Distinct(cs: seq<Candidate>) {
    forall i, j :: 0 <= i < j < |cs| ==> cs[i].id != cs[j].id
  }

  /** Every candidate is still inactive with the reviewed timestamp, and none is listed twice. */
  ghost predicate Current(t: Nodes, cs: seq<Candidate>) {
    Distinct(cs) && forall i :: 0 <= i < |cs| ==> cs[i].id in t && t[cs[i].id] == Row(false, cs[i].updatedAt)
  }

  ghost predicate FirstStale(t: Nodes, cs: seq<Candidate>, k: int) {
    0 <= k < |cs| && Current(t, cs[..k]) && !Current(t, cs[..k + 1])
  }

  function Ids(cs: seq<Candidate>): set<string> {
    set i | 0 <= i < |cs| :: cs[i].id
  }

  function Restored(t: Nodes, cs: seq<Candidate>, now: string): Nodes {
    map id | id in t :: if id in Ids(cs) then Row(true, now) else t[id]
  }

  /** The rows a rollback under `stamp` reverts; without a stamp, all active ones. */
  predicate Reverts(r: Row, stamp: string) {
    r.active && (stamp == "" || r.updatedAt == stamp)
  }

  function RollOne(t: Nodes, c: Candidate, stamp: string): Nodes {
    if c.id in t && Reverts(t[c.id], stamp) then t[c.id := Row(false, c.updatedAt)] else t
  }

  function RolledBack(t: Nodes, cs: seq<Candidate>, stamp: string): Nodes {
    if cs == [] then t else RollOne(RolledBack(t, cs[..|cs| - 1], stamp), cs[|cs| - 1], stamp)
  }

  ghost function Qualifying(t: Nodes, cs: seq<Candidate>, stamp: string): set<string> {
    set id | id in t && id in Ids(cs) && Reverts(t[id], stamp)
  }

  /** `k` is the first candidate for `id`. */
  ghost predicate FirstFor(cs: seq<Candidate>, id: string, k: int) {
    0 <= k < |cs| && cs[k].id == id && id !in Ids(cs[..k])
  }

  // ---- What a rollback does ----

  /** Exactly the candidates' rows that still qualify change, each to its first candidate's reviewed state. */
  lemma {:induction false} RolledBackRow(t: Nodes, cs: seq<Candidate>, stamp: string, id: string)
    requires id in t
    ensures var r := RolledBack(t, cs, stamp);
            && r.Keys == t.Keys
            && (id in Ids(cs) && Reverts(t[id], stamp) ==> exists k :: FirstFor(cs, id, k) && r[id] == Row(false, cs[k].updatedAt))
            && (!(id in Ids(cs) && Reverts(t[id], stamp)) ==> r[id] == t[id])
  {
    if cs != [] {
      var n := |cs| - 1;
      var init := cs[..n];
      RolledBackRow(t, init, stamp, id);
      IdsLast(cs);
      if id in Ids(init) && Reverts(t[id], stamp) {
        var k :| FirstFor(init, id, k) && RolledBack(t, init, stamp)[id] == Row(false, init[k].updatedAt);
        assert cs[..k] == init[..k];
        assert FirstFor(cs, id, k) && RolledBack(t, cs, stamp)[id] == Row(false, cs[k].updatedAt);
      } else if id == cs[n].id && Reverts(t[id], stamp) {
        assert FirstFor(cs, id, n) && RolledBack(t, cs, stamp)[id] == Row(false, cs[n].updatedAt);
      }
    }
  }

  lemma IdsLast(cs: seq<Candidate>)
    requires cs != []
    ensures Ids(cs) == Ids(cs[..|cs| - 1]) + {cs[|cs| - 1].id}
  {
    var init := cs[..|cs| - 1];
    forall x | x in Ids(cs) ensures x in Ids(init) || x == cs[|cs| - 1].id {
      var i :| 0 <= i < |cs| && cs[i].id == x;
      if i < |init| { assert init[i].id == x; }
    }
    forall x | x in Ids(init) ensures x in Ids(cs) {
      var i :| 0 <= i < |init| && init[i].id == x;
      assert cs[i].id == x;
    }
  }

  /**
   Undoing, with other writes in between: in any later table, a restored row that nobody touched since
   goes back to what it was, and a row carrying any other timestamp is left alone.
   */
  lemma RollbackUndoesOnlyOwnWrites(t: Nodes, cs: seq<Candidate>, now: string, later: Nodes, id: string)
    requires Current(t, cs) && now != "" && id in t && id in later
    ensures id in RolledBack(later, cs, now)
    ensures later[id] == Restored(t, cs, now)[id] ==> RolledBack(later, cs, now)[id] == t[id]
    ensures later[id].updatedAt != now || id !in Ids(cs) ==> RolledBack(later, cs, now)[id] == later[id]
  {
    RolledBackRow(later, cs, now, id);
    if id in Ids(cs) && Reverts(later[id], now) {
      var k :| FirstFor(cs, id, k) && RolledBack(later, cs, now)[id] == Row(false, cs[k].updatedAt);
      assert t[cs[k].id] == Row(false, cs[k].updatedAt);
    }
  }

  /** Restoring and rolling back at once is the identity. */
  lemma RestoreRollback(t: Nodes, cs: seq<Candidate>, now: string)
    requires Current(t, cs) && now != ""
    ensures RolledBack(Restored(t, cs, now), cs, now) == t
  {
    var u := Restored(t, cs, now);
    assert u.Keys == t.Keys;
    forall id | id in t ensures id in RolledBack(u, cs, now) && RolledBack(u, cs, now)[id] == t[id] {
      RollbackUndoesOnlyOwnWrites(t, cs, now, u, id);
    }
    RolledBackKeys(u, cs, now);
  }

  lemma {:induction false} RolledBackKeys(t: Nodes, cs: seq<Candidate>, stamp: string)
    ensures RolledBack(t, cs, stamp).Keys == t.Keys
  {
    if cs != [] { RolledBackKeys(t, cs[..|cs| - 1], stamp); }
  }

  /**
   A rollback changes nothing exactly when no candidate's row qualifies. After an aborted restoration
   the table is the old one while the plan already carries the new stamp, so this is when a rollback
   then is harmless.
   */
  lemma RollbackIdleExactly(t: Nodes, cs: seq<Candidate>, stamp: string)
    ensures RolledBack(t, cs, stamp) == t <==> forall id :: id in t && id in Ids(cs) ==> !Reverts(t[id], stamp)
  {
    var r := RolledBack(t, cs, stamp);
    RolledBackKeys(t, cs, stamp);
    forall id | id in t ensures r[id] == t[id] <==> !(id in Ids(cs) && Reverts(t[id], stamp)) {
      RolledBackRow(t, cs, stamp, id);
    }
    if r != t {
      assert exists id :: id in t && r[id] != t[id];
    }
  }

  /**
   An aborted restoration arms a rollback of somebody else's write: a candidate activated in the same
   second makes the plan stale, and the rollback then deactivates it.
   */
  lemma AbortedThenRollbackDeactivates(t: Nodes, cs: seq<Candidate>, now: string, id: string)
    requires now != "" && id in t && id in Ids(cs) && t[id] == Row(true, now)
    ensures !Current(t, cs) && id in RolledBack(t, cs, now) && !RolledBack(t, cs, now)[id].active
  {
    var i :| 0 <= i < |cs| && cs[i].id == id;
    assert t[cs[i].id].active;
    RolledBackRow(t, cs, now, id);
  }

  /** Rolling back twice is rolling back once. */
  lemma RollbackTwice(t: Nodes, cs: seq<Candidate>, stamp: string)
    ensures RolledBack(RolledBack(t, cs, stamp), cs, stamp) == RolledBack(t, cs, stamp)
  {
    var r := RolledBack(t, cs, stamp);
    RolledBackKeys(t, cs, stamp);
    forall id | id in r && id in Ids(cs) ensures !Reverts(r[id], stamp) { RolledBackRow(t, cs, stamp, id); }
    RollbackIdleExactly(r, cs, stamp);
  }

  /**
   A restored plan is never current again, and a repeated attempt leaves a stamp under which the
   first restoration cannot be undone.
   */
  lemma RepeatDisarmsRollback(t: Nodes, cs: seq<Candidate>, now: string, later: string)
    requires Current(t, cs) && cs != [] && later != ""
    ensures !Current(Restored(t, cs, now), cs)
    ensures RolledBack(Restored(t, cs, now), cs, later) == Restored(t, cs, now) <==> later != now
  {
    var u := Restored(t, cs, now);
    assert cs[0].id in Ids(cs) && u[cs[0].id] == Row(true, now);
    RollbackIdleExactly(u, cs, later);
  }

  // ---- The tool ----

  datatype Outcome = Refused | Stale(candidate: string) | Done(rows: nat)

  /** The gates, in the order they are tried. */
  method PassesGates(env: Environment, p: Plan) returns (ok: bool)
    ensures ok <==> Permitted(env, p)
  {
    if p.approval.None? { return false; }
    var approval := p.approval.value;
    if env.trim(approval.approver) == "" || env.trim(approval.evidence) == "" { return false; }
    if |p.candidates| == 0 { return false; }
    if !approval.simulated { return false; }
    if env.production(p.target) || !env.sandbox(p.target) { return false; }
    ok := !(p.hash != "" && p.hash != env.digest(p.candidates, p.approval));
  }

  /** The digest tells plans apart. */
  ghost predicate DigestTells(env: Environment) {
    forall cs, a, cs', a' :: env.digest(cs, a) == env.digest(cs', a') ==> cs == cs' && a == a'
  }

  /**
   A hashed plan whose candidates or approval were changed since is refused; one without a hash is
   not checked.
   */
  lemma TamperingRefused(env: Environment, p: Plan, cs: seq<Candidate>, a: Option<Approval>)
    requires DigestTells(env) && p.hash == env.digest(p.candidates, p.approval) && p.hash != ""
    ensures Permitted(env, p.(candidates := cs, approval := a)) ==> cs == p.candidates && a == p.approval
    ensures Permitted(env, p) ==> Permitted(env, p.(hash := ""))
  {
    assert env.digest(cs, a) == env.digest(p.candidates, p.approval) ==> cs == p.candidates && a == p.approval;
  }

  /** The node table and the timestamp the plan carries. */
  class Database {
    var nodes: Nodes
    var applied: string

    /** One compare-and-set; tells whether a row was affected. */
    method Activate(c: Candidate, now: string) returns (affected: bool)
      modifies this`nodes
      ensures affected <==> c.id in old(nodes) && old(nodes)[c.id] == Row(false, c.updatedAt)
      ensures nodes == if affected then old(nodes)[c.id := Row(true, now)] else old(nodes)
    {
      affected := c.id in nodes && !nodes[c.id].active && nodes[c.id].updatedAt == c.updatedAt;
      if affected { nodes := nodes[c.id := Row(true, now)]; }
    }

    /**
     Restores all candidates or none; a stale candidate is the first at which the plan stops being
     current.
     */
    method Apply(env: Environment, p: Plan, now: string) returns (r: Outcome)
      modifies this
      ensures r.Refused? <==> !Permitted(env, p)
      ensures applied == if r.Refused? then old(applied) else now
      ensures r.Done? <==> Permitted(env, p) && Current(old(nodes), p.candidates)
      ensures r.Done? ==> nodes == Restored(old(nodes), p.candidates, now) && r.rows == |p.candidates|
      ensures !r.Done? ==> nodes == old(nodes)
      ensures r.Stale? ==> exists k :: FirstStale(old(nodes), p.candidates, k) && r.candidate == p.candidates[k].id
    {
      var permitted := PassesGates(env, p);
      if !permitted { return Refused; }
      applied := now;
      var before := nodes;
      var cs := p.candidates;
      assert Restored(before, cs[..0], now) == before;
      for k := 0 to |cs|
        invariant applied == now && Current(before, cs[..k]) && nodes == Restored(before, cs[..k], now)
      {
        IdsLast(cs[..k + 1]);
        CurrentNext(before, cs, k, now);
        assert cs[..k + 1][..k] == cs[..k];
        var affected := Activate(cs[k], now);
        if !affected {
          NotCurrentPrefix(before, cs, k + 1);
          assert FirstStale(before, cs, k);
          nodes := before;
          return Stale(cs[k].id);
        }
      }
      assert cs[..|cs|] == cs;
      r := Done(|cs|);
    }

    method Rollback(p: Plan) returns (rows: nat)
      modifies this`nodes
      ensures nodes == RolledBack(old(nodes), p.candidates, applied)
      ensures rows == |Qualifying(old(nodes), p.candidates, applied)|
    {
      rows := 0;
      var cs := p.candidates;
      ghost var t := nodes;
      assert Qualifying(t, cs[..0], applied) == {};
      for k := 0 to |cs|
        invariant nodes == RolledBack(t, cs[..k], applied) && rows == |Qualifying(t, cs[..k], applied)|
      {
        QualifyingNext(t, cs, k, applied);
        var c := cs[k];
        if c.id in nodes && nodes[c.id].active && (applied == "" || nodes[c.id].updatedAt == applied) {
          nodes := nodes[c.id := Row(false, c.updatedAt)];
          rows := rows + 1;
        }
      }
      assert cs[..|cs|] == cs;
    }
  }

  /** The next candidate adds its row exactly when the rollback so far left it qualifying. */
  lemma QualifyingNext(t: Nodes, cs: seq<Candidate>, k: nat, stamp: string)
    requires k < |cs|
    ensures var now, c := RolledBack(t, cs[..k], stamp), cs[k];
            && RolledBack(t, cs[..k + 1], stamp) == RollOne(now, c, stamp)
            && |Qualifying(t, cs[..k + 1], stamp)| ==
               |Qualifying(t, cs[..k], stamp)| + if c.id in now && Reverts(now[c.id], stamp) then 1 else 0
  {
    var next, c := cs[..k + 1], cs[k];
    assert next[..k] == cs[..k];
    RolledBackKeys(t, cs[..k], stamp);
    QualifyingGrows(t, cs, k, stamp);
    if c.id in t { StillQualifies(t, cs[..k], stamp, c.id); }
    var before := Qualifying(t, cs[..k], stamp);
    if c.id in before { assert before + {c.id} == before; }
  }

  lemma QualifyingGrows(t: Nodes, cs: seq<Candidate>, k: nat, stamp: string)
    requires k < |cs|
    ensures Qualifying(t, cs[..k + 1], stamp) ==
            Qualifying(t, cs[..k], stamp) + if cs[k].id in t && Reverts(t[cs[k].id], stamp) then {cs[k].id} else {}
  {
    assert cs[..k + 1][..k] == cs[..k];
    IdsLast(cs[..k + 1]);
  }

  /** A row still qualifies exactly when it did and none of the candidates so far was its own. */
  lemma StillQualifies(t: Nodes, cs: seq<Candidate>, stamp: string, id: string)
    requires id in t
    ensures var r := RolledBack(t, cs, stamp); id in r && (Reverts(r[id], stamp) <==> Reverts(t[id], stamp) && id !in Ids(cs))
  {
    RolledBackRow(t, cs, stamp, id);
  }

  /**
   Restoring and rolling back: the identity after a restoration that went through; after an aborted
   one exactly when no candidate was activated under the same stamp.
   */
  method ApplyThenRollback(db: Database, env: Environment, p: Plan, now: string) returns (r: Outcome, rows: nat)
    requires now != ""
    modifies db
    ensures r.Refused? <==> !Permitted(env, p)
    ensures r.Done? ==> db.nodes == old(db.nodes)
    ensures r.Stale? ==>
              (db.nodes == old(db.nodes) <==>
               forall id :: id in old(db.nodes) && id in Ids(p.candidates) ==> old(db.nodes)[id] != Row(true, now))
  {
    r := db.Apply(env, p, now);
    ghost var t := old(db.nodes);
    if r.Done? { RestoreRollback(t, p.candidates, now); }
    RollbackIdleExactly(t, p.candidates, now);
    rows := db.Rollback(p);
  }

  /**
   Going on from a current prefix: the next candidate keeps the plan current exactly when the
   compare-and-set on the restored prefix succeeds.
   */
  lemma CurrentNext(t: Nodes, cs: seq<Candidate>, k: nat, now: string)
    requires k < |cs| && Current(t, cs[..k])
    ensures var u := Restored(t, cs[..k], now);
            && (Current(t, cs[..k + 1]) <==> cs[k].id in u && u[cs[k].id] == Row(false, cs[k].updatedAt))
            && (Current(t, cs[..k + 1]) ==> Restored(t, cs[..k + 1], now) == u[cs[k].id := Row(true, now)])
  {
    var next := cs[..k + 1];
    assert next[..k] == cs[..k];
    IdsLast(next);
    if Current(t, next) {
      assert next[k] == cs[k];
    }
  }

  lemma NotCurrentPrefix(t: Nodes, cs: seq<Candidate>, k: nat)
    requires k <= |cs| && !Current(t, cs[..k])
    ensures !Current(t, cs)
  {
    if Current(t, cs) {
      forall i | 0 <= i < k ensures cs[..k][i] == cs[i] {}
    }
  }
}

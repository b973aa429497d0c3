/**
 What filter conditions read besides the node: the subscriptions it comes from and its latest probe
 observations. The digest records of an observation whether it is fresh by a fixed limit, a condition
 may ask by a limit of its own. So the digest tells all that a condition reads exactly when its limit
 is the digest's.
 */
module PayloadEvidence {
  import opened Wrappers
  import opened Policy
  import opened Sorting
  import opened Pipeline
  import opened PipelineAlike
  import opened Admission
  import opened Resolve
  import opened PayloadAdmission
  import opened PayloadSnapshot

  datatype Seen = Seen(verdict: string, latencyMs: int, observedAt: int)

  /** Subscriptions and observations by node id, and the time of the resolution. */
  datatype Evidence = Evidence(subscriptions: map<string, seq<string>>, seen: map<string, map<string, Seen>>, asOf: int)

  /** An observation as a condition reads it. */
  datatype Judged = Judged(verdict: string, latencyMs: int, recent: bool)

  datatype View = View(subscriptions: set<string>, seen: map<string, Judged>)

  const DIGEST_FRESHNESS := 86400

  function SubscriptionsOf(ev: Evidence, id: string): seq<string> {
    if id in ev.subscriptions then ev.subscriptions[id] else []
  }

  function SeenOf(ev: Evidence, id: string): map<string, Seen> {
    if id in ev.seen then ev.seen[id] else map[]
  }

  function Judge(s: Seen, asOf: int, limit: int): Judged {
    Judged(s.verdict, s.latencyMs, asOf - s.observedAt <= limit)
  }

  function Judgements(ev: Evidence, id: string, limit: int): map<string, Judged> {
    map k | k in SeenOf(ev, id) :: Judge(SeenOf(ev, id)[k], ev.asOf, limit)
  }

  /** All that a condition with this limit reads about a node. */
  function ViewOf(ev: Evidence, id: string, limit: int): View {
    var subscriptions := set x | x in SubscriptionsOf(ev, id);
    View(subscriptions, Judgements(ev, id, limit))
  }

  // ---- The digest of the evidence ----

  datatype EvidencePayload = EvidencePayload(
    subscriptions: map<string, seq<string>>, seen: map<string, map<string, Judged>>)

  /**
   Sorted subscriptions, and verdict, latency and freshness of every observation; nodes without any
   are left out.
   */
  function DigestedEvidence(ev: Evidence): EvidencePayload {
    EvidencePayload(
      map id | id in ev.subscriptions && ev.subscriptions[id] != [] :: SortStrings(ev.subscriptions[id]),
      map id | id in ev.seen && ev.seen[id] != map[] :: Judgements(ev, id, DIGEST_FRESHNESS))
  }

  lemma DigestedSubscriptions(ev: Evidence, ev': Evidence, id: string)
    requires DigestedEvidence(ev).subscriptions == DigestedEvidence(ev').subscriptions
    ensures forall x :: x in SubscriptionsOf(ev, id) <==> x in SubscriptionsOf(ev', id)
  {
    var p, p' := DigestedEvidence(ev).subscriptions, DigestedEvidence(ev').subscriptions;
    if id in p {
      assert p[id] == p'[id];
      StableSortElements(StringLe, ev.subscriptions[id]);
      StableSortElements(StringLe, ev'.subscriptions[id]);
    } else {
      assert id !in p';
    }
  }

  lemma NoJudgements(ev: Evidence, id: string, limit: int)
    ensures Judgements(ev, id, limit) == map[] <==> SeenOf(ev, id) == map[]
  {
    if SeenOf(ev, id) != map[] {
      var k :| k in SeenOf(ev, id);
      assert k in Judgements(ev, id, limit);
    }
  }

  lemma DigestedJudgements(ev: Evidence, ev': Evidence, id: string)
    requires DigestedEvidence(ev).seen == DigestedEvidence(ev').seen
    ensures Judgements(ev, id, DIGEST_FRESHNESS) == Judgements(ev', id, DIGEST_FRESHNESS)
  {
    var p, p' := DigestedEvidence(ev).seen, DigestedEvidence(ev').seen;
    NoJudgements(ev, id, DIGEST_FRESHNESS);
    NoJudgements(ev', id, DIGEST_FRESHNESS);
    if id in p {
      assert p[id] == p'[id];
    } else {
      assert id !in p';
    }
  }

  /** Equal digests tell all that a condition with the digest's limit reads. */
  lemma DigestedViews(ev: Evidence, ev': Evidence, id: string)
    requires DigestedEvidence(ev) == DigestedEvidence(ev')
    ensures ViewOf(ev, id, DIGEST_FRESHNESS) == ViewOf(ev', id, DIGEST_FRESHNESS)
  {
    DigestedSubscriptions(ev, ev', id);
    DigestedJudgements(ev, ev', id);
  }

  // ---- Other limits ----

  /** The observation is on the same side of the limit in both. */
  ghost predicate SameSide(ev: Evidence, ev': Evidence, id: string, k: string, limit: int) {
    k in SeenOf(ev, id) && k in SeenOf(ev', id) ==>
      (ev.asOf - SeenOf(ev, id)[k].observedAt <= limit <==> ev'.asOf - SeenOf(ev', id)[k].observedAt <= limit)
  }

  /** With equal digests a condition reads the same exactly when its limit parts no pair of observations. */
  lemma ViewsExactly(ev: Evidence, ev': Evidence, id: string, limit: int)
    requires DigestedEvidence(ev) == DigestedEvidence(ev')
    ensures ViewOf(ev, id, limit) == ViewOf(ev', id, limit) <==> forall k :: SameSide(ev, ev', id, k, limit)
  {
    DigestedSubscriptions(ev, ev', id);
    DigestedJudgements(ev, ev', id);
    var d, d' := Judgements(ev, id, DIGEST_FRESHNESS), Judgements(ev', id, DIGEST_FRESHNESS);
    var j, j' := Judgements(ev, id, limit), Judgements(ev', id, limit);
    forall k ensures k in j <==> k in j' { assert k in d <==> k in d'; }
    forall k | k in j ensures j[k] == j'[k] <==> SameSide(ev, ev', id, k, limit) { assert d[k] == d'[k]; }
    if j == j' {
      forall k ensures SameSide(ev, ev', id, k, limit) { if k in j { assert j[k] == j'[k]; } }
    }
  }

  ghost predicate LimitDigested(limit: int) {
    forall ev, ev', id :: DigestedEvidence(ev) == DigestedEvidence(ev') ==> ViewOf(ev, id, limit) == ViewOf(ev', id, limit)
  }

  /** One observation of one node, of this age. */
  function Aged(id: string, k: string, age: int): Evidence {
    Evidence(map[], map[id := map[k := Seen("available", 0, 0)]], age)
  }

  lemma AgedJudgement(id: string, k: string, age: int, limit: int)
    ensures Judgements(Aged(id, k, age), id, limit) == map[k := Judged("available", 0, age <= limit)]
    ensures DigestedEvidence(Aged(id, k, age)) ==
            EvidencePayload(map[], map[id := map[k := Judged("available", 0, age <= DIGEST_FRESHNESS)]])
  {
    var ev := Aged(id, k, age);
    assert SeenOf(ev, id) == map[k := Seen("available", 0, 0)];
    assert Judgements(ev, id, DIGEST_FRESHNESS) == map[k := Judged("available", 0, age <= DIGEST_FRESHNESS)];
    var p := DigestedEvidence(ev);
    assert p.subscriptions == map[];
    assert p.seen == map[id := Judgements(ev, id, DIGEST_FRESHNESS)] by {
      assert k in ev.seen[id];
      assert p.seen.Keys == {id};
    }
  }

  /** A limit other than the digest's parts two ages that the digest does not. */
  lemma AgesParted(id: string, k: string, limit: int)
    requires limit != DIGEST_FRESHNESS
    ensures DigestedEvidence(Aged(id, k, limit)) == DigestedEvidence(Aged(id, k, limit + 1))
    ensures k in Judgements(Aged(id, k, limit), id, limit) && Judgements(Aged(id, k, limit), id, limit)[k].recent
    ensures k in Judgements(Aged(id, k, limit + 1), id, limit) && !Judgements(Aged(id, k, limit + 1), id, limit)[k].recent
  {
    AgedJudgement(id, k, limit, limit);
    AgedJudgement(id, k, limit + 1, limit);
  }

  /** The digest tells what a condition reads exactly when the condition's limit is the digest's. */
  lemma LimitDigestedExactly(limit: int)
    ensures LimitDigested(limit) <==> limit == DIGEST_FRESHNESS
  {
    if limit == DIGEST_FRESHNESS {
      forall ev, ev', id | DigestedEvidence(ev) == DigestedEvidence(ev') ensures ViewOf(ev, id, limit) == ViewOf(ev', id, limit) {
        DigestedViews(ev, ev', id);
      }
    } else {
      AgesParted("n", "k", limit);
      var v, v' := ViewOf(Aged("n", "k", limit), "n", limit), ViewOf(Aged("n", "k", limit + 1), "n", limit);
      assert v.seen["k"] != v'.seen["k"];
    }
  }

  // ---- Conditions ----

  /** The limit a condition asks by, and what it makes of what it reads. */
  datatype Reading = Reading(limit: Condition -> int, judge: (Condition, Node, View) -> bool)

  function OracleFor(o: Oracle, rd: Reading, ev: Evidence): Oracle {
    o.(condition := (c: Condition, n: Node) => rd.judge(c, n, ViewOf(ev, n.logicalId, rd.limit(c))))
  }

  ghost predicate ReadAlike(limit: Condition -> int, ev: Evidence, ev': Evidence) {
    forall c, id :: ViewOf(ev, id, limit(c)) == ViewOf(ev', id, limit(c))
  }

  lemma ReadingsAnswer(o: Oracle, rd: Reading, ev: Evidence, ev': Evidence)
    requires ReadAlike(rd.limit, ev, ev')
    ensures OraclesAlike(OracleFor(o, rd, ev), OracleFor(o, rd, ev'))
  {
    var x, y := OracleFor(o, rd, ev), OracleFor(o, rd, ev');
    forall c, n ensures x.condition(c, n) == y.condition(c, n) {
      assert ViewOf(ev, n.logicalId, rd.limit(c)) == ViewOf(ev', n.logicalId, rd.limit(c));
    }
  }

  /** Conditions answer alike, whatever they make of what they read, exactly when they read the same. */
  lemma OraclesExactly(o: Oracle, limit: Condition -> int, ev: Evidence, ev': Evidence)
    ensures (forall judge :: OraclesAlike(OracleFor(o, Reading(limit, judge), ev), OracleFor(o, Reading(limit, judge), ev'))) <==>
            ReadAlike(limit, ev, ev')
  {
    if !ReadAlike(limit, ev, ev') {
      var c, id :| ViewOf(ev, id, limit(c)) != ViewOf(ev', id, limit(c));
      var v := ViewOf(ev, id, limit(c));
      var judge := (d: Condition, n: Node, w: View) => w == v;
      var x, y := OracleFor(o, Reading(limit, judge), ev), OracleFor(o, Reading(limit, judge), ev');
      var n := Node(id, "", "", true);
      assert x.condition(c, n) && !y.condition(c, n);
      assert !OraclesAlike(x, y);
    } else {
      forall judge ensures OraclesAlike(OracleFor(o, Reading(limit, judge), ev), OracleFor(o, Reading(limit, judge), ev')) {
        ReadingsAnswer(o, Reading(limit, judge), ev, ev');
      }
    }
  }

  /** With the digest's limit throughout, equal digests make the conditions read the same. */
  lemma DefaultLimitsRead(limit: Condition -> int, ev: Evidence, ev': Evidence)
    requires DigestedEvidence(ev) == DigestedEvidence(ev') && forall c :: limit(c) == DIGEST_FRESHNESS
    ensures ReadAlike(limit, ev, ev')
  {
    forall c, id ensures ViewOf(ev, id, limit(c)) == ViewOf(ev', id, limit(c)) { DigestedViews(ev, ev', id); }
  }

  function EnvironmentFor(env: Environment, rd: Reading, ev: Evidence): Environment {
    env.(oracle := OracleFor(env.oracle, rd, ev))
  }

  lemma EnvironmentsRead(env: Environment, rd: Reading, ev: Evidence, ev': Evidence)
    requires ReadAlike(rd.limit, ev, ev')
    ensures EnvironmentsAlike(EnvironmentFor(env, rd, ev), EnvironmentFor(env, rd, ev'))
  {
    ReadingsAnswer(env.oracle, rd, ev, ev');
  }

  /**
   Payload and evidence digest determine the snapshot where conditions ask by the digest's limit and
   what is not digested agrees.
   */
  lemma DigestDetermines(env: Environment, rd: Reading, a: Input, ev: Evidence, ea: Evaluation, sa: Snapshot,
                         b: Input, ev': Evidence, eb: Evaluation, sb: Snapshot)
    requires ResolvesTo(EnvironmentFor(env, rd, ev), a, ea, sa) && ResolvesTo(EnvironmentFor(env, rd, ev'), b, eb, sb)
    requires SamePayload(a, ea.groups, b, eb.groups) && DigestedEvidence(ev) == DigestedEvidence(ev')
    requires (forall c :: rd.limit(c) == DIGEST_FRESHNESS) && UndigestedAlike(a, b)
    ensures SnapshotsAlike(sa, sb)
  {
    DefaultLimitsRead(rd.limit, ev, ev');
    EnvironmentsRead(env, rd, ev, ev');
    PayloadDetermines(EnvironmentFor(env, rd, ev), a, ea, sa, EnvironmentFor(env, rd, ev'), b, eb, sb);
  }

  /** A condition that holds of a fresh observation of this kind. */
  function FreshWithin(k: string, limit: int): Reading {
    Reading((c: Condition) => limit, (c: Condition, n: Node, v: View) => k in v.seen && v.seen[k].recent)
  }

  lemma Answers(o: Oracle, k: string, limit: int, ev: Evidence, c: Condition, n: Node)
    ensures OracleFor(o, FreshWithin(k, limit), ev).condition(c, n) <==>
            var j := Judgements(ev, n.logicalId, limit); k in j && j[k].recent
  {
    var rd := FreshWithin(k, limit);
    assert rd.limit(c) == limit;
    var v := ViewOf(ev, n.logicalId, limit);
    assert OracleFor(o, rd, ev).condition(c, n) == rd.judge(c, n, v);
  }

  /**
   With any other limit in the global filter, one payload and one evidence digest leave open whether
   a node is admitted.
   */
  lemma OtherLimitDecides(env: Environment, a: Input, n: Node, c: Condition, k: string, limit: int)
    requires n.active && !HeldOut(a, n) && a.globalFilter == Some(FilterSpec([c])) && limit != DIGEST_FRESHNESS
    requires FirstMatchAdmits(env.expressions, Exchanged(a.admissionRules), n)
    ensures var ev, ev', rd := Aged(n.logicalId, k, limit), Aged(n.logicalId, k, limit + 1), FreshWithin(k, limit);
            && DigestedEvidence(ev) == DigestedEvidence(ev')
            && Admitted(EnvironmentFor(env, rd, ev), a, n) && !Admitted(EnvironmentFor(env, rd, ev'), a, n)
  {
    var ev, ev', rd := Aged(n.logicalId, k, limit), Aged(n.logicalId, k, limit + 1), FreshWithin(k, limit);
    AgesParted(n.logicalId, k, limit);
    Answers(env.oracle, k, limit, ev, c, n);
    Answers(env.oracle, k, limit, ev', c, n);
    assert a.globalFilter.value.conditions[0] == c;
  }
}

/**
 What ingesting a payload keeps, whatever its entries: the table invariants, other subscriptions'
 associations, every node row, and the provenance of every association that was ever live.
 */
module RefreshSafety {
  import opened Refresh
  import opened RefreshService

  // ---- Assumptions on identities, and table invariants ----

  ghost predicate ScopedInjective(h: Hashes) {
    forall s, x, s', x' :: h.scopedId(s, x) == h.scopedId(s', x') ==> s == s' && x == x'
  }

  ghost predicate IsScoped(h: Hashes, id: string) {
    exists s, x :: id == h.scopedId(s, x)
  }

  /** Ids computed from entries are base ids, never scoped ones. */
  ghost predicate BaseEntries(h: Hashes, es: seq<Entry>) {
    forall i :: 0 <= i < |es| && !es[i].notice ==> !IsScoped(h, CandidateId(h, es[i]))
  }

  /** Live or remembered. */
  ghost predicate Known(t: Tables, ed: Edge) {
    ed in t.sources || Remembered(t, ed.node, ed.sub)
  }

  /** A scoped node belongs to the subscription it is scoped to. */
  ghost predicate OwnScope(h: Hashes, ed: Edge) {
    forall s, x :: ed.node == h.scopedId(s, x) ==> ed.sub == s
  }

  ghost predicate TablesOk(h: Hashes, t: Tables) {
    && (forall ed :: ed in t.sources ==> ed.node in t.nodes)
    && (forall ed :: Known(t, ed) ==> OwnScope(h, ed))
  }

  // ---- The shape of one ingestion ----

  /** Where an entry can end up. */
  lemma DecisionShape(h: Hashes, b: Batch, t: Tables, e: Entry)
    ensures var d := Decide(h, b, t, e);
            && (d.target in b.existing || d.target == ScopedId(h, b, e) || d.target == CandidateId(h, e))
            && (d.unlink.Some? ==> d.unlink.value in b.existing)
  {
    MatchExists(h, b, e);
  }

  /** One entry adds at most the edge of its target and removes at most the edge it is split off from. */
  lemma IngestEdges(h: Hashes, b: Batch, p: Progress, e: Entry)
    requires !e.notice
    ensures var d, t, t' := Decide(h, b, p.tables, e), p.tables, IngestNode(h, b, p, e).tables;
            && (forall ed :: ed in t'.sources ==> ed in t.sources || ed == Edge(d.target, b.sub))
            && (forall ed :: ed in t.sources && ed !in t'.sources ==> b.success && d.unlink.Some? && ed == Edge(d.unlink.value, b.sub))
            && (forall ed :: ed in t.sources && ed in t'.sources ==> t'.sources[ed] == t.sources[ed] || (ed.sub == b.sub && t'.sources[ed] == b.fetch))
            && t'.nodes.Keys == t.nodes.Keys + {d.target}
            && (forall n :: n in t.nodes && n != d.target ==> t'.nodes[n] == t.nodes[n])
            && t'.nodes[d.target].connection == d.connection
  {
    DecisionShape(h, b, p.tables, e);
  }

  lemma IngestHistory(h: Hashes, b: Batch, p: Progress, e: Entry)
    requires !e.notice
    ensures var d, t, t' := Decide(h, b, p.tables, e), p.tables, IngestNode(h, b, p, e).tables;
            && (forall k :: k in t.history ==> k in t'.history && t'.history[k] == t.history[k])
            && (forall k :: k in t'.history && k !in t.history ==> d.unlink.Some? && k.node == d.unlink.value && t'.history[k].sub == b.sub)
            && (d.unlink.Some? ==> HistoryKey(d.unlink.value, CowUnlinked(d.unlink.value, b.sub)) in t'.history)
  {
    DecisionShape(h, b, p.tables, e);
  }

  lemma RememberedKept(t: Tables, t': Tables, n: string, s: string)
    requires Remembered(t, n, s) && forall k :: k in t.history ==> k in t'.history && t'.history[k] == t.history[k]
    ensures Remembered(t', n, s)
  {
    var k :| k in t.history && k.node == n && t.history[k].sub == s;
    assert k in t'.history && t'.history[k] == t.history[k];
  }

  /** Evidence keys name the subscription they were recorded for. */
  ghost predicate EvidenceOk(t: Tables) {
    forall k :: k in t.history ==>
      t.history[k].sub == (match k.evidence case CowUnlinked(_, s) => s case RefreshRemoved(s, _) => s)
  }

  // ---- Every step keeps the invariants ----

  /** No association is ever forgotten by an ingestion. */
  lemma IngestKnown(h: Hashes, b: Batch, p: Progress, e: Entry, ed: Edge)
    requires Known(p.tables, ed) && EvidenceOk(p.tables)
    ensures Known(Ingest(h, b, p, e).tables, ed)
  {
    if !e.notice {
      IngestEdges(h, b, p, e);
      IngestHistory(h, b, p, e);
      var t, t', d := p.tables, IngestNode(h, b, p, e).tables, Decide(h, b, p.tables, e);
      IngestEvidence(h, b, p, e);
      if ed in t.sources && ed !in t'.sources {
        var k := HistoryKey(ed.node, CowUnlinked(ed.node, b.sub));
        assert k in t'.history && k.node == ed.node && t'.history[k].sub == ed.sub;
      } else if ed !in t.sources {
        RememberedKept(t, t', ed.node, ed.sub);
      }
    }
  }

  lemma IngestEvidence(h: Hashes, b: Batch, p: Progress, e: Entry)
    requires EvidenceOk(p.tables)
    ensures EvidenceOk(Ingest(h, b, p, e).tables)
  {
    if !e.notice { DecisionShape(h, b, p.tables, e); }
  }

  /** What is known after an ingestion was known before or is one of the entry's own associations. */
  lemma IngestNewlyKnown(h: Hashes, b: Batch, p: Progress, e: Entry, ed: Edge)
    requires !e.notice && Known(IngestNode(h, b, p, e).tables, ed)
    ensures Known(p.tables, ed) || ed == Edge(Decide(h, b, p.tables, e).target, b.sub) ||
            (Decide(h, b, p.tables, e).unlink.Some? && ed == Edge(Decide(h, b, p.tables, e).unlink.value, b.sub))
  {
    IngestEdges(h, b, p, e);
    IngestHistory(h, b, p, e);
    var t, t' := p.tables, IngestNode(h, b, p, e).tables;
    if ed !in t'.sources {
      var k :| k in t'.history && k.node == ed.node && t'.history[k].sub == ed.sub;
      if k in t.history { assert t.history[k].sub == ed.sub; }
    }
  }

  /** The batch's view of existing nodes stems from associations that were known when it started. */
  ghost predicate ExistingKnown(h: Hashes, b: Batch) {
    forall id :: id in b.existing ==> OwnScope(h, Edge(id, b.sub))
  }

  lemma IngestTablesOk(h: Hashes, b: Batch, p: Progress, e: Entry)
    requires TablesOk(h, p.tables) && ExistingKnown(h, b) && ScopedInjective(h)
    requires !e.notice ==> !IsScoped(h, CandidateId(h, e))
    ensures TablesOk(h, Ingest(h, b, p, e).tables)
  {
    if !e.notice {
      var t' := IngestNode(h, b, p, e).tables;
      IngestEdges(h, b, p, e);
      DecisionShape(h, b, p.tables, e);
      forall ed | Known(t', ed) ensures OwnScope(h, ed) {
        IngestNewlyKnown(h, b, p, e, ed);
        assert ed.node == ScopedId(h, b, e) && ed.sub == b.sub ==> OwnScope(h, ed);
        assert ed.node == CandidateId(h, e) ==> OwnScope(h, ed);
      }
    } else {
      NoticeKeepsRest(b, p.tables, e);
      forall ed | Known(Ingest(h, b, p, e).tables, ed) ensures OwnScope(h, ed) { assert Known(p.tables, ed); }
    }
  }

  lemma NoticeKeepsRest(b: Batch, t: Tables, e: Entry)
    ensures IngestNotice(b, t, e).(rawNames := t.rawNames) == t
    ensures forall n, s :: Remembered(IngestNotice(b, t, e), n, s) <==> Remembered(t, n, s)
  {
  }

  /** No other subscription owns a node scoped to this one. */
  lemma ScopedIsOwn(h: Hashes, b: Batch, t: Tables, e: Entry)
    requires TablesOk(h, t)
    ensures !OwnedByOther(t, ScopedId(h, b, e), b.sub)
  {
    if OwnedByOther(t, ScopedId(h, b, e), b.sub) {
      var ed :| ed in t.sources && ed.node == ScopedId(h, b, e) && ed.sub != b.sub;
      assert Known(t, ed);
    }
  }

  lemma IngestOthers(h: Hashes, b: Batch, p: Progress, e: Entry, ed: Edge)
    requires ed.sub != b.sub
    ensures ed in Ingest(h, b, p, e).tables.sources <==> ed in p.tables.sources
    ensures ed in p.tables.sources ==> Ingest(h, b, p, e).tables.sources[ed] == p.tables.sources[ed]
  {
    if e.notice { NoticeKeepsRest(b, p.tables, e); } else { IngestEdges(h, b, p, e); }
  }

  /** Associations of other subscriptions are the same, with the same fetch. */
  ghost predicate OthersSame(t: Tables, t': Tables, sub: string) {
    forall ed: Edge :: ed.sub != sub ==>
      (ed in t'.sources <==> ed in t.sources) && (ed in t.sources ==> t'.sources[ed] == t.sources[ed])
  }

  lemma OthersOwn(t: Tables, t': Tables, sub: string, n: string)
    requires OthersSame(t, t', sub)
    ensures OwnedByOther(t', n, sub) <==> OwnedByOther(t, n, sub)
  {
    if ed :| ed in t.sources && ed.node == n && ed.sub != sub { assert ed in t'.sources; }
    if ed :| ed in t'.sources && ed.node == n && ed.sub != sub { assert ed in t.sources; }
  }

  // ---- A whole payload ----

  /** What holds part-way through a payload that started from `t0`. */
  ghost predicate Midway(h: Hashes, b: Batch, t0: Tables, t: Tables) {
    && TablesOk(h, t) && EvidenceOk(t) && OthersSame(t0, t, b.sub)
    && t0.nodes.Keys <= t.nodes.Keys
    && (forall ed :: Known(t0, ed) ==> Known(t, ed))
    && (!b.success ==> forall ed :: ed in t0.sources ==> ed in t.sources)
  }

  /** The batch was made from `t0`; its entries carry base ids. */
  ghost predicate Sound(h: Hashes, b: Batch, t0: Tables) {
    && ScopedInjective(h) && TablesOk(h, t0) && EvidenceOk(t0) && b.existing == ExistingRows(t0, b.sub)
    && BaseEntries(h, b.entries)
  }

  lemma SoundExisting(h: Hashes, b: Batch, t0: Tables)
    requires Sound(h, b, t0)
    ensures ExistingKnown(h, b)
    ensures forall n :: n in b.existing ==> n in t0.nodes && b.existing[n].connection == t0.nodes[n].connection
    ensures forall ed :: ed in t0.sources && ed.sub == b.sub ==> ed.node in b.existing
  {
    forall id | id in b.existing ensures OwnScope(h, Edge(id, b.sub)) { assert Known(t0, Edge(id, b.sub)); }
    forall ed | ed in t0.sources && ed.sub == b.sub ensures ed.node in b.existing { assert ed == Edge(ed.node, b.sub); }
  }

  lemma MidwayEdges(h: Hashes, b: Batch, t0: Tables, p: Progress, e: Entry)
    requires Midway(h, b, t0, p.tables)
    ensures var t' := Ingest(h, b, p, e).tables;
            && OthersSame(t0, t', b.sub) && t0.nodes.Keys <= t'.nodes.Keys
            && (!b.success ==> forall ed :: ed in t0.sources ==> ed in t'.sources)
  {
    var t' := Ingest(h, b, p, e).tables;
    forall ed: Edge | ed.sub != b.sub
      ensures (ed in t'.sources <==> ed in t0.sources) && (ed in t0.sources ==> t'.sources[ed] == t0.sources[ed])
    {
      IngestOthers(h, b, p, e, ed);
    }
    if e.notice { NoticeKeepsRest(b, p.tables, e); } else { IngestEdges(h, b, p, e); }
  }

  lemma MidwayStep(h: Hashes, b: Batch, t0: Tables, p: Progress, q: Progress, n: nat)
    requires Sound(h, b, t0) && n < |b.entries| && Midway(h, b, t0, p.tables) && q == Ingest(h, b, p, b.entries[n])
    ensures Midway(h, b, t0, q.tables)
  {
    var e := b.entries[n];
    SoundExisting(h, b, t0);
    IngestTablesOk(h, b, p, e);
    IngestEvidence(h, b, p, e);
    MidwayEdges(h, b, t0, p, e);
    forall ed | Known(t0, ed) ensures Known(q.tables, ed) { IngestKnown(h, b, p, e, ed); }
  }
}

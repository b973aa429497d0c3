/** The inventory service's tables as an object, and the refresh transaction run on them. */
module RefreshService {
  import opened Wrappers
  import opened Connection
  import opened Refresh

  /**
   What the transaction loads first: this subscription's nodes, live or remembered, under their last
   raw name.
   */
  function ExistingRows(t: Tables, sub: string): map<string, Row> {
    map id | id in t.nodes && (Edge(id, sub) in t.sources || Remembered(t, id, sub)) ::
      t.nodes[id].(displayName := if Edge(id, sub) in t.rawNames then t.rawNames[Edge(id, sub)] else t.nodes[id].displayName)
  }

  predicate Remembered(t: Tables, id: string, sub: string) {
    exists k :: k in t.history && k.node == id && t.history[k].sub == sub
  }

  function MakeBatch(t: Tables, sub: string, fetch: string, entries: seq<Entry>, success: bool, overrides: map<string, Override>): Batch {
    Batch(sub, fetch, entries, success, overrides, ExistingRows(t, sub))
  }

  ghost predicate RefreshedVia(h: Hashes, b: Batch, t: Tables, pruned: Tables, t': Tables) {
    var ingested := IngestFirst(h, b, t, |b.entries|).tables;
    (if b.success then PrunedTo(b, ingested, pruned) else pruned == ingested) && RenamedTo(pruned, t')
  }

  /** The tables after a refresh, up to the recomputed display names. */
  ghost predicate RefreshedTo(h: Hashes, b: Batch, t: Tables, t': Tables) {
    exists pruned :: RefreshedVia(h, b, t, pruned, t')
  }

  lemma Singleton(s: set<string>, x: string)
    requires |s| == 1 && x in s
    ensures TheOne(s) == x
  {
    assert |s - {x}| == 0;
    assert TheOne(s) in s;
  }

  method CountIncoming(es: seq<Entry>, name: string, protocol: string) returns (n: nat)
    ensures n == CountAlike(es, name, protocol)
  {
    n := 0;
    for k := 0 to |es|
      invariant n == CountAlike(es[..k], name, protocol)
    {
      assert es[..k + 1][..k] == es[..k];
      if es[k].name == name && es[k].connection.protocol == protocol { n := n + 1; }
    }
    assert es[..|es|] == es;
  }

  method FindMatch(h: Hashes, b: Batch, e: Entry) returns (m: Option<string>)
    ensures m == Match(h, b, e) && (m.Some? ==> m.value in b.existing)
  {
    if e.logicalId != "" && e.logicalId in b.existing { return Some(e.logicalId); }
    var alike := NamedAlike(b.existing, e.name, e.connection.protocol);
    var incoming := CountIncoming(b.entries, e.name, e.connection.protocol);
    if |alike| == 1 && incoming == 1 {
      var id :| id in alike;
      Singleton(alike, id);
      return Some(id);
    }
    if ScopedId(h, b, e) in b.existing { return Some(ScopedId(h, b, e)); }
    if CandidateId(h, e) in b.existing { return Some(CandidateId(h, e)); }
    m := None;
  }

  class Inventory {
    var nodes: map<string, Row>
    var sources: map<Edge, string>
    var history: map<HistoryKey, HistoryRow>
    var versions: map<VersionKey, Connection>
    var heads: map<string, int>
    var rawNames: map<Edge, string>

    function View(): Tables
      reads this
    {
      Tables(nodes, sources, history, versions, heads, rawNames)
    }

    method HasOtherOwner(node: string, sub: string) returns (owned: bool)
      ensures owned == OwnedByOther(View(), node, sub)
    {
      owned := exists ed :: ed in sources && ed.node == node && ed.sub != sub;
    }

    /** The decision for an entry that updates the stored node `mid`, with copy-on-write done. */
    method IngestMatched(h: Hashes, b: Batch, e: Entry, mid: string) returns (d: Decision)
      requires mid in b.existing
      modifies this`sources, this`history
      ensures d == DecideMatched(h, b, old(View()), e, mid)
      ensures View() == if d.unlink.Some? then Unlink(b, old(View()), mid) else old(View())
      ensures d.unlink.Some? ==> d.unlink.value == mid
    {
      var row := b.existing[mid];
      var c := e.connection;
      if mid in b.overrides { c := ApplyOverride(b.overrides[mid], c); }
      var same := AreConnectionParametersEqual(h.text, row.connection, c);
      if same { return Decision(mid, c, row.active, row.revision, None, false); }
      var shared := HasOtherOwner(mid, b.sub);
      if !shared { return Decision(mid, c, row.active, row.revision + 1, None, true); }
      var key := HistoryKey(mid, CowUnlinked(mid, b.sub));
      if key !in history { history := history[key := HistoryRow(b.sub, row.revision)]; }
      if b.success { sources := sources - {Edge(mid, b.sub)}; }
      d := Decision(ScopedId(h, b, e), c, row.active, row.revision + 1, Some(mid), true);
    }

    /** The decision for an entry that matches no node of this subscription. */
    method IngestUnmatched(h: Hashes, b: Batch, e: Entry) returns (d: Decision)
      ensures d == DecideUnmatched(h, b, View(), e)
    {
      var cid := CandidateId(h, e);
      if cid !in nodes { return Decision(cid, e.connection, true, 1, None, true); }
      var row := nodes[cid];
      if Edge(cid, b.sub) in sources { return Decision(cid, e.connection, row.active, row.revision, None, true); }
      var shared := HasOtherOwner(cid, b.sub);
      var same := AreConnectionParametersEqual(h.text, row.connection, e.connection);
      if same { return Decision(cid, e.connection, if shared then row.active else true, row.revision, None, true); }
      var sid := ScopedId(h, b, e);
      if sid !in nodes { return Decision(sid, e.connection, true, 1, None, true); }
      var sc := nodes[sid];
      var kept := AreConnectionParametersEqual(h.text, sc.connection, e.connection);
      d := Decision(sid, e.connection, sc.active, if kept then sc.revision else sc.revision + 1, None, true);
    }

    method WriteNode(b: Batch, seen: set<string>, e: Entry, d: Decision) returns (seen': set<string>)
      modifies this
      ensures View() == Write(b, old(View()), seen, e, d) && seen' == seen + {d.target}
    {
      versions := versions[VersionKey(d.target, d.revision) := d.connection];
      if d.newHead { heads := heads[d.target := d.revision]; }
      nodes := nodes[d.target := Row(d.connection, e.name, d.active, d.revision)];
      seen' := seen;
      if d.target !in seen {
        seen' := seen + {d.target};
        sources := sources[Edge(d.target, b.sub) := b.fetch];
      }
      rawNames := rawNames[Edge(d.target, b.sub) := e.name];
    }

    method IngestNoticeEntry(b: Batch, e: Entry)
      modifies this`rawNames
      ensures View() == IngestNotice(b, old(View()), e)
    {
      var m: Option<string> := None;
      if e.logicalId != "" && e.logicalId in b.existing {
        m := Some(e.logicalId);
      } else {
        var alike := NamedAlike(b.existing, e.name, e.connection.protocol);
        if |alike| == 1 {
          var id :| id in alike;
          Singleton(alike, id);
          m := Some(id);
        }
      }
      if m.Some? { rawNames := rawNames[Edge(m.value, b.sub) := e.name]; }
    }

    method IngestEntry(h: Hashes, b: Batch, seen: set<string>, e: Entry) returns (seen': set<string>)
      modifies this
      ensures Progress(View(), seen') == Ingest(h, b, Progress(old(View()), seen), e)
    {
      if e.notice {
        IngestNoticeEntry(b, e);
        return seen;
      }
      var m := FindMatch(h, b, e);
      var d;
      if m.Some? {
        d := IngestMatched(h, b, e, m.value);
      } else {
        d := IngestUnmatched(h, b, e);
      }
      seen' := WriteNode(b, seen, e, d);
    }

    /** Archives and drops this subscription's associations that the fetch did not see. */
    method PruneStale(b: Batch)
      modifies this`sources, this`history
      ensures PrunedTo(b, old(View()), View())
    {
      ghost var t := View();
      var todo := set ed | ed in sources && ed.sub == b.sub && sources[ed] != b.fetch;
      assert forall ed :: Stale(b, t, ed) <==> ed in todo;
      while todo != {}
        invariant sources == t.sources && (forall ed :: ed in todo ==> Stale(b, t, ed)) && Archived(b, t, todo, history)
        decreases todo
      {
        var ed :| ed in todo;
        ArchiveOne(b, t, todo, history, ed);
        if ed.node in nodes {
          var key := HistoryKey(ed.node, RefreshRemoved(b.sub, sources[ed]));
          if key !in history { history := history[key := HistoryRow(b.sub, nodes[ed.node].revision)]; }
        }
        todo := todo - {ed};
      }
      sources := map ed | ed in sources && !(ed.sub == b.sub && sources[ed] != b.fetch) :: sources[ed];
    }

    method Rename(names: map<string, string>)
      modifies this`nodes
      ensures RenamedTo(old(View()), View())
    {
      nodes := map id | id in nodes :: if id in names then nodes[id].(displayName := names[id]) else nodes[id];
    }

    method IngestEntries(h: Hashes, b: Batch)
      modifies this
      ensures View() == IngestFirst(h, b, old(View()), |b.entries|).tables
    {
      var seen: set<string> := {};
      for k := 0 to |b.entries|
        invariant Progress(View(), seen) == IngestFirst(h, b, old(View()), k)
      {
        seen := IngestEntry(h, b, seen, b.entries[k]);
      }
    }

    /** The whole transaction; `names` are the recomputed display names of the affected nodes. */
    method Reconcile(h: Hashes, sub: string, fetch: string, entries: seq<Entry>, success: bool,
                     overrides: map<string, Override>, names: map<string, string>)
      modifies this
      ensures RefreshedTo(h, MakeBatch(old(View()), sub, fetch, entries, success, overrides), old(View()), View())
    {
      var b := Batch(sub, fetch, entries, success, overrides, ExistingRows(View(), sub));
      IngestEntries(h, b);
      if success { PruneStale(b); }
      ghost var pruned := View();
      Rename(names);
      assert RefreshedVia(h, b, old(View()), pruned, View());
    }
  }

  /**
   Every stale association not in `todo` is archived in `hist`, which otherwise only grew by such
   records.
   */
  ghost predicate Archived(b: Batch, t: Tables, todo: set<Edge>, hist: map<HistoryKey, HistoryRow>) {
    && (forall k :: k in t.history ==> k in hist && hist[k] == t.history[k])
    && (forall ed :: Stale(b, t, ed) && ed !in todo && ed.node in t.nodes ==> PruneKey(b, t, ed) in hist)
    && (forall k :: k in hist && k !in t.history ==> PruneRecord(b, t, hist, k))
  }

  lemma ArchiveOne(b: Batch, t: Tables, todo: set<Edge>, hist: map<HistoryKey, HistoryRow>, ed: Edge)
    requires Archived(b, t, todo, hist) && ed in todo && Stale(b, t, ed)
    ensures Archived(b, t, todo - {ed},
                     if ed.node in t.nodes then Record(hist, PruneKey(b, t, ed), HistoryRow(b.sub, t.nodes[ed.node].revision)) else hist)
  {
    if ed.node in t.nodes && PruneKey(b, t, ed) !in hist {
      var key := PruneKey(b, t, ed);
      var hist' := hist[key := HistoryRow(b.sub, t.nodes[ed.node].revision)];
      forall k | k in hist' && k !in t.history ensures PruneRecord(b, t, hist', k) {
        if k == key {
          assert key == PruneKey(b, t, ed) && hist'[k] == HistoryRow(b.sub, t.nodes[ed.node].revision);
        } else {
          PruneRecordKept(b, t, hist, hist', k);
        }
      }
    }
  }

  lemma PruneRecordKept(b: Batch, t: Tables, hist: map<HistoryKey, HistoryRow>, hist': map<HistoryKey, HistoryRow>, k: HistoryKey)
    requires PruneRecord(b, t, hist, k) && k in hist' && hist'[k] == hist[k]
    ensures PruneRecord(b, t, hist', k)
  {
    var ed :| Stale(b, t, ed) && ed.node in t.nodes && k == PruneKey(b, t, ed) && hist[k] == HistoryRow(b.sub, t.nodes[ed.node].revision);
    assert k == PruneKey(b, t, ed) && hist'[k] == HistoryRow(b.sub, t.nodes[ed.node].revision);
  }
}

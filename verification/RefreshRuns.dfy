/**
 Guarantees of whole refreshes and of runs of refreshes. One refresh never touches another
 subscription's associations, removes no node row, forgets no association, prunes on full success
 only and then exactly what the payload did not confirm. Over any run provenance is never lost, and
 a run of other subscriptions' refreshes leaves a subscription's nodes connected as they were.
 */
module RefreshRuns {
  import opened Connection
  import opened Refresh
  import opened RefreshService
  import opened RefreshSafety
  import opened RefreshIsolation

  // ---- Pruning and renaming ----

  /** What every part of a refresh keeps. */
  ghost predicate Keeps(h: Hashes, b: Batch, t: Tables, t': Tables) {
    && TablesOk(h, t') && EvidenceOk(t') && OthersSame(t, t', b.sub)
    && t.nodes.Keys <= t'.nodes.Keys
    && (forall ed :: Known(t, ed) ==> Known(t', ed))
  }

  lemma PruneEvidence(b: Batch, t: Tables, t': Tables)
    requires EvidenceOk(t) && PrunedTo(b, t, t')
    ensures EvidenceOk(t')
    ensures forall k :: k in t'.history && k !in t.history ==> t'.history[k].sub == b.sub && Edge(k.node, b.sub) in t.sources
  {
    forall k | k in t'.history && k !in t.history
      ensures t'.history[k].sub == b.sub && Edge(k.node, b.sub) in t.sources && k.evidence.RefreshRemoved? && k.evidence.sub == b.sub
    {
      assert PruneRecord(b, t, t'.history, k);
      var ed :| Stale(b, t, ed) && ed.node in t.nodes && k == PruneKey(b, t, ed) && t'.history[k] == HistoryRow(b.sub, t.nodes[ed.node].revision);
      assert ed == Edge(k.node, b.sub);
    }
  }

  /** A pruned association stays known through its provenance record. */
  lemma PruneKnown(h: Hashes, b: Batch, t: Tables, t': Tables, ed: Edge)
    requires TablesOk(h, t) && EvidenceOk(t) && PrunedTo(b, t, t') && Known(t, ed)
    ensures Known(t', ed)
  {
    PruneEvidence(b, t, t');
    if Stale(b, t, ed) {
      var k := PruneKey(b, t, ed);
      assert k in t'.history && k.node == ed.node && t'.history[k].sub == ed.sub;
    } else if ed !in t.sources {
      RememberedKept(t, t', ed.node, ed.sub);
    }
  }

  lemma PruneKeeps(h: Hashes, b: Batch, t: Tables, t': Tables)
    requires TablesOk(h, t) && EvidenceOk(t) && PrunedTo(b, t, t')
    ensures Keeps(h, b, t, t')
  {
    PruneEvidence(b, t, t');
    forall ed | Known(t, ed) ensures Known(t', ed) { PruneKnown(h, b, t, t', ed); }
    forall ed | Known(t', ed) ensures OwnScope(h, ed) {
      if ed !in t'.sources {
        var k :| k in t'.history && k.node == ed.node && t'.history[k].sub == ed.sub;
        if k in t.history { assert Remembered(t, ed.node, ed.sub); }
      }
      assert Known(t, ed);
    }
  }

  lemma RenameKeeps(h: Hashes, b: Batch, t: Tables, t': Tables)
    requires TablesOk(h, t) && EvidenceOk(t) && RenamedTo(t, t')
    ensures Keeps(h, b, t, t')
  {
    assert t'.sources == t.sources && t'.history == t.history;
    forall ed ensures Known(t', ed) <==> Known(t, ed) {}
  }

  // ---- One refresh ----

  /**
   The associations of the refreshed subscription: all kept after a partial one, exactly the
   confirmed ones after a full one.
   */
  ghost predicate OwnEdges(h: Hashes, b: Batch, t: Tables, t': Tables) {
    var p := IngestFirst(h, b, t, |b.entries|);
    && (!b.success ==> forall ed :: ed in t.sources ==> ed in t'.sources)
    && (b.success ==> forall ed :: ed in t'.sources && ed.sub == b.sub ==> t'.sources[ed] == b.fetch)
    && (b.success && NewFetch(b, t) ==>
          forall x :: Edge(x, b.sub) in t'.sources <==> x in p.seen && Edge(x, b.sub) in p.tables.sources)
  }

  lemma KeepsTransitive(h: Hashes, b: Batch, t: Tables, u: Tables, v: Tables)
    requires Keeps(h, b, t, u) && Keeps(h, b, u, v)
    ensures Keeps(h, b, t, v)
  {
  }

  lemma RefreshedKeeps(h: Hashes, b: Batch, t: Tables, p: Progress, pruned: Tables, t': Tables)
    requires Sound(h, b, t) && Reached(h, b, t, p, |b.entries|)
    requires if b.success then PrunedTo(b, p.tables, pruned) else pruned == p.tables
    requires RenamedTo(pruned, t')
    ensures Keeps(h, b, t, t')
  {
    assert Keeps(h, b, t, p.tables);
    if b.success {
      PruneKeeps(h, b, p.tables, pruned);
      KeepsTransitive(h, b, t, p.tables, pruned);
    }
    RenameKeeps(h, b, pruned, t');
    KeepsTransitive(h, b, t, pruned, t');
  }

  lemma RefreshedShared(h: Hashes, b: Batch, t: Tables, u: Tables, v: Tables)
    requires u.nodes.Keys == v.nodes.Keys && forall n :: n in u.nodes ==> u.nodes[n].connection == v.nodes[n].connection
    ensures SharedSame(h, b, t, u) <==> SharedSame(h, b, t, v)
  {
  }

  /** The guarantees of one refresh, for any payload. */
  lemma RefreshGuarantees(h: Hashes, b: Batch, t: Tables, t': Tables)
    requires Sound(h, b, t) && RefreshedTo(h, b, t, t')
    ensures Keeps(h, b, t, t') && OwnEdges(h, b, t, t')
    ensures SharedSame(h, b, t, t') <==> ClashFree(h, b, t)
  {
    var pruned :| RefreshedVia(h, b, t, pruned, t');
    var p := IngestFirst(h, b, t, |b.entries|);
    PayloadReached(h, b, t);
    RefreshedKeeps(h, b, t, p, pruned, t');
    PayloadIsolates(h, b, t, p);
    RefreshedShared(h, b, t, p.tables, t');
    RefreshedOwn(h, b, t, p, pruned, t');
  }

  lemma RefreshedOwn(h: Hashes, b: Batch, t: Tables, p: Progress, pruned: Tables, t': Tables)
    requires p == IngestFirst(h, b, t, |b.entries|) && Reached(h, b, t, p, |b.entries|)
    requires if b.success then PrunedTo(b, p.tables, pruned) else pruned == p.tables
    requires RenamedTo(pruned, t')
    ensures OwnEdges(h, b, t, t')
  {
    assert t'.sources == pruned.sources;
    if NewFetch(b, t) { PayloadConfirmed(h, b, t, |b.entries|); }
  }

  /**
   A node `c` of another subscription, and a payload that repeats its id with the connections `x` and
   `y`.
   */
  function SharedNode(c: string, x: Connection, other: string): Tables {
    Tables(map[c := Row(x, "n", true, 1)], map[Edge(c, other) := "f0"], map[], map[], map[], map[])
  }

  function RepeatedId(t: Tables, c: string, x: Connection, y: Connection, sub: string): Batch {
    MakeBatch(t, sub, "f1", [Entry(c, "a", x, false), Entry(c, "b", y, false)], true, map[])
  }

  lemma RepeatedIdSound(h: Hashes, c: string, x: Connection, y: Connection, sub: string, other: string)
    requires ScopedInjective(h) && c != "" && !IsScoped(h, c) && sub != other
    ensures var t := SharedNode(c, x, other); Sound(h, RepeatedId(t, c, x, y, sub), t)
  {
    var t := SharedNode(c, x, other);
    forall ed | Known(t, ed) ensures OwnScope(h, ed) { assert ed == Edge(c, other); }
  }

  lemma RepeatedIdUnmatched(h: Hashes, c: string, x: Connection, y: Connection, sub: string, other: string, k: int)
    requires c != "" && sub != other && 0 <= k < 2
    ensures Unmatched(h, RepeatedId(SharedNode(c, x, other), c, x, y, sub), c, k)
  {
    var b := RepeatedId(SharedNode(c, x, other), c, x, y, sub);
    assert b.existing == map[];
    assert NamedAlike(b.existing, b.entries[k].name, b.entries[k].connection.protocol) == {};
  }

  /**
   The clash is real: a payload that repeats the id of another subscription's node, first with the
   stored connection and then with a different one, changes that node under its owner.
   */
  lemma RepeatedIdOverwrites(h: Hashes, c: string, x: Connection, y: Connection, sub: string, other: string, t': Tables)
    requires ScopedInjective(h) && c != "" && !IsScoped(h, c) && sub != other && !Same(h.text, x, y)
    requires var t := SharedNode(c, x, other); RefreshedTo(h, RepeatedId(t, c, x, y, sub), t, t')
    ensures var t := SharedNode(c, x, other); !SharedSame(h, RepeatedId(t, c, x, y, sub), t, t')
  {
    var t := SharedNode(c, x, other);
    var b := RepeatedId(t, c, x, y, sub);
    RepeatedIdSound(h, c, x, y, sub, other);
    RepeatedIdUnmatched(h, c, x, y, sub, other, 0);
    RepeatedIdUnmatched(h, c, x, y, sub, other, 1);
    assert ClashAt(h, b, x, c, 2, 0, 1);
    assert Edge(c, other) in t.sources && OwnedByOther(t, c, sub);
    RefreshGuarantees(h, b, t, t');
  }

  // ---- Runs ----

  /** One refresh job: a failed fetch leaves the tables alone, anything else applies a batch. */
  datatype Job = Failed(sub: string) | Applied(batch: Batch)

  function JobSub(j: Job): string {
    match j case Failed(s) => s case Applied(b) => b.sub
  }

  ghost predicate JobStep(h: Hashes, t: Tables, j: Job, t': Tables) {
    match j
    case Failed(_) => t' == t
    case Applied(b) => b.existing == ExistingRows(t, b.sub) && BaseEntries(h, b.entries) && RefreshedTo(h, b, t, t')
  }

  ghost predicate IsRun(h: Hashes, jobs: seq<Job>, trace: seq<Tables>) {
    |trace| == |jobs| + 1 && forall i, j :: 0 <= i < |jobs| && j == i + 1 ==> JobStep(h, trace[i], jobs[i], trace[j])
  }

  ghost predicate InventoryOk(h: Hashes, t: Tables) {
    ScopedInjective(h) && TablesOk(h, t) && EvidenceOk(t)
  }

  /** What any job keeps. */
  lemma JobKeeps(h: Hashes, t: Tables, j: Job, t': Tables)
    requires InventoryOk(h, t) && JobStep(h, t, j, t')
    ensures InventoryOk(h, t') && t.nodes.Keys <= t'.nodes.Keys && OthersSame(t, t', JobSub(j))
    ensures forall ed :: Known(t, ed) ==> Known(t', ed)
  {
    if j.Applied? { RefreshGuarantees(h, j.batch, t, t'); }
  }

  lemma RunPrefix(h: Hashes, jobs: seq<Job>, trace: seq<Tables>)
    requires IsRun(h, jobs, trace) && jobs != []
    ensures IsRun(h, jobs[..|jobs| - 1], trace[..|jobs|])
    ensures JobStep(h, trace[|jobs| - 1], jobs[|jobs| - 1], trace[|jobs|])
  {
  }

  /**
   Over any run, whatever was once associated with a subscription stays live or remembered, and no
   node row is lost.
   */
  lemma {:induction false} ProvenanceNeverLost(h: Hashes, jobs: seq<Job>, trace: seq<Tables>, i: nat)
    requires IsRun(h, jobs, trace) && InventoryOk(h, trace[0]) && i <= |jobs|
    ensures InventoryOk(h, trace[|jobs|])
    ensures trace[i].nodes.Keys <= trace[|jobs|].nodes.Keys
    ensures forall ed :: Known(trace[i], ed) ==> Known(trace[|jobs|], ed)
  {
    if jobs != [] {
      var n := |jobs| - 1;
      RunPrefix(h, jobs, trace);
      ProvenanceNeverLost(h, jobs[..n], trace[..n + 1], if i <= n then i else n);
      JobKeeps(h, trace[n], jobs[n], trace[n + 1]);
    }
  }

  /** Before each job of the run no shared node clashes with its payload. */
  ghost predicate RunClashFree(h: Hashes, jobs: seq<Job>, trace: seq<Tables>)
    requires |trace| == |jobs| + 1
  {
    forall i :: 0 <= i < |jobs| && jobs[i].Applied? ==> ClashFree(h, jobs[i].batch, trace[i])
  }

  /** The association and the meaning of its node's connection are the same. */
  ghost predicate EdgeIntact(h: Hashes, t: Tables, t': Tables, ed: Edge) {
    && (ed in t'.sources <==> ed in t.sources)
    && (ed in t.sources ==>
          && t'.sources[ed] == t.sources[ed] && ed.node in t.nodes && ed.node in t'.nodes
          && Same(h.text, t.nodes[ed.node].connection, t'.nodes[ed.node].connection))
  }

  lemma ForeignJobIntact(h: Hashes, t: Tables, j: Job, t': Tables, ed: Edge)
    requires InventoryOk(h, t) && JobStep(h, t, j, t') && JobSub(j) != ed.sub
    requires j.Applied? ==> ClashFree(h, j.batch, t)
    ensures EdgeIntact(h, t, t', ed)
  {
    JobKeeps(h, t, j, t');
    if j.Applied? && ed in t.sources {
      RefreshGuarantees(h, j.batch, t, t');
      assert OwnedByOther(t, ed.node, j.batch.sub);
    }
  }

  /** A run of other subscriptions' refreshes leaves a subscription's associations and connections intact. */
  lemma {:induction false} ForeignRunIntact(h: Hashes, jobs: seq<Job>, trace: seq<Tables>, ed: Edge)
    requires IsRun(h, jobs, trace) && InventoryOk(h, trace[0]) && RunClashFree(h, jobs, trace)
    requires forall i :: 0 <= i < |jobs| ==> JobSub(jobs[i]) != ed.sub
    ensures EdgeIntact(h, trace[0], trace[|jobs|], ed)
  {
    if jobs != [] {
      var n := |jobs| - 1;
      RunPrefix(h, jobs, trace);
      ForeignRunIntact(h, jobs[..n], trace[..n + 1], ed);
      ProvenanceNeverLost(h, jobs[..n], trace[..n + 1], n);
      ForeignJobIntact(h, trace[n], jobs[n], trace[n + 1], ed);
    }
  }
}

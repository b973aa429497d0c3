/**
 Which of the nodes a full refresh wrote are linked to the subscription afterwards: all that are new
 to it, and of its stored nodes exactly those from which no entry is split off after one has written
 them. A payload that names a shared node first as stored and then changed loses the link.
 */
module RefreshLinks {
  import opened Wrappers
  import opened Connection
  import opened Refresh
  import opened RefreshService
  import opened RefreshSafety
  import opened RefreshIsolation
  import opened RefreshRuns
  import opened RefreshStored

  /** What an entry does to the link of a stored node. */
  datatype LinkMark = Idle | Written | Split

  ghost function LinkOf(h: Hashes, b: Batch, t: Tables, x: string, e: Entry): LinkMark {
    if SplitsOff(h, b, t, e) && Stored(h, b, e) == Some(x) then Split
    else if WrittenTo(h, b, t, e) == Some(x) then Written
    else Idle
  }

  /** Some entry writes `x`. */
  ghost predicate IsWritten(h: Hashes, b: Batch, t: Tables, x: string, n: nat)
    requires n <= |b.entries|
  {
    exists i :: 0 <= i < n && LinkOf(h, b, t, x, b.entries[i]) == Written
  }

  /** Some entry is split off from `x` after one has written it. */
  ghost predicate LosesLink(h: Hashes, b: Batch, t: Tables, x: string, n: nat)
    requires n <= |b.entries|
  {
    exists i, k :: LostAt(h, b, t, x, n, i, k)
  }

  ghost predicate LostAt(h: Hashes, b: Batch, t: Tables, x: string, n: nat, i: int, k: int)
    requires n <= |b.entries|
  {
    0 <= i < k < n && LinkOf(h, b, t, x, b.entries[i]) == Written && LinkOf(h, b, t, x, b.entries[k]) == Split
  }

  lemma WrittenNext(h: Hashes, b: Batch, t: Tables, x: string, n: nat)
    requires n < |b.entries|
    ensures IsWritten(h, b, t, x, n + 1) <==> IsWritten(h, b, t, x, n) || LinkOf(h, b, t, x, b.entries[n]) == Written
  {
  }

  lemma LostNext(h: Hashes, b: Batch, t: Tables, x: string, n: nat)
    requires n < |b.entries|
    ensures LosesLink(h, b, t, x, n + 1) <==>
            LosesLink(h, b, t, x, n) || (LinkOf(h, b, t, x, b.entries[n]) == Split && IsWritten(h, b, t, x, n))
  {
    if i, k :| LostAt(h, b, t, x, n, i, k) { assert LostAt(h, b, t, x, n + 1, i, k); }
    if LinkOf(h, b, t, x, b.entries[n]) == Split && IsWritten(h, b, t, x, n) {
      var i :| 0 <= i < n && LinkOf(h, b, t, x, b.entries[i]) == Written;
      assert LostAt(h, b, t, x, n + 1, i, n);
    }
    var m := n + 1;
    if i, k :| LostAt(h, b, t, x, m, i, k) {
      if k < n { assert LostAt(h, b, t, x, n, i, k); }
    }
  }

  /** A split never writes the node it splits off from. */
  lemma SplitElsewhere(h: Hashes, b: Batch, t: Tables, e: Entry)
    requires TablesOk(h, t) && SplitsOff(h, b, t, e)
    ensures Stored(h, b, e) != Some(ScopedId(h, b, e))
  {
    ScopedIsOwn(h, b, t, e);
  }

  /** The link and the seen mark of a stored node after one entry of a full refresh. */
  lemma StoredLink(h: Hashes, b: Batch, t0: Tables, p: Progress, e: Entry, x: string)
    requires b.success && TablesOk(h, t0) && OthersSame(t0, p.tables, b.sub) && x in b.existing
    ensures var q, ed := Ingest(h, b, p, e), Edge(x, b.sub);
            match LinkOf(h, b, t0, x, e)
            case Idle => (x in q.seen <==> x in p.seen) && (ed in q.tables.sources <==> ed in p.tables.sources)
            case Written => x in q.seen && (ed in q.tables.sources <==> ed in p.tables.sources || x !in p.seen)
            case Split => (x in q.seen <==> x in p.seen) && ed !in q.tables.sources
  {
    GuardsAsLoaded(h, b, t0, p.tables, e);
    if SplitsOff(h, b, t0, e) { SplitElsewhere(h, b, t0, e); }
    if e.notice {
      NoticeKeepsRest(b, p.tables, e);
    } else {
      if Stored(h, b, e).Some? { DecidedByGuards(h, b, p.tables, e); } else { UnstoredLinks(h, b, p.tables, e); }
    }
  }

  lemma UnstoredLinks(h: Hashes, b: Batch, t: Tables, e: Entry)
    requires !e.notice && Stored(h, b, e).None?
    ensures var d := Decide(h, b, t, e); d.target !in b.existing && d.unlink.None?
  {
    UnmatchedMoves(h, b, t, e);
  }

  ghost predicate LinkAt(h: Hashes, b: Batch, t0: Tables, p: Progress, x: string, n: nat)
    requires n <= |b.entries|
  {
    && (x in p.seen <==> IsWritten(h, b, t0, x, n))
    && (x in p.seen ==> (Edge(x, b.sub) in p.tables.sources <==> !LosesLink(h, b, t0, x, n)))
  }

  lemma NotYetLost(h: Hashes, b: Batch, t: Tables, x: string, n: nat)
    requires n <= |b.entries| && !IsWritten(h, b, t, x, n)
    ensures !LosesLink(h, b, t, x, n)
  {
  }

  lemma LinkStep(h: Hashes, b: Batch, t0: Tables, ps: seq<Progress>, x: string, n: nat)
    requires b.success && TablesOk(h, t0) && Steps(h, b, t0, ps) && n < |b.entries| && x in b.existing
    requires LinkAt(h, b, t0, ps[n], x, n)
    ensures LinkAt(h, b, t0, ps[n + 1], x, n + 1)
  {
    assert StepAt(h, b, t0, ps, n);
    StoredLink(h, b, t0, ps[n], b.entries[n], x);
    WrittenNext(h, b, t0, x, n);
    LostNext(h, b, t0, x, n);
    if !IsWritten(h, b, t0, x, n) { NotYetLost(h, b, t0, x, n); }
  }

  lemma {:induction false} PayloadLinks(h: Hashes, b: Batch, t0: Tables, ps: seq<Progress>, x: string, n: nat)
    requires b.success && TablesOk(h, t0) && Steps(h, b, t0, ps) && n <= |b.entries| && x in b.existing
    ensures LinkAt(h, b, t0, ps[n], x, n)
  {
    if n > 0 {
      PayloadLinks(h, b, t0, ps, x, n - 1);
      LinkStep(h, b, t0, ps, x, n - 1);
    }
  }

  /**
   After a full refresh a stored node is linked exactly when an entry writes it and none is split off
   from it later.
   */
  lemma StoredLinkedExactly(h: Hashes, b: Batch, t: Tables, t': Tables, x: string)
    requires Sound(h, b, t) && RefreshedTo(h, b, t, t') && b.success && NewFetch(b, t) && x in b.existing
    ensures Edge(x, b.sub) in t'.sources <==>
            IsWritten(h, b, t, x, |b.entries|) && !LosesLink(h, b, t, x, |b.entries|)
    ensures x in IngestFirst(h, b, t, |b.entries|).seen <==> IsWritten(h, b, t, x, |b.entries|)
  {
    var n, ps := |b.entries|, States(h, b, t);
    PayloadSteps(h, b, t);
    PayloadLinks(h, b, t, ps, x, n);
    assert ps[n] == IngestFirst(h, b, t, n);
    RefreshGuarantees(h, b, t, t');
  }

  lemma NewNodesLinked(h: Hashes, b: Batch, t: Tables, t': Tables, x: string)
    requires Sound(h, b, t) && RefreshedTo(h, b, t, t') && b.success && NewFetch(b, t) && x !in b.existing
    ensures Edge(x, b.sub) in t'.sources <==> x in IngestFirst(h, b, t, |b.entries|).seen
  {
    PayloadReached(h, b, t);
    RefreshGuarantees(h, b, t, t');
  }

  /**
   After a full refresh every node it wrote is linked exactly when no entry is split off from a node
   that an earlier one wrote.
   */
  lemma WrittenLinkedExactly(h: Hashes, b: Batch, t: Tables, t': Tables)
    requires Sound(h, b, t) && RefreshedTo(h, b, t, t') && b.success && NewFetch(b, t)
    ensures var n := |b.entries|;
            (forall x :: x in IngestFirst(h, b, t, n).seen ==> Edge(x, b.sub) in t'.sources) <==>
            (forall x :: x in b.existing ==> !LosesLink(h, b, t, x, n))
  {
    var n := |b.entries|;
    var seen := IngestFirst(h, b, t, n).seen;
    forall x ensures x in seen && Edge(x, b.sub) !in t'.sources <==> x in b.existing && LosesLink(h, b, t, x, n) {
      if x in b.existing {
        StoredLinkedExactly(h, b, t, t', x);
        if !IsWritten(h, b, t, x, n) { NotYetLost(h, b, t, x, n); }
      } else {
        NewNodesLinked(h, b, t, t', x);
      }
    }
  }

  // ---- A written node loses its link ----

  /** A node shared by two subscriptions, and a payload naming it first as stored and then changed. */
  function SharedByBoth(c: string, x: Connection, sub: string, other: string): Tables {
    Tables(map[c := Row(x, "n", true, 1)], map[Edge(c, other) := "f0", Edge(c, sub) := "f0"], map[], map[], map[], map[])
  }

  function StoredThenChanged(t: Tables, c: string, x: Connection, y: Connection, sub: string): Batch {
    MakeBatch(t, sub, "f1", [Entry(c, "a", x, false), Entry(c, "b", y, false)], true, map[])
  }

  lemma StoredThenChangedMarks(h: Hashes, c: string, x: Connection, y: Connection, sub: string, other: string)
    requires c != "" && sub != other && !Same(h.text, x, y)
    ensures var t := SharedByBoth(c, x, sub, other); var b := StoredThenChanged(t, c, x, y, sub);
            c in b.existing && LinkOf(h, b, t, c, b.entries[0]) == Written && LinkOf(h, b, t, c, b.entries[1]) == Split
  {
    var t := SharedByBoth(c, x, sub, other);
    var b := StoredThenChanged(t, c, x, y, sub);
    assert Edge(c, sub) in t.sources && c in b.existing;
    assert Edge(c, other) in t.sources && OwnedByOther(t, c, sub);
    assert Stored(h, b, b.entries[0]) == Some(c) == Stored(h, b, b.entries[1]);
  }

  lemma SharedByBothSound(h: Hashes, c: string, x: Connection, y: Connection, sub: string, other: string)
    requires ScopedInjective(h) && c != "" && !IsScoped(h, c)
    ensures var t := SharedByBoth(c, x, sub, other); var b := StoredThenChanged(t, c, x, y, sub); Sound(h, b, t) && NewFetch(b, t)
  {
    var t := SharedByBoth(c, x, sub, other);
    forall ed | Known(t, ed) ensures OwnScope(h, ed) { assert ed.node == c; }
  }

  /** The payload writes the node, yet the subscription is no longer linked to it. */
  lemma WrittenNodeUnlinked(h: Hashes, c: string, x: Connection, y: Connection, sub: string, other: string, t': Tables)
    requires ScopedInjective(h) && c != "" && !IsScoped(h, c) && sub != other && !Same(h.text, x, y)
    requires var t := SharedByBoth(c, x, sub, other); RefreshedTo(h, StoredThenChanged(t, c, x, y, sub), t, t')
    ensures var t := SharedByBoth(c, x, sub, other); var b := StoredThenChanged(t, c, x, y, sub);
            c in IngestFirst(h, b, t, 2).seen && Edge(c, sub) !in t'.sources
  {
    var t := SharedByBoth(c, x, sub, other);
    var b := StoredThenChanged(t, c, x, y, sub);
    StoredThenChangedMarks(h, c, x, y, sub, other);
    SharedByBothSound(h, c, x, y, sub, other);
    assert LostAt(h, b, t, c, 2, 0, 1);
    StoredLinkedExactly(h, b, t, t', c);
  }
}

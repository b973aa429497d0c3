/**
 What a refresh writes down besides rows. A stored node is remembered under the name its last entry
 carried, whatever it is renamed to, so the next refresh finds it by that name; and a node that an
 entry is split off from leaves a record of the revision it had.
 */
module RefreshRecords {
  import opened Wrappers
  import opened Connection
  import opened Refresh
  import opened RefreshService
  import opened RefreshSafety
  import opened RefreshStored

  // ---- Matching ----

  /** The stored node has the entry's name and protocol. */
  ghost predicate Alike(b: Batch, x: string, e: Entry) {
    x in b.existing && b.existing[x].displayName == e.name && b.existing[x].connection.protocol == e.connection.protocol
  }

  ghost predicate AloneAlike(b: Batch, x: string, e: Entry) {
    Alike(b, x, e) && forall y :: Alike(b, y, e) ==> y == x
  }

  lemma AloneExactly(b: Batch, e: Entry, x: string)
    ensures AloneAlike(b, x, e) <==>
            NamedAlike(b.existing, e.name, e.connection.protocol) == {x}
  {
    var s := NamedAlike(b.existing, e.name, e.connection.protocol);
    assert forall y :: y in s <==> Alike(b, y, e);
  }

  lemma OneAlike(b: Batch, e: Entry)
    requires |NamedAlike(b.existing, e.name, e.connection.protocol)| == 1
    ensures AloneAlike(b, TheOne(NamedAlike(b.existing, e.name, e.connection.protocol)), e)
  {
    var s := NamedAlike(b.existing, e.name, e.connection.protocol);
    var x := TheOne(s);
    assert x in s && |s - {x}| == 0;
    AloneExactly(b, e, x);
  }

  /**
   An entry is matched by its own id, by a name and protocol no other stored node has, or by its
   scoped or base id.
   */
  lemma MatchMeans(h: Hashes, b: Batch, e: Entry, x: string)
    requires Match(h, b, e) == Some(x)
    ensures x in b.existing
    ensures e.logicalId == x || AloneAlike(b, x, e) || x == h.scopedId(b.sub, CandidateId(h, e)) || x == CandidateId(h, e)
  {
    if UniqueByName(b, e) { OneAlike(b, e); }
  }

  /** A notice is noted with the stored node of its id, else with the only one of its name and protocol. */
  lemma NoticeMeans(b: Batch, e: Entry, x: string)
    ensures NoticeMatch(b, e) == Some(x) <==>
            if e.logicalId != "" && e.logicalId in b.existing then x == e.logicalId else AloneAlike(b, x, e)
  {
    var s := NamedAlike(b.existing, e.name, e.connection.protocol);
    AloneExactly(b, e, x);
    if |s| == 1 { OneAlike(b, e); }
  }

  // ---- Names ----

  /** The entry is the last seen for the stored node `x`. */
  ghost predicate NamesNode(h: Hashes, b: Batch, t: Tables, x: string, e: Entry) {
    if e.notice then NoticeMatch(b, e) == Some(x) else WrittenTo(h, b, t, e) == Some(x)
  }

  /** The name on record for `x` after the first `n` entries. */
  ghost function NameAfter(h: Hashes, b: Batch, t: Tables, x: string, n: nat): Option<string>
    requires n <= |b.entries|
  {
    if n == 0 then if Edge(x, b.sub) in t.rawNames then Some(t.rawNames[Edge(x, b.sub)]) else None
    else if NamesNode(h, b, t, x, b.entries[n - 1]) then Some(b.entries[n - 1].name)
    else NameAfter(h, b, t, x, n - 1)
  }

  ghost predicate NamedAt(h: Hashes, b: Batch, t0: Tables, t: Tables, x: string, n: nat)
    requires n <= |b.entries|
  {
    && (Edge(x, b.sub) in t.rawNames <==> NameAfter(h, b, t0, x, n).Some?)
    && (Edge(x, b.sub) in t.rawNames ==> t.rawNames[Edge(x, b.sub)] == NameAfter(h, b, t0, x, n).value)
  }

  /** What one entry does to the recorded names. */
  lemma NameWritten(h: Hashes, b: Batch, t0: Tables, p: Progress, e: Entry, x: string)
    requires OthersSame(t0, p.tables, b.sub) && x in b.existing
    ensures var raw, raw' := p.tables.rawNames, Ingest(h, b, p, e).tables.rawNames;
            if NamesNode(h, b, t0, x, e) then Edge(x, b.sub) in raw' && raw'[Edge(x, b.sub)] == e.name
            else (Edge(x, b.sub) in raw' <==> Edge(x, b.sub) in raw) && (Edge(x, b.sub) in raw ==> raw'[Edge(x, b.sub)] == raw[Edge(x, b.sub)])
  {
    GuardsAsLoaded(h, b, t0, p.tables, e);
    if !e.notice {
      if Stored(h, b, e).Some? { DecidedByGuards(h, b, p.tables, e); } else { UnmatchedMoves(h, b, p.tables, e); }
    }
  }

  lemma NameStep(h: Hashes, b: Batch, t0: Tables, ps: seq<Progress>, x: string, n: nat)
    requires Steps(h, b, t0, ps) && n < |b.entries| && x in b.existing && NamedAt(h, b, t0, ps[n].tables, x, n)
    ensures NamedAt(h, b, t0, ps[n + 1].tables, x, n + 1)
  {
    assert StepAt(h, b, t0, ps, n);
    NameWritten(h, b, t0, ps[n], b.entries[n], x);
  }

  ghost function NameFlags(h: Hashes, b: Batch, t0: Tables, x: string, ps: seq<Progress>): seq<bool>
    requires |ps| == |b.entries| + 1
  {
    seq(|ps|, i requires 0 <= i < |ps| => NamedAt(h, b, t0, ps[i].tables, x, i))
  }

  lemma PayloadNames(h: Hashes, b: Batch, t0: Tables, x: string, ps: seq<Progress>)
    requires Steps(h, b, t0, ps) && x in b.existing
    ensures NamedAt(h, b, t0, ps[|b.entries|].tables, x, |b.entries|)
  {
    var flags := NameFlags(h, b, t0, x, ps);
    assert NamedAt(h, b, t0, t0, x, 0);
    forall k | 0 < k < |flags| && flags[k - 1] ensures flags[k] { NameStep(h, b, t0, ps, x, k - 1); }
    AllHold(flags, |b.entries|);
  }

  /** A refresh leaves a stored node on record under the name of the last entry or notice seen for it. */
  lemma NameRecorded(h: Hashes, b: Batch, t: Tables, t': Tables, x: string)
    requires b.existing == ExistingRows(t, b.sub) && RefreshedTo(h, b, t, t') && x in b.existing
    ensures NamedAt(h, b, t, t', x, |b.entries|)
  {
    var pruned :| RefreshedVia(h, b, t, pruned, t');
    PayloadSteps(h, b, t);
    PayloadNames(h, b, t, x, States(h, b, t));
    assert t'.rawNames == IngestFirst(h, b, t, |b.entries|).tables.rawNames;
  }

  /**
   The next refresh loads the node under that name, whatever name it was given since, and matches it by
   an entry of that name and its protocol, if no other stored node and no other entry has both.
   */
  lemma FoundAgain(h: Hashes, b: Batch, t: Tables, t': Tables, x: string, next: Batch, e: Entry)
    requires b.existing == ExistingRows(t, b.sub) && RefreshedTo(h, b, t, t') && x in b.existing
    requires NameAfter(h, b, t, x, |b.entries|).Some?
    requires next.existing == ExistingRows(t', b.sub) && next.sub == b.sub && x in next.existing
    ensures next.existing[x].displayName == NameAfter(h, b, t, x, |b.entries|).value
    ensures (&& e.name == NameAfter(h, b, t, x, |b.entries|).value && e.connection.protocol == t'.nodes[x].connection.protocol
             && AloneAlike(next, x, e) && CountAlike(next.entries, e.name, e.connection.protocol) == 1
             && (e.logicalId == "" || e.logicalId !in next.existing)) ==> Match(h, next, e) == Some(x)
  {
    NameRecorded(h, b, t, t', x);
    AloneExactly(next, e, x);
  }

  // ---- Records of splits ----

  ghost function SplitKey(b: Batch, x: string): HistoryKey {
    HistoryKey(x, CowUnlinked(x, b.sub))
  }

  /** Some of the first `n` entries is split off from `x`. */
  ghost predicate SplitFrom(h: Hashes, b: Batch, t: Tables, x: string, n: nat)
    requires n <= |b.entries|
  {
    exists k :: 0 <= k < n && SplitsOff(h, b, t, b.entries[k]) && Stored(h, b, b.entries[k]) == Some(x)
  }

  ghost predicate SplitNoted(h: Hashes, b: Batch, t0: Tables, t: Tables, x: string, n: nat)
    requires n <= |b.entries| && x in b.existing
  {
    && (SplitKey(b, x) in t.history <==> SplitFrom(h, b, t0, x, n))
    && (SplitKey(b, x) in t.history ==> t.history[SplitKey(b, x)] == HistoryRow(b.sub, b.existing[x].revision))
  }

  /** What one entry does to the record of `x`. */
  lemma SplitWritten(h: Hashes, b: Batch, t0: Tables, p: Progress, e: Entry, x: string)
    requires OthersSame(t0, p.tables, b.sub) && x in b.existing
    ensures var hist, hist' := p.tables.history, Ingest(h, b, p, e).tables.history;
            if SplitsOff(h, b, t0, e) && Stored(h, b, e) == Some(x)
            then hist' == Record(hist, SplitKey(b, x), HistoryRow(b.sub, b.existing[x].revision))
            else (SplitKey(b, x) in hist' <==> SplitKey(b, x) in hist) && (SplitKey(b, x) in hist ==> hist'[SplitKey(b, x)] == hist[SplitKey(b, x)])
  {
    GuardsAsLoaded(h, b, t0, p.tables, e);
    if !e.notice {
      if Stored(h, b, e).Some? { DecidedByGuards(h, b, p.tables, e); } else { Unsplit(h, b, p.tables, e); }
    }
  }

  lemma SplitFromNext(h: Hashes, b: Batch, t: Tables, x: string, n: nat)
    requires n < |b.entries|
    ensures SplitFrom(h, b, t, x, n + 1) <==>
            SplitFrom(h, b, t, x, n) || (SplitsOff(h, b, t, b.entries[n]) && Stored(h, b, b.entries[n]) == Some(x))
  {
  }

  lemma SplitStep(h: Hashes, b: Batch, t0: Tables, ps: seq<Progress>, x: string, n: nat)
    requires Steps(h, b, t0, ps) && n < |b.entries| && x in b.existing && SplitNoted(h, b, t0, ps[n].tables, x, n)
    ensures SplitNoted(h, b, t0, ps[n + 1].tables, x, n + 1)
  {
    assert StepAt(h, b, t0, ps, n);
    SplitWritten(h, b, t0, ps[n], b.entries[n], x);
    SplitFromNext(h, b, t0, x, n);
  }

  lemma Unsplit(h: Hashes, b: Batch, t: Tables, e: Entry)
    requires Match(h, b, e).None?
    ensures Decide(h, b, t, e).unlink.None?
  {
  }

  ghost function SplitFlags(h: Hashes, b: Batch, t0: Tables, x: string, ps: seq<Progress>): seq<bool>
    requires |ps| == |b.entries| + 1 && x in b.existing
  {
    seq(|ps|, i requires 0 <= i < |ps| => SplitNoted(h, b, t0, ps[i].tables, x, i))
  }

  lemma PayloadSplits(h: Hashes, b: Batch, t0: Tables, x: string, ps: seq<Progress>)
    requires Steps(h, b, t0, ps) && x in b.existing && SplitKey(b, x) !in t0.history
    ensures SplitNoted(h, b, t0, ps[|b.entries|].tables, x, |b.entries|)
  {
    var flags := SplitFlags(h, b, t0, x, ps);
    assert SplitNoted(h, b, t0, t0, x, 0);
    forall k | 0 < k < |flags| && flags[k - 1] ensures flags[k] { SplitStep(h, b, t0, ps, x, k - 1); }
    AllHold(flags, |b.entries|);
  }

  /**
   A first split off from a stored node is on record exactly if there was one, with the revision the
   node had.
   */
  lemma SplitRecorded(h: Hashes, b: Batch, t: Tables, t': Tables, x: string)
    requires b.existing == ExistingRows(t, b.sub) && RefreshedTo(h, b, t, t') && x in b.existing && SplitKey(b, x) !in t.history
    ensures SplitKey(b, x) in t'.history <==> SplitFrom(h, b, t, x, |b.entries|)
    ensures SplitKey(b, x) in t'.history ==> t'.history[SplitKey(b, x)] == HistoryRow(b.sub, t.nodes[x].revision)
  {
    var pruned :| RefreshedVia(h, b, t, pruned, t');
    var u := IngestFirst(h, b, t, |b.entries|).tables;
    PayloadSteps(h, b, t);
    PayloadSplits(h, b, t, x, States(h, b, t));
    SplitKeyKept(b, u, pruned, x);
  }

  lemma SplitKeyKept(b: Batch, u: Tables, pruned: Tables, x: string)
    requires if b.success then PrunedTo(b, u, pruned) else pruned == u
    ensures SplitKey(b, x) in pruned.history <==> SplitKey(b, x) in u.history
    ensures SplitKey(b, x) in u.history ==> pruned.history[SplitKey(b, x)] == u.history[SplitKey(b, x)]
  {
    forall k | k in pruned.history && k !in u.history ensures k.evidence.RefreshRemoved? {
      assert PruneRecord(b, u, pruned.history, k);
    }
  }
}

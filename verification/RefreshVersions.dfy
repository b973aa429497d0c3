/**
 Versions and heads under refresh. The version recorded at a node's revision is always the node's
 connection, and a recorded revision stays on record, though its connection may be replaced. The head
 follows the revision unless one payload first changes a stored node and a later entry matches that
 node with the connection it was loaded with.
 */
module RefreshVersions {
  import opened Wrappers
  import opened Connection
  import opened Refresh
  import opened RefreshService
  import opened RefreshSafety
  import opened RefreshStored
  import opened RefreshRuns

  // ---- Versions ----

  /** Every node's connection is on record under its revision. */
  ghost predicate VersionsOk(t: Tables) {
    forall n :: n in t.nodes ==>
      VersionKey(n, t.nodes[n].revision) in t.versions && t.versions[VersionKey(n, t.nodes[n].revision)] == t.nodes[n].connection
  }

  lemma IngestVersions(h: Hashes, b: Batch, p: Progress, e: Entry)
    requires VersionsOk(p.tables)
    ensures VersionsOk(Ingest(h, b, p, e).tables)
    ensures p.tables.versions.Keys <= Ingest(h, b, p, e).tables.versions.Keys
  {
    if e.notice { NoticeKeepsRest(b, p.tables, e); }
  }

  lemma {:induction false} PayloadVersions(h: Hashes, b: Batch, t: Tables, n: nat)
    requires VersionsOk(t) && n <= |b.entries|
    ensures VersionsOk(IngestFirst(h, b, t, n).tables)
    ensures t.versions.Keys <= IngestFirst(h, b, t, n).tables.versions.Keys
  {
    if n > 0 {
      PayloadVersions(h, b, t, n - 1);
      IngestVersions(h, b, IngestFirst(h, b, t, n - 1), b.entries[n - 1]);
    }
  }

  lemma JobVersions(h: Hashes, t: Tables, j: Job, t': Tables)
    requires VersionsOk(t) && JobStep(h, t, j, t')
    ensures VersionsOk(t') && t.versions.Keys <= t'.versions.Keys
  {
    if j.Applied? {
      var pruned :| RefreshedVia(h, j.batch, t, pruned, t');
      PayloadVersions(h, j.batch, t, |j.batch.entries|);
    }
  }

  /** Over any run the current connection of every node is on record, and every recorded revision stays. */
  lemma {:induction false} VersionsRecorded(h: Hashes, jobs: seq<Job>, trace: seq<Tables>)
    requires IsRun(h, jobs, trace) && VersionsOk(trace[0])
    ensures VersionsOk(trace[|jobs|]) && trace[0].versions.Keys <= trace[|jobs|].versions.Keys
  {
    if jobs != [] {
      var n := |jobs| - 1;
      RunPrefix(h, jobs, trace);
      VersionsRecorded(h, jobs[..n], trace[..n + 1]);
      JobVersions(h, trace[n], jobs[n], trace[n + 1]);
    }
  }

  // ---- When a recorded version keeps its connection ----

  /** The entry writes the stored node `x` at revision `rev`. */
  ghost predicate Records(h: Hashes, b: Batch, t: Tables, x: string, rev: int, e: Entry) {
    WrittenTo(h, b, t, e) == Some(x) && WrittenRevision(h, b, e) == rev
  }

  /** ... with a connection other than `c`. */
  ghost predicate RecordsOther(h: Hashes, b: Batch, t: Tables, x: string, rev: int, c: Connection, e: Entry) {
    Records(h, b, t, x, rev, e) && !Same(h.text, c, Effective(b, Stored(h, b, e).value, e.connection))
  }

  ghost predicate ReplacedAt(h: Hashes, b: Batch, t: Tables, x: string, rev: int, c: Connection, k: int) {
    && 0 <= k < |b.entries| && RecordsOther(h, b, t, x, rev, c, b.entries[k])
    && forall j :: k < j < |b.entries| ==> !Records(h, b, t, x, rev, b.entries[j])
  }

  /** The last entry that writes `x` at this revision has another connection. */
  ghost predicate Replaced(h: Hashes, b: Batch, t: Tables, x: string, rev: int, c: Connection) {
    exists k :: ReplacedAt(h, b, t, x, rev, c, k)
  }

  ghost function VersionMark(h: Hashes, b: Batch, t: Tables, x: string, rev: int, c: Connection, e: Entry): Mark {
    if !Records(h, b, t, x, rev, e) then Skip else if RecordsOther(h, b, t, x, rev, c, e) then Bad else Good
  }

  ghost function VersionMarks(h: Hashes, b: Batch, t: Tables, x: string, rev: int, c: Connection): Entry -> Mark {
    e => VersionMark(h, b, t, x, rev, c, e)
  }

  lemma ReplacedMarks(h: Hashes, b: Batch, t: Tables, x: string, rev: int, c: Connection)
    ensures Replaced(h, b, t, x, rev, c) <==> Spoiled(Marks(VersionMarks(h, b, t, x, rev, c), b.entries, |b.entries|))
  {
    var s := Marks(VersionMarks(h, b, t, x, rev, c), b.entries, |b.entries|);
    MarksAt(VersionMarks(h, b, t, x, rev, c), b.entries, |b.entries|);
    assert forall i :: 0 <= i < |s| ==> s[i] == VersionMark(h, b, t, x, rev, c, b.entries[i]);
    forall k ensures ReplacedAt(h, b, t, x, rev, c, k) <==> SpoiledAt(s, k) {}
  }

  lemma StoredVersion(h: Hashes, b: Batch, t0: Tables, p: Progress, e: Entry, x: string, rev: int)
    requires OthersSame(t0, p.tables, b.sub) && x in b.existing && VersionKey(x, rev) in p.tables.versions
    ensures var k, v, v' := VersionKey(x, rev), p.tables.versions, Ingest(h, b, p, e).tables.versions;
            && k in v'
            && v'[k] == if Records(h, b, t0, x, rev, e) then Effective(b, Stored(h, b, e).value, e.connection) else v[k]
  {
    GuardsAsLoaded(h, b, t0, p.tables, e);
    if e.notice {
      NoticeKeepsRest(b, p.tables, e);
    } else {
      if Stored(h, b, e).Some? { DecidedByGuards(h, b, p.tables, e); } else { UnmatchedMoves(h, b, p.tables, e); }
    }
  }

  ghost predicate VersionAt(h: Hashes, b: Batch, t0: Tables, t: Tables, x: string, rev: int, c: Connection, n: nat)
    requires n <= |b.entries|
  {
    && VersionKey(x, rev) in t.versions
    && (Same(h.text, c, t.versions[VersionKey(x, rev)]) <==> !Spoiled(Marks(VersionMarks(h, b, t0, x, rev, c), b.entries, n)))
  }

  lemma VersionStep(h: Hashes, b: Batch, t0: Tables, ps: seq<Progress>, x: string, rev: int, c: Connection, n: nat)
    requires Steps(h, b, t0, ps) && n < |b.entries| && x in b.existing && VersionAt(h, b, t0, ps[n].tables, x, rev, c, n)
    ensures VersionAt(h, b, t0, ps[n + 1].tables, x, rev, c, n + 1)
  {
    var e, f := b.entries[n], VersionMarks(h, b, t0, x, rev, c);
    assert StepAt(h, b, t0, ps, n);
    StoredVersion(h, b, t0, ps[n], e, x, rev);
    SpoiledSnoc(Marks(f, b.entries, n), f(e));
  }

  lemma {:induction false} PayloadVersion(h: Hashes, b: Batch, t0: Tables, ps: seq<Progress>, x: string, rev: int, c: Connection, n: nat)
    requires Steps(h, b, t0, ps) && n <= |b.entries| && x in b.existing
    requires VersionKey(x, rev) in t0.versions && c == t0.versions[VersionKey(x, rev)]
    ensures VersionAt(h, b, t0, ps[n].tables, x, rev, c, n)
  {
    if n > 0 {
      PayloadVersion(h, b, t0, ps, x, rev, c, n - 1);
      VersionStep(h, b, t0, ps, x, rev, c, n - 1);
    }
  }

  /**
   A refresh keeps what is recorded for a stored node under a revision exactly unless the last entry
   that writes it there differs.
   */
  lemma VersionKeptExactly(h: Hashes, b: Batch, t: Tables, t': Tables, x: string, rev: int)
    requires RefreshedTo(h, b, t, t') && x in b.existing && VersionKey(x, rev) in t.versions
    ensures var k := VersionKey(x, rev); var c := t.versions[k];
            k in t'.versions && (Same(h.text, c, t'.versions[k]) <==> !Replaced(h, b, t, x, rev, c))
  {
    var pruned :| RefreshedVia(h, b, t, pruned, t');
    var c, n, ps := t.versions[VersionKey(x, rev)], |b.entries|, States(h, b, t);
    PayloadSteps(h, b, t);
    PayloadVersion(h, b, t, ps, x, rev, c, n);
    ReplacedMarks(h, b, t, x, rev, c);
    assert t'.versions == ps[n].tables.versions;
  }

  /** A second split from an unchanged shared node is written under the revision of the first. */
  lemma SecondSplitReplaces(h: Hashes, c: string, x: Connection, y: Connection, z: Connection, sub: string, other: string, t': Tables)
    requires c != "" && sub != other && h.scopedId(sub, c) != c && !Same(h.text, x, y) && !Same(h.text, z, y)
    requires var t := SplitBefore(h, c, x, z, sub, other); RefreshedTo(h, SplitAgain(t, c, y, sub), t, t')
    ensures var k := VersionKey(h.scopedId(sub, c), 2);
            k in t'.versions && SplitBefore(h, c, x, z, sub, other).versions[k] == z && !Same(h.text, z, t'.versions[k])
  {
    var t, s := SplitBefore(h, c, x, z, sub, other), h.scopedId(sub, c);
    var b := SplitAgain(t, c, y, sub);
    SecondSplitRecords(h, c, x, y, z, sub, other);
    VersionKeptExactly(h, b, t, t', s, 2);
  }

  lemma SecondSplitRecords(h: Hashes, c: string, x: Connection, y: Connection, z: Connection, sub: string, other: string)
    requires c != "" && sub != other && h.scopedId(sub, c) != c && !Same(h.text, x, y) && !Same(h.text, z, y)
    ensures var t, s := SplitBefore(h, c, x, z, sub, other), h.scopedId(sub, c); var b := SplitAgain(t, c, y, sub);
            && s in b.existing && VersionKey(s, 2) in t.versions && t.versions[VersionKey(s, 2)] == z
            && Replaced(h, b, t, s, 2, z)
  {
    var t, s := SplitBefore(h, c, x, z, sub, other), h.scopedId(sub, c);
    var b := SplitAgain(t, c, y, sub);
    SplitAgainGuards(h, c, x, y, z, sub, other);
    assert ReplacedAt(h, b, t, s, 2, z, 0);
  }

  // ---- Heads ----

  ghost predicate HeadsOk(t: Tables) {
    forall n :: n in t.nodes && n in t.heads ==> t.heads[n] == t.nodes[n].revision
  }

  /**
   What one entry does to a stored node: nothing, rewrite it at its loaded revision, or move row and
   head.
   */
  datatype Touch = Missed | Restored | Moved(revision: int)

  /** The last move of the head goes away from the loaded revision, and a later entry restores the row. */
  ghost predicate DriftAt(s: seq<Touch>, loaded: int, i: int, j: int) {
    0 <= i < j < |s| && s[i].Moved? && s[i].revision != loaded && s[j].Restored? && forall k :: i < k < |s| ==> !s[k].Moved?
  }

  ghost predicate Drift(s: seq<Touch>, loaded: int) {
    exists i, j :: DriftAt(s, loaded, i, j)
  }

  ghost function HeadAfter(s: seq<Touch>): Option<int> {
    if s == [] then None
    else
      var last := s[|s| - 1];
      if last.Moved? then Some(last.revision) else HeadAfter(s[..|s| - 1])
  }

  ghost function RowAfter(s: seq<Touch>, loaded: int): int {
    if s == [] then loaded
    else
      match s[|s| - 1]
      case Missed => RowAfter(s[..|s| - 1], loaded)
      case Restored => loaded
      case Moved(r) => r
  }

  lemma {:induction false} DriftStep(s: seq<Touch>, loaded: int)
    requires s != []
    ensures var init, last := s[..|s| - 1], s[|s| - 1];
            Drift(s, loaded) <==>
            match last
            case Missed => Drift(init, loaded)
            case Restored => HeadAfter(init).Some? && HeadAfter(init).value != loaded
            case Moved(_) => false
  {
    var n := |s| - 1;
    var init := s[..n];
    if HeadAfter(init).Some? {
      var i := LastMove(init);
      if s[n].Restored? && s[i].revision != loaded { assert DriftAt(s, loaded, i, n); }
    }
    if i, j :| DriftAt(s, loaded, i, j) {
      if s[n].Missed? { assert DriftAt(init, loaded, i, j); }
      if s[n].Restored? { MoveDecides(init, i); }
    }
    if i, j :| DriftAt(init, loaded, i, j) {
      if s[n].Missed? { assert DriftAt(s, loaded, i, j); }
    }
  }

  lemma {:induction false} LastMove(s: seq<Touch>) returns (i: int)
    requires HeadAfter(s).Some?
    ensures 0 <= i < |s| && s[i].Moved? && HeadAfter(s) == Some(s[i].revision) && forall k :: i < k < |s| ==> !s[k].Moved?
  {
    if s[|s| - 1].Moved? {
      i := |s| - 1;
    } else {
      i := LastMove(s[..|s| - 1]);
    }
  }

  lemma {:induction false} MoveDecides(s: seq<Touch>, i: int)
    requires 0 <= i < |s| && s[i].Moved? && forall k :: i < k < |s| ==> !s[k].Moved?
    ensures HeadAfter(s) == Some(s[i].revision)
  {
    if i < |s| - 1 { MoveDecides(s[..|s| - 1], i); }
  }

  /** Head and row end up apart exactly when the touches drift; without a move the row is as loaded. */
  lemma {:induction false} DriftExactly(s: seq<Touch>, loaded: int)
    ensures Drift(s, loaded) <==> HeadAfter(s).Some? && HeadAfter(s).value != RowAfter(s, loaded)
    ensures HeadAfter(s).None? ==> RowAfter(s, loaded) == loaded
  {
    if s != [] {
      DriftStep(s, loaded);
      DriftExactly(s[..|s| - 1], loaded);
    }
  }

  // ---- The payload loop ----

  /** What an entry does to the stored node `x`. */
  ghost function TouchOf(h: Hashes, b: Batch, t0: Tables, x: string, e: Entry): Touch {
    if WrittenTo(h, b, t0, e) != Some(x) then Missed
    else if Changes(h, b, e) then Moved(WrittenRevision(h, b, e))
    else Restored
  }

  ghost function Touches(h: Hashes, b: Batch, t0: Tables, x: string, n: nat): seq<Touch>
    requires n <= |b.entries|
  {
    if n == 0 then [] else Touches(h, b, t0, x, n - 1) + [TouchOf(h, b, t0, x, b.entries[n - 1])]
  }

  /** No stored node drifts. */
  ghost predicate DriftFree(h: Hashes, b: Batch, t0: Tables) {
    forall x :: x in b.existing ==> !Drift(Touches(h, b, t0, x, |b.entries|), b.existing[x].revision)
  }

  /** Row and head of `x` after the touches `s`. */
  ghost predicate HeadState(b: Batch, t0: Tables, t: Tables, x: string, s: seq<Touch>) {
    x in t.nodes ==>
      if x in b.existing then
        && t.nodes[x].revision == RowAfter(s, b.existing[x].revision)
        && match HeadAfter(s)
           case Some(v) => x in t.heads && t.heads[x] == v
           case None => x in t.heads ==> x in t0.heads && t.heads[x] == t0.heads[x]
      else x in t.heads ==> t.heads[x] == t.nodes[x].revision
  }

  lemma TouchSnoc(s: seq<Touch>, a: Touch, loaded: int)
    ensures HeadAfter(s + [a]) == if a.Moved? then Some(a.revision) else HeadAfter(s)
    ensures RowAfter(s + [a], loaded) == match a case Missed => RowAfter(s, loaded) case Restored => loaded case Moved(r) => r
  {
    assert (s + [a])[..|s|] == s;
  }

  lemma IngestHeads(h: Hashes, b: Batch, p: Progress, e: Entry)
    requires !e.notice
    ensures var d, t, t' := Decide(h, b, p.tables, e), p.tables, IngestNode(h, b, p, e).tables;
            && d.target in t'.nodes && t'.nodes[d.target].revision == d.revision
            && (d.newHead ==> d.target in t'.heads && t'.heads[d.target] == d.revision)
            && (!d.newHead ==> t'.heads == t.heads)
            && (forall x :: x in t'.nodes && x != d.target ==> x in t.nodes && t'.nodes[x] == t.nodes[x])
            && (forall x :: x in t'.heads && x != d.target ==> x in t.heads && t'.heads[x] == t.heads[x])
            && (forall x :: x in t.heads ==> x in t'.heads)
  {
    DecisionShape(h, b, p.tables, e);
  }

  lemma HeadStep(h: Hashes, b: Batch, t0: Tables, p: Progress, e: Entry, x: string, s: seq<Touch>)
    requires OthersSame(t0, p.tables, b.sub) && HeadState(b, t0, p.tables, x, s) && (x in b.existing ==> x in p.tables.nodes)
    ensures HeadState(b, t0, Ingest(h, b, p, e).tables, x, s + [TouchOf(h, b, t0, x, e)])
  {
    if x in b.existing { TouchSnoc(s, TouchOf(h, b, t0, x, e), b.existing[x].revision); }
    GuardsAsLoaded(h, b, t0, p.tables, e);
    if e.notice {
      NoticeKeepsRest(b, p.tables, e);
    } else {
      IngestHeads(h, b, p, e);
      if Stored(h, b, e).Some? { DecidedByGuards(h, b, p.tables, e); } else { UnmatchedMoves(h, b, p.tables, e); }
    }
  }

  ghost predicate HeadAt(h: Hashes, b: Batch, t0: Tables, t: Tables, x: string, n: nat)
    requires n <= |b.entries|
  {
    HeadState(b, t0, t, x, Touches(h, b, t0, x, n))
  }

  lemma HeadNext(h: Hashes, b: Batch, t0: Tables, ps: seq<Progress>, x: string, n: nat)
    requires b.existing == ExistingRows(t0, b.sub) && Steps(h, b, t0, ps) && n < |b.entries| && HeadAt(h, b, t0, ps[n].tables, x, n)
    ensures HeadAt(h, b, t0, ps[n + 1].tables, x, n + 1)
  {
    assert StepAt(h, b, t0, ps, n);
    HeadStep(h, b, t0, ps[n], b.entries[n], x, Touches(h, b, t0, x, n));
  }

  lemma HeadStart(h: Hashes, b: Batch, t0: Tables, x: string)
    requires b.existing == ExistingRows(t0, b.sub) && HeadsOk(t0)
    ensures HeadAt(h, b, t0, t0, x, 0)
  {
  }

  lemma PayloadHead(h: Hashes, b: Batch, t0: Tables, ps: seq<Progress>, x: string)
    requires b.existing == ExistingRows(t0, b.sub) && HeadsOk(t0) && Steps(h, b, t0, ps)
    ensures HeadAt(h, b, t0, ps[|b.entries|].tables, x, |b.entries|)
  {
    var hs := HeadFlags(h, b, t0, ps, x);
    HeadStart(h, b, t0, x);
    forall n | 0 < n < |hs| && hs[n - 1] ensures hs[n] { FlagNext(h, b, t0, ps, x, n); }
    AllHold(hs, |b.entries|);
  }

  ghost function HeadFlags(h: Hashes, b: Batch, t0: Tables, ps: seq<Progress>, x: string): seq<bool>
    requires |ps| == |b.entries| + 1
  {
    seq(|ps|, n requires 0 <= n < |ps| => HeadAt(h, b, t0, ps[n].tables, x, n))
  }

  lemma FlagNext(h: Hashes, b: Batch, t0: Tables, ps: seq<Progress>, x: string, n: nat)
    requires b.existing == ExistingRows(t0, b.sub) && Steps(h, b, t0, ps) && 0 < n < |ps| && HeadFlags(h, b, t0, ps, x)[n - 1]
    ensures HeadFlags(h, b, t0, ps, x)[n]
  {
    HeadNext(h, b, t0, ps, x, n - 1);
  }

  lemma HeadsExactly(h: Hashes, b: Batch, t0: Tables, t: Tables)
    requires b.existing == ExistingRows(t0, b.sub) && HeadsOk(t0) && t0.nodes.Keys <= t.nodes.Keys
    requires forall x :: HeadAt(h, b, t0, t, x, |b.entries|)
    ensures HeadsOk(t) <==> DriftFree(h, b, t0)
  {
    forall x | x in b.existing
      ensures x in t.nodes
      ensures (x in t.heads ==> t.heads[x] == t.nodes[x].revision) <==> !Drift(Touches(h, b, t0, x, |b.entries|), b.existing[x].revision)
    {
      var s := Touches(h, b, t0, x, |b.entries|);
      assert HeadAt(h, b, t0, t, x, |b.entries|);
      DriftExactly(s, b.existing[x].revision);
    }
    forall x | x in t.nodes && x !in b.existing ensures x in t.heads ==> t.heads[x] == t.nodes[x].revision {
      assert HeadAt(h, b, t0, t, x, |b.entries|);
    }
  }

  /** A refresh keeps heads and revisions together exactly when no stored node drifts in its payload. */
  lemma RefreshHeads(h: Hashes, b: Batch, t: Tables, t': Tables)
    requires b.existing == ExistingRows(t, b.sub) && HeadsOk(t) && RefreshedTo(h, b, t, t')
    ensures HeadsOk(t') <==> DriftFree(h, b, t)
  {
    var pruned :| RefreshedVia(h, b, t, pruned, t');
    var n, ps := |b.entries|, States(h, b, t);
    var u := ps[n].tables;
    PayloadSteps(h, b, t);
    PayloadOthers(h, b, t, n);
    forall x ensures HeadAt(h, b, t, u, x, n) {
      PayloadHead(h, b, t, ps, x);
    }
    HeadsExactly(h, b, t, u);
    SameHeads(u, t');
  }

  lemma SameHeads(t: Tables, t': Tables)
    requires t'.heads == t.heads && t'.nodes.Keys == t.nodes.Keys
    requires forall n :: n in t.nodes ==> t'.nodes[n].revision == t.nodes[n].revision
    ensures HeadsOk(t) <==> HeadsOk(t')
  {
  }

  /** Over runs of drift-free payloads every head stays at its node's revision. */
  lemma {:induction false} HeadsFollow(h: Hashes, jobs: seq<Job>, trace: seq<Tables>)
    requires IsRun(h, jobs, trace) && HeadsOk(trace[0])
    requires forall i :: 0 <= i < |jobs| && jobs[i].Applied? ==> DriftFree(h, jobs[i].batch, trace[i])
    ensures HeadsOk(trace[|jobs|])
  {
    if jobs != [] {
      var n := |jobs| - 1;
      RunPrefix(h, jobs, trace);
      HeadsFollow(h, jobs[..n], trace[..n + 1]);
      if jobs[n].Applied? { RefreshHeads(h, jobs[n].batch, trace[n], trace[n + 1]); }
    }
  }

  // ---- Drift is real ----

  /** A node of one subscription only, and a payload naming it twice, first with another connection. */
  function OwnNode(c: string, x: Connection, sub: string): Tables {
    Tables(map[c := Row(x, "n", true, 1)], map[Edge(c, sub) := "f0"], map[], map[VersionKey(c, 1) := x], map[c := 1], map[])
  }

  function ThereAndBack(t: Tables, c: string, x: Connection, y: Connection, sub: string): Batch {
    MakeBatch(t, sub, "f1", [Entry(c, "a", y, false), Entry(c, "b", x, false)], true, map[])
  }

  lemma ThereAndBackTouches(h: Hashes, c: string, x: Connection, y: Connection, sub: string)
    requires c != "" && !Same(h.text, x, y)
    ensures var t := OwnNode(c, x, sub); var b := ThereAndBack(t, c, x, y, sub);
            && c in b.existing && b.existing[c].revision == 1
            && TouchOf(h, b, t, c, b.entries[0]) == Moved(2) && TouchOf(h, b, t, c, b.entries[1]) == Restored
  {
    var t := OwnNode(c, x, sub);
    var b := ThereAndBack(t, c, x, y, sub);
    assert Edge(c, sub) in t.sources && c in b.existing;
    assert !OwnedByOther(t, c, sub);
    assert Match(h, b, b.entries[0]) == Some(c) == Match(h, b, b.entries[1]);
  }

  /** Such a payload leaves the head ahead of the row. */
  lemma ThereAndBackDrifts(h: Hashes, c: string, x: Connection, y: Connection, sub: string, t': Tables)
    requires c != "" && !Same(h.text, x, y)
    requires var t := OwnNode(c, x, sub); RefreshedTo(h, ThereAndBack(t, c, x, y, sub), t, t')
    ensures HeadsOk(OwnNode(c, x, sub)) && !HeadsOk(t')
  {
    var t := OwnNode(c, x, sub);
    var b := ThereAndBack(t, c, x, y, sub);
    ThereAndBackDrift(h, c, x, y, sub);
    RefreshHeads(h, b, t, t');
  }

  lemma ThereAndBackDrift(h: Hashes, c: string, x: Connection, y: Connection, sub: string)
    requires c != "" && !Same(h.text, x, y)
    ensures var t := OwnNode(c, x, sub); HeadsOk(t) && !DriftFree(h, ThereAndBack(t, c, x, y, sub), t)
  {
    var t := OwnNode(c, x, sub);
    var b := ThereAndBack(t, c, x, y, sub);
    ThereAndBackTouches(h, c, x, y, sub);
    var s := Touches(h, b, t, c, 2);
    assert Touches(h, b, t, c, 1) == [Moved(2)];
    assert s == [Moved(2), Restored];
    assert DriftAt(s, 1, 0, 1);
  }
}

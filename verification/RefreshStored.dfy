/**
 What the entries of a payload do to the nodes a subscription already has, in terms of the guards of
 the transaction: which stored node an entry matches, whether it changes it, whether it splits off
 from it, and which node it writes. Other subscriptions' links do not change underway, so all of this
 is decided by the batch and the tables it started from.
 */
module RefreshStored {
  import opened Wrappers
  import opened Connection
  import opened Refresh
  import opened RefreshService
  import opened RefreshSafety

  // ---- Guards ----

  /** The stored node the entry updates, if any. */
  ghost function Stored(h: Hashes, b: Batch, e: Entry): (m: Option<string>)
    ensures m.Some? ==> m.value in b.existing
  {
    MatchExists(h, b, e);
    if e.notice then None else Match(h, b, e)
  }

  /** The entry's connection with the user's overrides for the node. */
  function Effective(b: Batch, mid: string, c: Connection): Connection {
    if mid in b.overrides then ApplyOverride(b.overrides[mid], c) else c
  }

  /** The entry matches a stored node and changes its connection. */
  ghost predicate Changes(h: Hashes, b: Batch, e: Entry) {
    var m := Stored(h, b, e);
    m.Some? && !Same(h.text, b.existing[m.value].connection, Effective(b, m.value, e.connection))
  }

  /** ... and the node has other owners, so the entry is split off from it. */
  ghost predicate SplitsOff(h: Hashes, b: Batch, t: Tables, e: Entry) {
    Changes(h, b, e) && OwnedByOther(t, Stored(h, b, e).value, b.sub)
  }

  /** The node a matching entry writes. */
  ghost function WrittenTo(h: Hashes, b: Batch, t: Tables, e: Entry): Option<string> {
    var m := Stored(h, b, e);
    if m.None? then None else if SplitsOff(h, b, t, e) then Some(ScopedId(h, b, e)) else m
  }

  ghost function WrittenRevision(h: Hashes, b: Batch, e: Entry): int
    requires Stored(h, b, e).Some?
  {
    b.existing[Stored(h, b, e).value].revision + if Changes(h, b, e) then 1 else 0
  }

  /** The guards decide. */
  lemma DecidedByGuards(h: Hashes, b: Batch, t: Tables, e: Entry)
    requires Stored(h, b, e).Some?
    ensures var m, d := Stored(h, b, e).value, Decide(h, b, t, e);
            && Some(d.target) == WrittenTo(h, b, t, e)
            && d.unlink == (if SplitsOff(h, b, t, e) then Some(m) else None)
            && d.active == b.existing[m].active && d.revision == WrittenRevision(h, b, e)
            && d.connection == Effective(b, m, e.connection) && d.newHead == Changes(h, b, e)
  {
  }

  lemma GuardsAsLoaded(h: Hashes, b: Batch, t0: Tables, t: Tables, e: Entry)
    requires OthersSame(t0, t, b.sub)
    ensures SplitsOff(h, b, t, e) == SplitsOff(h, b, t0, e) && WrittenTo(h, b, t, e) == WrittenTo(h, b, t0, e)
  {
    var m := Stored(h, b, e);
    if m.Some? { OthersOwn(t0, t, b.sub, m.value); }
  }

  /** An entry that matches nothing moves row and head of a node the batch did not load. */
  lemma UnmatchedMoves(h: Hashes, b: Batch, t: Tables, e: Entry)
    requires Match(h, b, e).None?
    ensures var d := Decide(h, b, t, e); d.newHead && d.target !in b.existing
  {
  }

  // ---- The payload keeps other subscriptions' links ----

  lemma OthersStep(h: Hashes, b: Batch, t0: Tables, p: Progress, e: Entry)
    requires OthersSame(t0, p.tables, b.sub) && t0.nodes.Keys <= p.tables.nodes.Keys
    ensures var t := Ingest(h, b, p, e).tables; OthersSame(t0, t, b.sub) && t0.nodes.Keys <= t.nodes.Keys
  {
    var t := Ingest(h, b, p, e).tables;
    forall ed: Edge | ed.sub != b.sub
      ensures (ed in t.sources <==> ed in t0.sources) && (ed in t0.sources ==> t.sources[ed] == t0.sources[ed])
    {
      IngestOthers(h, b, p, e, ed);
    }
    if e.notice { NoticeKeepsRest(b, p.tables, e); } else { IngestEdges(h, b, p, e); }
  }

  ghost predicate OthersKept(b: Batch, t0: Tables, p: Progress) {
    OthersSame(t0, p.tables, b.sub) && t0.nodes.Keys <= p.tables.nodes.Keys
  }

  lemma OthersNext(h: Hashes, b: Batch, t0: Tables, n: nat)
    requires n < |b.entries| && OthersKept(b, t0, IngestFirst(h, b, t0, n))
    ensures OthersKept(b, t0, IngestFirst(h, b, t0, n + 1))
  {
    OthersStep(h, b, t0, IngestFirst(h, b, t0, n), b.entries[n]);
  }

  lemma {:induction false} PayloadOthers(h: Hashes, b: Batch, t0: Tables, n: nat)
    requires n <= |b.entries|
    ensures OthersKept(b, t0, IngestFirst(h, b, t0, n))
  {
    if n > 0 {
      PayloadOthers(h, b, t0, n - 1);
      OthersNext(h, b, t0, n - 1);
    }
  }

  // ---- A payload as a sequence of states ----

  ghost predicate StepAt(h: Hashes, b: Batch, t0: Tables, ps: seq<Progress>, i: int)
    requires 0 <= i < |b.entries| < |ps|
  {
    OthersKept(b, t0, ps[i]) && ps[i + 1] == Ingest(h, b, ps[i], b.entries[i])
  }

  /** `ps` are the states before, between and after the entries of the payload. */
  ghost predicate Steps(h: Hashes, b: Batch, t0: Tables, ps: seq<Progress>) {
    |ps| == |b.entries| + 1 && ps[0] == Progress(t0, {}) && forall i :: 0 <= i < |b.entries| ==> StepAt(h, b, t0, ps, i)
  }

  ghost function States(h: Hashes, b: Batch, t0: Tables): seq<Progress> {
    seq(|b.entries| + 1, i requires 0 <= i <= |b.entries| => IngestFirst(h, b, t0, i))
  }

  lemma PayloadSteps(h: Hashes, b: Batch, t0: Tables)
    ensures Steps(h, b, t0, States(h, b, t0))
  {
    forall i | 0 <= i < |b.entries| ensures StepAt(h, b, t0, States(h, b, t0), i) { StateStep(h, b, t0, i); }
  }

  lemma StateStep(h: Hashes, b: Batch, t0: Tables, i: int)
    requires 0 <= i < |b.entries|
    ensures StepAt(h, b, t0, States(h, b, t0), i)
  {
    PayloadOthers(h, b, t0, i);
    StatesAt(h, b, t0, i);
    StatesAt(h, b, t0, i + 1);
  }

  lemma StatesAt(h: Hashes, b: Batch, t0: Tables, i: int)
    requires 0 <= i <= |b.entries|
    ensures States(h, b, t0)[i] == IngestFirst(h, b, t0, i)
  {
  }

  // ---- What one entry does to a stored node ----

  /** The row of a stored node after one entry. */
  lemma StoredRow(h: Hashes, b: Batch, t0: Tables, p: Progress, e: Entry, x: string)
    requires OthersSame(t0, p.tables, b.sub) && x in b.existing && x in p.tables.nodes
    ensures var t' := Ingest(h, b, p, e).tables;
            && x in t'.nodes
            && (WrittenTo(h, b, t0, e) == Some(x) ==>
                  && t'.nodes[x].active == b.existing[Stored(h, b, e).value].active
                  && t'.nodes[x].revision == WrittenRevision(h, b, e))
            && (WrittenTo(h, b, t0, e) != Some(x) ==> t'.nodes[x] == p.tables.nodes[x])
  {
    GuardsAsLoaded(h, b, t0, p.tables, e);
    if e.notice {
      NoticeKeepsRest(b, p.tables, e);
    } else {
      if Stored(h, b, e).Some? { DecidedByGuards(h, b, p.tables, e); } else { UnmatchedMoves(h, b, p.tables, e); }
      IngestEdges(h, b, p, e);
    }
  }

  /** What the user set for a stored node is what an entry that matches it writes, wherever it writes. */
  lemma OverridesWin(h: Hashes, b: Batch, t0: Tables, p: Progress, e: Entry)
    requires OthersSame(t0, p.tables, b.sub) && Stored(h, b, e).Some? && Stored(h, b, e).value in b.overrides
    ensures var x, t' := WrittenTo(h, b, t0, e).value, Ingest(h, b, p, e).tables;
            && x in t'.nodes && Honours(b.overrides[Stored(h, b, e).value], t'.nodes[x].connection)
            && OtherwiseSame(b.overrides[Stored(h, b, e).value], e.connection, t'.nodes[x].connection)
  {
    var m := Stored(h, b, e).value;
    GuardsAsLoaded(h, b, t0, p.tables, e);
    DecidedByGuards(h, b, p.tables, e);
    IngestEdges(h, b, p, e);
    OverrideExactly(b.overrides[m], e.connection, ApplyOverride(b.overrides[m], e.connection));
  }

  // ---- The last write decides ----

  /** What an entry does to some property of a node: nothing, re-establish it, or break it. */
  datatype Mark = Skip | Good | Bad

  ghost predicate SpoiledAt(s: seq<Mark>, k: int) {
    0 <= k < |s| && s[k] == Bad && forall j :: k < j < |s| ==> s[j] == Skip
  }

  /** The last write breaks it. */
  ghost predicate Spoiled(s: seq<Mark>) {
    exists k :: SpoiledAt(s, k)
  }

  lemma SpoiledSnoc(s: seq<Mark>, m: Mark)
    ensures Spoiled(s + [m]) <==> m == Bad || (m == Skip && Spoiled(s))
  {
    var s' := s + [m];
    if m == Bad { assert SpoiledAt(s', |s|); }
    if k :| m == Skip && SpoiledAt(s, k) { assert SpoiledAt(s', k); }
    if k :| SpoiledAt(s', k) {
      assert m != Bad ==> k < |s| && s'[|s|] == m;
      if k < |s| {
        forall j | k < j < |s| ensures s[j] == Skip { assert s'[j] == Skip; }
        assert s[k] == s'[k] && SpoiledAt(s, k);
      }
    }
  }

  /** The marks of the first `n` entries. */
  ghost function Marks(f: Entry -> Mark, es: seq<Entry>, n: nat): seq<Mark>
    requires n <= |es|
  {
    if n == 0 then [] else Marks(f, es, n - 1) + [f(es[n - 1])]
  }

  lemma {:induction false} MarksAt(f: Entry -> Mark, es: seq<Entry>, n: nat)
    requires n <= |es|
    ensures |Marks(f, es, n)| == n && forall i :: 0 <= i < n ==> Marks(f, es, n)[i] == f(es[i])
  {
    if n > 0 { MarksAt(f, es, n - 1); }
  }

  // ---- A second split ----

  /** A node `c` of another subscription, once split off by `sub`; the split node is stored and disabled. */
  function SplitBefore(h: Hashes, c: string, x: Connection, z: Connection, sub: string, other: string): Tables {
    var s := h.scopedId(sub, c);
    Tables(map[c := Row(x, "n", true, 1), s := Row(z, "m", false, 2)],
           map[Edge(c, other) := "f0", Edge(s, sub) := "f0"],
           map[HistoryKey(c, CowUnlinked(c, sub)) := HistoryRow(sub, 1)],
           map[VersionKey(c, 1) := x, VersionKey(s, 2) := z], map[c := 1, s := 2], map[])
  }

  /** A payload of one entry under the shared id, with another connection. */
  function SplitAgain(t: Tables, c: string, y: Connection, sub: string): Batch {
    MakeBatch(t, sub, "f1", [Entry(c, "a", y, false)], true, map[])
  }

  lemma SplitAgainGuards(h: Hashes, c: string, x: Connection, y: Connection, z: Connection, sub: string, other: string)
    requires c != "" && sub != other && h.scopedId(sub, c) != c && !Same(h.text, x, y)
    ensures var t := SplitBefore(h, c, x, z, sub, other); var b := SplitAgain(t, c, y, sub); var s := h.scopedId(sub, c);
            && s in b.existing && !b.existing[s].active && b.existing[s].revision == 2
            && c in b.existing && b.existing[c].active && b.existing[c].revision == 1
            && SplitsOff(h, b, t, b.entries[0]) && Stored(h, b, b.entries[0]) == Some(c) && ScopedId(h, b, b.entries[0]) == s
  {
    var t, s := SplitBefore(h, c, x, z, sub, other), h.scopedId(sub, c);
    var b, k := SplitAgain(t, c, y, sub), HistoryKey(c, CowUnlinked(c, sub));
    assert k in t.history && k.node == c && t.history[k].sub == sub && Remembered(t, c, sub);
    assert Edge(s, sub) in t.sources && s in t.nodes;
    assert Edge(c, other) in t.sources && OwnedByOther(t, c, sub);
  }
}

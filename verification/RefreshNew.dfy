/**
 Nodes that a refresh creates or joins. A row that was not there before is active, exactly unless the
 last split onto it came from a stored node that is not. When no entry matches a stored node, as in
 the first refresh of a subscription, every new row is active, its revision counts the changes made
 to it under a scoped id, and a row that was there comes back active exactly when it has no owner and
 the first entry written to it carries its own id.
 */
module RefreshNew {
  import opened Wrappers
  import opened Connection
  import opened Refresh
  import opened RefreshService
  import opened RefreshSafety
  import opened RefreshStored

  // ---- Activation of new rows ----

  /** The entry is split onto `x`. */
  ghost predicate SplitsOnto(h: Hashes, b: Batch, t: Tables, x: string, e: Entry) {
    SplitsOff(h, b, t, e) && ScopedId(h, b, e) == x
  }

  ghost predicate DisabledAt(h: Hashes, b: Batch, t: Tables, x: string, k: int) {
    && 0 <= k < |b.entries| && SplitsOnto(h, b, t, x, b.entries[k]) && !b.existing[Stored(h, b, b.entries[k]).value].active
    && forall j :: k < j < |b.entries| ==> !SplitsOnto(h, b, t, x, b.entries[j])
  }

  /** The last split onto `x` comes from an inactive node. */
  ghost predicate BornDisabled(h: Hashes, b: Batch, t: Tables, x: string) {
    exists k :: DisabledAt(h, b, t, x, k)
  }

  ghost function BirthMark(h: Hashes, b: Batch, t: Tables, x: string, e: Entry): Mark {
    if !SplitsOnto(h, b, t, x, e) then Skip else if b.existing[Stored(h, b, e).value].active then Good else Bad
  }

  ghost function BirthMarks(h: Hashes, b: Batch, t: Tables, x: string): Entry -> Mark {
    e => BirthMark(h, b, t, x, e)
  }

  lemma DisabledMarks(h: Hashes, b: Batch, t: Tables, x: string)
    ensures BornDisabled(h, b, t, x) <==> Spoiled(Marks(BirthMarks(h, b, t, x), b.entries, |b.entries|))
  {
    var s := Marks(BirthMarks(h, b, t, x), b.entries, |b.entries|);
    MarksAt(BirthMarks(h, b, t, x), b.entries, |b.entries|);
    assert forall i :: 0 <= i < |s| ==> s[i] == BirthMark(h, b, t, x, b.entries[i]);
    forall k ensures DisabledAt(h, b, t, x, k) <==> SpoiledAt(s, k) {}
  }

  /** What holds of an id without a row at first, part-way through: with its row comes its link. */
  ghost predicate Newborn(b: Batch, p: Progress, x: string, disabled: bool) {
    && p.seen <= p.tables.nodes.Keys
    && (x in p.tables.nodes ==> Edge(x, b.sub) in p.tables.sources)
    && (disabled <==> x in p.tables.nodes && !p.tables.nodes[x].active)
  }

  lemma NewbornStep(h: Hashes, b: Batch, t0: Tables, p: Progress, e: Entry, x: string, disabled: bool)
    requires OthersSame(t0, p.tables, b.sub) && x !in b.existing && Newborn(b, p, x, disabled)
    ensures var mark := BirthMark(h, b, t0, x, e);
            Newborn(b, Ingest(h, b, p, e), x, mark == Bad || (mark == Skip && disabled))
  {
    GuardsAsLoaded(h, b, t0, p.tables, e);
    if e.notice {
      NoticeKeepsRest(b, p.tables, e);
    } else {
      IngestEdges(h, b, p, e);
      if Stored(h, b, e).Some? { DecidedByGuards(h, b, p.tables, e); } else { UnmatchedBirth(h, b, p, e, x); }
    }
  }

  /** An entry that matches nothing creates active rows, and leaves the activation of linked ones. */
  lemma UnmatchedBirth(h: Hashes, b: Batch, p: Progress, e: Entry, x: string)
    requires Match(h, b, e).None? && (x in p.tables.nodes ==> Edge(x, b.sub) in p.tables.sources)
    ensures var d := Decide(h, b, p.tables, e);
            d.unlink.None? && (d.target == x ==> d.active == (x !in p.tables.nodes || p.tables.nodes[x].active))
  {
  }

  ghost predicate BornAt(h: Hashes, b: Batch, t0: Tables, p: Progress, x: string, n: nat)
    requires n <= |b.entries|
  {
    Newborn(b, p, x, Spoiled(Marks(BirthMarks(h, b, t0, x), b.entries, n)))
  }

  lemma BornStep(h: Hashes, b: Batch, t0: Tables, ps: seq<Progress>, x: string, n: nat)
    requires Steps(h, b, t0, ps) && n < |b.entries| && x !in b.existing && BornAt(h, b, t0, ps[n], x, n)
    ensures BornAt(h, b, t0, ps[n + 1], x, n + 1)
  {
    assert StepAt(h, b, t0, ps, n);
    var f, e := BirthMarks(h, b, t0, x), b.entries[n];
    SpoiledSnoc(Marks(f, b.entries, n), f(e));
    NewbornStep(h, b, t0, ps[n], e, x, Spoiled(Marks(f, b.entries, n)));
  }

  lemma {:induction false} PayloadBorn(h: Hashes, b: Batch, t0: Tables, x: string, ps: seq<Progress>, n: nat)
    requires Steps(h, b, t0, ps) && x !in t0.nodes && x !in b.existing && n <= |b.entries|
    ensures BornAt(h, b, t0, ps[n], x, n)
  {
    if n > 0 {
      PayloadBorn(h, b, t0, x, ps, n - 1);
      BornStep(h, b, t0, ps, x, n - 1);
    }
  }

  /** The rows of a refresh are those of its payload, up to names. */
  lemma RowsAfter(h: Hashes, b: Batch, t: Tables, t': Tables)
    requires RefreshedTo(h, b, t, t')
    ensures var u := IngestFirst(h, b, t, |b.entries|).tables;
            t'.nodes.Keys == u.nodes.Keys && forall n :: n in u.nodes ==> t'.nodes[n] == u.nodes[n].(displayName := t'.nodes[n].displayName)
  {
    var pruned :| RefreshedVia(h, b, t, pruned, t');
    assert pruned.nodes == IngestFirst(h, b, t, |b.entries|).tables.nodes;
  }

  /** A new row is inactive exactly when the last split onto it came from an inactive stored node. */
  lemma NewRowActivation(h: Hashes, b: Batch, t: Tables, t': Tables, x: string)
    requires b.existing == ExistingRows(t, b.sub) && RefreshedTo(h, b, t, t') && x !in t.nodes
    ensures x in t'.nodes && !t'.nodes[x].active <==> BornDisabled(h, b, t, x)
  {
    var n, ps := |b.entries|, States(h, b, t);
    PayloadSteps(h, b, t);
    PayloadBorn(h, b, t, x, ps, n);
    DisabledMarks(h, b, t, x);
    RowsAfter(h, b, t, t');
  }

  // ---- Payloads that match nothing stored ----

  ghost predicate MatchesNothing(h: Hashes, b: Batch) {
    forall i :: 0 <= i < |b.entries| ==> Stored(h, b, b.entries[i]).None?
  }

  /** The entry's own id is a foreign row that no entry has joined, with another connection. */
  ghost predicate Elsewhere(h: Hashes, t: Tables, written: set<string>, e: Entry) {
    var c := CandidateId(h, e);
    c in t.nodes && c !in written && !Same(h.text, t.nodes[c].connection, e.connection)
  }

  /** The id an entry lands on after the ids `written`: its own, or its scoped one. */
  ghost function Lands(h: Hashes, b: Batch, t: Tables, written: set<string>, e: Entry): string {
    if Elsewhere(h, t, written, e) then ScopedId(h, b, e) else CandidateId(h, e)
  }

  /** The ids the first `n` entries land on. */
  ghost function WrittenBy(h: Hashes, b: Batch, t: Tables, n: nat): set<string>
    requires n <= |b.entries|
  {
    if n == 0 then {}
    else
      var e, w := b.entries[n - 1], WrittenBy(h, b, t, n - 1);
      if e.notice then w else w + {Lands(h, b, t, w, e)}
  }

  /**
   Part-way through such a payload: what is not written is as it was, what is written has a row and a
   link.
   */
  ghost predicate PartWritten(b: Batch, t0: Tables, p: Progress, w: set<string>) {
    && p.seen == w && OthersSame(t0, p.tables, b.sub)
    && (forall c :: c in w ==> c in p.tables.nodes && Edge(c, b.sub) in p.tables.sources)
    && (forall c :: c !in w ==> (c in p.tables.nodes <==> c in t0.nodes) && (Edge(c, b.sub) in p.tables.sources <==> Edge(c, b.sub) in t0.sources))
    && (forall c :: c !in w && c in t0.nodes ==> p.tables.nodes[c] == t0.nodes[c])
  }

  /** What an entry writes: the place, and revision and activation of the row. */
  lemma Landing(h: Hashes, b: Batch, t0: Tables, p: Progress, e: Entry, w: set<string>)
    requires b.existing == ExistingRows(t0, b.sub) && PartWritten(b, t0, p, w) && !e.notice && Match(h, b, e).None?
    ensures var d, x := Decide(h, b, p.tables, e), Lands(h, b, t0, w, e);
            && d.target == x && d.unlink.None? && d.connection == e.connection
            && (x !in p.tables.nodes ==> d.active && d.revision == 1)
            && (x in p.tables.nodes ==>
                  var row := p.tables.nodes[x];
                  && d.active == (row.active || (x !in w && !Elsewhere(h, t0, w, e) && !OwnedByOther(t0, x, b.sub)))
                  && d.revision == row.revision + if Elsewhere(h, t0, w, e) && !Same(h.text, row.connection, e.connection) then 1 else 0)
  {
    OthersOwn(t0, p.tables, b.sub, CandidateId(h, e));
    var c := CandidateId(h, e);
    assert c in t0.nodes ==> Edge(c, b.sub) !in t0.sources;
  }

  /** Writing a row and its link. */
  lemma WrittenStep(b: Batch, t0: Tables, p: Progress, w: set<string>, e: Entry, d: Decision)
    requires PartWritten(b, t0, p, w)
    ensures PartWritten(b, t0, Progress(Write(b, p.tables, p.seen, e, d), p.seen + {d.target}), w + {d.target})
  {
    var t := Write(b, p.tables, p.seen, e, d);
    assert t.nodes == p.tables.nodes[d.target := t.nodes[d.target]];
    forall ed | ed != Edge(d.target, b.sub)
      ensures (ed in t.sources <==> ed in p.tables.sources) && (ed in t.sources ==> t.sources[ed] == p.tables.sources[ed])
    {}
    assert Edge(d.target, b.sub) in t.sources;
  }

  lemma PartWrittenStep(h: Hashes, b: Batch, t0: Tables, p: Progress, e: Entry, w: set<string>)
    requires b.existing == ExistingRows(t0, b.sub) && PartWritten(b, t0, p, w) && Stored(h, b, e).None?
    ensures PartWritten(b, t0, Ingest(h, b, p, e), if e.notice then w else w + {Lands(h, b, t0, w, e)})
  {
    if e.notice {
      NoticeKeepsRest(b, p.tables, e);
    } else {
      Landing(h, b, t0, p, e, w);
      WrittenStep(b, t0, p, w, e, Decide(h, b, p.tables, e));
    }
  }

  // ---- The row of one id ----

  ghost predicate LandsOn(h: Hashes, b: Batch, t: Tables, x: string, k: nat)
    requires k < |b.entries|
  {
    !b.entries[k].notice && Lands(h, b, t, WrittenBy(h, b, t, k), b.entries[k]) == x
  }

  /** ... under the scoped id of the entry. */
  ghost predicate ScopedOnto(h: Hashes, b: Batch, t: Tables, x: string, k: nat)
    requires k < |b.entries|
  {
    LandsOn(h, b, t, x, k) && Elsewhere(h, t, WrittenBy(h, b, t, k), b.entries[k])
  }

  /** The connection stored under `x` after the first `n` entries. */
  ghost function Shows(h: Hashes, b: Batch, t: Tables, x: string, n: nat): Option<Connection>
    requires n <= |b.entries|
  {
    if n == 0 then if x in t.nodes then Some(t.nodes[x].connection) else None
    else if LandsOn(h, b, t, x, n - 1) then Some(b.entries[n - 1].connection)
    else Shows(h, b, t, x, n - 1)
  }

  /** How often an entry scoped onto `x` finds another connection there. */
  ghost function Rescopes(h: Hashes, b: Batch, t: Tables, x: string, n: nat): nat
    requires n <= |b.entries|
  {
    if n == 0 then 0
    else
      var before := Shows(h, b, t, x, n - 1);
      Rescopes(h, b, t, x, n - 1) +
      if ScopedOnto(h, b, t, x, n - 1) && before.Some? && !Same(h.text, before.value, b.entries[n - 1].connection) then 1 else 0
  }

  /** The entry is the first written to `x`, and `x` is its own id. */
  ghost predicate JoinsAt(h: Hashes, b: Batch, t: Tables, x: string, k: nat)
    requires k < |b.entries|
  {
    LandsOn(h, b, t, x, k) && x !in WrittenBy(h, b, t, k) && !ScopedOnto(h, b, t, x, k)
  }

  ghost predicate Joined(h: Hashes, b: Batch, t: Tables, x: string, n: nat)
    requires n <= |b.entries|
  {
    exists k: nat :: k < n && JoinsAt(h, b, t, x, k)
  }

  /** The row of `x` part-way through. */
  ghost predicate RowAt(h: Hashes, b: Batch, t: Tables, nodes: map<string, Row>, x: string, n: nat)
    requires n <= |b.entries|
  {
    && (x in nodes <==> Shows(h, b, t, x, n).Some?)
    && (x in nodes ==>
          && nodes[x].connection == Shows(h, b, t, x, n).value
          && nodes[x].revision == (if x in t.nodes then t.nodes[x].revision else 1) + Rescopes(h, b, t, x, n)
          && nodes[x].active == (x in t.nodes ==> t.nodes[x].active || (Joined(h, b, t, x, n) && !OwnedByOther(t, x, b.sub))))
  }

  lemma JoinedNext(h: Hashes, b: Batch, t: Tables, x: string, n: nat)
    requires n < |b.entries|
    ensures Joined(h, b, t, x, n + 1) <==> Joined(h, b, t, x, n) || JoinsAt(h, b, t, x, n)
  {
    if Joined(h, b, t, x, n) { var k: nat :| k < n && JoinsAt(h, b, t, x, k); }
  }

  lemma {:induction false} NoRowYet(h: Hashes, b: Batch, t: Tables, x: string, n: nat)
    requires n <= |b.entries| && Shows(h, b, t, x, n).None?
    ensures x !in t.nodes && Rescopes(h, b, t, x, n) == 0
  {
    if n > 0 { NoRowYet(h, b, t, x, n - 1); }
  }

  lemma RowSkipped(h: Hashes, b: Batch, t: Tables, nodes: map<string, Row>, nodes': map<string, Row>, x: string, n: nat)
    requires n < |b.entries| && RowAt(h, b, t, nodes, x, n) && !LandsOn(h, b, t, x, n)
    requires (x in nodes' <==> x in nodes) && (x in nodes ==> nodes'[x].(displayName := "") == nodes[x].(displayName := ""))
    ensures RowAt(h, b, t, nodes', x, n + 1)
  {
    JoinedNext(h, b, t, x, n);
  }

  lemma RowLanded(h: Hashes, b: Batch, t0: Tables, p: Progress, nodes': map<string, Row>, x: string, n: nat)
    requires b.existing == ExistingRows(t0, b.sub) && n < |b.entries| && Stored(h, b, b.entries[n]).None? && LandsOn(h, b, t0, x, n)
    requires PartWritten(b, t0, p, WrittenBy(h, b, t0, n)) && RowAt(h, b, t0, p.tables.nodes, x, n)
    requires var d, e := Decide(h, b, p.tables, b.entries[n]), b.entries[n];
             x in nodes' && nodes'[x] == Row(d.connection, e.name, d.active, d.revision)
    ensures RowAt(h, b, t0, nodes', x, n + 1)
  {
    JoinedNext(h, b, t0, x, n);
    Landing(h, b, t0, p, b.entries[n], WrittenBy(h, b, t0, n));
    if x !in p.tables.nodes { NoRowYet(h, b, t0, x, n); }
  }

  lemma RowStep(h: Hashes, b: Batch, t0: Tables, p: Progress, x: string, n: nat)
    requires b.existing == ExistingRows(t0, b.sub) && n < |b.entries| && Stored(h, b, b.entries[n]).None?
    requires PartWritten(b, t0, p, WrittenBy(h, b, t0, n)) && RowAt(h, b, t0, p.tables.nodes, x, n)
    ensures RowAt(h, b, t0, Ingest(h, b, p, b.entries[n]).tables.nodes, x, n + 1)
  {
    var e, nodes' := b.entries[n], Ingest(h, b, p, b.entries[n]).tables.nodes;
    if e.notice {
      NoticeKeepsRest(b, p.tables, e);
      RowSkipped(h, b, t0, p.tables.nodes, nodes', x, n);
    } else {
      Landing(h, b, t0, p, e, WrittenBy(h, b, t0, n));
      RowWritten(h, b, t0, p, x, n, Decide(h, b, p.tables, e));
      if LandsOn(h, b, t0, x, n) {
        RowLanded(h, b, t0, p, nodes', x, n);
      } else {
        RowSkipped(h, b, t0, p.tables.nodes, nodes', x, n);
      }
    }
  }

  lemma RowWritten(h: Hashes, b: Batch, t0: Tables, p: Progress, x: string, n: nat, d: Decision)
    requires n < |b.entries| && !b.entries[n].notice && d == Decide(h, b, p.tables, b.entries[n]) && d.unlink.None?
    ensures var nodes := Ingest(h, b, p, b.entries[n]).tables.nodes;
            && (x == d.target ==> x in nodes && nodes[x] == Row(d.connection, b.entries[n].name, d.active, d.revision))
            && (x != d.target ==> (x in nodes <==> x in p.tables.nodes) && (x in nodes ==> nodes[x] == p.tables.nodes[x]))
  {
  }

  ghost predicate Midrow(h: Hashes, b: Batch, t0: Tables, p: Progress, x: string, n: nat)
    requires n <= |b.entries|
  {
    PartWritten(b, t0, p, WrittenBy(h, b, t0, n)) && RowAt(h, b, t0, p.tables.nodes, x, n)
  }

  lemma MidrowStart(h: Hashes, b: Batch, t0: Tables, x: string)
    ensures Midrow(h, b, t0, Progress(t0, {}), x, 0)
  {
  }

  lemma MidrowStep(h: Hashes, b: Batch, t0: Tables, p: Progress, q: Progress, x: string, n: nat)
    requires b.existing == ExistingRows(t0, b.sub) && n < |b.entries| && Stored(h, b, b.entries[n]).None?
    requires Midrow(h, b, t0, p, x, n) && q == Ingest(h, b, p, b.entries[n])
    ensures Midrow(h, b, t0, q, x, n + 1)
  {
    PartWrittenStep(h, b, t0, p, b.entries[n], WrittenBy(h, b, t0, n));
    RowStep(h, b, t0, p, x, n);
  }

  lemma MidrowNext(h: Hashes, b: Batch, t0: Tables, x: string, ps: seq<Progress>, n: nat)
    requires b.existing == ExistingRows(t0, b.sub) && MatchesNothing(h, b) && Steps(h, b, t0, ps) && n < |b.entries|
    requires Midrow(h, b, t0, ps[n], x, n)
    ensures Midrow(h, b, t0, ps[n + 1], x, n + 1)
  {
    assert StepAt(h, b, t0, ps, n);
    MidrowStep(h, b, t0, ps[n], ps[n + 1], x, n);
  }

  ghost function RowFlags(h: Hashes, b: Batch, t0: Tables, x: string, ps: seq<Progress>): seq<bool>
    requires |ps| == |b.entries| + 1
  {
    seq(|ps|, i requires 0 <= i < |ps| => Midrow(h, b, t0, ps[i], x, i))
  }

  lemma RowFlagAt(h: Hashes, b: Batch, t0: Tables, x: string, ps: seq<Progress>, i: nat)
    requires i < |ps| == |b.entries| + 1
    ensures RowFlags(h, b, t0, x, ps)[i] == Midrow(h, b, t0, ps[i], x, i)
  {
  }

  lemma RowFlagNext(h: Hashes, b: Batch, t0: Tables, x: string, ps: seq<Progress>, n: nat, next: nat)
    requires b.existing == ExistingRows(t0, b.sub) && MatchesNothing(h, b) && Steps(h, b, t0, ps) && n < |b.entries| && next == n + 1
    requires RowFlags(h, b, t0, x, ps)[n]
    ensures RowFlags(h, b, t0, x, ps)[next]
  {
    RowFlagAt(h, b, t0, x, ps, n);
    RowFlagAt(h, b, t0, x, ps, next);
    MidrowNext(h, b, t0, x, ps, n);
  }

  lemma PayloadRow(h: Hashes, b: Batch, t0: Tables, x: string, ps: seq<Progress>, n: nat)
    requires b.existing == ExistingRows(t0, b.sub) && MatchesNothing(h, b) && Steps(h, b, t0, ps) && n <= |b.entries|
    ensures Midrow(h, b, t0, ps[n], x, n)
  {
    var flags := RowFlags(h, b, t0, x, ps);
    MidrowStart(h, b, t0, x);
    RowFlagAt(h, b, t0, x, ps, 0);
    forall k | 0 < k < |flags| && flags[k - 1] ensures flags[k] { RowFlagNext(h, b, t0, x, ps, k - 1, k); }
    AllHold(flags, n);
    RowFlagAt(h, b, t0, x, ps, n);
  }

  /**
   A refresh whose entries match nothing stored, id by id: which rows there are, their connections,
   their revisions and their activation.
   */
  lemma UnmatchedRow(h: Hashes, b: Batch, t: Tables, t': Tables, x: string)
    requires b.existing == ExistingRows(t, b.sub) && RefreshedTo(h, b, t, t') && MatchesNothing(h, b)
    ensures RowAt(h, b, t, t'.nodes, x, |b.entries|)
  {
    var n, ps := |b.entries|, States(h, b, t);
    PayloadSteps(h, b, t);
    PayloadRow(h, b, t, x, ps, n);
    RowsAfter(h, b, t, t');
    assert ps[n].tables == IngestFirst(h, b, t, n).tables;
  }

  // ---- What that says ----

  /** Every row that was not there before is active, at one plus the changes made to it under a scoped id. */
  lemma NewRowsActive(h: Hashes, b: Batch, t: Tables, t': Tables, x: string)
    requires b.existing == ExistingRows(t, b.sub) && RefreshedTo(h, b, t, t') && MatchesNothing(h, b)
    requires x !in t.nodes && x in t'.nodes
    ensures t'.nodes[x].active && t'.nodes[x].revision == 1 + Rescopes(h, b, t, x, |b.entries|)
  {
    UnmatchedRow(h, b, t, t', x);
  }

  /** No entry carries the id of a stored row. */
  ghost predicate AllUnknown(h: Hashes, b: Batch, t: Tables) {
    forall i :: 0 <= i < |b.entries| && !b.entries[i].notice ==> CandidateId(h, b.entries[i]) !in t.nodes
  }

  lemma {:induction false} NoneScoped(h: Hashes, b: Batch, t: Tables, x: string, n: nat)
    requires AllUnknown(h, b, t) && n <= |b.entries|
    ensures Rescopes(h, b, t, x, n) == 0
  {
    if n > 0 { NoneScoped(h, b, t, x, n - 1); }
  }

  lemma {:induction false} ShownLater(h: Hashes, b: Batch, t: Tables, x: string, k: nat, n: nat)
    requires k < n <= |b.entries| && LandsOn(h, b, t, x, k)
    ensures Shows(h, b, t, x, n).Some?
  {
    if n > k + 1 { ShownLater(h, b, t, x, k, n - 1); }
  }

  /**
   The first import: entries that match nothing and carry unknown ids get active rows at revision one
   under these ids, and no other id gets a row.
   */
  lemma FirstImport(h: Hashes, b: Batch, t: Tables, t': Tables)
    requires b.existing == ExistingRows(t, b.sub) && RefreshedTo(h, b, t, t') && MatchesNothing(h, b) && AllUnknown(h, b, t)
    ensures forall x :: x !in t.nodes && x in t'.nodes ==> t'.nodes[x].active && t'.nodes[x].revision == 1
    ensures forall i :: 0 <= i < |b.entries| && !b.entries[i].notice ==> CandidateId(h, b.entries[i]) in t'.nodes
    ensures forall x :: x in t'.nodes ==> x in t.nodes || Carried(h, b, x)
  {
    forall x | x !in t.nodes && x in t'.nodes ensures t'.nodes[x].active && t'.nodes[x].revision == 1 && Carried(h, b, x) {
      NewRowsActive(h, b, t, t', x);
      NoneScoped(h, b, t, x, |b.entries|);
      UnmatchedRow(h, b, t, t', x);
      ShownIsCarried(h, b, t, x, |b.entries|);
    }
    forall i | 0 <= i < |b.entries| && !b.entries[i].notice ensures CandidateId(h, b.entries[i]) in t'.nodes {
      var x := CandidateId(h, b.entries[i]);
      ShownLater(h, b, t, x, i, |b.entries|);
      UnmatchedRow(h, b, t, t', x);
    }
  }

  ghost predicate Carried(h: Hashes, b: Batch, x: string) {
    exists i :: 0 <= i < |b.entries| && !b.entries[i].notice && CandidateId(h, b.entries[i]) == x
  }

  lemma {:induction false} ShownIsCarried(h: Hashes, b: Batch, t: Tables, x: string, n: nat)
    requires AllUnknown(h, b, t) && n <= |b.entries| && x !in t.nodes && Shows(h, b, t, x, n).Some?
    ensures Carried(h, b, x)
  {
    if n > 0 && !LandsOn(h, b, t, x, n - 1) { ShownIsCarried(h, b, t, x, n - 1); }
  }

  /**
   A row that was there is active afterwards exactly when it was, or when it has no other owner and
   the first entry written to it carries its id. The revision only counts changes under a scoped id.
   */
  lemma StoredRowJoined(h: Hashes, b: Batch, t: Tables, t': Tables, x: string)
    requires b.existing == ExistingRows(t, b.sub) && RefreshedTo(h, b, t, t') && MatchesNothing(h, b) && x in t.nodes
    ensures x in t'.nodes && t'.nodes[x].revision == t.nodes[x].revision + Rescopes(h, b, t, x, |b.entries|)
    ensures t'.nodes[x].active <==> t.nodes[x].active || (Joined(h, b, t, x, |b.entries|) && !OwnedByOther(t, x, b.sub))
  {
    UnmatchedRow(h, b, t, t', x);
    if Shows(h, b, t, x, |b.entries|).None? { NoRowYet(h, b, t, x, |b.entries|); }
  }

  /** An inactive row without owners comes back active when the first entry carries its id and connection. */
  lemma JoinReactivates(h: Hashes, b: Batch, t: Tables, t': Tables, x: string)
    requires b.existing == ExistingRows(t, b.sub) && RefreshedTo(h, b, t, t') && MatchesNothing(h, b)
    requires x in t.nodes && !t.nodes[x].active && !OwnedByOther(t, x, b.sub)
    requires b.entries != [] && !b.entries[0].notice && CandidateId(h, b.entries[0]) == x && Same(h.text, t.nodes[x].connection, b.entries[0].connection)
    ensures x in t'.nodes && t'.nodes[x].active
  {
    assert JoinsAt(h, b, t, x, 0);
    StoredRowJoined(h, b, t, t', x);
  }

  // ---- A new row that is not at revision one ----

  /** A node of another subscription. */
  function ForeignNode(c: string, x: Connection, other: string): Tables {
    Tables(map[c := Row(x, "n", true, 1)], map[Edge(c, other) := "f0"], map[], map[VersionKey(c, 1) := x], map[c := 1], map[])
  }

  /** Two entries under its id, with connections of their own. */
  function TwoUnder(t: Tables, c: string, y: Connection, z: Connection, sub: string): Batch {
    MakeBatch(t, sub, "f1", [Entry(c, "a", y, false), Entry(c, "b", z, false)], true, map[])
  }

  lemma NothingStored(h: Hashes, b: Batch)
    requires b.existing == map[]
    ensures MatchesNothing(h, b)
  {
    forall e ensures Match(h, b, e).None? { assert NamedAlike(b.existing, e.name, e.connection.protocol) == {}; }
  }

  lemma ForeignUnloaded(c: string, x: Connection, sub: string, other: string)
    requires sub != other
    ensures ExistingRows(ForeignNode(c, x, other), sub) == map[]
  {
  }

  /** Two entries under the id of a foreign row, all three connections different. */
  ghost predicate TwoScoped(h: Hashes, b: Batch, t: Tables, c: string) {
    && |b.entries| == 2 && !b.entries[0].notice && !b.entries[1].notice
    && CandidateId(h, b.entries[0]) == c && CandidateId(h, b.entries[1]) == c
    && c in t.nodes && h.scopedId(b.sub, c) != c && h.scopedId(b.sub, c) !in t.nodes
    && !Same(h.text, t.nodes[c].connection, b.entries[0].connection) && !Same(h.text, t.nodes[c].connection, b.entries[1].connection)
    && !Same(h.text, b.entries[0].connection, b.entries[1].connection)
  }

  lemma SecondRescopes(h: Hashes, b: Batch, t: Tables, c: string, s: string)
    requires TwoScoped(h, b, t, c) && s == h.scopedId(b.sub, c)
    ensures Rescopes(h, b, t, s, 2) == 1 && Shows(h, b, t, s, 2).Some?
  {
    assert WrittenBy(h, b, t, 0) == {} && ScopedOnto(h, b, t, s, 0);
    assert WrittenBy(h, b, t, 1) == {s} && ScopedOnto(h, b, t, s, 1);
    assert Shows(h, b, t, s, 0) == None && Shows(h, b, t, s, 1) == Some(b.entries[0].connection);
    assert Rescopes(h, b, t, s, 1) == 0;
  }

  /** The scoped node that such a refresh creates ends active and at revision two. */
  lemma SecondRevises(h: Hashes, b: Batch, t: Tables, t': Tables, c: string, s: string)
    requires b.existing == ExistingRows(t, b.sub) && RefreshedTo(h, b, t, t') && MatchesNothing(h, b)
    requires TwoScoped(h, b, t, c) && s == h.scopedId(b.sub, c)
    ensures s !in t.nodes && s in t'.nodes && t'.nodes[s].active && t'.nodes[s].revision == 2
  {
    SecondRescopes(h, b, t, c, s);
    UnmatchedRow(h, b, t, t', s);
  }

  /** Such a payload, for any foreign node. */
  lemma TwoUnderScoped(h: Hashes, c: string, x: Connection, y: Connection, z: Connection, sub: string, other: string)
    requires c != "" && sub != other && h.scopedId(sub, c) != c && !Same(h.text, x, y) && !Same(h.text, x, z) && !Same(h.text, y, z)
    ensures var t := ForeignNode(c, x, other);
            var b := TwoUnder(t, c, y, z, sub);
            b.existing == ExistingRows(t, b.sub) && MatchesNothing(h, b) && TwoScoped(h, b, t, c)
  {
    ForeignUnloaded(c, x, sub, other);
    NothingStored(h, TwoUnder(ForeignNode(c, x, other), c, y, z, sub));
  }
}

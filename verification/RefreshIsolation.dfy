/**
 Copy-on-write isolation over a whole payload. A refresh leaves the connection of every node that
 another subscription owns semantically as it was, exactly when no id repeats in the payload in one
 particular way; the condition is on the payload and the stored rows alone.
 */
module RefreshIsolation {
  import opened Wrappers
  import opened Connection
  import opened Refresh
  import opened RefreshSafety

  ghost predicate SharedSame(h: Hashes, b: Batch, t: Tables, t': Tables) {
    forall n :: OwnedByOther(t, n, b.sub) ==>
      n in t.nodes && n in t'.nodes && Same(h.text, t.nodes[n].connection, t'.nodes[n].connection)
  }

  /** Entry `k` carries the id `c` and updates no stored node of this subscription. */
  ghost predicate Unmatched(h: Hashes, b: Batch, c: string, k: int)
    requires 0 <= k < |b.entries|
  {
    !b.entries[k].notice && Match(h, b, b.entries[k]).None? && CandidateId(h, b.entries[k]) == c
  }

  /**
   An entry joins the shared node `c` because it has the stored connection, and the last later entry
   under the same id does not have it.
   */
  ghost predicate Clash(h: Hashes, b: Batch, stored: Connection, c: string) {
    exists i, j :: ClashAt(h, b, stored, c, |b.entries|, i, j)
  }

  ghost predicate ClashAt(h: Hashes, b: Batch, stored: Connection, c: string, n: nat, i: int, j: int)
    requires n <= |b.entries|
  {
    && 0 <= i < j < n && Unmatched(h, b, c, i) && Unmatched(h, b, c, j)
    && Same(h.text, stored, b.entries[i].connection) && !Same(h.text, stored, b.entries[j].connection)
    && forall k :: j < k < n ==> !Unmatched(h, b, c, k)
  }

  /** No shared node clashes. */
  ghost predicate ClashFree(h: Hashes, b: Batch, t: Tables) {
    forall c :: c in t.nodes && OwnedByOther(t, c, b.sub) ==> !Clash(h, b, t.nodes[c].connection, c)
  }

  // ---- What becomes of one shared id ----

  /** The connection the first `n` entries wrote to the shared node `c`, once one of them joined it. */
  ghost function Joined(h: Hashes, b: Batch, stored: Connection, c: string, n: nat): Option<Connection>
    requires n <= |b.entries|
  {
    if n == 0 then None
    else
      var before := Joined(h, b, stored, c, n - 1);
      var conn := b.entries[n - 1].connection;
      if Unmatched(h, b, c, n - 1) && (before.Some? || Same(h.text, stored, conn)) then Some(conn) else before
  }

  lemma {:induction false} JoinedBy(h: Hashes, b: Batch, stored: Connection, c: string, n: nat, i: nat)
    requires i < n <= |b.entries| && Unmatched(h, b, c, i) && Same(h.text, stored, b.entries[i].connection)
    ensures Joined(h, b, stored, c, n).Some?
  {
    if i < n - 1 { JoinedBy(h, b, stored, c, n - 1, i); }
  }

  /** Once joined, the last entry under the id decides. */
  lemma {:induction false} JoinedLast(h: Hashes, b: Batch, stored: Connection, c: string, n: nat, j: nat)
    requires j < n <= |b.entries| && Unmatched(h, b, c, j) && Joined(h, b, stored, c, j).Some?
    requires forall k :: j < k < n ==> !Unmatched(h, b, c, k)
    ensures Joined(h, b, stored, c, n) == Some(b.entries[j].connection)
  {
    if j < n - 1 { JoinedLast(h, b, stored, c, n - 1, j); }
  }

  /** A node joined and left with another connection shows a clash. */
  lemma {:induction false} JoinedClash(h: Hashes, b: Batch, stored: Connection, c: string, n: nat) returns (i: int, j: int)
    requires n <= |b.entries| && Joined(h, b, stored, c, n).Some?
    ensures 0 <= i < n && Unmatched(h, b, c, i) && Same(h.text, stored, b.entries[i].connection)
    ensures !Same(h.text, stored, Joined(h, b, stored, c, n).value) ==> ClashAt(h, b, stored, c, n, i, j)
  {
    if Joined(h, b, stored, c, n - 1).None? {
      i, j := n - 1, n - 1;
    } else {
      i, j := JoinedClash(h, b, stored, c, n - 1);
      if Unmatched(h, b, c, n - 1) { j := n - 1; }
    }
  }

  lemma ClashExactly(h: Hashes, b: Batch, stored: Connection, c: string)
    ensures var q := Joined(h, b, stored, c, |b.entries|);
            Clash(h, b, stored, c) <==> q.Some? && !Same(h.text, stored, q.value)
  {
    var n := |b.entries|;
    if i, j :| ClashAt(h, b, stored, c, n, i, j) {
      JoinedBy(h, b, stored, c, j, i);
      JoinedLast(h, b, stored, c, n, j);
    }
    var q := Joined(h, b, stored, c, n);
    if q.Some? && !Same(h.text, stored, q.value) {
      var i, j := JoinedClash(h, b, stored, c, n);
      assert ClashAt(h, b, stored, c, n, i, j);
    }
  }

  // ---- The invariant of the payload loop ----

  /** The state of the shared node `c` after `n` entries. */
  ghost predicate SharedState(h: Hashes, b: Batch, t0: Tables, t: Tables, c: string, n: nat)
    requires n <= |b.entries|
  {
    && c in t0.nodes && c in t.nodes
    && var stored, now := t0.nodes[c].connection, t.nodes[c].connection;
       if c in b.existing || IsScoped(h, c) then Same(h.text, stored, now)
       else
         var q := Joined(h, b, stored, c, n);
         (Edge(c, b.sub) in t.sources <==> q.Some?) && now == (if q.Some? then q.value else stored)
  }

  /** Nodes written by this payload and not known before are linked. */
  ghost predicate SeenLinked(b: Batch, p: Progress) {
    forall x :: x in p.seen && x !in b.existing ==> Edge(x, b.sub) in p.tables.sources
  }

  ghost predicate AllShared(h: Hashes, b: Batch, t0: Tables, p: Progress, n: nat)
    requires n <= |b.entries|
  {
    && SeenLinked(b, p)
    && forall c :: OwnedByOther(t0, c, b.sub) ==> SharedState(h, b, t0, p.tables, c, n)
  }

  lemma SeenStep(h: Hashes, b: Batch, p: Progress, e: Entry)
    requires SeenLinked(b, p)
    ensures SeenLinked(b, Ingest(h, b, p, e))
  {
    if e.notice { NoticeKeepsRest(b, p.tables, e); } else { DecisionShape(h, b, p.tables, e); }
  }

  /** The target's edge is there after the write, and other new ids keep theirs. */
  lemma LinkStep(h: Hashes, b: Batch, p: Progress, e: Entry, c: string)
    requires !e.notice && c !in b.existing && SeenLinked(b, p)
    ensures var t' := IngestNode(h, b, p, e).tables;
            Edge(c, b.sub) in t'.sources <==> Edge(c, b.sub) in p.tables.sources || c == Decide(h, b, p.tables, e).target
  {
    DecisionShape(h, b, p.tables, e);
  }

  /** A matched entry writes a shared node only with the connection it was loaded with. */
  lemma MatchedShared(h: Hashes, b: Batch, t0: Tables, t: Tables, e: Entry, c: string)
    requires Sound(h, b, t0) && TablesOk(h, t) && OwnedByOther(t, c, b.sub) && Match(h, b, e).Some?
    requires Decide(h, b, t, e).target == c
    ensures c in b.existing && Same(h.text, b.existing[c].connection, Decide(h, b, t, e).connection)
  {
    MatchExists(h, b, e);
    ScopedIsOwn(h, b, t, e);
  }

  /** An unmatched entry writes a shared node only under that node's own id, joined or being joined. */
  lemma UnmatchedShared(h: Hashes, b: Batch, t: Tables, e: Entry, c: string)
    requires TablesOk(h, t) && OwnedByOther(t, c, b.sub) && c in t.nodes && Match(h, b, e).None?
    ensures var d := Decide(h, b, t, e);
            d.target == c <==> c == CandidateId(h, e) && (Edge(c, b.sub) in t.sources || Same(h.text, t.nodes[c].connection, e.connection))
    ensures Decide(h, b, t, e).connection == e.connection
    ensures CandidateId(h, e) !in b.existing
  {
    ScopedIsOwn(h, b, t, e);
  }

  /** An entry that does not concern `c` leaves its state. */
  lemma SharedUntouched(h: Hashes, b: Batch, t0: Tables, t: Tables, t': Tables, n: nat, c: string)
    requires n < |b.entries| && SharedState(h, b, t0, t, c, n) && !Unmatched(h, b, c, n)
    requires c in t'.nodes && t'.nodes[c].connection == t.nodes[c].connection
    requires c !in b.existing ==> (Edge(c, b.sub) in t'.sources <==> Edge(c, b.sub) in t.sources)
    ensures SharedState(h, b, t0, t', c, n + 1)
  {
  }

  lemma SharedByMatched(h: Hashes, b: Batch, t0: Tables, p: Progress, n: nat, c: string)
    requires Sound(h, b, t0) && n < |b.entries| && TablesOk(h, p.tables) && SeenLinked(b, p)
    requires OwnedByOther(p.tables, c, b.sub) && SharedState(h, b, t0, p.tables, c, n)
    requires !b.entries[n].notice && Match(h, b, b.entries[n]).Some?
    ensures SharedState(h, b, t0, IngestNode(h, b, p, b.entries[n]).tables, c, n + 1)
  {
    var e, t, t' := b.entries[n], p.tables, IngestNode(h, b, p, b.entries[n]).tables;
    var d := Decide(h, b, t, e);
    IngestEdges(h, b, p, e);
    SoundExisting(h, b, t0);
    if d.target == c {
      MatchedShared(h, b, t0, t, e, c);
    } else {
      if c !in b.existing { LinkStep(h, b, p, e, c); }
      SharedUntouched(h, b, t0, t, t', n, c);
    }
  }

  lemma SharedByUnmatched(h: Hashes, b: Batch, t0: Tables, p: Progress, n: nat, c: string)
    requires Sound(h, b, t0) && n < |b.entries| && TablesOk(h, p.tables) && SeenLinked(b, p)
    requires OwnedByOther(p.tables, c, b.sub) && SharedState(h, b, t0, p.tables, c, n)
    requires !b.entries[n].notice && Match(h, b, b.entries[n]).None?
    ensures SharedState(h, b, t0, IngestNode(h, b, p, b.entries[n]).tables, c, n + 1)
  {
    var e, t, t' := b.entries[n], p.tables, IngestNode(h, b, p, b.entries[n]).tables;
    var d := Decide(h, b, t, e);
    IngestEdges(h, b, p, e);
    UnmatchedShared(h, b, t, e, c);
    if c !in b.existing { LinkStep(h, b, p, e, c); }
    if c == CandidateId(h, e) {
      JoinStep(h, b, t0, t, t', n, c, d);
    } else {
      SharedUntouched(h, b, t0, t, t', n, c);
    }
  }

  lemma JoinStep(h: Hashes, b: Batch, t0: Tables, t: Tables, t': Tables, n: nat, c: string, d: Decision)
    requires n < |b.entries| && SharedState(h, b, t0, t, c, n) && Unmatched(h, b, c, n) && BaseEntries(h, b.entries)
    requires c !in b.existing && c in t'.nodes
    requires d.target == c <==> Edge(c, b.sub) in t.sources || Same(h.text, t.nodes[c].connection, b.entries[n].connection)
    requires t'.nodes[c].connection == if d.target == c then b.entries[n].connection else t.nodes[c].connection
    requires Edge(c, b.sub) in t'.sources <==> Edge(c, b.sub) in t.sources || c == d.target
    ensures SharedState(h, b, t0, t', c, n + 1)
  {
    assert !IsScoped(h, c);
  }

  lemma SharedStep(h: Hashes, b: Batch, t0: Tables, p: Progress, n: nat, c: string)
    requires Sound(h, b, t0) && n < |b.entries| && TablesOk(h, p.tables) && SeenLinked(b, p)
    requires OwnedByOther(p.tables, c, b.sub) && SharedState(h, b, t0, p.tables, c, n)
    ensures SharedState(h, b, t0, Ingest(h, b, p, b.entries[n]).tables, c, n + 1)
  {
    var e := b.entries[n];
    if e.notice {
      NoticeKeepsRest(b, p.tables, e);
      SharedUntouched(h, b, t0, p.tables, IngestNotice(b, p.tables, e), n, c);
    } else if Match(h, b, e).Some? {
      SharedByMatched(h, b, t0, p, n, c);
    } else {
      SharedByUnmatched(h, b, t0, p, n, c);
    }
  }

  lemma AllSharedStart(h: Hashes, b: Batch, t0: Tables)
    requires Sound(h, b, t0)
    ensures AllShared(h, b, t0, Progress(t0, {}), 0)
  {
    SoundExisting(h, b, t0);
    forall c | OwnedByOther(t0, c, b.sub) ensures SharedState(h, b, t0, t0, c, 0) {
      var ed :| ed in t0.sources && ed.node == c && ed.sub != b.sub;
    }
  }

  lemma AllSharedStep(h: Hashes, b: Batch, t0: Tables, p: Progress, q: Progress, n: nat)
    requires Sound(h, b, t0) && n < |b.entries| && Midway(h, b, t0, p.tables) && AllShared(h, b, t0, p, n)
    requires q == Ingest(h, b, p, b.entries[n])
    ensures AllShared(h, b, t0, q, n + 1)
  {
    SeenStep(h, b, p, b.entries[n]);
    forall c | OwnedByOther(t0, c, b.sub) ensures SharedState(h, b, t0, q.tables, c, n + 1) {
      OthersOwn(t0, p.tables, b.sub, c);
      SharedStep(h, b, t0, p, n, c);
    }
  }

  // ---- Which associations a payload confirms ----

  /** The fetch id is new, so the stored associations carry earlier ones. */
  ghost predicate NewFetch(b: Batch, t0: Tables) {
    forall ed :: ed in t0.sources && ed.sub == b.sub ==> t0.sources[ed] != b.fetch
  }

  /** An association carries this fetch exactly when the payload wrote its node. */
  ghost predicate Confirmed(b: Batch, p: Progress) {
    forall ed :: ed in p.tables.sources && ed.sub == b.sub ==> (p.tables.sources[ed] == b.fetch <==> ed.node in p.seen)
  }

  lemma ConfirmedStep(h: Hashes, b: Batch, p: Progress, e: Entry)
    requires Confirmed(b, p)
    ensures Confirmed(b, Ingest(h, b, p, e))
  {
    var q := Ingest(h, b, p, e);
    if e.notice {
      NoticeKeepsRest(b, p.tables, e);
    } else {
      var d := Decide(h, b, p.tables, e);
      DecisionShape(h, b, p.tables, e);
      forall ed | ed in q.tables.sources && ed.sub == b.sub
        ensures q.tables.sources[ed] == b.fetch <==> ed.node in q.seen
      {
        assert ed == Edge(ed.node, b.sub);
      }
    }
  }

  // ---- The whole payload ----

  ghost predicate Reached(h: Hashes, b: Batch, t0: Tables, p: Progress, n: nat)
    requires n <= |b.entries|
  {
    Midway(h, b, t0, p.tables) && AllShared(h, b, t0, p, n)
  }

  lemma ReachedStep(h: Hashes, b: Batch, t0: Tables, p: Progress, q: Progress, n: nat)
    requires Sound(h, b, t0) && n < |b.entries| && Reached(h, b, t0, p, n) && q == Ingest(h, b, p, b.entries[n])
    ensures Reached(h, b, t0, q, n + 1)
  {
    MidwayStep(h, b, t0, p, q, n);
    AllSharedStep(h, b, t0, p, q, n);
  }

  lemma ReachedStart(h: Hashes, b: Batch, t0: Tables)
    requires Sound(h, b, t0)
    ensures Reached(h, b, t0, Progress(t0, {}), 0)
  {
    AllSharedStart(h, b, t0);
  }

  lemma ReachedNext(h: Hashes, b: Batch, t0: Tables, p: Progress, n: nat) returns (q: Progress)
    requires Sound(h, b, t0) && n < |b.entries| && p == IngestFirst(h, b, t0, n) && Reached(h, b, t0, p, n)
    ensures q == IngestFirst(h, b, t0, n + 1) && Reached(h, b, t0, q, n + 1)
  {
    q := Ingest(h, b, p, b.entries[n]);
    ReachedStep(h, b, t0, p, q, n);
  }

  lemma PayloadReached(h: Hashes, b: Batch, t0: Tables)
    requires Sound(h, b, t0)
    ensures Reached(h, b, t0, IngestFirst(h, b, t0, |b.entries|), |b.entries|)
  {
    var k, p := 0, Progress(t0, {});
    ReachedStart(h, b, t0);
    while k < |b.entries|
      invariant k <= |b.entries| && p == IngestFirst(h, b, t0, k) && Reached(h, b, t0, p, k)
    {
      p := ReachedNext(h, b, t0, p, k);
      k := k + 1;
    }
  }

  lemma {:induction false} PayloadConfirmed(h: Hashes, b: Batch, t0: Tables, n: nat)
    requires NewFetch(b, t0) && n <= |b.entries|
    ensures Confirmed(b, IngestFirst(h, b, t0, n))
  {
    if n > 0 {
      PayloadConfirmed(h, b, t0, n - 1);
      ConfirmedStep(h, b, IngestFirst(h, b, t0, n - 1), b.entries[n - 1]);
    }
  }

  /** A payload keeps all shared connections exactly when none of them clashes. */
  lemma PayloadIsolates(h: Hashes, b: Batch, t0: Tables, p: Progress)
    requires Sound(h, b, t0) && Reached(h, b, t0, p, |b.entries|)
    ensures SharedSame(h, b, t0, p.tables) <==> ClashFree(h, b, t0)
  {
    forall c | OwnedByOther(t0, c, b.sub)
      ensures c in t0.nodes && c in p.tables.nodes
      ensures Same(h.text, t0.nodes[c].connection, p.tables.nodes[c].connection) <==> !Clash(h, b, t0.nodes[c].connection, c)
    {
      assert SharedState(h, b, t0, p.tables, c, |b.entries|);
      ClashExactly(h, b, t0.nodes[c].connection, c);
      if c in b.existing || IsScoped(h, c) { NoClash(h, b, t0.nodes[c].connection, c); }
    }
  }

  lemma NoClash(h: Hashes, b: Batch, stored: Connection, c: string)
    requires BaseEntries(h, b.entries) && (c in b.existing || IsScoped(h, c))
    ensures !Clash(h, b, stored, c)
  {
  }

  /** Distinct ids never clash. */
  lemma DistinctClashFree(h: Hashes, b: Batch, t: Tables)
    requires forall i, j :: 0 <= i < j < |b.entries| && !b.entries[i].notice && !b.entries[j].notice ==>
      CandidateId(h, b.entries[i]) != CandidateId(h, b.entries[j])
    ensures ClashFree(h, b, t)
  {
  }
}

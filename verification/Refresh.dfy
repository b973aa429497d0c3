/**
 The refresh transaction of one subscription: matching incoming entries to stored nodes,
 copy-on-write isolation of shared nodes, upserts of nodes, versions and heads, the provenance
 ledger, and pruning on full success only. Tables are maps; the service object is proved against
 functions on their values.
 */
module Refresh {
  import opened Wrappers
  import opened Connection

  datatype Row = Row(connection: Connection, displayName: string, active: bool, revision: int)

  /** A live or past association of a node with a subscription. */
  datatype Edge = Edge(node: string, sub: string)

  /** Why a provenance record exists. */
  datatype Evidence = CowUnlinked(node: string, sub: string) | RefreshRemoved(sub: string, lastFetch: string)

  datatype HistoryKey = HistoryKey(node: string, evidence: Evidence)

  datatype HistoryRow = HistoryRow(sub: string, revision: int)

  datatype VersionKey = VersionKey(node: string, revision: int)

  datatype Tables = Tables(
    nodes: map<string, Row>,
    sources: map<Edge, string>,
    history: map<HistoryKey, HistoryRow>,
    versions: map<VersionKey, Connection>,
    heads: map<string, int>,
    rawNames: map<Edge, string>)

  /** One parsed entry; notices carry no node. */
  datatype Entry = Entry(logicalId: string, name: string, connection: Connection, notice: bool)

  /** Text comparison and the two identity hashes. */
  datatype Hashes = Hashes(text: Text, baseId: Entry -> string, scopedId: (string, string) -> string)

  /** One refresh: its subscription and fetch, what was parsed, and whether nothing was rejected. */
  datatype Batch = Batch(
    sub: string,
    fetch: string,
    entries: seq<Entry>,
    success: bool,
    overrides: map<string, Override>,
    existing: map<string, Row>)

  // ---- Matching ----

  /** The id an entry would get on its own. */
  function CandidateId(h: Hashes, e: Entry): string {
    if e.logicalId != "" then e.logicalId else h.baseId(e)
  }

  function ScopedId(h: Hashes, b: Batch, e: Entry): string {
    h.scopedId(b.sub, CandidateId(h, e))
  }

  function NamedAlike(m: map<string, Row>, name: string, protocol: string): set<string> {
    set id | id in m && m[id].displayName == name && m[id].connection.protocol == protocol
  }

  function CountAlike(es: seq<Entry>, name: string, protocol: string): nat {
    if es == [] then 0
    else CountAlike(es[..|es| - 1], name, protocol) +
         if es[|es| - 1].name == name && es[|es| - 1].connection.protocol == protocol then 1 else 0
  }

  /** Name and protocol single out one stored node and one incoming entry. */
  ghost predicate UniqueByName(b: Batch, e: Entry) {
    |NamedAlike(b.existing, e.name, e.connection.protocol)| == 1 && CountAlike(b.entries, e.name, e.connection.protocol) == 1
  }

  ghost function TheOne(s: set<string>): string
    requires |s| == 1
  {
    assert s != {};
    var x :| x in s; x
  }

  /**
   The stored node of this subscription an entry updates: by logical id, by unique name, by scoped or
   base id.
   */
  ghost function Match(h: Hashes, b: Batch, e: Entry): Option<string> {
    if e.logicalId != "" && e.logicalId in b.existing then Some(e.logicalId)
    else if UniqueByName(b, e) then Some(TheOne(NamedAlike(b.existing, e.name, e.connection.protocol)))
    else if ScopedId(h, b, e) in b.existing then Some(ScopedId(h, b, e))
    else if CandidateId(h, e) in b.existing then Some(CandidateId(h, e))
    else None
  }

  lemma MatchExists(h: Hashes, b: Batch, e: Entry)
    ensures Match(h, b, e).Some? ==> Match(h, b, e).value in b.existing
  {
  }

  ghost predicate OwnedByOther(t: Tables, node: string, sub: string) {
    exists ed :: ed in t.sources && ed.node == node && ed.sub != sub
  }

  // ---- The decision for one entry ----

  /** Where an entry is written and with what; `unlink` is a shared node it is split off from. */
  datatype Decision = Decision(
    target: string, connection: Connection, active: bool, revision: int, unlink: Option<string>, newHead: bool)

  ghost function DecideMatched(h: Hashes, b: Batch, t: Tables, e: Entry, mid: string): Decision
    requires mid in b.existing
  {
    var row := b.existing[mid];
    var c := if mid in b.overrides then ApplyOverride(b.overrides[mid], e.connection) else e.connection;
    if Same(h.text, row.connection, c) then Decision(mid, c, row.active, row.revision, None, false)
    else if OwnedByOther(t, mid, b.sub) then Decision(ScopedId(h, b, e), c, row.active, row.revision + 1, Some(mid), true)
    else Decision(mid, c, row.active, row.revision + 1, None, true)
  }

  /** The scoped node already stored, or a new one. */
  ghost function DecideScoped(h: Hashes, b: Batch, t: Tables, e: Entry): Decision {
    var sid := ScopedId(h, b, e);
    if sid in t.nodes then
      var sc := t.nodes[sid];
      Decision(sid, e.connection, sc.active, if Same(h.text, sc.connection, e.connection) then sc.revision else sc.revision + 1, None, true)
    else Decision(sid, e.connection, true, 1, None, true)
  }

  ghost function DecideUnmatched(h: Hashes, b: Batch, t: Tables, e: Entry): Decision {
    var cid := CandidateId(h, e);
    if cid !in t.nodes then Decision(cid, e.connection, true, 1, None, true)
    else
      var row := t.nodes[cid];
      if Edge(cid, b.sub) in t.sources then Decision(cid, e.connection, row.active, row.revision, None, true)
      else if Same(h.text, row.connection, e.connection)
      then Decision(cid, e.connection, row.active || !OwnedByOther(t, cid, b.sub), row.revision, None, true)
      else DecideScoped(h, b, t, e)
  }

  ghost function Decide(h: Hashes, b: Batch, t: Tables, e: Entry): Decision {
    MatchExists(h, b, e);
    var m := Match(h, b, e);
    if m.Some? then DecideMatched(h, b, t, e, m.value) else DecideUnmatched(h, b, t, e)
  }

  // ---- Table updates ----

  function Record(m: map<HistoryKey, HistoryRow>, k: HistoryKey, r: HistoryRow): map<HistoryKey, HistoryRow> {
    if k in m then m else m[k := r]
  }

  /** Copy-on-write: the old association is recorded, and unlinked on full success. */
  ghost function Unlink(b: Batch, t: Tables, mid: string): Tables
    requires mid in b.existing
  {
    t.(history := Record(t.history, HistoryKey(mid, CowUnlinked(mid, b.sub)), HistoryRow(b.sub, b.existing[mid].revision)),
       sources := if b.success then t.sources - {Edge(mid, b.sub)} else t.sources)
  }

  function Write(b: Batch, t: Tables, seen: set<string>, e: Entry, d: Decision): Tables {
    t.(nodes := t.nodes[d.target := Row(d.connection, e.name, d.active, d.revision)],
       versions := t.versions[VersionKey(d.target, d.revision) := d.connection],
       heads := if d.newHead then t.heads[d.target := d.revision] else t.heads,
       sources := if d.target in seen then t.sources else t.sources[Edge(d.target, b.sub) := b.fetch],
       rawNames := t.rawNames[Edge(d.target, b.sub) := e.name])
  }

  /** A notice only records which stored node its text was last seen with. */
  ghost function NoticeMatch(b: Batch, e: Entry): Option<string> {
    if e.logicalId != "" && e.logicalId in b.existing then Some(e.logicalId)
    else if |NamedAlike(b.existing, e.name, e.connection.protocol)| == 1
    then Some(TheOne(NamedAlike(b.existing, e.name, e.connection.protocol)))
    else None
  }

  ghost function IngestNotice(b: Batch, t: Tables, e: Entry): Tables {
    var m := NoticeMatch(b, e);
    if m.Some? then t.(rawNames := t.rawNames[Edge(m.value, b.sub) := e.name]) else t
  }

  datatype Progress = Progress(tables: Tables, seen: set<string>)

  ghost function IngestNode(h: Hashes, b: Batch, p: Progress, e: Entry): Progress {
    MatchExists(h, b, e);
    var d := Decide(h, b, p.tables, e);
    var t := if d.unlink.Some? then Unlink(b, p.tables, d.unlink.value) else p.tables;
    Progress(Write(b, t, p.seen, e, d), p.seen + {d.target})
  }

  ghost function Ingest(h: Hashes, b: Batch, p: Progress, e: Entry): Progress {
    if e.notice then Progress(IngestNotice(b, p.tables, e), p.seen) else IngestNode(h, b, p, e)
  }

  ghost function IngestFirst(h: Hashes, b: Batch, t: Tables, n: nat): Progress
    requires n <= |b.entries|
  {
    if n == 0 then Progress(t, {}) else Ingest(h, b, IngestFirst(h, b, t, n - 1), b.entries[n - 1])
  }

  // ---- Pruning ----

  ghost predicate Stale(b: Batch, t: Tables, ed: Edge) {
    ed in t.sources && ed.sub == b.sub && t.sources[ed] != b.fetch
  }

  /** The provenance record a pruned association leaves, if its node still has a row. */
  ghost function PruneKey(b: Batch, t: Tables, ed: Edge): HistoryKey
    requires ed in t.sources
  {
    HistoryKey(ed.node, RefreshRemoved(b.sub, t.sources[ed]))
  }

  /** All stale associations are recorded and dropped. */
  ghost predicate PrunedTo(b: Batch, t: Tables, t': Tables) {
    && t'.nodes == t.nodes && t'.versions == t.versions && t'.heads == t.heads && t'.rawNames == t.rawNames
    && (forall ed :: ed in t'.sources <==> ed in t.sources && !Stale(b, t, ed))
    && (forall ed :: ed in t'.sources ==> t'.sources[ed] == t.sources[ed])
    && (forall k :: k in t.history ==> k in t'.history && t'.history[k] == t.history[k])
    && (forall ed :: Stale(b, t, ed) && ed.node in t.nodes ==> PruneKey(b, t, ed) in t'.history)
    && (forall k :: k in t'.history && k !in t.history ==> PruneRecord(b, t, t'.history, k))
  }

  ghost predicate PruneRecord(b: Batch, t: Tables, hist: map<HistoryKey, HistoryRow>, k: HistoryKey) {
    exists ed :: Stale(b, t, ed) && ed.node in t.nodes && k == PruneKey(b, t, ed) && k in hist &&
      hist[k] == HistoryRow(b.sub, t.nodes[ed.node].revision)
  }

  /** Display names of affected nodes are recomputed; nothing else changes. */
  ghost predicate RenamedTo(t: Tables, t': Tables) {
    && t'.nodes.Keys == t.nodes.Keys && t' == t.(nodes := t'.nodes)
    && forall n :: n in t.nodes ==> t'.nodes[n] == t.nodes[n].(displayName := t'.nodes[n].displayName)
  }
}

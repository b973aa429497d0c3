/**
 Activation of stored nodes under refresh. A stored node keeps the activation it was loaded with
 exactly unless an entry is split onto it from a stored node with the other one and no later entry
 writes it. Such a refresh can reactivate a node that was disabled.
 */
module RefreshActivation {
  import opened Wrappers
  import opened Connection
  import opened Refresh
  import opened RefreshService
  import opened RefreshStored

  /** The entry is split onto `x` from a stored node with the other activation. */
  ghost predicate SplitsFromOther(h: Hashes, b: Batch, t: Tables, x: string, e: Entry)
    requires x in b.existing
  {
    SplitsOff(h, b, t, e) && ScopedId(h, b, e) == x && b.existing[Stored(h, b, e).value].active != b.existing[x].active
  }

  ghost predicate OverruledAt(h: Hashes, b: Batch, t: Tables, x: string, k: int)
    requires x in b.existing
  {
    && 0 <= k < |b.entries| && SplitsFromOther(h, b, t, x, b.entries[k])
    && forall j :: k < j < |b.entries| ==> WrittenTo(h, b, t, b.entries[j]) != Some(x)
  }

  /** Such a split is the last write to `x`. */
  ghost predicate Overruled(h: Hashes, b: Batch, t: Tables, x: string)
    requires x in b.existing
  {
    exists k :: OverruledAt(h, b, t, x, k)
  }

  ghost function ActivationMark(h: Hashes, b: Batch, t: Tables, x: string, e: Entry): Mark
    requires x in b.existing
  {
    if WrittenTo(h, b, t, e) != Some(x) then Skip else if SplitsFromOther(h, b, t, x, e) then Bad else Good
  }

  ghost function ActivationMarks(h: Hashes, b: Batch, t: Tables, x: string): Entry -> Mark
    requires x in b.existing
  {
    e => ActivationMark(h, b, t, x, e)
  }

  lemma OverruledMarks(h: Hashes, b: Batch, t: Tables, x: string)
    requires x in b.existing
    ensures Overruled(h, b, t, x) <==> Spoiled(Marks(ActivationMarks(h, b, t, x), b.entries, |b.entries|))
  {
    var s := Marks(ActivationMarks(h, b, t, x), b.entries, |b.entries|);
    MarksAt(ActivationMarks(h, b, t, x), b.entries, |b.entries|);
    assert forall i :: 0 <= i < |s| ==> s[i] == ActivationMark(h, b, t, x, b.entries[i]);
    forall k ensures OverruledAt(h, b, t, x, k) <==> SpoiledAt(s, k) {}
  }

  /** A write carries the other activation exactly when it is such a split. */
  lemma WrittenActivation(h: Hashes, b: Batch, t: Tables, x: string, e: Entry)
    requires x in b.existing && WrittenTo(h, b, t, e) == Some(x)
    ensures b.existing[Stored(h, b, e).value].active != b.existing[x].active <==> SplitsFromOther(h, b, t, x, e)
  {
  }

  ghost predicate ActiveAt(h: Hashes, b: Batch, t0: Tables, t: Tables, x: string, n: nat)
    requires n <= |b.entries| && x in b.existing
  {
    && x in t.nodes
    && (t.nodes[x].active == b.existing[x].active <==> !Spoiled(Marks(ActivationMarks(h, b, t0, x), b.entries, n)))
  }

  lemma ActiveStep(h: Hashes, b: Batch, t0: Tables, ps: seq<Progress>, x: string, n: nat)
    requires Steps(h, b, t0, ps) && n < |b.entries| && x in b.existing && ActiveAt(h, b, t0, ps[n].tables, x, n)
    ensures ActiveAt(h, b, t0, ps[n + 1].tables, x, n + 1)
  {
    var e := b.entries[n];
    assert StepAt(h, b, t0, ps, n);
    var f := ActivationMarks(h, b, t0, x);
    SpoiledSnoc(Marks(f, b.entries, n), f(e));
    StoredRow(h, b, t0, ps[n], e, x);
    if WrittenTo(h, b, t0, e) == Some(x) { WrittenActivation(h, b, t0, x, e); }
  }

  lemma ActiveStart(h: Hashes, b: Batch, t0: Tables, x: string)
    requires b.existing == ExistingRows(t0, b.sub) && x in b.existing
    ensures ActiveAt(h, b, t0, t0, x, 0)
  {
  }

  lemma {:induction false} PayloadActive(h: Hashes, b: Batch, t0: Tables, x: string, ps: seq<Progress>, n: nat)
    requires b.existing == ExistingRows(t0, b.sub) && x in b.existing && Steps(h, b, t0, ps) && n <= |b.entries|
    ensures ActiveAt(h, b, t0, ps[n].tables, x, n)
  {
    if n == 0 {
      ActiveStart(h, b, t0, x);
    } else {
      PayloadActive(h, b, t0, x, ps, n - 1);
      ActiveStep(h, b, t0, ps, x, n - 1);
    }
  }

  /**
   A refresh keeps the activation of a stored node exactly unless a split from a node with the other
   one is the last write to it.
   */
  lemma RefreshKeepsActivation(h: Hashes, b: Batch, t: Tables, t': Tables, x: string)
    requires b.existing == ExistingRows(t, b.sub) && RefreshedTo(h, b, t, t') && x in b.existing
    ensures x in t.nodes && x in t'.nodes
    ensures t'.nodes[x].active == t.nodes[x].active <==> !Overruled(h, b, t, x)
  {
    var pruned :| RefreshedVia(h, b, t, pruned, t');
    var n := |b.entries|;
    var ps := States(h, b, t);
    PayloadSteps(h, b, t);
    PayloadActive(h, b, t, x, ps, n);
    OverruledMarks(h, b, t, x);
    RenamedActive(b, ps[n].tables, pruned, t', x);
  }

  lemma RenamedActive(b: Batch, u: Tables, pruned: Tables, t': Tables, x: string)
    requires (if b.success then PrunedTo(b, u, pruned) else pruned == u) && RenamedTo(pruned, t') && x in u.nodes
    ensures x in t'.nodes && t'.nodes[x].active == u.nodes[x].active
  {
    assert pruned.nodes == u.nodes;
    assert t'.nodes[x] == pruned.nodes[x].(displayName := t'.nodes[x].displayName);
  }

  // ---- A disabled node comes back ----

  /** The disabled node is written again from the active shared one, and comes back active. */
  lemma SplitReactivates(h: Hashes, c: string, x: Connection, y: Connection, z: Connection, sub: string, other: string, t': Tables)
    requires c != "" && sub != other && h.scopedId(sub, c) != c && !Same(h.text, x, y)
    requires var t := SplitBefore(h, c, x, z, sub, other); RefreshedTo(h, SplitAgain(t, c, y, sub), t, t')
    ensures var t, s := SplitBefore(h, c, x, z, sub, other), h.scopedId(sub, c);
            s in t.nodes && s in t'.nodes && !t.nodes[s].active && t'.nodes[s].active
  {
    var t, s := SplitBefore(h, c, x, z, sub, other), h.scopedId(sub, c);
    var b := SplitAgain(t, c, y, sub);
    SplitAgainGuards(h, c, x, y, z, sub, other);
    assert OverruledAt(h, b, t, s, 0);
    RefreshKeepsActivation(h, b, t, t', s);
  }
}

/**
 Validation of a risk policy's score bands. The source sorts by lower bound with an unstable sort and
 walks the result once; the verdict is nevertheless a property of the bands alone: they are accepted
 exactly when each is well-formed and every score from 0 to 100 falls into exactly one of them.
 */
module ScoreBands {
  import opened Wrappers
  import opened Sorting

  datatype RiskBand = Low | Medium | High | Critical | Unknown | OtherBand(name: string)

  datatype BandAction = Allow | Review | Block | OtherAction(name: string)

  datatype ScoreBand = ScoreBand(min: int, max: int, band: RiskBand, action: BandAction)

  predicate WellFormed(b: ScoreBand) {
    0 <= b.min <= b.max <= 100 && !b.band.OtherBand? && b.band != Unknown && !b.action.OtherAction?
  }

  predicate Covers(b: ScoreBand, score: int) {
    b.min <= score <= b.max
  }

  /** One band, listed once, covers the score. */
  ghost predicate ExactlyOne(bands: multiset<ScoreBand>, score: int) {
    exists b :: b in bands && bands[b] == 1 && Covers(b, score) && forall c :: c in bands && Covers(c, score) ==> c == b
  }

  ghost predicate Partition(bands: multiset<ScoreBand>) {
    && (forall b :: b in bands ==> WellFormed(b))
    && forall score :: 0 <= score <= 100 ==> ExactlyOne(bands, score)
  }

  predicate MinLe(a: ScoreBand, b: ScoreBand) {
    a.min <= b.min
  }

  /** The first `n` bands are well-formed and follow one another from 0 without gap or overlap. */
  ghost predicate Chained(s: seq<ScoreBand>, n: nat)
    requires n <= |s|
  {
    && (n > 0 ==> s[0].min == 0)
    && (forall i :: 0 <= i < n ==> WellFormed(s[i]))
    && (forall i, j :: 0 <= i < n && j == i + 1 && j < n ==> s[j].min == s[i].max + 1)
  }

  // ---- Counting ----

  lemma TwiceCounts(s: seq<ScoreBand>, i: nat, j: nat)
    requires i < j < |s| && s[i] == s[j]
    ensures multiset(s)[s[i]] >= 2
  {
    assert s == s[..i] + [s[i]] + s[i + 1..j] + [s[j]] + s[j + 1..];
  }

  lemma OnceCounts(s: seq<ScoreBand>, i: nat)
    requires i < |s| && forall j :: 0 <= j < |s| && s[j] == s[i] ==> j == i
    ensures multiset(s)[s[i]] == 1
  {
    assert s == s[..i] + [s[i]] + s[i + 1..];
    forall x | x in s[..i] ensures x != s[i] {
      var k :| 0 <= k < i && s[..i][k] == x;
      assert s[k] == x;
    }
    var tail := s[i + 1..];
    forall x | x in tail ensures x != s[i] {
      var k :| 0 <= k < |tail| && tail[k] == x;
      assert s[i + 1 + k] == x;
    }
  }

  // ---- A chain is a partition ----

  lemma {:induction false} ChainIncreases(s: seq<ScoreBand>, n: nat, i: nat, j: nat)
    requires n <= |s| && Chained(s, n) && i < j < n
    ensures s[i].max < s[j].min
  {
    if i + 1 < j { ChainIncreases(s, n, i, j - 1); }
  }

  lemma {:induction false} ChainReaches(s: seq<ScoreBand>, n: nat, score: int) returns (i: nat)
    requires 0 < n <= |s| && Chained(s, n) && 0 <= score <= s[n - 1].max
    ensures i < n && Covers(s[i], score)
  {
    if s[n - 1].min <= score {
      i := n - 1;
    } else {
      i := ChainReaches(s, n - 1, score);
    }
  }

  lemma ChainCoversOnce(s: seq<ScoreBand>, score: int)
    requires s != [] && Chained(s, |s|) && s[|s| - 1].max == 100 && 0 <= score <= 100
    ensures ExactlyOne(multiset(s), score)
  {
    var i := ChainReaches(s, |s|, score);
    forall j | 0 <= j < |s| && Covers(s[j], score) ensures j == i {
      if i < j { ChainIncreases(s, |s|, i, j); } else if j < i { ChainIncreases(s, |s|, j, i); }
    }
    OnceCounts(s, i);
    assert s[i] in multiset(s);
    forall c | c in multiset(s) && Covers(c, score) ensures c == s[i] { assert c in s; }
  }

  lemma ChainIsPartition(s: seq<ScoreBand>)
    requires s != [] && Chained(s, |s|) && s[|s| - 1].max == 100
    ensures Partition(multiset(s))
  {
    forall b | b in multiset(s) ensures WellFormed(b) { assert b in s; }
    forall score | 0 <= score <= 100 ensures ExactlyOne(multiset(s), score) { ChainCoversOnce(s, score); }
  }

  // ---- A partition, sorted, is a chain ----

  lemma CoveringIndex(s: seq<ScoreBand>, score: int) returns (i: nat)
    requires Partition(multiset(s)) && 0 <= score <= 100
    ensures i < |s| && Covers(s[i], score)
  {
    assert ExactlyOne(multiset(s), score);
    var b :| b in multiset(s) && Covers(b, score);
    assert b in s;
    i :| 0 <= i < |s| && s[i] == b;
  }

  lemma NoTwoCover(s: seq<ScoreBand>, i: nat, j: nat, score: int)
    requires Partition(multiset(s)) && i < j < |s| && 0 <= score <= 100
    ensures !(Covers(s[i], score) && Covers(s[j], score))
  {
    if Covers(s[i], score) && Covers(s[j], score) {
      assert ExactlyOne(multiset(s), score) && s[i] in multiset(s) && s[j] in multiset(s);
      TwiceCounts(s, i, j);
    }
  }

  lemma PartitionWellFormed(s: seq<ScoreBand>, i: nat)
    requires Partition(multiset(s)) && i < |s|
    ensures WellFormed(s[i])
  {
    assert s[i] in multiset(s);
  }

  lemma PartitionStartsAtZero(s: seq<ScoreBand>)
    requires Partition(multiset(s)) && SortedBy(MinLe, s)
    ensures s != [] && s[0].min == 0
  {
    var i := CoveringIndex(s, 0);
    PartitionWellFormed(s, 0);
    assert i > 0 ==> MinLe(s[0], s[i]);
  }

  lemma PartitionContinues(s: seq<ScoreBand>, n: nat)
    requires Partition(multiset(s)) && SortedBy(MinLe, s) && 0 < n < |s| && Chained(s, n)
    ensures s[n].min == s[n - 1].max + 1
  {
    var m := s[n - 1].max;
    PartitionWellFormed(s, n);
    assert MinLe(s[n - 1], s[n]);
    NoTwoCover(s, n - 1, n, s[n].min);
    assert forall j :: n < j < |s| ==> MinLe(s[n], s[j]);
    if s[n].min > m + 1 {
      var j := CoveringIndex(s, m + 1);
      if j < n - 1 { ChainIncreases(s, n, j, n - 1); }
    }
  }

  lemma PartitionEndsAtHundred(s: seq<ScoreBand>)
    requires Partition(multiset(s)) && s != [] && Chained(s, |s|)
    ensures s[|s| - 1].max == 100
  {
    var i := CoveringIndex(s, 100);
    if i < |s| - 1 { ChainIncreases(s, |s|, i, |s| - 1); }
  }

  // ---- The check ----

  /** The verdict on any sorted arrangement of the bands. */
  method CheckOrdered(ordered: seq<ScoreBand>) returns (code: Option<string>)
    requires SortedBy(MinLe, ordered)
    ensures code.None? <==> Partition(multiset(ordered))
    ensures code == Some("missing_risk_score_bands") <==> ordered == []
    ensures code == Some("invalid_risk_score_band") ==> exists b :: b in ordered && !WellFormed(b)
  {
    if |ordered| == 0 {
      if Partition(multiset(ordered)) { PartitionStartsAtZero(ordered); }
      return Some("missing_risk_score_bands");
    }
    if ordered[0].min != 0 {
      if Partition(multiset(ordered)) { PartitionStartsAtZero(ordered); }
      return Some("incomplete_risk_score_bands");
    }
    for i := 0 to |ordered|
      invariant Chained(ordered, i)
    {
      var b := ordered[i];
      if b.min < 0 || b.max > 100 || b.min > b.max || b.band.OtherBand? || b.band == Unknown || b.action.OtherAction? {
        assert b in multiset(ordered) && !WellFormed(b);
        return Some("invalid_risk_score_band");
      }
      if i > 0 && b.min != ordered[i - 1].max + 1 {
        if Partition(multiset(ordered)) { PartitionContinues(ordered, i); }
        return Some("overlapping_or_incomplete_risk_score_bands");
      }
    }
    if ordered[|ordered| - 1].max != 100 {
      if Partition(multiset(ordered)) { PartitionEndsAtHundred(ordered); }
      return Some("incomplete_risk_score_bands");
    }
    ChainIsPartition(ordered);
    code := None;
  }

  /** Validates the bands as listed. */
  method ValidateScoreBands(bands: seq<ScoreBand>) returns (code: Option<string>)
    ensures code.None? <==> Partition(multiset(bands))
  {
    MinOrder();
    StableSortSorts(MinLe, bands);
    code := CheckOrdered(StableSort(MinLe, bands));
  }

  lemma MinOrder()
    ensures TotalPreorder(MinLe)
  {
  }
}

/**
 Go's `sort.SliceStable` and `sort.Strings`, as an insertion sort over values, with what callers
 rely on: the result is a sorted permutation that keeps the arrival order inside every key class.
 */
module Sorting {
  import opened Wrappers

  ghost predicate TotalPreorder<T(!new)>(le: (T, T) -> bool) {
    && (forall x, y :: le(x, y) || le(y, x))
    && (forall x, y, z :: le(x, y) && le(y, z) ==> le(x, z))
  }

  ghost predicate SortedBy<T>(le: (T, T) -> bool, s: seq<T>) {
    forall i, j | 0 <= i < j < |s| :: le(s[i], s[j])
  }

  /** Inserts `x` behind every element that does not come after it. */
  function Insert<T>(le: (T, T) -> bool, s: seq<T>, x: T): seq<T> {
    if s == [] then [x]
    else if le(s[|s| - 1], x) then s + [x]
    else Insert(le, s[..|s| - 1], x) + [s[|s| - 1]]
  }

  function StableSort<T>(le: (T, T) -> bool, s: seq<T>): seq<T> {
    if s == [] then [] else Insert(le, StableSort(le, s[..|s| - 1]), s[|s| - 1])
  }

  /** The elements of `s` whose key equals that of `k`, in order. */
  ghost function KeyClass<T(!new)>(le: (T, T) -> bool, k: T, s: seq<T>): seq<T> {
    if s == [] then []
    else KeyClass(le, k, s[..|s| - 1]) +
         if SameKey(le, k, s[|s| - 1]) then [s[|s| - 1]] else []
  }

  ghost predicate SameKey<T>(le: (T, T) -> bool, x: T, y: T) {
    le(x, y) && le(y, x)
  }

  lemma {:induction false} InsertKeepsElements<T>(le: (T, T) -> bool, s: seq<T>, x: T)
    ensures forall y :: y in Insert(le, s, x) <==> y in s || y == x
  {
    if s != [] && !le(s[|s| - 1], x) {
      InsertKeepsElements(le, s[..|s| - 1], x);
      assert s == s[..|s| - 1] + [s[|s| - 1]];
    }
  }

  lemma {:induction false} InsertPermutes<T>(le: (T, T) -> bool, s: seq<T>, x: T)
    ensures multiset(Insert(le, s, x)) == multiset(s) + multiset{x}
    ensures |Insert(le, s, x)| == |s| + 1
  {
    if s != [] && !le(s[|s| - 1], x) {
      InsertPermutes(le, s[..|s| - 1], x);
      assert s == s[..|s| - 1] + [s[|s| - 1]];
    }
  }

  lemma {:induction false} InsertSorted<T(!new)>(le: (T, T) -> bool, s: seq<T>, x: T)
    requires TotalPreorder(le) && SortedBy(le, s)
    ensures SortedBy(le, Insert(le, s, x))
  {
    if s == [] {
    } else if le(s[|s| - 1], x) {
      forall i | 0 <= i < |s| ensures le(s[i], x) {
        assert i < |s| - 1 ==> le(s[i], s[|s| - 1]);
      }
    } else {
      var init, last := s[..|s| - 1], s[|s| - 1];
      InsertSorted(le, init, x);
      InsertKeepsElements(le, init, x);
      var r := Insert(le, init, x);
      forall i | 0 <= i < |r| ensures le(r[i], last) {
        assert r[i] in r;
        if r[i] in init {
          var j :| 0 <= j < |init| && init[j] == r[i];
          assert le(s[j], s[|s| - 1]);
        }
      }
    }
  }

  /** A stable sort returns a sorted permutation of its input. */
  lemma {:induction false} StableSortSorts<T(!new)>(le: (T, T) -> bool, s: seq<T>)
    requires TotalPreorder(le)
    ensures SortedBy(le, StableSort(le, s))
    ensures multiset(StableSort(le, s)) == multiset(s)
    ensures |StableSort(le, s)| == |s|
  {
    if s != [] {
      StableSortSorts(le, s[..|s| - 1]);
      InsertSorted(le, StableSort(le, s[..|s| - 1]), s[|s| - 1]);
      InsertPermutes(le, StableSort(le, s[..|s| - 1]), s[|s| - 1]);
      assert s == s[..|s| - 1] + [s[|s| - 1]];
    }
  }

  /** Whatever the order, sorting neither drops nor invents elements. */
  lemma {:induction false} StableSortElements<T>(le: (T, T) -> bool, s: seq<T>)
    ensures forall y :: y in StableSort(le, s) <==> y in s
  {
    if s != [] {
      StableSortElements(le, s[..|s| - 1]);
      InsertKeepsElements(le, StableSort(le, s[..|s| - 1]), s[|s| - 1]);
      assert s == s[..|s| - 1] + [s[|s| - 1]];
    }
  }

  ghost predicate DistinctKeys<T, K>(key: T -> K, s: seq<T>) {
    forall i, j :: 0 <= i < j < |s| ==> key(s[i]) != key(s[j])
  }

  lemma {:induction false} InsertDistinct<T(!new), K>(le: (T, T) -> bool, key: T -> K, s: seq<T>, x: T)
    requires DistinctKeys(key, s) && forall y :: y in s ==> key(y) != key(x)
    ensures DistinctKeys(key, Insert(le, s, x))
  {
    if s != [] && !le(s[|s| - 1], x) {
      var init, last := s[..|s| - 1], s[|s| - 1];
      InsertDistinct(le, key, init, x);
      InsertKeepsElements(le, init, x);
      var r := Insert(le, init, x);
      forall i | 0 <= i < |r| ensures key(r[i]) != key(last) {
        assert r[i] in init || r[i] == x;
        assert last in s && key(last) != key(x);
        if r[i] in init { LastKeyNew(key, s, r[i]); }
      }
    }
  }

  lemma LastKeyNew<T, K>(key: T -> K, s: seq<T>, y: T)
    requires DistinctKeys(key, s) && s != [] && y in s[..|s| - 1]
    ensures key(y) != key(s[|s| - 1])
  {
    var j :| 0 <= j < |s| - 1 && s[j] == y;
  }

  /** Sorting keeps keys distinct. */
  lemma {:induction false} StableSortDistinct<T(!new), K>(le: (T, T) -> bool, key: T -> K, s: seq<T>)
    requires DistinctKeys(key, s)
    ensures DistinctKeys(key, StableSort(le, s))
  {
    if s != [] {
      var init, x := s[..|s| - 1], s[|s| - 1];
      StableSortDistinct(le, key, init);
      StableSortElements(le, init);
      forall y | y in StableSort(le, init) ensures key(y) != key(x) {
        assert y in init;
        LastKeyNew(key, s, y);
      }
      InsertDistinct(le, key, StableSort(le, init), x);
    }
  }

  lemma {:induction false} InsertClass<T(!new)>(le: (T, T) -> bool, s: seq<T>, x: T, k: T)
    requires TotalPreorder(le)
    ensures KeyClass(le, k, Insert(le, s, x)) ==
            KeyClass(le, k, s) + if SameKey(le, k, x) then [x] else []
  {
    if s == [] {
      assert [x][..0] == [];
    } else if le(s[|s| - 1], x) {
      assert (s + [x])[..|s|] == s;
    } else {
      var init, last := s[..|s| - 1], s[|s| - 1];
      InsertClass(le, init, x, k);
      var r := Insert(le, init, x);
      assert (r + [last])[..|r|] == r;
    }
  }

  /** Stability: every key class keeps its arrival order. */
  lemma {:induction false} StableSortIsStable<T(!new)>(le: (T, T) -> bool, s: seq<T>, k: T)
    requires TotalPreorder(le)
    ensures KeyClass(le, k, StableSort(le, s)) == KeyClass(le, k, s)
  {
    if s != [] {
      StableSortIsStable(le, s[..|s| - 1], k);
      InsertClass(le, StableSort(le, s[..|s| - 1]), s[|s| - 1], k);
    }
  }

  lemma LastIsGreatest<T(!new)>(le: (T, T) -> bool, s: seq<T>, x: T)
    requires TotalPreorder(le) && SortedBy(le, s) && x in s
    ensures le(x, s[|s| - 1])
  {
    var i :| 0 <= i < |s| && s[i] == x;
    assert i < |s| - 1 ==> le(s[i], s[|s| - 1]);
  }

  lemma DropLast<T>(s: seq<T>)
    requires s != []
    ensures multiset(s[..|s| - 1]) == multiset(s) - multiset{s[|s| - 1]}
  {
    assert s == s[..|s| - 1] + [s[|s| - 1]];
  }

  lemma LastKeysAgree<T(!new)>(le: (T, T) -> bool, a: seq<T>, b: seq<T>)
    requires TotalPreorder(le) && SortedBy(le, a) && SortedBy(le, b) && multiset(a) == multiset(b) && a != [] && |a| == |b|
    ensures SameKey(le, a[|a| - 1], b[|b| - 1]) && b[|b| - 1] in a
  {
    var n := |a| - 1;
    assert a[n] in multiset(b) && b[n] in multiset(a);
    LastIsGreatest(le, b, a[n]);
    LastIsGreatest(le, a, b[n]);
  }

  ghost predicate KeysDecide<T(!new)>(le: (T, T) -> bool, s: seq<T>) {
    forall x, y | x in s && y in s && SameKey(le, x, y) :: x == y
  }

  /** Sorted permutations end alike, and so do the rest. */
  lemma SameEnd<T(!new)>(le: (T, T) -> bool, a: seq<T>, b: seq<T>, n: nat)
    requires TotalPreorder(le) && SortedBy(le, a) && SortedBy(le, b) && multiset(a) == multiset(b) && KeysDecide(le, a)
    requires |a| == |b| == n + 1
    ensures a[n] == b[n] && multiset(a[..n]) == multiset(b[..n])
  {
    LastKeysAgree(le, a, b);
    assert a[n] in a;
    DropLast(a);
    DropLast(b);
  }

  lemma PrefixDecides<T(!new)>(le: (T, T) -> bool, s: seq<T>, n: nat)
    requires n <= |s| && KeysDecide(le, s) && SortedBy(le, s)
    ensures KeysDecide(le, s[..n]) && SortedBy(le, s[..n])
  {
    forall x, y | x in s[..n] && y in s[..n] && SameKey(le, x, y) ensures x == y {
      assert x in s && y in s;
    }
  }

  /** Two sorted sequences over the same elements agree when equal keys mean equal elements. */
  lemma {:induction false} SortedPermutationsAgree<T(!new)>(le: (T, T) -> bool, a: seq<T>, b: seq<T>)
    requires TotalPreorder(le) && SortedBy(le, a) && SortedBy(le, b) && multiset(a) == multiset(b)
    requires KeysDecide(le, a)
    ensures a == b
  {
    assert |a| == |multiset(a)| == |multiset(b)| == |b|;
    if a != [] {
      var n := |a| - 1;
      SameEnd(le, a, b, n);
      PrefixDecides(le, a, n);
      SortedPermutationsAgree(le, a[..n], b[..n]);
      assert a == a[..n] + [a[n]] && b == b[..n] + [b[n]];
    }
  }

  lemma {:induction false} CountsOfDistinct<T(!new)>(s: seq<T>)
    requires NoRepeats(s)
    ensures forall x :: multiset(s)[x] == if x in s then 1 else 0
  {
    if s != [] {
      var init, last := s[..|s| - 1], s[|s| - 1];
      CountsOfDistinct(init);
      assert s == init + [last];
      assert last !in init;
    }
  }

  /** Two sorted sequences without repetitions and with the same elements are the same. */
  lemma SortedDistinctAgree<T(!new)>(le: (T, T) -> bool, a: seq<T>, b: seq<T>)
    requires TotalPreorder(le) && SortedBy(le, a) && SortedBy(le, b) && KeysDecide(le, a)
    requires NoRepeats(a) && NoRepeats(b) && forall x :: x in a <==> x in b
    ensures a == b
  {
    CountsOfDistinct(a);
    CountsOfDistinct(b);
    assert multiset(a) == multiset(b);
    SortedPermutationsAgree(le, a, b);
  }

  lemma PairSorted<T>(le: (T, T) -> bool, x: T, y: T)
    requires le(x, y)
    ensures StableSort(le, [x]) == [x] && StableSort(le, [x, y]) == [x, y]
  {
    assert [x][..0] == [] && [x, y][..1] == [x];
    assert StableSort(le, []) == [];
  }

  // ---- String order (`sort.Strings`) ----

  predicate StringLe(a: string, b: string) {
    a == "" || (b != "" && (a[0] < b[0] || (a[0] == b[0] && StringLe(a[1..], b[1..]))))
  }

  lemma {:induction false} StringLeTotal(a: string, b: string)
    ensures StringLe(a, b) || StringLe(b, a)
  {
    if a != "" && b != "" { StringLeTotal(a[1..], b[1..]); }
  }

  lemma {:induction false} StringLeTransitive(a: string, b: string, c: string)
    requires StringLe(a, b) && StringLe(b, c)
    ensures StringLe(a, c)
  {
    if a != "" && b[0] == a[0] && c[0] == b[0] { StringLeTransitive(a[1..], b[1..], c[1..]); }
  }

  lemma {:induction false} StringLeAntisymmetric(a: string, b: string)
    requires StringLe(a, b) && StringLe(b, a)
    ensures a == b
  {
    if a != "" {
      StringLeAntisymmetric(a[1..], b[1..]);
      assert a == [a[0]] + a[1..] && b == [b[0]] + b[1..];
    }
  }

  lemma StringOrder()
    ensures TotalPreorder(StringLe)
    ensures forall a, b | SameKey(StringLe, a, b) :: a == b
  {
    forall x, y ensures StringLe(x, y) || StringLe(y, x) { StringLeTotal(x, y); }
    forall x, y, z | StringLe(x, y) && StringLe(y, z) ensures StringLe(x, z) { StringLeTransitive(x, y, z); }
    forall a, b | SameKey(StringLe, a, b) ensures a == b { StringLeAntisymmetric(a, b); }
  }

  /** `a` is cut short of `b`, or has the smaller character where they first differ. */
  ghost predicate Precedes(a: string, b: string) {
    a < b || exists k :: 0 <= k < |a| && k < |b| && a[..k] == b[..k] && a[k] < b[k]
  }

  lemma PrecedesTail(a: string, b: string)
    requires a != "" && b != "" && a[0] == b[0]
    ensures Precedes(a, b) <==> Precedes(a[1..], b[1..])
  {
    var a', b' := a[1..], b[1..];
    assert a == [a[0]] + a' && b == [b[0]] + b';
    if k :| 0 <= k < |a'| && k < |b'| && a'[..k] == b'[..k] && a'[k] < b'[k] {
      assert a[..k + 1] == [a[0]] + a'[..k] && b[..k + 1] == [b[0]] + b'[..k] && a[k + 1] < b[k + 1];
    }
    if k :| 0 <= k < |a| && k < |b| && a[..k] == b[..k] && a[k] < b[k] {
      assert a'[..k - 1] == a[..k][1..] && b'[..k - 1] == b[..k][1..] && a'[k - 1] < b'[k - 1];
    }
  }

  lemma PrecedesHead(a: string, b: string)
    requires a != "" && b != ""
    ensures Precedes(a, b) ==> a[0] <= b[0]
  {
    if k :| 0 < k < |a| && k < |b| && a[..k] == b[..k] && a[k] < b[k] { assert a[..k][0] == b[..k][0]; }
  }

  /** The recursive order is the one by the first difference. */
  lemma {:induction false} StringLeMeans(a: string, b: string)
    ensures StringLe(a, b) <==> a == b || Precedes(a, b)
  {
    if a != "" && b != "" {
      if a[0] == b[0] {
        StringLeMeans(a[1..], b[1..]);
        PrecedesTail(a, b);
        assert a == [a[0]] + a[1..] && b == [b[0]] + b[1..];
      } else if a[0] < b[0] {
        assert a[..0] == b[..0];
      } else {
        PrecedesHead(a, b);
      }
    }
  }

  function SortStrings(s: seq<string>): seq<string> {
    StableSort(StringLe, s)
  }
}

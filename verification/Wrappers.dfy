/** Optional values, the service's error results, and facts about lists. */
module Wrappers {
  datatype Option<+T> = None | Some(value: T)

  /** A domain error carries a stable code; a cycle error also carries the offending path. */
  datatype Result<+T> = Ok(value: T) | Err(code: string, cyclePath: seq<string>)

  ghost predicate NoRepeats<T>(s: seq<T>) {
    forall i, j :: 0 <= i < j < |s| ==> s[i] != s[j]
  }

  ghost function Elements<T>(s: seq<T>): set<T> {
    set x | x in s
  }

  lemma ElementsSnoc<T>(s: seq<T>, x: T)
    ensures Elements(s + [x]) == Elements(s) + {x}
  {
  }

  /** What holds at first and is kept by every step holds throughout. */
  lemma {:induction false} AllHold(ps: seq<bool>, n: nat)
    requires n < |ps| && ps[0] && forall k :: 0 < k < |ps| && ps[k - 1] ==> ps[k]
    ensures ps[n]
  {
    if n > 0 { AllHold(ps, n - 1); }
  }
}

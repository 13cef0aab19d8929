/** Values that may be missing, and sequences. */
module Collections {

  datatype Option<+T> = None | Some(value: T)

  /** The last n elements, or all of them when there are no more. */
  function LastN<T>(s: seq<T>, n: nat): seq<T> {
    if |s| > n then s[|s| - n..] else s
  }

  /** Keeping only the last elements on the way loses nothing of the last elements in the end. */
  lemma LastNTwice<T>(s: seq<T>, x: T, n: nat)
    ensures LastN(LastN(s, n) + [x], n) == LastN(s + [x], n)
  {
  }

  ghost predicate NoRepeats<T>(s: seq<T>) {
    forall i, j :: 0 <= i < j < |s| ==> s[i] != s[j]
  }
}

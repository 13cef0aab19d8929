/** Go's sort.Slice for a numeric key, largest first. Ties come in no particular order,
    so the contract leaves them open. */
module Sorting {
  import opened Collections

  ghost predicate Descending<T>(s: seq<(int, T)>) {
    forall i, j :: 0 <= i < j < |s| ==> s[i].0 >= s[j].0
  }

  lemma OnceEach<T>(s: seq<T>, x: T)
    requires NoRepeats(s)
    ensures multiset(s)[x] <= 1
  {
    if x in s {
      var k :| 0 <= k < |s| && s[k] == x;
      assert s == s[..k] + [s[k]] + s[k + 1..];
      assert x !in s[..k] && x !in s[k + 1..];
    }
  }

  lemma Twice<T>(s: seq<T>, i: nat, j: nat)
    requires i < j < |s| && s[i] == s[j]
    ensures multiset(s)[s[i]] >= 2
  {
    assert s == s[..i] + [s[i]] + s[i + 1..j] + [s[j]] + s[j + 1..];
  }

  /** A rearrangement of distinct elements has distinct elements. */
  lemma NoRepeatsPermutation<T>(s: seq<T>, r: seq<T>)
    requires multiset(s) == multiset(r) && NoRepeats(s)
    ensures NoRepeats(r)
  {
    forall i, j | 0 <= i < j < |r| ensures r[i] != r[j] {
      OnceEach(s, r[i]);
      if r[i] == r[j] { Twice(r, i, j); }
    }
  }

  method SortDescending<T>(s: seq<(int, T)>) returns (r: seq<(int, T)>)
    ensures multiset(r) == multiset(s) && |r| == |s|
    ensures Descending(r)
    ensures forall x :: x in r <==> x in s
    ensures NoRepeats(s) ==> NoRepeats(r)
  {
    r := [];
    for i := 0 to |s|
      invariant multiset(r) == multiset(s[..i])
      invariant Descending(r)
    {
      r := Insert(r, s[i]);
      assert s[..i + 1] == s[..i] + [s[i]];
    }
    assert s[..|s|] == s;
    assert |r| == |multiset(r)|;
    forall x ensures x in r <==> x in s { assert x in multiset(r) <==> x in multiset(s); }
    if NoRepeats(s) { NoRepeatsPermutation(s, r); }
  }

  method Insert<T>(s: seq<(int, T)>, x: (int, T)) returns (r: seq<(int, T)>)
    requires Descending(s)
    ensures multiset(r) == multiset(s) + multiset{x}
    ensures Descending(r)
  {
    var j := 0;
    while j < |s| && s[j].0 >= x.0
      invariant 0 <= j <= |s| && (j > 0 ==> s[j - 1].0 >= x.0)
    {
      j := j + 1;
    }
    r := s[..j] + [x] + s[j..];
    InsertedAt(s, j, x);
    StaysDescending(s, j, x);
  }

  lemma InsertedAt<T>(s: seq<(int, T)>, j: nat, x: (int, T))
    requires j <= |s|
    ensures multiset(s[..j] + [x] + s[j..]) == multiset(s) + multiset{x}
  {
    assert s == s[..j] + s[j..];
  }

  lemma StaysDescending<T>(s: seq<(int, T)>, j: nat, x: (int, T))
    requires j <= |s| && Descending(s) && (j > 0 ==> s[j - 1].0 >= x.0) && (j < |s| ==> x.0 >= s[j].0)
    ensures Descending(s[..j] + [x] + s[j..])
  {
    var r := s[..j] + [x] + s[j..];
    forall i, k | 0 <= i < k < |r| ensures r[i].0 >= r[k].0 {
      if i == j && k > j + 1 { assert s[j].0 >= s[k - 1].0; }
      if k == j && i < j - 1 { assert s[i].0 >= s[j - 1].0; }
    }
  }
}

/** The signal journal (internal/plugins/plc/journal.go): a bounded, sequenced log of edges. */
module Journal {
  import opened Collections

  datatype Edge = Edge(seqNo: nat, connectionId: string, topic: string, address: int, before: bool, after: bool,
    at: int)

  type Match = Edge -> bool

  const DEFAULT_SIZE := 500

  /** Every edge ever appended, numbered from one without gaps. */
  ghost predicate Numbered(history: seq<Edge>) {
    forall i :: 0 <= i < |history| ==> history[i].seqNo == i + 1
  }

  lemma NumberedAppend(history: seq<Edge>, e: Edge)
    requires Numbered(history) && e.seqNo == |history| + 1
    ensures Numbered(history + [e])
  {
  }

  /** The matching edges of a sequence, in order. */
  function Matching(es: seq<Edge>, match_: Match): (r: seq<Edge>)
    ensures |r| <= |es|
  {
    if es == [] then [] else Matching(es[..|es| - 1], match_) + if match_(es[|es| - 1]) then [es[|es| - 1]] else []
  }

  /** The edges newer than a sequence number; zero stands for no limit. */
  function Newer(es: seq<Edge>, seqNo: nat): (r: seq<Edge>)
    ensures |r| <= |es|
  {
    if es == [] then []
    else Newer(es[..|es| - 1], seqNo) + (if seqNo > 0 && es[|es| - 1].seqNo <= seqNo then [] else [es[|es| - 1]])
  }

  /** What a reader gets from the edges kept. */
  function SinceOf(kept: seq<Edge>, size: nat, seqNo: nat, limit: int, match_: Match): seq<Edge> {
    LastN(Matching(Newer(kept, seqNo), match_), Cap(size, limit))
  }

  function Cap(size: nat, limit: int): nat {
    if limit <= 0 || limit > size then size else limit
  }

  class Journal {
    const size: nat
    var entries: seq<Edge>
    var seqNo: nat
    /** Which wake channel is open: appending closes it and opens the next. */
    var generation: nat

    /** Every edge ever appended. */
    ghost var history: seq<Edge>

    ghost predicate Valid()
      reads this
    {
      && size > 0
      && Numbered(history) && seqNo == |history|
      && entries == LastN(history, size)
    }

    constructor (capacity: int)
      ensures Valid() && history == [] && size == if capacity <= 0 then DEFAULT_SIZE else capacity
    {
      size := if capacity <= 0 then DEFAULT_SIZE else capacity;
      entries, seqNo, generation, history := [], 0, 0, [];
    }

    /** Numbers an edge, records it, drops what is beyond the capacity and wakes every waiter. */
    method Append(e: Edge) returns (numbered: Edge)
      requires Valid()
      modifies this
      ensures Valid() && numbered == e.(seqNo := |old(history)| + 1) && history == old(history) + [numbered]
      ensures generation == old(generation) + 1
    {
      ghost var kept, all := entries, history;
      seqNo := seqNo + 1;
      numbered := e.(seqNo := seqNo);
      entries := entries + [numbered];
      if |entries| > size {
        entries := entries[|entries| - size..];
      }
      generation := generation + 1;
      history := history + [numbered];
      assert entries == LastN(kept + [numbered], size);
      LastNTwice(all, numbered, size);
      NumberedAppend(all, numbered);
    }

    /** The matching edges newer than a sequence number, oldest first, at most `limit` of them and the
        latest if there are more, with the newest number issued. */
    method Since(after: nat, limit: int, match_: Match) returns (out: seq<Edge>, latest: nat)
      requires Valid()
      ensures out == SinceOf(LastN(history, size), size, after, limit, match_) && latest == |history|
    {
      var cap := if limit <= 0 || limit > size then size else limit;
      out := [];
      for i := 0 to |entries|
        invariant out == Matching(Newer(entries[..i], after), match_)
      {
        SinceStep(entries, i, after, match_);
        if after > 0 && entries[i].seqNo <= after { continue; }
        if !match_(entries[i]) { continue; }
        out := out + [entries[i]];
      }
      assert entries[..|entries|] == entries;
      if |out| > cap { out := out[|out| - cap..]; }
      latest := seqNo;
    }

    method Latest() returns (latest: nat)
      requires Valid()
      ensures latest == |history|
    {
      return seqNo;
    }

    /** The edges kept carry the contiguous sequence numbers ending at the newest one. */
    lemma Contiguous()
      requires Valid()
      ensures |entries| == if seqNo < size then seqNo else size
      ensures forall i :: 0 <= i < |entries| ==> entries[i].seqNo == seqNo - |entries| + i + 1
    {
    }
  }

  lemma MatchingAppend(es: seq<Edge>, e: Edge, match_: Match)
    ensures Matching(es + [e], match_) == Matching(es, match_) + if match_(e) then [e] else []
  {
    assert (es + [e])[..|es|] == es;
  }

  lemma {:induction false} MatchingJoin(a: seq<Edge>, b: seq<Edge>, match_: Match)
    ensures Matching(a + b, match_) == Matching(a, match_) + Matching(b, match_)
  {
    if b == [] {
      assert a + b == a;
      assert Matching(a, match_) + [] == Matching(a, match_);
    } else {
      var c, e := b[..|b| - 1], b[|b| - 1];
      assert a + b == a + c + [e] && b == c + [e];
      MatchingJoin(a, c, match_);
      MatchingAppend(a + c, e, match_);
      MatchingAppend(c, e, match_);
    }
  }

  lemma NewerAppend(es: seq<Edge>, e: Edge, seqNo: nat)
    ensures Newer(es + [e], seqNo) == if seqNo > 0 && e.seqNo <= seqNo then Newer(es, seqNo) else Newer(es, seqNo) + [e]
  {
    assert (es + [e])[..|es|] == es;
  }

  lemma SinceStep(es: seq<Edge>, i: nat, after: nat, match_: Match)
    requires i < |es|
    ensures Matching(Newer(es[..i + 1], after), match_) == Matching(Newer(es[..i], after), match_) +
      if (after > 0 && es[i].seqNo <= after) || !match_(es[i]) then [] else [es[i]]
  {
    assert es[..i + 1] == es[..i] + [es[i]];
    NewerAppend(es[..i], es[i], after);
    MatchingAppend(Newer(es[..i], after), es[i], match_);
  }

  lemma {:induction false} NewerJoin(a: seq<Edge>, b: seq<Edge>, seqNo: nat)
    ensures Newer(a + b, seqNo) == Newer(a, seqNo) + Newer(b, seqNo)
  {
    if b == [] {
      assert a + b == a;
    } else {
      var c, e := b[..|b| - 1], b[|b| - 1];
      assert a + b == a + c + [e] && b == c + [e];
      NewerJoin(a, c, seqNo);
      NewerAppend(a + c, e, seqNo);
      NewerAppend(c, e, seqNo);
    }
  }

  lemma {:induction false} AllNewer(es: seq<Edge>, seqNo: nat)
    requires forall i :: 0 <= i < |es| ==> es[i].seqNo > seqNo
    ensures Newer(es, seqNo) == es
  {
    if es != [] { AllNewer(es[..|es| - 1], seqNo); }
  }

  lemma {:induction false} NoneNewer(es: seq<Edge>, seqNo: nat)
    requires seqNo > 0 && forall i :: 0 <= i < |es| ==> es[i].seqNo <= seqNo
    ensures Newer(es, seqNo) == []
  {
    if es != [] { NoneNewer(es[..|es| - 1], seqNo); }
  }

  /** In a contiguous run of numbered edges, the newer ones are a suffix. */
  lemma NewerIsSuffix(es: seq<Edge>, first: nat, seqNo: nat)
    requires forall i :: 0 <= i < |es| ==> es[i].seqNo == first + i + 1
    ensures Newer(es, seqNo) == if seqNo <= first then es else if seqNo >= first + |es| then [] else es[seqNo - first..]
  {
    if seqNo <= first {
      AllNewer(es, seqNo);
    } else if seqNo >= first + |es| {
      NoneNewer(es, seqNo);
    } else {
      var older, newer := es[..seqNo - first], es[seqNo - first..];
      forall i | 0 <= i < |newer| ensures newer[i].seqNo > seqNo { assert newer[i] == es[seqNo - first + i]; }
      assert es == older + newer;
      NewerSplit(older, newer, seqNo);
    }
  }

  lemma NewerSplit(a: seq<Edge>, b: seq<Edge>, seqNo: nat)
    requires seqNo > 0 && forall i :: 0 <= i < |a| ==> a[i].seqNo <= seqNo
    requires forall i :: 0 <= i < |b| ==> b[i].seqNo > seqNo
    ensures Newer(a + b, seqNo) == b
  {
    NoneNewer(a, seqNo);
    AllNewer(b, seqNo);
    NewerJoin(a, b, seqNo);
  }

  /** How many edges of a history are no longer kept. */
  function Lost(n: nat, size: nat): nat {
    if n > size then n - size else 0
  }

  /** Where a read since a number starts: there, or where what is kept starts. */
  function From(n: nat, size: nat, seqNo: nat): (k: nat)
    ensures k <= n
  {
    if seqNo < Lost(n, size) then Lost(n, size) else if seqNo > n then n else seqNo
  }

  lemma NewerKept(history: seq<Edge>, size: nat, seqNo: nat)
    requires Numbered(history)
    ensures Newer(LastN(history, size), seqNo) == history[From(|history|, size, seqNo)..]
  {
    var lost := Lost(|history|, size);
    assert LastN(history, size) == history[lost..];
    NewerIsSuffix(history[lost..], lost, seqNo);
    if lost < seqNo <= |history| { assert history[lost..][seqNo - lost..] == history[seqNo..]; }
  }

  /** What a read since any number returns: of the matching edges of the whole history that are newer
      and still kept, all, or the latest as many as a positive limit allows. */
  lemma SinceMeans(history: seq<Edge>, size: nat, seqNo: nat, limit: int, match_: Match)
    requires Numbered(history)
    ensures var found := Matching(history[From(|history|, size, seqNo)..], match_);
      SinceOf(LastN(history, size), size, seqNo, limit, match_) == if limit <= 0 then found else LastN(found, limit)
  {
    NewerKept(history, size, seqNo);
  }

  /** A full read leaves none of them out. */
  lemma FullRead(history: seq<Edge>, size: nat, seqNo: nat, match_: Match)
    requires Numbered(history)
    ensures SinceOf(LastN(history, size), size, seqNo, 0, match_) ==
            Matching(history[From(|history|, size, seqNo)..], match_)
  {
    SinceMeans(history, size, seqNo, 0, match_);
  }

  /** A reader resuming from a number gets every matching edge since then exactly when none of those
      already dropped matched and the others are within the limit. */
  lemma ResumeIsComplete(history: seq<Edge>, size: nat, seqNo: nat, limit: int, match_: Match)
    requires Numbered(history) && seqNo <= |history|
    ensures SinceOf(LastN(history, size), size, seqNo, limit, match_) == Matching(history[seqNo..], match_) <==>
            && Matching(history[seqNo..From(|history|, size, seqNo)], match_) == []
            && (limit <= 0 || |Matching(history[From(|history|, size, seqNo)..], match_)| <= limit)
  {
    var from := From(|history|, size, seqNo);
    SinceMeans(history, size, seqNo, limit, match_);
    MatchingTail(history, seqNo, from, match_);
    var a, b := Matching(history[seqNo..from], match_), Matching(history[from..], match_);
    NothingCut(a, b, if limit <= 0 then |b| else limit);
  }

  lemma MatchingTail(history: seq<Edge>, a: nat, b: nat, match_: Match)
    requires a <= b <= |history|
    ensures Matching(history[a..], match_) == Matching(history[a..b], match_) + Matching(history[b..], match_)
  {
    SplitMatching(history, a, b, |history|, match_);
    assert history[a..|history|] == history[a..] && history[b..|history|] == history[b..];
  }

  lemma NothingCut(a: seq<Edge>, b: seq<Edge>, n: nat)
    ensures LastN(b, n) == a + b <==> a == [] && |b| <= n
  {
    if LastN(b, n) == a + b { assert |LastN(b, n)| == |a| + |b|; }
  }

  lemma {:induction false} MatchingIs(es: seq<Edge>, match_: Match, e: Edge)
    ensures e in Matching(es, match_) <==> e in es && match_(e)
  {
    if es != [] {
      MatchingIs(es[..|es| - 1], match_, e);
      assert es == es[..|es| - 1] + [es[|es| - 1]];
    }
  }

  lemma {:induction false} MatchesNothing(es: seq<Edge>, match_: Match)
    ensures Matching(es, match_) == [] <==> forall i :: 0 <= i < |es| ==> !match_(es[i])
  {
    if es != [] { MatchesNothing(es[..|es| - 1], match_); }
  }

  lemma SplitMatching(history: seq<Edge>, a: nat, b: nat, c: nat, match_: Match)
    requires a <= b <= c <= |history|
    ensures Matching(history[a..c], match_) == Matching(history[a..b], match_) + Matching(history[b..c], match_)
  {
    assert history[a..c] == history[a..b] + history[b..c];
    MatchingJoin(history[a..b], history[b..c], match_);
  }

  /** What a reader has collected after polling at the given lengths of the history, each time resuming
      from the number the poll before returned. */
  ghost function Collected(history: seq<Edge>, size: nat, match_: Match, polls: seq<nat>): seq<Edge>
    requires forall i :: 0 <= i < |polls| ==> polls[i] <= |history|
  {
    if |polls| <= 1 then []
    else
      var n := |polls|;
      Collected(history, size, match_, polls[..n - 1]) +
      SinceOf(LastN(history[..polls[n - 1]], size), size, polls[n - 2], 0, match_)
  }

  /** Paging with at most `size` appends between polls sees every matching edge once, in order. */
  lemma {:induction false} PagingSeesAll(history: seq<Edge>, size: nat, match_: Match, polls: seq<nat>)
    requires Numbered(history) && |polls| >= 1
    requires forall i :: 0 <= i < |polls| ==> polls[i] <= |history|
    requires forall i :: 0 <= i < |polls| - 1 ==> polls[i] <= polls[i + 1] <= polls[i] + size
    ensures polls[0] <= polls[|polls| - 1]
    ensures Collected(history, size, match_, polls) == Matching(history[polls[0]..polls[|polls| - 1]], match_)
  {
    var n := |polls|;
    if n == 1 {
      assert history[polls[0]..polls[0]] == [];
    } else {
      var a, b, c := polls[0], polls[n - 2], polls[n - 1];
      PagingSeesAll(history, size, match_, polls[..n - 1]);
      PollIsComplete(history, size, b, c, match_);
      SplitMatching(history, a, b, c, match_);
    }
  }

  lemma PollIsComplete(history: seq<Edge>, size: nat, b: nat, c: nat, match_: Match)
    requires Numbered(history) && b <= c <= |history| && c <= b + size
    ensures SinceOf(LastN(history[..c], size), size, b, 0, match_) == Matching(history[b..c], match_)
  {
    FullRead(history[..c], size, b, match_);
    assert history[..c][b..] == history[b..c];
  }
}

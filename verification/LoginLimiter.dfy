/** The fixed-window limiter for login attempts (internal/auth/service.go). Times are integers. */
module LoginLimiter {

  datatype Entry = Entry(count: nat, start: int)

  type Entries = map<string, Entry>

  /** An entry whose window is over. */
  predicate Stale(e: Entry, now: int, window: int) {
    now - e.start > window
  }

  function Swept(entries: Entries, now: int, window: int): Entries {
    map k | k in entries && !Stale(entries[k], now, window) :: entries[k]
  }

  /** One attempt against the entries as they stand: the new entry of the key and the answer. */
  function Attempt(entries: Entries, key: string, now: int, max: int, window: int): (Entry, bool) {
    if key !in entries || Stale(entries[key], now, window) then (Entry(1, now), true)
    else
      var e := Entry(entries[key].count + 1, entries[key].start);
      (e, e.count <= max)
  }

  class AttemptLimiter {
    const max: int
    const window: int
    var entries: Entries

    /** Every attempt and reset there has been. */
    ghost var calls: seq<Call>

    ghost predicate Valid()
      reads this
    {
      entries == EntriesAfter(calls, max, window, true)
    }

    constructor (max: int, window: int)
      ensures this.max == max && this.window == window
      ensures Valid() && calls == []
    {
      this.max, this.window, entries, calls := max, window, map[], [];
    }

    /** Drops the stale entries, then counts an attempt. */
    method Allow(key: string, now: int) returns (ok: bool)
      requires Valid()
      modifies this
      ensures Valid() && calls == old(calls) + [Call(key, now, false)]
      ensures ok == LastAnswer(calls, max, window, true)
    {
      Sweep(now);
      if key !in entries || Stale(entries[key], now, window) {
        entries := entries[key := Entry(1, now)];
        ok := true;
      } else {
        var e := Entry(entries[key].count + 1, entries[key].start);
        entries := entries[key := e];
        ok := e.count <= max;
      }
      CallsAppend(calls, Call(key, now, false), max, window);
      calls := calls + [Call(key, now, false)];
    }

    /** Drops exactly the stale entries. */
    method Sweep(now: int)
      modifies this`entries
      ensures entries == Swept(old(entries), now, window)
    {
      var todo := entries.Keys;
      while todo != {}
        invariant todo <= entries.Keys <= old(entries).Keys
        invariant forall k :: k in entries ==> entries[k] == old(entries)[k]
        invariant forall k :: k in old(entries) ==>
          (k in entries <==> k in todo || !Stale(old(entries)[k], now, window))
      {
        var k :| k in todo;
        todo := todo - {k};
        if Stale(entries[k], now, window) { entries := entries - {k}; }
      }
      assert entries == Swept(old(entries), now, window);
    }

    /** Forgets a key. */
    method Reset(key: string, ghost now: int)
      requires Valid()
      modifies this
      ensures Valid() && calls == old(calls) + [Call(key, now, true)]
    {
      entries := entries - {key};
      CallsAppend(calls, Call(key, now, true), max, window);
      calls := calls + [Call(key, now, true)];
    }
  }

  lemma CallsAppend(calls: seq<Call>, c: Call, max: int, window: int)
    ensures var before := EntriesAfter(calls, max, window, true);
      EntriesAfter(calls + [c], max, window, true) ==
        if c.reset then before - {c.key}
        else Swept(before, c.now, window)[c.key := Attempt(before, c.key, c.now, max, window).0]
    ensures LastAnswer(calls + [c], max, window, true) ==
      (!c.reset && Attempt(EntriesAfter(calls, max, window, true), c.key, c.now, max, window).1)
  {
    assert (calls + [c])[..|calls|] == calls;
  }

  /** An attempt or a reset, with the time it happens. */
  datatype Call = Call(key: string, now: int, reset: bool)

  /** The clock never runs backwards. */
  ghost predicate Clocked(calls: seq<Call>) {
    forall i, j :: 0 <= i < j < |calls| ==> calls[i].now <= calls[j].now
  }

  /** The entries after some calls, dropping stale ones on each attempt or never. */
  ghost function EntriesAfter(calls: seq<Call>, max: int, window: int, sweep: bool): Entries {
    if calls == [] then map[]
    else
      var c := calls[|calls| - 1];
      var before := EntriesAfter(calls[..|calls| - 1], max, window, sweep);
      if c.reset then before - {c.key}
      else (if sweep then Swept(before, c.now, window) else before)[c.key :=
        Attempt(before, c.key, c.now, max, window).0]
  }

  /** What the last call answers; a reset answers nothing. */
  ghost function LastAnswer(calls: seq<Call>, max: int, window: int, sweep: bool): bool
    requires calls != []
  {
    var c := calls[|calls| - 1];
    !c.reset && Attempt(EntriesAfter(calls[..|calls| - 1], max, window, sweep), c.key, c.now, max, window).1
  }

  /** The swept entries are the unswept ones less some that are stale by now. */
  ghost predicate Related(swept: Entries, plain: Entries, now: int, window: int) {
    && (forall k :: k in swept ==> k in plain && swept[k] == plain[k])
    && (forall k :: k in plain ==> k in swept || Stale(plain[k], now, window))
  }

  lemma SameAttempt(swept: Entries, plain: Entries, key: string, now: int, max: int, window: int)
    requires Related(swept, plain, now, window)
    ensures Attempt(swept, key, now, max, window) == Attempt(plain, key, now, max, window)
  {
  }

  lemma {:induction false} SweptIsRelated(calls: seq<Call>, now: int, max: int, window: int)
    requires Clocked(calls) && (calls == [] || calls[|calls| - 1].now <= now)
    ensures Related(EntriesAfter(calls, max, window, true), EntriesAfter(calls, max, window, false), now, window)
  {
    if calls != [] {
      var rest, c := calls[..|calls| - 1], calls[|calls| - 1];
      SweptIsRelated(rest, c.now, max, window);
      SameAttempt(EntriesAfter(rest, max, window, true), EntriesAfter(rest, max, window, false), c.key, c.now, max,
        window);
    }
  }

  /** Dropping stale entries never changes an answer, in any sequence of attempts and resets. */
  lemma SweepChangesNothing(calls: seq<Call>, max: int, window: int)
    requires Clocked(calls) && calls != []
    ensures LastAnswer(calls, max, window, true) == LastAnswer(calls, max, window, false)
  {
    var rest, c := calls[..|calls| - 1], calls[|calls| - 1];
    SweptIsRelated(rest, c.now, max, window);
    SameAttempt(EntriesAfter(rest, max, window, true), EntriesAfter(rest, max, window, false), c.key, c.now, max,
      window);
  }

  /** How many attempts of a key were allowed at times within an interval. */
  ghost function AllowedWithin(calls: seq<Call>, max: int, window: int, key: string, lo: int, hi: int): nat {
    if calls == [] then 0
    else
      var c := calls[|calls| - 1];
      AllowedWithin(calls[..|calls| - 1], max, window, key, lo, hi)
      + if c.key == key && lo <= c.now <= hi && LastAnswer(calls, max, window, true) then 1 else 0
  }

  function AtLeastOne(max: int): nat {
    if max < 1 then 1 else max
  }

  function Min(a: nat, b: nat): nat {
    if a < b then a else b
  }

  /** What a key's entry says about how many of its attempts can have been allowed in the interval. */
  ghost predicate Bounded(entries: Entries, key: string, allowed: nat, max: int, lo: int, hi: int) {
    if key !in entries then allowed == 0
    else
      var e, m := entries[key], AtLeastOne(max);
      if e.start < lo then allowed <= Min(e.count, m)
      else if e.start <= hi then allowed <= m + Min(e.count, m)
      else allowed <= 2 * m
  }

  /** Without resets of the key, at most twice the limit is allowed in any interval as long as the window. */
  lemma {:induction false} WindowBound(calls: seq<Call>, max: int, window: int, key: string, lo: int, hi: int)
    requires Clocked(calls) && hi - lo <= window && window >= 0
    requires forall i :: 0 <= i < |calls| ==> !(calls[i].reset && calls[i].key == key)
    ensures AllowedWithin(calls, max, window, key, lo, hi) <= 2 * AtLeastOne(max)
    ensures Bounded(EntriesAfter(calls, max, window, false), key, AllowedWithin(calls, max, window, key, lo, hi),
      max, lo, hi)
    ensures key in EntriesAfter(calls, max, window, false) ==>
      calls != [] && EntriesAfter(calls, max, window, false)[key].start <= calls[|calls| - 1].now
    ensures calls != [] && calls[|calls| - 1].now < lo ==> AllowedWithin(calls, max, window, key, lo, hi) == 0
  {
    if calls != [] {
      var rest, c := calls[..|calls| - 1], calls[|calls| - 1];
      WindowBound(rest, max, window, key, lo, hi);
      SweepChangesNothing(calls, max, window);
      if rest != [] { assert rest[|rest| - 1].now <= c.now; }
    }
  }

  // What is allowed for certain.

  /** How often a key has been tried since some time. */
  ghost function TriedSince(calls: seq<Call>, key: string, lo: int): nat {
    if calls == [] then 0
    else
      var c := calls[|calls| - 1];
      TriedSince(calls[..|calls| - 1], key, lo) + if c.key == key && !c.reset && lo <= c.now then 1 else 0
  }

  lemma {:induction false} TriedMore(calls: seq<Call>, key: string, lo: int, lower: int)
    requires lower <= lo
    ensures TriedSince(calls, key, lo) <= TriedSince(calls, key, lower)
  {
    if calls != [] { TriedMore(calls[..|calls| - 1], key, lo, lower); }
  }

  /** An entry counts no more than there was. */
  lemma {:induction false} CountsTried(calls: seq<Call>, max: int, window: int, key: string)
    requires Clocked(calls)
    ensures var entries := EntriesAfter(calls, max, window, false);
      key in entries ==>
        && calls != [] && entries[key].start <= calls[|calls| - 1].now
        && entries[key].count <= TriedSince(calls, key, entries[key].start)
  {
    if calls != [] {
      var rest := calls[..|calls| - 1];
      CountsTried(rest, max, window, key);
      if rest != [] { assert rest[|rest| - 1].now <= calls[|calls| - 1].now; }
    }
  }

  /** An attempt is allowed when there were no more than the limit within the window before it, itself included,
      whatever else was called. */
  lemma {:induction false} FewAttemptsAllowed(calls: seq<Call>, max: int, window: int)
    requires Clocked(calls) && calls != [] && !calls[|calls| - 1].reset
    requires var c := calls[|calls| - 1]; TriedSince(calls, c.key, c.now - window) <= max
    ensures LastAnswer(calls, max, window, true)
  {
    var rest, c := calls[..|calls| - 1], calls[|calls| - 1];
    SweepChangesNothing(calls, max, window);
    CountsTried(calls, max, window, c.key);
    var before := EntriesAfter(rest, max, window, false);
    if c.key in before && !Stale(before[c.key], c.now, window) {
      TriedMore(calls, c.key, before[c.key].start, c.now - window);
    }
  }

  /** The key is first tried at a time, and not tried again later than a window after it. */
  ghost predicate OneWindow(calls: seq<Call>, key: string, start: int, window: int) {
    forall i :: 0 <= i < |calls| && calls[i].key == key && !calls[i].reset ==>
      start <= calls[i].now <= start + window && (TriedSince(calls[..i], key, start) == 0 ==> calls[i].now == start)
  }

  ghost predicate NeverReset(calls: seq<Call>, key: string) {
    forall i :: 0 <= i < |calls| ==> !(calls[i].reset && calls[i].key == key)
  }

  lemma {:induction false} OneWindowEntry(calls: seq<Call>, max: int, window: int, key: string, start: int)
    requires OneWindow(calls, key, start, window) && NeverReset(calls, key)
    ensures var entries, tried := EntriesAfter(calls, max, window, false), TriedSince(calls, key, start);
      if tried == 0 then key !in entries else key in entries && entries[key] == Entry(tried, start)
  {
    if calls != [] {
      var rest := calls[..|calls| - 1];
      assert forall i :: 0 <= i < |rest| ==> rest[..i] == calls[..i];
      OneWindowEntry(rest, max, window, key, start);
    }
  }

  /** Within one window exactly the first attempts up to the limit are allowed, and always the very first. */
  lemma {:induction false} FirstOfWindowAllowed(calls: seq<Call>, max: int, window: int, start: int)
    requires Clocked(calls) && calls != [] && !calls[|calls| - 1].reset
    requires var key := calls[|calls| - 1].key; OneWindow(calls, key, start, window) && NeverReset(calls, key)
    ensures var tried := TriedSince(calls, calls[|calls| - 1].key, start);
      LastAnswer(calls, max, window, true) <==> tried == 1 || tried <= max
  {
    var rest, c := calls[..|calls| - 1], calls[|calls| - 1];
    SweepChangesNothing(calls, max, window);
    assert forall i :: 0 <= i < |rest| ==> rest[..i] == calls[..i];
    OneWindowEntry(rest, max, window, c.key, start);
  }

  ghost predicate SameEntry(a: Entries, b: Entries, key: string) {
    (key in a <==> key in b) && (key in a ==> a[key] == b[key])
  }

  /** A reset forgets everything about its key: what follows is as if nothing had been before. */
  lemma {:induction false} ResetForgets(before: seq<Call>, r: Call, after: seq<Call>, max: int, window: int)
    requires r.reset
    ensures SameEntry(EntriesAfter(before + [r] + after, max, window, false), EntriesAfter(after, max, window, false),
                      r.key)
  {
    if after == [] {
      assert before + [r] + after == before + [r];
      assert (before + [r])[..|before|] == before;
    } else {
      var front, all := after[..|after| - 1], before + [r] + after;
      ResetForgets(before, r, front, max, window);
      assert all[..|all| - 1] == before + [r] + front && all[|all| - 1] == after[|after| - 1];
    }
  }

  /** So an attempt is answered as it would be without anything before the reset. */
  lemma {:induction false} ResetAnswers(before: seq<Call>, r: Call, after: seq<Call>, max: int, window: int)
    requires r.reset && after != [] && after[|after| - 1].key == r.key && Clocked(before + [r] + after)
    ensures LastAnswer(before + [r] + after, max, window, true) == LastAnswer(after, max, window, true)
  {
    var front, all := after[..|after| - 1], before + [r] + after;
    assert forall i :: 0 <= i < |after| ==> all[|before| + 1 + i] == after[i];
    SweepChangesNothing(all, max, window);
    SweepChangesNothing(after, max, window);
    ResetForgets(before, r, front, max, window);
    assert all[..|all| - 1] == before + [r] + front;
  }

  /** After an attempt no entry is left whose window is over. */
  lemma {:induction false} NothingStaleKept(calls: seq<Call>, max: int, window: int, key: string)
    requires window >= 0 && calls != [] && !calls[|calls| - 1].reset
    requires key in EntriesAfter(calls, max, window, true)
    ensures calls[|calls| - 1].now - EntriesAfter(calls, max, window, true)[key].start <= window
  {
  }
}

/** The per-client limit on message frames (internal/hub/hub.go). Times are nanoseconds. */
module HubLimiter {

  const SECOND := 1_000_000_000
  const DEFAULT_RATE := 200
  const MAX_RATE := 5000

  /** A browser connection's share of the message stream. */
  class Client {
    var rate: nat
    var tokens: nat
    var windowStart: int

    /** When the browser connected, and every frame and rate change since. */
    ghost var since: int
    ghost var events: seq<Event>

    ghost predicate Valid()
      reads this
    {
      Bucket(rate, tokens, windowStart) == Run(since, events)
    }

    constructor (now: int)
      ensures Valid() && since == now && events == []
    {
      rate, tokens, windowStart := DEFAULT_RATE, DEFAULT_RATE, now;
      since, events := now, [];
    }

    /** Takes a token if there is one. The clock is read once to see whether the window is over and once
        more to start the next. */
    method TakeToken(checked: int, started: int) returns (ok: bool)
      requires Valid()
      modifies this
      ensures Valid() && since == old(since) && events == old(events) + [Take(checked, started)]
      ensures ok == Grants(Run(since, old(events)), Take(checked, started))
    {
      RunAppend(since, events, Take(checked, started));
      events := events + [Take(checked, started)];
      if checked - windowStart >= SECOND {
        windowStart := started;
        tokens := rate;
      }
      if tokens <= 0 { return false; }
      tokens := tokens - 1;
      return true;
    }

    /** A browser asks for another rate; nonsense is ignored and the rest capped. */
    method SetRate(n: int)
      requires Valid()
      modifies this
      ensures Valid() && since == old(since) && events == old(events) + [Ask(n)]
    {
      RunAppend(since, events, Ask(n));
      events := events + [Ask(n)];
      if n > 0 { rate := if n < MAX_RATE then n else MAX_RATE; }
    }
  }

  lemma RunAppend(now: int, events: seq<Event>, ev: Event)
    ensures Run(now, events + [ev]) == After(Run(now, events), ev)
  {
    assert (events + [ev])[..|events|] == events;
  }

  datatype Bucket = Bucket(rate: nat, tokens: nat, windowStart: int)

  datatype Event = Take(checked: int, started: int) | Ask(n: int)

  function Start(now: int): Bucket {
    Bucket(DEFAULT_RATE, DEFAULT_RATE, now)
  }

  function Refilled(b: Bucket, checked: int, started: int): Bucket {
    if checked - b.windowStart >= SECOND then b.(windowStart := started, tokens := b.rate) else b
  }

  predicate Grants(b: Bucket, ev: Event) {
    ev.Take? && Refilled(b, ev.checked, ev.started).tokens > 0
  }

  function After(b: Bucket, ev: Event): Bucket {
    match ev
    case Take(checked, started) =>
      var r := Refilled(b, checked, started);
      if r.tokens > 0 then r.(tokens := r.tokens - 1) else r
    case Ask(n) => if n > 0 then b.(rate := if n < MAX_RATE then n else MAX_RATE) else b
  }

  function Run(now: int, events: seq<Event>): Bucket {
    if events == [] then Start(now) else After(Run(now, events[..|events| - 1]), events[|events| - 1])
  }

  /** The latest time any of the events has read. */
  function Clock(now: int, events: seq<Event>): int {
    if events == [] then now
    else
      var ev := events[|events| - 1];
      if ev.Take? then ev.started else Clock(now, events[..|events| - 1])
  }

  /** The clock never runs backwards, between readings or between calls. */
  ghost predicate Clocked(now: int, events: seq<Event>) {
    events == [] ||
    var ev := events[|events| - 1];
    Clocked(now, events[..|events| - 1]) && (ev.Take? ==>
      Clock(now, events[..|events| - 1]) <= ev.checked <= ev.started)
  }

  /** How many tokens were granted at times within an interval. */
  ghost function GrantedWithin(now: int, events: seq<Event>, lo: int, hi: int): nat {
    if events == [] then 0
    else
      var ev, rest := events[|events| - 1], events[..|events| - 1];
      GrantedWithin(now, rest, lo, hi) + if ev.Take? && lo <= ev.started <= hi &&
        Grants(Run(now, rest), ev) then 1 else 0
  }

  /** Every rate asked for, as far as it is heeded, stays within a limit, as does the default. */
  ghost predicate RatesWithin(events: seq<Event>, limit: nat) {
    DEFAULT_RATE <= limit && forall i :: 0 <= i < |events| && events[i].Ask? ==>
      events[i].n <= limit || MAX_RATE <= limit
  }

  ghost predicate Bounded(b: Bucket, granted: nat, limit: nat, lo: int, hi: int) {
    && b.tokens <= limit && b.rate <= limit
    && if b.windowStart < lo then granted <= limit - b.tokens
       else if b.windowStart <= hi then granted <= 2 * limit - b.tokens
       else granted <= 2 * limit
  }

  /** In any interval shorter than a second at most two windows' worth of tokens is granted, however the
      rate is changed on the way. */
  lemma {:induction false} TwoWindows(now: int, events: seq<Event>, limit: nat, lo: int, hi: int)
    requires Clocked(now, events) && RatesWithin(events, limit) && hi - lo < SECOND
    ensures GrantedWithin(now, events, lo, hi) <= 2 * limit
    ensures Bounded(Run(now, events), GrantedWithin(now, events, lo, hi), limit, lo, hi)
    ensures Run(now, events).windowStart <= Clock(now, events)
    ensures Clock(now, events) < lo ==> GrantedWithin(now, events, lo, hi) == 0
  {
    if events != [] { TwoWindows(now, events[..|events| - 1], limit, lo, hi); }
  }

  /** Whatever a browser asks for, never more than twice the cap. */
  lemma NeverOverCap(now: int, events: seq<Event>, lo: int, hi: int)
    requires Clocked(now, events) && hi - lo < SECOND
    ensures GrantedWithin(now, events, lo, hi) <= 2 * MAX_RATE
  {
    TwoWindows(now, events, MAX_RATE, lo, hi);
  }

  // What is granted for certain.

  /** The last rate asked for that makes sense counts, as far as the cap allows; without any, the default does. */
  lemma {:induction false} RateMeans(now: int, events: seq<Event>)
    ensures var rate := Run(now, events).rate;
      && rate > 0
      && ((forall i :: 0 <= i < |events| ==> !Heeded(events[i])) ==> rate == DEFAULT_RATE)
      && (forall i :: 0 <= i < |events| && LastHeeded(events, i) ==>
            rate == if events[i].n > MAX_RATE then MAX_RATE else events[i].n)
  {
    if events != [] {
      var rest := events[..|events| - 1];
      RateMeans(now, rest);
      assert forall i :: 0 <= i < |rest| ==> rest[i] == events[i];
    }
  }

  predicate Heeded(ev: Event) {
    ev.Ask? && ev.n > 0
  }

  ghost predicate LastHeeded(events: seq<Event>, i: int)
    requires 0 <= i < |events|
  {
    Heeded(events[i]) && forall j :: i < j < |events| ==> !Heeded(events[j])
  }

  /** How many tokens have been granted. */
  ghost function Granted(now: int, events: seq<Event>): nat {
    if events == [] then 0
    else
      var rest, ev := events[..|events| - 1], events[|events| - 1];
      Granted(now, rest) + if Grants(Run(now, rest), ev) then 1 else 0
  }

  /** How many frames were to be sent. */
  ghost function Takes(events: seq<Event>): nat {
    if events == [] then 0
    else Takes(events[..|events| - 1]) + if events[|events| - 1].Take? then 1 else 0
  }

  function Fewer(a: nat, b: nat): nat {
    if a < b then a else b
  }

  /** All frames come before the window that started at some time is over. */
  ghost predicate InWindow(events: seq<Event>, start: int) {
    forall i :: 0 <= i < |events| && events[i].Take? ==> events[i].checked - start < SECOND
  }

  /** Until a window is over, exactly the first frames get the tokens that are left. */
  lemma {:induction false} TokensAreUsed(now: int, events: seq<Event>, more: seq<Event>)
    requires InWindow(more, Run(now, events).windowStart)
    ensures var before, after := Run(now, events), Run(now, events + more);
      && after.windowStart == before.windowStart
      && after.tokens == before.tokens - Fewer(Takes(more), before.tokens)
      && Granted(now, events + more) == Granted(now, events) + Fewer(Takes(more), before.tokens)
  {
    if more == [] {
      assert events + more == events;
    } else {
      var front, ev := more[..|more| - 1], more[|more| - 1];
      assert forall i :: 0 <= i < |front| ==> front[i] == more[i];
      TokensAreUsed(now, events, front);
      assert (events + more)[..|events + more| - 1] == events + front && (events + more)[|events + more| - 1] == ev;
    }
  }

  /** In every run, the frame that finds its window over opens a new one, and in that window exactly as many frames
      pass as the rate at its opening allows, the first ones; rate changes wait for the next window. */
  lemma {:induction false} WindowGrantsRate(now: int, events: seq<Event>, opener: Event, more: seq<Event>)
    requires opener.Take? && opener.checked - Run(now, events).windowStart >= SECOND
    requires InWindow(more, opener.started)
    ensures Granted(now, events + [opener] + more) - Granted(now, events) ==
      Fewer(1 + Takes(more), Run(now, events).rate)
  {
    RateMeans(now, events);
    RunAppend(now, events, opener);
    assert (events + [opener])[..|events|] == events;
    TokensAreUsed(now, events + [opener], more);
  }

  /** And as many as the default in the first window. */
  lemma FirstWindowGrantsDefault(now: int, events: seq<Event>)
    requires InWindow(events, now)
    ensures Granted(now, events) == Fewer(Takes(events), DEFAULT_RATE)
  {
    assert [] + events == events;
    TokensAreUsed(now, [], events);
  }
}

/** Waiting for the next edge (internal/plugins/plc/journal.go), step by step: any number of waiters
    interleaved with appends. The wake channel is a generation number: a waiter holding a number
    below the current one holds a closed channel. */
module JournalWait {
  import opened Collections
  import opened Journal

  /** Where a waiter is. */
  datatype Place =
    | Start
    | TakingWake
    | Rechecking(wake: nat)
    | Parked(wake: nat)
    | GivingUp
    | Returned(edges: seq<Edge>, latest: nat)

  /** One call of Wait: its arguments and where it is. `patient` says the timeout is positive. */
  datatype Waiter = Waiter(after: nat, limit: int, match_: Match, patient: bool, place: Place)

  datatype State = State(history: seq<Edge>, generation: nat, waiters: seq<Waiter>)

  datatype Event =
    | Append(e: Edge)
    | FirstCheck(w: nat)
    | TakeWake(w: nat)
    | Recheck(w: nat)
    | Wake(w: nat)
    | TimeOut(w: nat)
    | ReadLatest(w: nat)

  ghost function News(s: State, size: nat, w: Waiter): seq<Edge> {
    SinceOf(LastN(s.history, size), size, w.after, w.limit, w.match_)
  }

  ghost function Put(s: State, w: nat, place: Place): State
    requires w < |s.waiters|
  {
    s.(waiters := s.waiters[w := s.waiters[w].(place := place)])
  }

  ghost predicate Enabled(s: State, ev: Event) {
    match ev
    case Append(_) => true
    case FirstCheck(w) => w < |s.waiters| && s.waiters[w].place.Start?
    case TakeWake(w) => w < |s.waiters| && s.waiters[w].place.TakingWake?
    case Recheck(w) => w < |s.waiters| && s.waiters[w].place.Rechecking?
    case Wake(w) => w < |s.waiters| && s.waiters[w].place.Parked? && s.waiters[w].place.wake < s.generation
    case TimeOut(w) => w < |s.waiters| && s.waiters[w].place.Parked?
    case ReadLatest(w) => w < |s.waiters| && s.waiters[w].place.GivingUp?
  }

  ghost function After(s: State, size: nat, ev: Event): State
    requires Enabled(s, ev)
  {
    match ev
    case Append(e) => s.(history := s.history + [e.(seqNo := |s.history| + 1)], generation := s.generation + 1)
    case FirstCheck(w) =>
      var news := News(s, size, s.waiters[w]);
      Put(s, w, if |news| > 0 then Returned(news, |s.history|) else if s.waiters[w].patient then TakingWake
        else GivingUp)
    case TakeWake(w) => Put(s, w, Rechecking(s.generation))
    case Recheck(w) =>
      var news := News(s, size, s.waiters[w]);
      Put(s, w, if |news| > 0 then Returned(news, |s.history|) else Parked(s.waiters[w].place.wake))
    case Wake(w) => Put(s, w, TakingWake)
    case TimeOut(w) => Put(s, w, GivingUp)
    case ReadLatest(w) => Put(s, w, Returned([], |s.history|))
  }

  /** No wake-up is lost: a waiter parked on a channel that is still open has nothing to see. */
  ghost predicate NoLostWakeUp(s: State, size: nat) {
    forall w :: 0 <= w < |s.waiters| && s.waiters[w].place.Parked? && s.waiters[w].place.wake == s.generation ==>
      News(s, size, s.waiters[w]) == []
  }

  ghost predicate Inv(s: State, size: nat) {
    && Numbered(s.history)
    && NoLostWakeUp(s, size)
    && (forall w :: 0 <= w < |s.waiters| && (s.waiters[w].place.Parked? || s.waiters[w].place.Rechecking?) ==>
          s.waiters[w].place.wake <= s.generation)
    && (forall w :: 0 <= w < |s.waiters| && s.waiters[w].place.Returned? ==> s.waiters[w].place.latest <= |s.history|)
  }

  ghost predicate Init(s: State) {
    s.history == [] && s.generation == 0 && forall w :: 0 <= w < |s.waiters| ==> s.waiters[w].place == Start
  }

  /** A run: each event is enabled where it happens and leads to the next state. */
  ghost predicate IsRun(states: seq<State>, events: seq<Event>, size: nat) {
    && |states| == |events| + 1
    && forall i :: 0 <= i < |events| ==> StepAt(states, events, size, i)
  }

  ghost predicate StepAt(states: seq<State>, events: seq<Event>, size: nat, i: nat)
    requires i < |events| && |states| == |events| + 1
  {
    Step(states[i], size, events[i], states[i + 1])
  }

  ghost predicate Step(s: State, size: nat, ev: Event, t: State) {
    Enabled(s, ev) && t == After(s, size, ev)
  }

  lemma StepKeepsInv(s: State, size: nat, ev: Event)
    requires Inv(s, size) && Enabled(s, ev)
    ensures Inv(After(s, size, ev), size)
  {
    var s' := After(s, size, ev);
    if !ev.Append? {
      forall w | 0 <= w < |s'.waiters| && s'.waiters[w].place.Parked? && s'.waiters[w].place.wake == s'.generation
        ensures News(s', size, s'.waiters[w]) == []
      {
        assert News(s, size, s.waiters[w]) == News(s', size, s'.waiters[w]);
      }
    }
  }

  /** In every interleaving of appends and waits, no wake-up is lost in any state. */
  lemma {:induction false} NeverLost(states: seq<State>, events: seq<Event>, size: nat, k: nat)
    requires IsRun(states, events, size) && Init(states[0]) && k <= |events|
    ensures Inv(states[k], size) && NoLostWakeUp(states[k], size)
  {
    if k > 0 {
      NeverLost(states, events, size, k - 1);
      assert StepAt(states, events, size, k - 1);
      StepKeepsInv(states[k - 1], size, events[k - 1]);
    }
  }

  /** A parked waiter with something to see can be woken, and two more of its own steps return it. */
  lemma NewsWakes(s: State, size: nat, w: nat) returns (s1: State, s2: State, s3: State)
    requires Inv(s, size) && w < |s.waiters| && s.waiters[w].place.Parked? && News(s, size, s.waiters[w]) != []
    ensures Step(s, size, Wake(w), s1) && Step(s1, size, TakeWake(w), s2) && Step(s2, size, Recheck(w), s3)
    ensures w < |s3.waiters| && s3.waiters[w].place == Returned(News(s, size, s.waiters[w]), |s.history|)
  {
    s1 := After(s, size, Wake(w));
    s2 := After(s1, size, TakeWake(w));
    s3 := After(s2, size, Recheck(w));
    assert News(s2, size, s2.waiters[w]) == News(s, size, s.waiters[w]);
  }

  /** How a wait came back in step j: with what a look found, or empty-handed after giving up; and in either case
      with the newest number of that moment. */
  ghost predicate ReturnsAt(states: seq<State>, events: seq<Event>, size: nat, w: nat, j: nat, edges: seq<Edge>,
                            latest: nat)
    requires j < |events| && |states| == |events| + 1
  {
    && w < |states[j].waiters| && latest == |states[j].history|
    && if edges == [] then events[j] == ReadLatest(w)
       else events[j] in {FirstCheck(w), Recheck(w)} && edges == News(states[j], size, states[j].waiters[w])
  }

  ghost predicate ReturnedBefore(states: seq<State>, events: seq<Event>, size: nat, w: nat, k: nat, p: Place)
    requires k <= |events| && |states| == |events| + 1 && p.Returned?
  {
    exists j: nat :: j < k && ReturnsAt(states, events, size, w, j, p.edges, p.latest)
  }

  /** In every run, whatever a wait has returned was there to be found when it looked, and what it returns
      does not change. */
  lemma {:induction false} ReturnedWasFound(states: seq<State>, events: seq<Event>, size: nat, w: nat, k: nat)
    requires IsRun(states, events, size) && Init(states[0]) && k <= |events|
    requires w < |states[k].waiters| && states[k].waiters[w].place.Returned?
    ensures ReturnedBefore(states, events, size, w, k, states[k].waiters[w].place)
  {
    if k > 0 {
      assert StepAt(states, events, size, k - 1);
      var p := states[k].waiters[w].place;
      if states[k - 1].waiters[w].place == p {
        ReturnedWasFound(states, events, size, w, k - 1);
      } else {
        assert ReturnsAt(states, events, size, w, k - 1, p.edges, p.latest);
      }
    }
  }

  /** A look that finds something always returns it. */
  lemma {:induction false} FoundIsReturned(states: seq<State>, events: seq<Event>, size: nat, w: nat, k: nat)
    requires IsRun(states, events, size) && k < |events| && (events[k] == FirstCheck(w) || events[k] == Recheck(w))
    ensures w < |states[k].waiters| && w < |states[k + 1].waiters|
    ensures var news, p := News(states[k], size, states[k].waiters[w]), states[k + 1].waiters[w].place;
      if news != [] then p == Returned(news, |states[k].history|) else !p.Returned?
  {
    assert StepAt(states, events, size, k);
  }

  ghost predicate TimedOut(events: seq<Event>, w: nat, k: nat) {
    exists j: nat :: j < k && j < |events| && events[j] == TimeOut(w)
  }

  /** In every run, a wait without a timeout never waits, and one with a timeout gives up only when it is over. */
  lemma {:induction false} WaitsAsAsked(states: seq<State>, events: seq<Event>, size: nat, w: nat, k: nat)
    requires IsRun(states, events, size) && Init(states[0]) && k <= |events| && w < |states[k].waiters|
    ensures var wt := states[k].waiters[w];
      && (!wt.patient ==> wt.place.Start? || wt.place.GivingUp? || wt.place.Returned?)
      && (wt.patient && wt.place.GivingUp? ==> TimedOut(events, w, k))
  {
    if k > 0 {
      assert StepAt(states, events, size, k - 1);
      WaitsAsAsked(states, events, size, w, k - 1);
    }
  }

  /** A state with one patient waiter for any edge. */
  function Lone(history: seq<Edge>, generation: nat, place: Place): State {
    State(history, generation, [Waiter(0, 0, x => true, true, place)])
  }

  /** The waiter of an empty journal finds nothing, parks and gives up. */
  lemma QuietSteps(size: nat)
    ensures Step(Lone([], 0, Start), size, FirstCheck(0), Lone([], 0, TakingWake))
    ensures Step(Lone([], 0, TakingWake), size, TakeWake(0), Lone([], 0, Rechecking(0)))
    ensures Step(Lone([], 0, Rechecking(0)), size, Recheck(0), Lone([], 0, Parked(0)))
    ensures Step(Lone([], 0, Parked(0)), size, TimeOut(0), Lone([], 0, GivingUp))
  {
  }

  /** An edge arrives before the waiter that gave up reads the newest number. */
  lemma LateSteps(e: Edge, size: nat)
    ensures Step(Lone([], 0, GivingUp), size, Append(e), Lone([e.(seqNo := 1)], 1, GivingUp))
    ensures Step(Lone([e.(seqNo := 1)], 1, GivingUp), size, ReadLatest(0), Lone([e.(seqNo := 1)], 1, Returned([], 1)))
  {
  }

  lemma SixSteps(states: seq<State>, events: seq<Event>, size: nat)
    requires |events| == 6 && |states| == 7
    requires Step(states[0], size, events[0], states[1]) && Step(states[1], size, events[1], states[2])
    requires Step(states[2], size, events[2], states[3]) && Step(states[3], size, events[3], states[4])
    requires Step(states[4], size, events[4], states[5]) && Step(states[5], size, events[5], states[6])
    ensures IsRun(states, events, size)
  {
  }

  /** The timeout path reads the newest number under a lock of its own, so an edge appended just before
      is skipped by a client that resumes from there: a run in which that happens. */
  lemma TimeoutSkipsEdge(e: Edge, size: nat) returns (states: seq<State>, events: seq<Event>)
    requires size > 0
    ensures IsRun(states, events, size) && Init(states[0]) && |events| == 6
    ensures var end, all: Match := states[6], x => true;
      && |end.waiters| == 1 && end.waiters[0].place == Returned([], 1)
      && |Matching(end.history, all)| == 1
      && SinceOf(LastN(end.history, size), size, 1, 0, all) == []
  {
    var late := [e.(seqNo := 1)];
    events := [FirstCheck(0), TakeWake(0), Recheck(0), TimeOut(0), Append(e), ReadLatest(0)];
    states := [Lone([], 0, Start), Lone([], 0, TakingWake), Lone([], 0, Rechecking(0)), Lone([], 0, Parked(0)),
               Lone([], 0, GivingUp), Lone(late, 1, GivingUp), Lone(late, 1, Returned([], 1))];
    QuietSteps(size);
    LateSteps(e, size);
    SixSteps(states, events, size);
    OneEdge(late[0], size, x => true);
  }

  lemma OneEdge(e: Edge, size: nat, match_: Match)
    requires e.seqNo == 1 && match_(e) && size > 0
    ensures Matching([e], match_) == [e] && SinceOf(LastN([e], size), size, 1, 0, match_) == []
  {
    assert [] + [e] == [e];
    MatchingAppend([], e, match_);
    NewerAppend([], e, 1);
  }

  /** No edge numbered above `after` and up to `upTo` matches. */
  ghost predicate Quiet(history: seq<Edge>, after: nat, upTo: nat, match_: Match) {
    forall i :: after <= i < upTo && i < |history| ==> !match_(history[i])
  }

  function Later(a: nat, b: nat): nat {
    if a < b then b else a
  }

  /** A full read from a number returns every matching edge newer than `after`. */
  ghost predicate ReadsAllSince(history: seq<Edge>, size: nat, after: nat, from: nat, match_: Match) {
    forall i :: after <= i < |history| && match_(history[i]) ==>
      history[i] in SinceOf(LastN(history, size), size, from, 0, match_)
  }

  lemma {:induction false} ReadsAllUnlessBefore(history: seq<Edge>, size: nat, after: nat, from: nat, match_: Match)
    requires Numbered(history)
    ensures ReadsAllSince(history, size, after, from, match_) <==>
            Quiet(history, after, From(|history|, size, from), match_)
  {
    var start := From(|history|, size, from);
    FullRead(history, size, from, match_);
    forall i | 0 <= i < |history|
      ensures history[i] in SinceOf(LastN(history, size), size, from, 0, match_) <==> i >= start && match_(history[i])
    {
      FoundFrom(history, start, i, match_);
    }
  }

  lemma {:induction false} FoundFrom(history: seq<Edge>, start: nat, i: nat, match_: Match)
    requires Numbered(history) && start <= |history| && i < |history|
    ensures history[i] in Matching(history[start..], match_) <==> i >= start && match_(history[i])
  {
    MatchingIs(history[start..], match_, history[i]);
    if i >= start { assert history[start..][i - start] == history[i]; }
  }

  /** A look that finds nothing means that nothing kept and newer matched. */
  lemma NothingFound(history: seq<Edge>, size: nat, after: nat, limit: int, match_: Match)
    requires Numbered(history) && size > 0
    requires SinceOf(LastN(history, size), size, after, limit, match_) == []
    ensures Quiet(history, Later(after, Lost(|history|, size)), |history|, match_)
  {
    SinceMeans(history, size, after, limit, match_);
    QuietMatchesNothing(history, From(|history|, size, after), match_);
  }

  lemma QuietMatchesNothing(h: seq<Edge>, after: nat, match_: Match)
    requires after <= |h|
    ensures Matching(h[after..], match_) == [] <==> Quiet(h, after, |h|, match_)
  {
    MatchesNothing(h[after..], match_);
    forall i | after <= i < |h| ensures h[i] == h[after..][i - after] {}
  }

  ghost predicate SameCall(a: Waiter, b: Waiter) {
    a.(place := Start) == b.(place := Start)
  }

  /** In a run the history only grows, and a waiter's arguments stay what they are. */
  lemma {:induction false} RunGrows(states: seq<State>, events: seq<Event>, size: nat, w: nat, j: nat, k: nat)
    requires IsRun(states, events, size) && j <= k <= |events| && w < |states[j].waiters|
    ensures states[j].history <= states[k].history
    ensures w < |states[k].waiters| && SameCall(states[j].waiters[w], states[k].waiters[w])
  {
    if j < k {
      RunGrows(states, events, size, w, j, k - 1);
      assert StepAt(states, events, size, k - 1);
    }
  }

  /** The waiter looks for the last time in step j, finds nothing, and reads the newest number in step k. */
  ghost predicate GivesUp(states: seq<State>, events: seq<Event>, size: nat, w: nat, j: nat, k: nat) {
    && IsRun(states, events, size) && Init(states[0]) && j < k < |events|
    && (events[j] == FirstCheck(w) || events[j] == Recheck(w))
    && w < |states[j + 1].waiters| && !states[j + 1].waiters[w].place.Returned?
    && events[k] == ReadLatest(w)
  }

  lemma LastLook(states: seq<State>, events: seq<Event>, size: nat, w: nat, j: nat, k: nat)
    requires GivesUp(states, events, size, w, j, k) && size > 0
    ensures w < |states[j].waiters| && w < |states[k + 1].waiters|
    ensures states[k + 1].waiters[w].place == Returned([], |states[k].history|)
    ensures var wt, h := states[j].waiters[w], states[j].history;
      Numbered(h) && Quiet(h, Later(wt.after, Lost(|h|, size)), |h|, wt.match_)
  {
    assert StepAt(states, events, size, j) && StepAt(states, events, size, k);
    var wt := states[j].waiters[w];
    NeverLost(states, events, size, j);
    NothingFound(states[j].history, size, wt.after, wt.limit, wt.match_);
  }

  /** What a client loses by resuming, in any later state of the run, from the number a wait that gave up
      returned. It misses no matching edge if and only if none matched among those dropped before the
      last look, those appended between the last look and the reading of the number, and those
      dropped since. */
  lemma GivingUpLoses(states: seq<State>, events: seq<Event>, size: nat, w: nat, j: nat, k: nat, n: nat)
    requires GivesUp(states, events, size, w, j, k) && size > 0 && k < n <= |events|
    ensures w < |states[j].waiters| && w < |states[k + 1].waiters|
    ensures states[k + 1].waiters[w].place == Returned([], |states[k].history|)
    ensures var wt, h := states[j].waiters[w], states[n].history;
      var looked, read := |states[j].history|, |states[k].history|;
      ReadsAllSince(h, size, wt.after, read, wt.match_) <==>
        && Quiet(h, wt.after, Lost(looked, size), wt.match_)
        && Quiet(h, Later(wt.after, looked), read, wt.match_)
        && Quiet(h, Later(wt.after, read), Lost(|h|, size), wt.match_)
  {
    LastLook(states, events, size, w, j, k);
    RunGrows(states, events, size, w, j, k);
    RunGrows(states, events, size, w, k, n);
    NeverLost(states, events, size, n);
    var wt, looked, h := states[j].waiters[w], states[j].history, states[n].history;
    forall i | 0 <= i < |looked| ensures looked[i] == h[i] {}
    ReadsAllUnlessBefore(h, size, wt.after, |states[k].history|, wt.match_);
    ThreeGaps(h, size, wt.after, |looked|, |states[k].history|, wt.match_);
  }

  lemma ThreeGaps(h: seq<Edge>, size: nat, after: nat, looked: nat, read: nat, match_: Match)
    requires looked <= read <= |h|
    requires Quiet(h, Later(after, Lost(looked, size)), looked, match_)
    ensures Quiet(h, after, From(|h|, size, read), match_) <==>
      && Quiet(h, after, Lost(looked, size), match_)
      && Quiet(h, Later(after, looked), read, match_)
      && Quiet(h, Later(after, read), Lost(|h|, size), match_)
  {
  }

  /** While nothing is dropped unseen, the loss is exactly the matching edges appended between the last
      look and the reading of the number. */
  lemma GivingUpLosesLateEdges(states: seq<State>, events: seq<Event>, size: nat, w: nat, j: nat, k: nat, n: nat)
    requires GivesUp(states, events, size, w, j, k) && size > 0 && k < n <= |events|
    requires w < |states[j].waiters| && states[j].waiters[w].after <= |states[j].history|
    requires |states[j].history| <= states[j].waiters[w].after + size &&
      |states[n].history| <= |states[k].history| + size
    ensures states[j].history <= states[k].history <= states[n].history
    ensures var wt, h := states[j].waiters[w], states[n].history;
      var late := Matching(states[k].history[|states[j].history|..], wt.match_);
      var resumed := SinceOf(LastN(h, size), size, |states[k].history|, 0, wt.match_);
      && Matching(h[wt.after..], wt.match_) == late + resumed
      && (resumed == Matching(h[wt.after..], wt.match_) <==> late == [])
  {
    LastLook(states, events, size, w, j, k);
    RunGrows(states, events, size, w, j, k);
    RunGrows(states, events, size, w, k, n);
    NeverLost(states, events, size, n);
    var wt := states[j].waiters[w];
    LateEdges(states[j].history, states[k].history, states[n].history, size, wt.after, wt.match_);
  }

  lemma LateEdges(looked: seq<Edge>, read: seq<Edge>, h: seq<Edge>, size: nat, after: nat, match_: Match)
    requires looked <= read <= h && Numbered(h) && |h| <= |read| + size
    requires after <= |looked| && Quiet(looked, after, |looked|, match_)
    ensures var late, resumed := Matching(read[|looked|..], match_), SinceOf(LastN(h, size), size, |read|, 0, match_);
      && Matching(h[after..], match_) == late + resumed
      && (resumed == Matching(h[after..], match_) <==> late == [])
  {
    LateSplit(looked, read, h, after, match_);
    FullRead(h, size, |read|, match_);
    EmptyFront(Matching(read[|looked|..], match_), Matching(h[|read|..], match_));
  }

  lemma LateSplit(looked: seq<Edge>, read: seq<Edge>, h: seq<Edge>, after: nat, match_: Match)
    requires looked <= read <= h
    requires after <= |looked| && Quiet(looked, after, |looked|, match_)
    ensures Matching(h[after..], match_) == Matching(read[|looked|..], match_) + Matching(h[|read|..], match_)
  {
    var seen, late, rest := looked[after..], read[|looked|..], h[|read|..];
    QuietMatchesNothing(looked, after, match_);
    ThreeParts(looked, read, h, after);
    MatchingJoin(seen + late, rest, match_);
    MatchingJoin(seen, late, match_);
  }

  lemma EmptyFront(a: seq<Edge>, b: seq<Edge>)
    ensures b == a + b <==> a == []
  {
    if b == a + b { assert |b| == |a| + |b|; }
  }

  lemma ThreeParts(a: seq<Edge>, b: seq<Edge>, c: seq<Edge>, from: nat)
    requires a <= b <= c && from <= |a|
    ensures c[from..] == a[from..] + b[|a|..] + c[|b|..]
  {
  }
}

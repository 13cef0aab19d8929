/** The recorder pipeline (internal/recorder/recorder.go): messages are offered to a bounded queue,
    taken into a batch and written batch by batch, while offers go on. */
module Recorder {
  import opened Collections

  const QUEUE_DEPTH := 4096
  const BATCH_SIZE := 500
  const MAX_PAYLOAD := 65536

  datatype Record = Record(connectionId: string, topic: string, payload: seq<bv8>, qos: nat, retain: bool,
    receivedAt: int)

  /** What one write attempt carried and whether the database took it. */
  datatype Attempt = Attempt(records: seq<Record>, ok: bool)

  datatype Phase = Running | Draining | Stopped

  /** The pipeline: what waits, what is being collected, what has been attempted; and what came in. */
  datatype State = State(
    queue: seq<Record>,
    batch: seq<Record>,
    attempts: seq<Attempt>,
    written: nat,
    dropped: nat,
    phase: Phase,
    wanted: map<string, nat>,
    accepted: seq<Record>,
    offered: nat)

  const Empty := State([], [], [], 0, 0, Running, map[], [], 0)

  datatype Event =
    | Configure(connectionId: string, record: bool, keep: nat)
    | Offer(r: Record)
    | Take(ok: bool)
    | Flush(ok: bool)
    | Stop
    | Finish(ok: bool)

  function Clipped(r: Record): Record {
    if |r.payload| > MAX_PAYLOAD then r.(payload := r.payload[..MAX_PAYLOAD]) else r
  }

  /** Writes the batch, if there is one, and starts the next. */
  function Written(s: State, ok: bool): State {
    if s.batch == [] then s
    else s.(attempts := s.attempts + [Attempt(s.batch, ok)],
            written := if ok then s.written + |s.batch| else s.written,
            batch := [])
  }

  /** Moves the oldest queued record into the batch. */
  function Taken(s: State): State
    requires s.queue != []
  {
    s.(batch := s.batch + [s.queue[0]], queue := s.queue[1..])
  }

  predicate Enabled(s: State, ev: Event) {
    match ev
    case Configure(_, _, _) => true
    case Offer(_) => true
    case Take(_) => s.phase != Stopped && s.queue != []
    case Flush(_) => s.phase == Running
    case Stop => s.phase == Running
    case Finish(_) => s.phase == Draining && s.queue == []
  }

  function After(s: State, ev: Event): State
    requires Enabled(s, ev)
  {
    match ev
    case Configure(id, record, keep) => s.(wanted := if record then s.wanted[id := keep] else s.wanted - {id})
    case Offer(r) =>
      if r.connectionId !in s.wanted then s
      else if |s.queue| < QUEUE_DEPTH then
        s.(queue := s.queue + [Clipped(r)], accepted := s.accepted + [Clipped(r)], offered := s.offered + 1)
      else s.(dropped := s.dropped + 1, offered := s.offered + 1)
    case Take(ok) => if |Taken(s).batch| >= BATCH_SIZE then Written(Taken(s), ok) else Taken(s)
    case Flush(ok) => Written(s, ok)
    case Stop => s.(phase := Draining)
    case Finish(ok) => Written(s, ok).(phase := Stopped)
  }

  /** Shutting down with nothing more offered: take until the queue is empty, then write the rest. */
  ghost function Drained(s: State, disk: nat -> bool): State
    requires s.phase == Draining
    decreases |s.queue|
  {
    var ok := disk(|s.attempts|);
    if s.queue == [] then After(s, Finish(ok)) else Drained(After(s, Take(ok)), disk)
  }

  /** All records of some attempts, in order. */
  function Attempted(attempts: seq<Attempt>): seq<Record> {
    if attempts == [] then [] else Attempted(attempts[..|attempts| - 1]) + attempts[|attempts| - 1].records
  }

  function Successful(attempts: seq<Attempt>): nat {
    if attempts == [] then 0
    else
      var last := attempts[|attempts| - 1];
      Successful(attempts[..|attempts| - 1]) + if last.ok then |last.records| else 0
  }

  /** Nothing is lost silently, duplicated or reordered: what was accepted is what has been attempted,
      then the batch, then the queue; what was offered is what was accepted and what was dropped. */
  ghost predicate Conserved(s: State) {
    Accounted(s) && |s.batch| < BATCH_SIZE && (s.phase == Stopped ==> s.batch == [])
  }

  /** The same with a batch that may just have filled up. */
  ghost predicate Accounted(s: State) {
    && s.accepted == Attempted(s.attempts) + s.batch + s.queue
    && s.offered == |s.accepted| + s.dropped
    && s.written == Successful(s.attempts)
    && |s.batch| <= BATCH_SIZE && |s.queue| <= QUEUE_DEPTH
    && (forall i :: 0 <= i < |s.attempts| ==> 1 <= |s.attempts[i].records| <= BATCH_SIZE)
    && (forall i :: 0 <= i < |s.accepted| ==> |s.accepted[i].payload| <= MAX_PAYLOAD)
  }

  lemma AttemptedAppend(attempts: seq<Attempt>, a: Attempt)
    ensures Attempted(attempts + [a]) == Attempted(attempts) + a.records
    ensures Successful(attempts + [a]) == Successful(attempts) + if a.ok then |a.records| else 0
  {
    assert (attempts + [a])[..|attempts|] == attempts;
  }

  lemma WrittenConserves(s: State, ok: bool)
    requires Accounted(s)
    ensures Conserved(Written(s, ok)) && Written(s, ok).batch == []
  {
    if s.batch != [] {
      AttemptedAppend(s.attempts, Attempt(s.batch, ok));
      assert Attempted(s.attempts) + s.batch + [] + s.queue == Attempted(s.attempts) + s.batch + s.queue;
    }
  }

  lemma StepConserves(s: State, ev: Event)
    requires Conserved(s) && Enabled(s, ev)
    ensures Conserved(After(s, ev))
  {
    match ev
    case Configure(_, _, _) => OtherFields(s, After(s, ev));
    case Stop => OtherFields(s, After(s, ev));
    case Offer(r) => OfferConserves(s, r);
    case Take(ok) => TakeConserves(s, ok);
    case Flush(ok) => WrittenConserves(s, ok);
    case Finish(ok) => FinishConserves(s, ok);
  }

  lemma OtherFields(s: State, t: State)
    requires Conserved(s) && (t.phase == s.phase || t.phase != Stopped)
    requires t.queue == s.queue && t.batch == s.batch && t.attempts == s.attempts && t.written == s.written
    requires t.dropped == s.dropped && t.accepted == s.accepted && t.offered == s.offered
    ensures Conserved(t)
  {
  }

  lemma TakeConserves(s: State, ok: bool)
    requires Conserved(s) && Enabled(s, Take(ok))
    ensures Conserved(After(s, Take(ok)))
  {
    TakeAccounts(s);
    if |Taken(s).batch| >= BATCH_SIZE { WrittenConserves(Taken(s), ok); }
  }

  lemma FinishConserves(s: State, ok: bool)
    requires Conserved(s)
    ensures Conserved(Written(s, ok).(phase := Stopped))
  {
    WrittenConserves(s, ok);
  }

  /** Shutting down attempts everything accepted and leaves nothing behind. */
  lemma {:induction false} DrainedIsFlushed(s: State, disk: nat -> bool)
    requires Conserved(s) && s.phase == Draining
    ensures var t := Drained(s, disk);
      && Conserved(t) && t.phase == Stopped && t.queue == [] && t.batch == []
      && t.accepted == s.accepted == Attempted(t.attempts)
      && t.dropped == s.dropped && t.offered == s.offered && t.wanted == s.wanted
    decreases |s.queue|
  {
    var ok := disk(|s.attempts|);
    if s.queue == [] {
      FinishConserves(s, ok);
      var t := After(s, Finish(ok));
      assert Attempted(t.attempts) + [] + [] == Attempted(t.attempts);
    } else {
      TakeConserves(s, ok);
      DrainedIsFlushed(After(s, Take(ok)), disk);
    }
  }

  lemma OfferConserves(s: State, r: Record)
    requires Conserved(s)
    ensures Conserved(After(s, Offer(r)))
  {
    assert Attempted(s.attempts) + s.batch + (s.queue + [Clipped(r)]) ==
           Attempted(s.attempts) + s.batch + s.queue + [Clipped(r)];
  }

  lemma TakeAccounts(s: State)
    requires Conserved(s) && s.queue != []
    ensures Accounted(Taken(s))
  {
    assert s.queue == [s.queue[0]] + s.queue[1..];
    assert Attempted(s.attempts) + (s.batch + [s.queue[0]]) + s.queue[1..] == Attempted(s.attempts) + s.batch + s.queue;
  }

  ghost predicate IsRun(states: seq<State>, events: seq<Event>) {
    |states| == |events| + 1 && states[0] == Empty && forall i :: 0 <= i < |events| ==> StepAt(states, events, i)
  }

  ghost predicate StepAt(states: seq<State>, events: seq<Event>, i: nat)
    requires i < |events| && |states| == |events| + 1
  {
    Enabled(states[i], events[i]) && states[i + 1] == After(states[i], events[i])
  }

  /** Every state of every run conserves the messages, in order. */
  lemma {:induction false} RunsConserve(states: seq<State>, events: seq<Event>, k: nat)
    requires IsRun(states, events) && k <= |events|
    ensures Conserved(states[k])
  {
    if k > 0 {
      RunsConserve(states, events, k - 1);
      assert StepAt(states, events, k - 1);
      StepConserves(states[k - 1], events[k - 1]);
    }
  }

  /** The last word of the events on whether a connection is recorded and how much is kept of it. */
  ghost function Configured(events: seq<Event>, connectionId: string): Option<nat> {
    if events == [] then None
    else
      var ev := events[|events| - 1];
      if ev.Configure? && ev.connectionId == connectionId then if ev.record then Some(ev.keep) else None
      else Configured(events[..|events| - 1], connectionId)
  }

  /** A connection is wanted exactly when it was last configured to be recorded, with the limit given then. */
  lemma {:induction false} WantedIsConfigured(states: seq<State>, events: seq<Event>, k: nat, connectionId: string)
    requires IsRun(states, events) && k <= |events|
    ensures var wanted, last := states[k].wanted, Configured(events[..k], connectionId);
      && (connectionId in wanted <==> last.Some?)
      && (connectionId in wanted ==> wanted[connectionId] == last.value)
  {
    if k > 0 {
      WantedIsConfigured(states, events, k - 1, connectionId);
      assert StepAt(states, events, k - 1);
      assert events[..k][..k - 1] == events[..k - 1];
    }
  }

  /** The copy of a message that is recorded: the first bytes of a payload too large, all else as it came. */
  ghost predicate CopyOf(kept: Record, r: Record) {
    && kept.connectionId == r.connectionId && kept.topic == r.topic
    && kept.qos == r.qos && kept.retain == r.retain && kept.receivedAt == r.receivedAt
    && kept.payload <= r.payload
    && |kept.payload| == if |r.payload| > MAX_PAYLOAD then MAX_PAYLOAD else |r.payload|
  }

  /** The record is added at the end of what is queued and of what is accepted, and nowhere else. */
  ghost predicate Queued(s: State, t: State, kept: Record) {
    t == s.(queue := s.queue + [kept], accepted := s.accepted + [kept], offered := s.offered + 1)
  }

  /** In every run, an offered message of a recorded connection is dropped if and only if the queue is full, and
      queued otherwise; one of any other connection changes nothing. */
  lemma {:induction false} DroppedOnlyWhenFull(states: seq<State>, events: seq<Event>, k: nat)
    requires IsRun(states, events) && k < |events| && events[k].Offer?
    ensures var s, t, r := states[k], states[k + 1], events[k].r;
      && |s.queue| <= QUEUE_DEPTH
      && (t.dropped > s.dropped <==> Configured(events[..k], r.connectionId).Some? && |s.queue| == QUEUE_DEPTH)
      && (t.dropped > s.dropped ==> t == s.(dropped := s.dropped + 1, offered := s.offered + 1))
      && (Configured(events[..k], r.connectionId).Some? && |s.queue| < QUEUE_DEPTH ==>
            exists kept :: CopyOf(kept, r) && Queued(s, t, kept))
      && (Configured(events[..k], r.connectionId).None? ==> t == s)
  {
    RunsConserve(states, events, k);
    WantedIsConfigured(states, events, k, events[k].r.connectionId);
    assert StepAt(states, events, k);
    assert CopyOf(Clipped(events[k].r), events[k].r);
  }

  ghost predicate TakenFrom(s: State, t: State, ok: bool)
    requires s.queue != []
  {
    var batch := s.batch + [s.queue[0]];
    && s.queue == [s.queue[0]] + t.queue
    && if |batch| == BATCH_SIZE then t.attempts == s.attempts + [Attempt(batch, ok)] && t.batch == []
       else t.attempts == s.attempts && t.batch == batch
  }

  /** In every run, taking moves the oldest queued record to the batch, and writes the batch if and only if that
      makes it full; the timer and the end write what there is. */
  lemma {:induction false} WrittenWhenFull(states: seq<State>, events: seq<Event>, k: nat)
    requires IsRun(states, events) && k < |events|
    ensures var s, t, ev := states[k], states[k + 1], events[k];
      && (ev.Take? ==> s.queue != [] && TakenFrom(s, t, ev.ok))
      && (ev.Flush? || ev.Finish? ==>
            && t.queue == s.queue && t.batch == []
            && t.attempts == s.attempts + (if s.batch == [] then [] else [Attempt(s.batch, ev.ok)]))
      && (!ev.Take? && !ev.Flush? && !ev.Finish? ==> t.batch == s.batch && t.attempts == s.attempts)
  {
    RunsConserve(states, events, k);
    assert StepAt(states, events, k);
  }

  /** In every run, the recorder is running until it is stopped and at its end once the loop has finished. */
  lemma {:induction false} PhaseMeans(states: seq<State>, events: seq<Event>, k: nat)
    requires IsRun(states, events) && k <= |events|
    ensures states[k].phase == Running <==> Stop !in events[..k]
    ensures states[k].phase == Stopped <==> exists i :: 0 <= i < k && events[i].Finish?
  {
    if k > 0 {
      PhaseMeans(states, events, k - 1);
      assert StepAt(states, events, k - 1);
      assert events[..k] == events[..k - 1] + [events[k - 1]];
    }
  }

  /** When the loop finishes, everything accepted so far has been attempted. It stays stopped, and what is
      accepted later stays in the queue: what waits there was all offered after the end. */
  lemma {:induction false} StoppedMeansFlushed(states: seq<State>, events: seq<Event>, j: nat, k: nat)
    requires IsRun(states, events) && j < k <= |events| && events[j].Finish?
    ensures states[k].phase == Stopped
    ensures Attempted(states[k].attempts) == states[j].accepted
    ensures states[k].accepted == states[j].accepted + states[k].queue
  {
    assert StepAt(states, events, k - 1);
    if k == j + 1 {
      RunsConserve(states, events, k);
      var t := states[k];
      assert Attempted(t.attempts) + [] + [] == Attempted(t.attempts);
    } else {
      StoppedMeansFlushed(states, events, j, k - 1);
      StoppedOnlyQueues(states[k - 1], events[k - 1]);
    }
  }

  /** A stopped recorder writes nothing; an offer it accepts goes to the end of the queue. */
  lemma StoppedOnlyQueues(s: State, ev: Event)
    requires s.phase == Stopped && Enabled(s, ev)
    ensures After(s, ev).phase == Stopped && After(s, ev).attempts == s.attempts
    ensures exists more :: After(s, ev).accepted == s.accepted + more && After(s, ev).queue == s.queue + more
  {
    var t := After(s, ev);
    assert s.accepted + [] == s.accepted && s.queue + [] == s.queue;
    if ev.Offer? && t.accepted != s.accepted {
      assert t.accepted == s.accepted + [Clipped(ev.r)] && t.queue == s.queue + [Clipped(ev.r)];
    }
  }

  /** The recorder with its queue, its reused batch and its counters. `disk` says which write attempts succeed. */
  class Recorder {
    const disk: nat -> bool
    var queue: seq<Record>
    var batch: seq<Record>
    var wanted: map<string, nat>
    var dropped: nat
    var written: nat

    ghost var attempts: seq<Attempt>
    ghost var phase: Phase
    ghost var accepted: seq<Record>
    ghost var offered: nat
    var attempt: nat

    ghost function View(): State
      reads this
    {
      State(queue, batch, attempts, written, dropped, phase, wanted, accepted, offered)
    }

    ghost predicate Valid()
      reads this
    {
      Conserved(View()) && attempt == |attempts|
    }

    constructor (disk: nat -> bool)
      ensures View() == Empty && this.disk == disk
      ensures Valid()
    {
      this.disk := disk;
      queue, batch, wanted, dropped, written, attempt := [], [], map[], 0, 0, 0;
      attempts, phase, accepted, offered := [], Running, [], 0;
    }

    method Configure(connectionId: string, record: bool, keep: nat)
      requires Valid()
      modifies this
      ensures View() == After(old(View()), Event.Configure(connectionId, record, keep))
      ensures Valid()
    {
      wanted := if record then wanted[connectionId := keep] else wanted - {connectionId};
    }

    /** The message-path half: never waits, drops when the queue is full. */
    method Observe(r: Record)
      requires Valid()
      modifies this
      ensures View() == After(old(View()), Offer(r))
      ensures Valid()
    {
      StepConserves(View(), Offer(r));
      if r.connectionId !in wanted { return; }
      var kept := r;
      if |r.payload| > MAX_PAYLOAD { kept := r.(payload := r.payload[..MAX_PAYLOAD]); }
      offered := offered + 1;
      if |queue| < QUEUE_DEPTH {
        queue := queue + [kept];
        accepted := accepted + [kept];
      } else {
        dropped := dropped + 1;
      }
    }

    /** Writes the batch and starts the next one. */
    method Write()
      requires Accounted(View()) && attempt == |attempts|
      modifies this
      ensures View() == Written(old(View()), disk(old(attempt)))
      ensures Valid()
      ensures attempt == |attempts|
    {
      WrittenConserves(View(), disk(attempt));
      if |batch| == 0 { return; }
      if disk(attempt) { written := written + |batch|; }
      attempts := attempts + [Attempt(batch, disk(attempt))];
      attempt := attempt + 1;
      batch := [];
    }

    /** Takes one record off the queue into the batch, writing a full batch. */
    method Receive()
      requires Valid() && |queue| > 0 && phase != Stopped
      modifies this
      ensures |queue| == |old(queue)| - 1 && phase == old(phase)
      ensures View() == After(old(View()), Take(disk(old(attempt))))
      ensures Valid()
    {
      StepConserves(View(), Take(disk(attempt)));
      TakeAccounts(View());
      batch := batch + [queue[0]];
      queue := queue[1..];
      if |batch| >= BATCH_SIZE { Write(); }
    }

    /** The flush timer. */
    method Tick()
      requires Valid() && phase == Running
      modifies this
      ensures View() == After(old(View()), Flush(disk(old(attempt))))
      ensures Valid()
    {
      Write();
    }

    /** Stops the loop: writes whatever is queued, batch by batch, and then the rest. Nothing accepted is
        left behind. */
    method Drain()
      requires Valid() && phase == Running
      modifies this
      ensures View() == Drained(old(View()).(phase := Draining), disk)
      ensures Valid() && phase == Stopped && queue == [] && batch == []
      ensures accepted == old(accepted) == Attempted(attempts)
      ensures dropped == old(dropped) && offered == old(offered) && wanted == old(wanted)
    {
      phase := Draining;
      ghost var start := View();
      OtherFields(old(View()), start);
      DrainedIsFlushed(start, disk);
      while |queue| > 0
        invariant Valid() && phase == Draining
        invariant Drained(View(), disk) == Drained(start, disk)
      {
        Receive();
      }
      Write();
      phase := Stopped;
    }
  }
}

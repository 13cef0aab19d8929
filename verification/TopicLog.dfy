/** The per-topic message log (internal/mqttc/topiclog.go): a ring per topic, a recency list and
    one byte budget over all of them. */
module TopicLog {
  import opened Collections
  import opened MessageLog

  const DEFAULT_ENTRIES := 100
  const MAX_ENTRIES := 10000
  const DEFAULT_BUDGET := 33554432
  const MAX_PAYLOAD := 8192

  /** One topic of the log as a reader sees it: its messages, oldest first. */
  datatype Held = Held(topic: string, messages: seq<Message>)

  function Bytes(ms: seq<Message>): nat {
    if ms == [] then 0 else |ms[0].payload| + Bytes(ms[1..])
  }

  function TotalBytes(held: seq<Held>): nat {
    if held == [] then 0 else TotalBytes(held[..|held| - 1]) + Bytes(held[|held| - 1].messages)
  }

  /** The copy of a message the log keeps. */
  function Kept(m: Message): Message {
    if |m.payload| > MAX_PAYLOAD then m.(payload := m.payload[..MAX_PAYLOAD], truncated := true) else m
  }

  /** Where a topic stands in the recency order; the length when it is not there. */
  function IndexOf(held: seq<Held>, topic: string): (i: nat)
    ensures i <= |held|
    ensures i < |held| ==> held[i].topic == topic
    ensures forall j :: 0 <= j < i ==> held[j].topic != topic
  {
    if held == [] then 0 else if held[0].topic == topic then 0 else 1 + IndexOf(held[1..], topic)
  }

  function MessagesOf(held: seq<Held>, topic: string): seq<Message> {
    var i := IndexOf(held, topic);
    if i < |held| then held[i].messages else []
  }

  function Without(held: seq<Held>, topic: string): seq<Held> {
    var i := IndexOf(held, topic);
    if i < |held| then held[..i] + held[i + 1..] else held
  }

  /** The topic just read moves to the front, if it is there. */
  function Touched(held: seq<Held>, topic: string): seq<Held> {
    if IndexOf(held, topic) < |held| then [Held(topic, MessagesOf(held, topic))] + Without(held, topic) else held
  }

  /** The topic just written stands in front with one more message, the oldest dropped beyond n. */
  function Written(held: seq<Held>, m: Message, n: nat): seq<Held> {
    [Held(m.topic, LastN(MessagesOf(held, m.topic) + [m], n))] + Without(held, m.topic)
  }

  /** Whole topics go from the back until the budget is met or one is left. */
  function Evict(held: seq<Held>, budget: nat): (kept: seq<Held>)
    ensures kept <= held
  {
    if TotalBytes(held) > budget && |held| > 1 then Evict(held[..|held| - 1], budget) else held
  }

  lemma {:induction false} BytesAppend(ms: seq<Message>, m: Message)
    ensures Bytes(ms + [m]) == Bytes(ms) + |m.payload|
  {
    if ms == [] {
      assert ms + [m] == [m];
    } else {
      BytesAppend(ms[1..], m);
      assert (ms + [m])[1..] == ms[1..] + [m];
    }
  }

  lemma {:induction false} TotalBytesJoin(a: seq<Held>, b: seq<Held>)
    ensures TotalBytes(a + b) == TotalBytes(a) + TotalBytes(b)
  {
    if b == [] {
      assert a + b == a;
    } else {
      TotalBytesJoin(a, b[..|b| - 1]);
      assert (a + b)[..|a + b| - 1] == a + b[..|b| - 1];
    }
  }

  /** The contents of a ring buffer, oldest first. */
  function Unrolled(slots: seq<Message>, next: nat, filled: bool): seq<Message>
    requires next <= |slots|
  {
    if filled then slots[next..] + slots[..next] else slots[..next]
  }

  /** Overwriting the slot at `next` drops the oldest message of a full ring and appends the new one. */
  lemma {:induction false} UnrolledPut(slots: seq<Message>, next: nat, filled: bool, m: Message)
    requires next < |slots|
    ensures var before := Unrolled(slots, next, filled);
      var wrap := next + 1 == |slots|;
      Unrolled(slots[next := m], if wrap then 0 else next + 1, filled || wrap) ==
      (if filled then before[1..] else before) + [m] == LastN(before + [m], |slots|)
  {
    if filled { PutInFull(slots, next, m); } else { PutInPart(slots, next, m); }
  }

  lemma {:induction false} PutInFull(slots: seq<Message>, next: nat, m: Message)
    requires next < |slots|
    ensures var before := slots[next..] + slots[..next];
      Unrolled(slots[next := m], if next + 1 == |slots| then 0 else next + 1, true) ==
      before[1..] + [m] == LastN(before + [m], |slots|)
  {
    var before := slots[next..] + slots[..next];
    assert before[1..] == slots[next + 1..] + slots[..next];
    Overwritten(slots, next, m);
    DropFirst(before, m);
  }

  lemma Overwritten(slots: seq<Message>, next: nat, m: Message)
    requires next < |slots|
    ensures slots[next := m][..next + 1] == slots[..next] + [m]
    ensures slots[next := m][next + 1..] == slots[next + 1..]
    ensures next + 1 == |slots| ==> slots[next := m] == slots[..next] + [m]
  {
  }

  lemma {:induction false} PutInPart(slots: seq<Message>, next: nat, m: Message)
    requires next < |slots|
    ensures var wrap := next + 1 == |slots|;
      Unrolled(slots[next := m], if wrap then 0 else next + 1, wrap) == slots[..next] + [m]
      == LastN(slots[..next] + [m], |slots|)
  {
    Overwritten(slots, next, m);
  }

  lemma DropFirst(s: seq<Message>, m: Message)
    requires s != []
    ensures LastN(s + [m], |s|) == s[1..] + [m]
  {
  }

  lemma Wrap(k: nat, n: nat)
    requires k < n
    ensures (k + 1) % n == if k + 1 == n then 0 else k + 1
  {
  }

  lemma {:induction false} UnrolledOldest(slots: seq<Message>, next: nat)
    requires next < |slots|
    ensures Bytes(Unrolled(slots, next, true)) == |slots[next].payload| + Bytes(Unrolled(slots, next, true)[1..])
  {
  }

  /** Writing changes the bytes in a ring by what comes in, less what it overwrites. */
  lemma {:induction false} UnrolledBytes(slots: seq<Message>, next: nat, filled: bool, m: Message)
    requires next < |slots|
    ensures Bytes((if filled then Unrolled(slots, next, filled)[1..] else Unrolled(slots, next, filled)) + [m]) ==
      Bytes(Unrolled(slots, next, filled)) - (if filled then |slots[next].payload| else 0) + |m.payload|
  {
    var before := Unrolled(slots, next, filled);
    if filled { UnrolledOldest(slots, next); }
    BytesAppend(if filled then before[1..] else before, m);
  }

  class TopicRing {
    const topic: string
    const buf: array<Message>
    var next: nat
    var filled: bool
    var bytes: int

    /** The messages in the ring, oldest first. */
    function Chronological(): seq<Message>
      requires next <= buf.Length
      reads this, buf
    {
      Unrolled(buf[..], next, filled)
    }

    ghost predicate Valid()
      reads this, buf
    {
      next < buf.Length && bytes == Bytes(Chronological())
    }

    constructor (topic: string, entries: nat, blank: Message)
      requires entries > 0
      ensures Valid() && this.topic == topic && buf.Length == entries && fresh(buf)
      ensures Chronological() == [] && bytes == 0
    {
      this.topic := topic;
      buf := new Message[entries](_ => blank);
      next, filled, bytes := 0, false, 0;
    }

    /** Writes a message over the oldest slot and says by how much the bytes held changed. */
    method Put(m: Message) returns (delta: int)
      requires Valid()
      modifies `next, `filled, `bytes, buf
      ensures Valid()
      ensures Chronological() == LastN(old(Chronological()) + [m], buf.Length)
      ensures bytes == old(bytes) + delta
    {
      UnrolledBytes(buf[..], next, filled, m);
      delta := if filled then |m.payload| - |buf[next].payload| else |m.payload|;
      Overwrite(m);
      bytes := bytes + delta;
    }

    /** Writes a message into the slot at the cursor and moves the cursor on. */
    method Overwrite(m: Message)
      requires next < buf.Length
      modifies `next, `filled, buf
      ensures next < buf.Length
      ensures Chronological() == (if old(filled) then old(Chronological())[1..] else old(Chronological())) + [m]
      ensures Chronological() == LastN(old(Chronological()) + [m], buf.Length)
    {
      ghost var slots := buf[..];
      UnrolledPut(slots, next, filled, m);
      buf[next] := m;
      assert buf[..] == slots[next := m];
      Wrap(next, buf.Length);
      next := (next + 1) % buf.Length;
      if next == 0 {
        filled := true;
      }
    }
  }

  /** Rings of distinct topics with buffers of their own, all of them listed and nothing else. */
  ghost predicate Apart(rings: map<string, TopicRing>, order: seq<TopicRing>) {
    && (forall i, j {:trigger Differ(order[i], order[j])} :: 0 <= i < j < |order| ==> Differ(order[i], order[j]))
    && (forall i {:trigger Registered(rings, order[i])} :: 0 <= i < |order| ==> Registered(rings, order[i]))
    && (forall t {:trigger Listed(rings, order, t)} :: t in rings ==> Listed(rings, order, t))
  }

  ghost predicate Differ(a: TopicRing, b: TopicRing) {
    a != b && a.topic != b.topic && a.buf != b.buf
  }

  ghost predicate Registered(rings: map<string, TopicRing>, r: TopicRing) {
    r.topic in rings && rings[r.topic] == r
  }

  ghost predicate Listed(rings: map<string, TopicRing>, order: seq<TopicRing>, t: string)
    requires t in rings
  {
    rings[t].topic == t && exists i :: 0 <= i < |order| && order[i] == rings[t]
  }

  /** A sequence with the element at i moved to the front. */
  function ToFront<T>(s: seq<T>, i: nat): (r: seq<T>)
    requires i < |s|
    ensures |r| == |s| && r[0] == s[i]
    ensures forall a {:trigger r[a]} :: 0 <= a < |s| ==> r[a] == s[Source(i, a)]
    ensures forall k {:trigger Target(i, k)} :: 0 <= k < |s| ==> r[Target(i, k)] == s[k]
  {
    [s[i]] + s[..i] + s[i + 1..]
  }

  /** Where the element at position a of the moved sequence came from. */
  function Source(i: nat, a: nat): nat {
    if a == 0 then i else if a <= i then a - 1 else a
  }

  /** Where position k went. */
  function Target(i: nat, k: nat): nat {
    if k == i then 0 else if k < i then k + 1 else k
  }

  lemma SameMoved<T>(s: seq<T>, i: nat)
    requires i < |s|
    ensures forall x :: x in ToFront(s, i) ==> x in s
  {
  }

  lemma ApartMoved(rings: map<string, TopicRing>, order: seq<TopicRing>, i: nat)
    requires Apart(rings, order) && i < |order|
    ensures Apart(rings, ToFront(order, i))
  {
    var moved := ToFront(order, i);
    forall a, b | 0 <= a < b < |moved| ensures Differ(moved[a], moved[b]) {
      var ka, kb := Source(i, a), Source(i, b);
      assert if ka < kb then Differ(order[ka], order[kb]) else Differ(order[kb], order[ka]);
    }
    forall a | 0 <= a < |moved| ensures Registered(rings, moved[a]) {
      assert Registered(rings, order[Source(i, a)]);
    }
    forall t | t in rings ensures Listed(rings, moved, t) {
      assert Listed(rings, order, t);
      var k :| 0 <= k < |order| && order[k] == rings[t];
      assert moved[Target(i, k)] == rings[t];
    }
  }

  lemma ApartAdded(rings: map<string, TopicRing>, order: seq<TopicRing>, r: TopicRing)
    requires Apart(rings, order) && r.topic !in rings && forall i :: 0 <= i < |order| ==> order[i].buf != r.buf
    ensures Apart(rings[r.topic := r], [r] + order)
  {
    var added, rings' := [r] + order, rings[r.topic := r];
    forall i, j | 0 <= i < j < |added| ensures Differ(added[i], added[j]) {
      assert Registered(rings, order[j - 1]);
      if i > 0 { assert Differ(order[i - 1], order[j - 1]); }
    }
    forall i | 0 <= i < |added| ensures Registered(rings', added[i]) {
      if i > 0 { assert Registered(rings, order[i - 1]); }
    }
    forall t | t in rings' ensures Listed(rings', added, t) {
      if t == r.topic {
        assert added[0] == rings'[t];
      } else {
        assert Listed(rings, order, t);
        var k :| 0 <= k < |order| && order[k] == rings[t];
        assert added[k + 1] == rings'[t];
      }
    }
  }

  lemma ApartDropped(rings: map<string, TopicRing>, order: seq<TopicRing>)
    requires Apart(rings, order) && |order| > 0
    ensures Apart(rings - {order[|order| - 1].topic}, order[..|order| - 1])
  {
    var last := |order| - 1;
    var rest, rings' := order[..last], rings - {order[last].topic};
    forall i, j | 0 <= i < j < |rest| ensures Differ(rest[i], rest[j]) { assert Differ(order[i], order[j]); }
    forall i | 0 <= i < |rest| ensures Registered(rings', rest[i]) {
      assert Registered(rings, order[i]) && Differ(order[i], order[last]);
    }
    forall t | t in rings' ensures Listed(rings', rest, t) {
      assert Listed(rings, order, t);
      var k :| 0 <= k < |order| && order[k] == rings[t];
      assert rest[k] == rings'[t];
    }
  }

  /** Every topic held has some messages, at most n, each clipped. */
  ghost predicate Bounded(held: seq<Held>, n: nat) {
    forall i {:trigger Sized(held[i], n)} :: 0 <= i < |held| ==> Sized(held[i], n)
  }

  ghost predicate Sized(h: Held, n: nat) {
    1 <= |h.messages| <= n && Clipped(h.messages)
  }

  ghost predicate Clipped(ms: seq<Message>) {
    forall k :: 0 <= k < |ms| ==> |ms[k].payload| <= MAX_PAYLOAD
  }

  lemma IndexOfAt(held: seq<Held>, i: nat)
    requires i < |held| && forall j :: 0 <= j < i ==> held[j].topic != held[i].topic
    ensures IndexOf(held, held[i].topic) == i
  {
  }

  lemma {:induction false} BoundedWithout(held: seq<Held>, topic: string, n: nat)
    requires Bounded(held, n)
    ensures Bounded(Without(held, topic), n)
  {
    var i := IndexOf(held, topic);
    var rest := Without(held, topic);
    forall k | 0 <= k < |rest| ensures Sized(rest[k], n) {
      var j := if k < i then k else k + 1;
      assert Sized(held[j], n) && rest[k] == held[j];
    }
  }

  lemma BoundedCons(h: Held, rest: seq<Held>, n: nat)
    requires Sized(h, n) && Bounded(rest, n)
    ensures Bounded([h] + rest, n)
  {
    var all := [h] + rest;
    forall k | 0 <= k < |all| ensures Sized(all[k], n) {
      if k > 0 { assert Sized(rest[k - 1], n); }
    }
  }

  lemma {:induction false} BoundedWritten(held: seq<Held>, m: Message, n: nat)
    requires Bounded(held, n) && n > 0 && |m.payload| <= MAX_PAYLOAD
    ensures Bounded(Written(held, m, n), n)
  {
    BoundedWithout(held, m.topic, n);
    var i := IndexOf(held, m.topic);
    if i < |held| { assert Sized(held[i], n); }
    BoundedCons(Written(held, m, n)[0], Without(held, m.topic), n);
  }

  lemma {:induction false} TouchedBytes(held: seq<Held>, topic: string)
    ensures TotalBytes(Touched(held, topic)) == TotalBytes(held)
  {
    var i := IndexOf(held, topic);
    if i < |held| {
      var front := [Held(topic, held[i].messages)];
      assert held == held[..i] + front + held[i + 1..];
      TotalBytesJoin(held[..i] + front, held[i + 1..]);
      TotalBytesJoin(held[..i], front);
      TotalBytesJoin(front, held[..i] + held[i + 1..]);
      TotalBytesJoin(held[..i], held[i + 1..]);
    }
  }

  lemma {:induction false} BoundedTouched(held: seq<Held>, topic: string, n: nat)
    requires Bounded(held, n)
    ensures Bounded(Touched(held, topic), n)
  {
    var i := IndexOf(held, topic);
    if i < |held| {
      assert Sized(held[i], n);
      BoundedWithout(held, topic, n);
      BoundedCons(held[i], Without(held, topic), n);
    }
  }

  /** Writing changes the bytes held by what the written topic gains. */
  lemma {:induction false} WrittenBytes(held: seq<Held>, m: Message, n: nat)
    ensures TotalBytes(Written(held, m, n)) ==
      TotalBytes(held) - Bytes(MessagesOf(held, m.topic)) + Bytes(LastN(MessagesOf(held, m.topic) + [m], n))
  {
    var i := IndexOf(held, m.topic);
    var front := [Held(m.topic, LastN(MessagesOf(held, m.topic) + [m], n))];
    TotalBytesJoin(front, Without(held, m.topic));
    assert front[..0] == [];
    if i < |held| {
      assert held == held[..i] + [held[i]] + held[i + 1..];
      assert [held[i]][..0] == [];
      TotalBytesJoin(held[..i] + [held[i]], held[i + 1..]);
      TotalBytesJoin(held[..i], [held[i]]);
      TotalBytesJoin(held[..i], held[i + 1..]);
    }
  }

  lemma {:induction false} TouchedIsToFront(held: seq<Held>, i: nat)
    requires i < |held| && forall j :: 0 <= j < i ==> held[j].topic != held[i].topic
    ensures ToFront(held, i) == Touched(held, held[i].topic)
  {
    IndexOfAt(held, i);
  }

  /** A ring of n slots holds what a reader sees. */
  ghost predicate Backs(r: TopicRing, h: Held, n: nat)
    reads r, r.buf
  {
    r.Valid() && r.buf.Length == n && h == Held(r.topic, r.Chronological())
  }

  lemma BacksMoved(order: seq<TopicRing>, held: seq<Held>, i: nat, n: nat)
    requires |order| == |held| && i < |order|
    requires forall k {:trigger Backs(order[k], held[k], n)} :: 0 <= k < |order| ==> Backs(order[k], held[k], n)
    ensures var moved, shown := ToFront(order, i), ToFront(held, i);
      forall a {:trigger Backs(moved[a], shown[a], n)} :: 0 <= a < |order| ==> Backs(moved[a], shown[a], n)
  {
    var moved, shown := ToFront(order, i), ToFront(held, i);
    forall a | 0 <= a < |order| ensures Backs(moved[a], shown[a], n) {
      assert Backs(order[Source(i, a)], held[Source(i, a)], n);
    }
  }

  class TopicLog {
    const perTopic: nat
    const budget: nat
    var bytes: int
    var rings: map<string, TopicRing>
    /** Most recently used first. */
    var order: seq<TopicRing>
    var evicted: nat

    /** The log as readers see it, most recently used topic first. */
    ghost var held: seq<Held>
    /** How many rings have been created, and how many a Clear has dropped. */
    ghost var created: nat
    ghost var cleared: nat
    /** Every operation there has been. */
    ghost var ops: seq<Op>

    ghost function Footprint(): set<object>
      reads this`order
    {
      (set r | r in order) + (set r: TopicRing | r in order :: r.buf as object)
    }

    /** The rings hold what `held` says, each in its own buffer. */
    ghost predicate Backed()
      reads this`rings, this`order, this`held, Footprint()
    {
      && perTopic > 0 && budget > 0
      && Apart(rings, order)
      && |held| == |order|
      && forall i {:trigger Backs(order[i], held[i], perTopic)} :: 0 <= i < |order| ==>
        Backs(order[i], held[i], perTopic)
    }

    ghost predicate Consistent()
      reads this`rings, this`order, this`held, this`bytes, this`created, this`evicted, this`cleared, Footprint()
    {
      && Backed()
      && Bounded(held, perTopic)
      && bytes == TotalBytes(held)
      && created == |held| + evicted + cleared
    }

    ghost predicate WithinBudget()
      reads this`rings, this`order, this`held, this`bytes, this`created, this`evicted, this`cleared, Footprint()
    {
      Consistent() && (bytes <= budget || |held| <= 1)
    }

    ghost predicate Valid()
      reads this, Footprint()
    {
      WithinBudget() && held == RunHeld(ops, perTopic, budget)
    }

    constructor (entries: int, maxBytes: int)
      ensures Valid() && ops == [] && held == [] && evicted == 0 && created == 0 && cleared == 0
      ensures perTopic == if entries <= 0 then DEFAULT_ENTRIES else if entries > MAX_ENTRIES then MAX_ENTRIES
        else entries
      ensures budget == if maxBytes <= 0 then DEFAULT_BUDGET else maxBytes
    {
      perTopic := if entries <= 0 then DEFAULT_ENTRIES else if entries > MAX_ENTRIES then MAX_ENTRIES else entries;
      budget := if maxBytes <= 0 then DEFAULT_BUDGET else maxBytes;
      bytes, rings, order, evicted := 0, map[], [], 0;
      held, created, cleared, ops := [], 0, 0, [];
    }

    /** A topic has a ring exactly when the log holds it. */
    lemma HasRing(topic: string)
      requires Backed()
      ensures topic in rings <==> IndexOf(held, topic) < |held|
      ensures topic in rings ==> rings[topic] == order[IndexOf(held, topic)]
    {
      forall i | 0 <= i < |held| ensures held[i].topic in rings && held[i].topic == order[i].topic {
        assert Registered(rings, order[i]) && Backs(order[i], held[i], perTopic);
      }
      if topic in rings {
        assert Listed(rings, order, topic);
        var i :| 0 <= i < |order| && order[i] == rings[topic];
        TopicsDiffer(i);
        IndexOfAt(held, i);
      }
    }

    lemma TopicsDiffer(i: nat)
      requires Backed() && i < |order|
      ensures forall j :: 0 <= j < |held| && j != i ==> held[j].topic != held[i].topic
    {
      forall j | 0 <= j < |held| && j != i ensures held[j].topic != held[i].topic {
        assert Backs(order[i], held[i], perTopic) && Backs(order[j], held[j], perTopic);
        assert if i < j then Differ(order[i], order[j]) else Differ(order[j], order[i]);
      }
    }

    /** Moves a ring to the front of the recency order. */
    method MoveToFront(r: TopicRing)
      requires Backed() && r in order
      modifies this`order, this`held
      ensures Backed() && held == Touched(old(held), r.topic) && |order| == old(|order|)
      ensures order[0] == r && forall q :: q in order ==> q in old(order)
    {
      var i := PositionOf(r);
      TopicsDiffer(i);
      assert Backs(order[i], held[i], perTopic);
      TouchedIsToFront(held, i);
      ApartMoved(rings, order, i);
      BacksMoved(order, held, i, perTopic);
      SameMoved(order, i);
      held := ToFront(held, i);
      order := ToFront(order, i);
    }

    method PositionOf(r: TopicRing) returns (i: nat)
      requires r in order
      ensures i < |order| && order[i] == r
    {
      i := 0;
      while order[i] != r
        invariant i < |order| && r !in order[..i]
        decreases |order| - i
      {
        i := i + 1;
      }
    }

    /** Creates a ring in front for a topic the log does not hold. */
    method NewRing(topic: string, blank: Message) returns (r: TopicRing)
      requires Backed() && topic !in rings
      modifies this`rings, this`order, this`held
      ensures Backed() && held == [Held(topic, [])] + old(held) && order == [r] + old(order)
      ensures fresh(r) && fresh(r.buf) && r.topic == topic
    {
      r := new TopicRing(topic, perTopic, blank);
      ApartAdded(rings, order, r);
      order := [r] + order;
      rings := rings[topic := r];
      ghost var held0 := held;
      held := [Held(topic, [])] + held;
      forall i | 0 <= i < |order| ensures Backs(order[i], held[i], perTopic) {
        if i > 0 { assert Backs(order[i], held0[i - 1], perTopic); }
      }
    }

    /** Drops whole topics from the back until the budget is met; the front one always stays. */
    method EvictBack()
      requires Consistent()
      modifies this`bytes, this`rings, this`order, this`evicted, this`held
      ensures WithinBudget() && held == Evict(old(held), budget)
      ensures order <= old(order)
    {
      while bytes > budget
        invariant Consistent() && Evict(held, budget) == Evict(old(held), budget)
        invariant order <= old(order)
        decreases |order|
      {
        if |order| <= 1 { return; }
        DropBack();
      }
    }

    method DropBack()
      requires Consistent() && |order| > 0
      modifies this`bytes, this`rings, this`order, this`evicted, this`held
      ensures Consistent() && held == old(held)[..|old(held)| - 1] && order == old(order)[..|old(order)| - 1]
    {
      var r := order[|order| - 1];
      assert Backs(r, held[|held| - 1], perTopic);
      ApartDropped(rings, order);
      bytes := bytes - r.bytes;
      order := order[..|order| - 1];
      rings := rings - {r.topic};
      evicted := evicted + 1;
      ghost var held0 := held;
      held := held[..|held| - 1];
      forall i | 0 <= i < |order| ensures Backs(order[i], held[i], perTopic) {
        assert Backs(order[i], held0[i], perTopic);
      }
    }

    /** Records a message against its topic. */
    method Add(m: Message)
      requires Valid()
      modifies this`bytes, this`rings, this`order, this`evicted, this`held, this`created, this`ops, Footprint()
      ensures Valid() && ops == old(ops) + [Op.Add(m)]
      ensures held == Evict(Written(old(held), Kept(m), perTopic), budget)
      ensures created == old(created) + if IndexOf(old(held), m.topic) < |old(held)| then 0 else 1
      ensures forall o :: o in Footprint() ==> o in old(Footprint()) || fresh(o)
    {
      AddRuns(held, ops, m, perTopic, budget);
      WriteAndEvict(m);
      Note(Op.Add(m));
    }

    /** Takes down what has just been done. */
    ghost method Note(op: Op)
      requires WithinBudget() && held == RunHeld(ops + [op], perTopic, budget)
      modifies this`ops
      ensures Valid() && ops == old(ops) + [op]
    {
      ops := ops + [op];
    }

    method WriteAndEvict(m: Message)
      requires WithinBudget()
      modifies this`bytes, this`rings, this`order, this`evicted, this`held, this`created, Footprint()
      ensures WithinBudget() && held == Evict(Written(old(held), Kept(m), perTopic), budget)
      ensures created == old(created) + if IndexOf(old(held), m.topic) < |old(held)| then 0 else 1
      ensures forall o :: o in Footprint() ==> o in old(Footprint()) || fresh(o)
    {
      Write(Kept(m));
      EvictBack();
    }

    /** Puts a topic's ring in front, creating it when there is none, and writes a clipped message into it. */
    method Write(m: Message)
      requires Consistent() && |m.payload| <= MAX_PAYLOAD
      modifies this`bytes, this`rings, this`order, this`held, this`created, Footprint()
      ensures Consistent() && held == Written(old(held), m, perTopic)
      ensures created == old(created) + if IndexOf(old(held), m.topic) < |old(held)| then 0 else 1
      ensures forall o :: o in Footprint() ==> o in old(Footprint()) || fresh(o)
    {
      ghost var before := held;
      Front(m.topic, m);
      BoundedWritten(before, m, perTopic);
      WrittenBytes(before, m, perTopic);
      PutFront(m);
      assert held == Written(before, m, perTopic);
    }

    method Front(topic: string, blank: Message)
      requires Backed()
      modifies this`rings, this`order, this`held, this`created
      ensures Backed() && |order| > 0
      ensures held == [Held(topic, MessagesOf(old(held), topic))] + Without(old(held), topic)
      ensures created - |held| == old(created) - old(|held|)
      ensures forall q :: q in order ==> q in old(order) || (fresh(q) && fresh(q.buf))
    {
      HasRing(topic);
      if topic in rings {
        assert Listed(rings, order, topic);
        MoveToFront(rings[topic]);
      } else {
        var r := NewRing(topic, blank);
        created := created + 1;
      }
    }

    /** Writes into the ring in front. */
    method PutFront(m: Message)
      requires Backed() && |order| > 0
      modifies this`bytes, this`held, order[0], order[0].buf
      ensures Backed()
      ensures held == [Held(old(held)[0].topic, LastN(old(held)[0].messages + [m], perTopic))] + old(held)[1..]
      ensures bytes - old(bytes) == Bytes(held[0].messages) - Bytes(old(held)[0].messages)
    {
      forall i | 1 <= i < |order| ensures Differ(order[0], order[i]) && Backs(order[i], held[i], perTopic) {
      }
      assert Backs(order[0], held[0], perTopic);
      ghost var held0 := held;
      var delta := order[0].Put(m);
      bytes := bytes + delta;
      held := [Held(held[0].topic, LastN(held[0].messages + [m], perTopic))] + held[1..];
      forall i | 0 <= i < |order| ensures Backs(order[i], held[i], perTopic) {
        if i > 0 { assert Backs(order[i], held0[i], perTopic); }
      }
    }

    /** Up to `limit` messages of a topic, oldest first, or all of them when the limit is zero. Reading
        a topic counts as using it. */
    method Entries(topic: string, limit: int) returns (out: seq<Message>)
      requires Valid()
      modifies this`order, this`held, this`ops
      ensures Valid() && ops == old(ops) + [Read(topic)] && held == Touched(old(held), topic)
      ensures out == if limit > 0 then LastN(MessagesOf(old(held), topic), limit) else MessagesOf(old(held), topic)
      ensures forall o :: o in Footprint() ==> o in old(Footprint())
    {
      ReadRuns(held, ops, topic, perTopic, budget);
      out := Look(topic, limit);
      Note(Read(topic));
    }

    method Look(topic: string, limit: int) returns (out: seq<Message>)
      requires WithinBudget()
      modifies this`order, this`held
      ensures WithinBudget() && held == Touched(old(held), topic)
      ensures out == if limit > 0 then LastN(MessagesOf(old(held), topic), limit) else MessagesOf(old(held), topic)
      ensures forall o :: o in Footprint() ==> o in old(Footprint())
    {
      HasRing(topic);
      if topic !in rings { return []; }
      Touch(topic);
      out := ReadFront(limit);
    }

    /** Moves the topic just read to the front. */
    method Touch(topic: string)
      requires WithinBudget() && topic in rings
      modifies this`order, this`held
      ensures WithinBudget() && held == Touched(old(held), topic) && |order| > 0
      ensures forall q :: q in order ==> q in old(order)
    {
      ghost var before := held;
      assert Listed(rings, order, topic);
      TouchedBytes(before, topic);
      BoundedTouched(before, topic, perTopic);
      MoveToFront(rings[topic]);
    }

    /** The messages of the topic in front. */
    method ReadFront(limit: int) returns (out: seq<Message>)
      requires Backed() && |order| > 0
      ensures out == if limit > 0 then LastN(held[0].messages, limit) else held[0].messages
    {
      assert Backs(order[0], held[0], perTopic);
      out := order[0].Chronological();
      if limit > 0 && |out| > limit {
        out := out[|out| - limit..];
      }
    }

    /** The message before the latest one of a topic, when there is one. */
    method Previous(topic: string) returns (m: Option<Message>)
      requires Valid()
      modifies this`order, this`held, this`ops
      ensures Valid() && ops == old(ops) + [Read(topic)] && held == Touched(old(held), topic)
      ensures var ms := MessagesOf(old(held), topic);
        m == if |ms| < 2 then None else Some(ms[|ms| - 2])
    {
      var entries := Entries(topic, 2);
      if |entries| < 2 { return None; }
      return Some(entries[0]);
    }

    /** Drops every topic's history. */
    method Clear()
      requires Valid()
      modifies this`bytes, this`rings, this`order, this`held, this`cleared, this`ops
      ensures Valid() && ops == old(ops) + [Op.Clear]
      ensures held == [] && bytes == 0 && cleared == old(cleared) + |old(held)|
    {
      RunHeldSnoc(ops, Op.Clear, perTopic, budget);
      ops := ops + [Op.Clear];
      cleared := cleared + |held|;
      rings, order, bytes := map[], [], 0;
      held := [];
    }
  }

  lemma {:induction false} AddRuns(held: seq<Held>, ops: seq<Op>, m: Message, n: nat, budget: nat)
    requires held == RunHeld(ops, n, budget)
    ensures Evict(Written(held, Kept(m), n), budget) == RunHeld(ops + [Op.Add(m)], n, budget)
  {
    RunHeldSnoc(ops, Op.Add(m), n, budget);
  }

  lemma {:induction false} ReadRuns(held: seq<Held>, ops: seq<Op>, topic: string, n: nat, budget: nat)
    requires held == RunHeld(ops, n, budget)
    ensures Touched(held, topic) == RunHeld(ops + [Read(topic)], n, budget)
  {
    RunHeldSnoc(ops, Read(topic), n, budget);
  }

  /** Eviction keeps the longest front part that meets the budget, and always the front topic: every
      longer part of the recency order is over the budget. */
  lemma {:induction false} EvictIsShortest(held: seq<Held>, budget: nat)
    ensures var kept := Evict(held, budget);
      && kept <= held
      && (held != [] ==> kept != [] && kept[0] == held[0])
      && (TotalBytes(kept) <= budget || |kept| <= 1)
      && forall j :: |kept| < j <= |held| ==> TotalBytes(held[..j]) > budget
  {
    if TotalBytes(held) > budget && |held| > 1 {
      var rest := held[..|held| - 1];
      EvictIsShortest(rest, budget);
      assert held[..|held|] == held;
      forall j | |Evict(rest, budget)| < j <= |held| ensures TotalBytes(held[..j]) > budget {
        if j < |held| { assert rest[..j] == held[..j]; }
      }
    }
  }

  /** The topic just written is still there, in front, with the message as its last. */
  lemma WrittenSurvives(held: seq<Held>, m: Message, n: nat, budget: nat)
    requires n > 0
    ensures var after := Evict(Written(held, m, n), budget);
      |after| >= 1 && after[0].topic == m.topic && |after[0].messages| >= 1
      && after[0].messages[|after[0].messages| - 1] == m
  {
    EvictIsShortest(Written(held, m, n), budget);
  }

  lemma {:induction false} BytesBound(ms: seq<Message>)
    requires Clipped(ms)
    ensures Bytes(ms) <= |ms| * MAX_PAYLOAD
  {
    if ms != [] {
      assert forall k :: 0 <= k < |ms| - 1 ==> ms[1..][k] == ms[k + 1];
      BytesBound(ms[1..]);
    }
  }

  /** The bytes held never exceed the budget or one ring's worth of clipped payloads. */
  lemma WithinBudget(log: TopicLog)
    requires log.Valid()
    ensures log.bytes <= log.budget || log.bytes <= log.perTopic * MAX_PAYLOAD
  {
    if log.bytes > log.budget {
      if |log.held| == 1 {
        assert log.held[..|log.held| - 1] == [];
        assert TotalBytes(log.held) == Bytes(log.held[0].messages);
        assert Sized(log.held[0], log.perTopic);
        BytesBound(log.held[0].messages);
        OneRing(|log.held[0].messages|, log.perTopic);
      }
    }
  }

  lemma OneRing(k: nat, n: nat)
    requires k <= n
    ensures k * MAX_PAYLOAD <= n * MAX_PAYLOAD
  {
  }

  // What the rings stand for: per topic, everything recorded since its ring was created.

  /** A topic's whole past since its ring was created. */
  datatype Past = Past(topic: string, all: seq<Message>)

  datatype Op = Add(m: Message) | Read(topic: string) | Clear

  /** The log a reader sees when every topic shows the last n messages of its past. */
  function Shown(pasts: seq<Past>, n: nat): seq<Held> {
    seq(|pasts|, i requires 0 <= i < |pasts| => Held(pasts[i].topic, LastN(pasts[i].all, n)))
  }

  function PastIndex(pasts: seq<Past>, topic: string): (i: nat)
    ensures i <= |pasts|
  {
    if pasts == [] then 0 else if pasts[0].topic == topic then 0 else 1 + PastIndex(pasts[1..], topic)
  }

  function PastWithout(pasts: seq<Past>, topic: string): seq<Past> {
    var i := PastIndex(pasts, topic);
    if i < |pasts| then pasts[..i] + pasts[i + 1..] else pasts
  }

  function PastOf(pasts: seq<Past>, topic: string): seq<Message> {
    var i := PastIndex(pasts, topic);
    if i < |pasts| then pasts[i].all else []
  }

  /** One operation on unbounded pasts; only whole topics are ever forgotten. */
  function StepPast(pasts: seq<Past>, op: Op, n: nat, budget: nat): (r: seq<Past>)
  {
    match op
    case Add(m) =>
      var written := [Past(m.topic, PastOf(pasts, m.topic) + [Kept(m)])] + PastWithout(pasts, m.topic);
      written[..|Evict(Shown(written, n), budget)|]
    case Read(topic) =>
      if PastIndex(pasts, topic) < |pasts| then [Past(topic, PastOf(pasts, topic))] + PastWithout(pasts, topic)
        else pasts
    case Clear => []
  }

  function RunPast(ops: seq<Op>, n: nat, budget: nat): seq<Past> {
    if ops == [] then [] else StepPast(RunPast(ops[..|ops| - 1], n, budget), ops[|ops| - 1], n, budget)
  }

  /** The same operation on what the log holds. */
  function StepHeld(held: seq<Held>, op: Op, n: nat, budget: nat): seq<Held> {
    match op
    case Add(m) => Evict(Written(held, Kept(m), n), budget)
    case Read(topic) => Touched(held, topic)
    case Clear => []
  }

  function RunHeld(ops: seq<Op>, n: nat, budget: nat): seq<Held> {
    if ops == [] then [] else StepHeld(RunHeld(ops[..|ops| - 1], n, budget), ops[|ops| - 1], n, budget)
  }

  lemma {:induction false} ShownIndex(pasts: seq<Past>, topic: string, n: nat)
    ensures IndexOf(Shown(pasts, n), topic) == PastIndex(pasts, topic)
  {
    if pasts != [] {
      ShownIndex(pasts[1..], topic, n);
      assert Shown(pasts, n)[1..] == Shown(pasts[1..], n);
    }
  }

  lemma {:induction false} ShownParts(pasts: seq<Past>, topic: string, n: nat)
    ensures Shown(PastWithout(pasts, topic), n) == Without(Shown(pasts, n), topic)
    ensures LastN(PastOf(pasts, topic), n) == MessagesOf(Shown(pasts, n), topic)
  {
    ShownIndex(pasts, topic, n);
    var i := PastIndex(pasts, topic);
    if i < |pasts| { ShownCut(pasts, i, n); }
  }

  lemma {:induction false} ShownCut(pasts: seq<Past>, i: nat, n: nat)
    requires i < |pasts|
    ensures Shown(pasts[..i] + pasts[i + 1..], n) == Shown(pasts, n)[..i] + Shown(pasts, n)[i + 1..]
  {
    var cut, shown := pasts[..i] + pasts[i + 1..], Shown(pasts, n)[..i] + Shown(pasts, n)[i + 1..];
    forall k | 0 <= k < |cut| ensures Shown(cut, n)[k] == shown[k] {
      if k >= i { assert cut[k] == pasts[k + 1] && shown[k] == Shown(pasts, n)[k + 1]; }
    }
  }

  lemma ShownCons(past: Past, rest: seq<Past>, n: nat)
    ensures Shown([past] + rest, n) == [Held(past.topic, LastN(past.all, n))] + Shown(rest, n)
  {
  }

  lemma {:induction false} ShownWritten(pasts: seq<Past>, m: Message, n: nat)
    ensures Shown([Past(m.topic, PastOf(pasts, m.topic) + [m])] + PastWithout(pasts, m.topic), n) ==
            Written(Shown(pasts, n), m, n)
  {
    ShownParts(pasts, m.topic, n);
    LastNTwice(PastOf(pasts, m.topic), m, n);
    ShownCons(Past(m.topic, PastOf(pasts, m.topic) + [m]), PastWithout(pasts, m.topic), n);
  }

  lemma ShownPrefix(pasts: seq<Past>, n: nat, k: nat)
    requires k <= |pasts|
    ensures Shown(pasts[..k], n) == Shown(pasts, n)[..k]
  {
  }

  lemma {:induction false} ShownStep(pasts: seq<Past>, op: Op, n: nat, budget: nat)
    ensures Shown(StepPast(pasts, op, n, budget), n) == StepHeld(Shown(pasts, n), op, n, budget)
  {
    match op
    case Add(m) => ShownAdd(pasts, m, n, budget);
    case Read(topic) => ShownRead(pasts, topic, n, budget);
    case Clear =>
  }

  lemma {:induction false} ShownAdd(pasts: seq<Past>, m: Message, n: nat, budget: nat)
    ensures Shown(StepPast(pasts, Add(m), n, budget), n) == StepHeld(Shown(pasts, n), Add(m), n, budget)
  {
    var written := [Past(m.topic, PastOf(pasts, m.topic) + [Kept(m)])] + PastWithout(pasts, m.topic);
    ShownWritten(pasts, Kept(m), n);
    ShownPrefix(written, n, |Evict(Shown(written, n), budget)|);
  }

  lemma {:induction false} ShownRead(pasts: seq<Past>, topic: string, n: nat, budget: nat)
    ensures Shown(StepPast(pasts, Read(topic), n, budget), n) == StepHeld(Shown(pasts, n), Read(topic), n, budget)
  {
    ShownIndex(pasts, topic, n);
    ShownParts(pasts, topic, n);
    ShownCons(Past(topic, PastOf(pasts, topic)), PastWithout(pasts, topic), n);
  }

  /** After any run each topic shows the last n messages, clipped, since its ring was last created. */
  lemma {:induction false} RunShowsPast(ops: seq<Op>, n: nat, budget: nat)
    ensures RunHeld(ops, n, budget) == Shown(RunPast(ops, n, budget), n)
  {
    if ops != [] {
      RunShowsPast(ops[..|ops| - 1], n, budget);
      ShownStep(RunPast(ops[..|ops| - 1], n, budget), ops[|ops| - 1], n, budget);
    }
  }

  // What a reader sees, from the operations alone.

  /** The copy kept of a message: the first bytes of a payload too large, and a mark; all else as it came. */
  lemma KeptMeans(m: Message)
    ensures Kept(m).payload <= m.payload
    ensures |Kept(m).payload| == if |m.payload| > MAX_PAYLOAD then MAX_PAYLOAD else |m.payload|
    ensures Kept(m).truncated <==> m.truncated || |m.payload| > MAX_PAYLOAD
    ensures Kept(m) == m.(payload := Kept(m).payload, truncated := Kept(m).truncated)
  {
  }

  /** The copies of the messages that some operations add for a topic, in order. */
  function AddedFor(ops: seq<Op>, topic: string): seq<Message> {
    if ops == [] then []
    else
      var op := ops[|ops| - 1];
      AddedFor(ops[..|ops| - 1], topic) + if op.Add? && op.m.topic == topic then [Kept(op.m)] else []
  }

  predicate Holds(held: seq<Held>, topic: string) {
    IndexOf(held, topic) < |held|
  }

  /** The topic was not held after the first j operations, and has been held after each one since. */
  ghost predicate HeldSince(ops: seq<Op>, j: nat, topic: string, n: nat, budget: nat)
    requires j <= |ops|
  {
    if |ops| == j then !Holds(RunHeld(ops, n, budget), topic)
    else Holds(RunHeld(ops, n, budget), topic) && HeldSince(ops[..|ops| - 1], j, topic, n, budget)
  }

  /** In every run, a topic shows the last n of the messages added for it since it was last not held, whatever else
      was added, read or evicted in between. */
  lemma {:induction false} ShowsAddedSince(ops: seq<Op>, j: nat, topic: string, n: nat, budget: nat)
    requires n > 0 && j <= |ops| && HeldSince(ops, j, topic, n, budget)
    ensures MessagesOf(RunHeld(ops, n, budget), topic) == LastN(AddedFor(ops[j..], topic), n)
  {
    if |ops| > j {
      var front, op := ops[..|ops| - 1], ops[|ops| - 1];
      ShowsAddedSince(front, j, topic, n, budget);
      StepShows(RunHeld(front, n, budget), op, topic, n, budget);
      AddedStep(ops, j, topic, n);
    }
  }

  lemma {:induction false} AddedStep(ops: seq<Op>, j: nat, topic: string, n: nat)
    requires j < |ops|
    ensures var before, op := LastN(AddedFor(ops[..|ops| - 1][j..], topic), n), ops[|ops| - 1];
      LastN(AddedFor(ops[j..], topic), n) ==
        if op.Add? && op.m.topic == topic then LastN(before + [Kept(op.m)], n) else before
  {
    var front, op := ops[..|ops| - 1], ops[|ops| - 1];
    assert ops[j..][..|ops| - j - 1] == front[j..];
    if op.Add? && op.m.topic == topic {
      LastNTwice(AddedFor(front[j..], topic), Kept(op.m), n);
    } else {
      assert AddedFor(front[j..], topic) + [] == AddedFor(front[j..], topic);
    }
  }

  /** What one operation does to what a topic shows, as long as it stays. */
  lemma {:induction false} StepShows(held: seq<Held>, op: Op, topic: string, n: nat, budget: nat)
    requires n > 0 && Holds(StepHeld(held, op, n, budget), topic)
    ensures MessagesOf(StepHeld(held, op, n, budget), topic) ==
      if op.Add? && op.m.topic == topic then LastN(MessagesOf(held, topic) + [Kept(op.m)], n)
      else MessagesOf(held, topic)
  {
    match op
    case Add(m) =>
      var written := Written(held, Kept(m), n);
      PrefixShows(Evict(written, budget), written, topic);
      OthersShow(held, written[0], topic);
    case Read(u) =>
      if Holds(held, u) { OthersShow(held, Held(u, MessagesOf(held, u)), topic); }
    case Clear =>
  }

  lemma {:induction false} PrefixShows(a: seq<Held>, b: seq<Held>, topic: string)
    requires a <= b && Holds(a, topic)
    ensures MessagesOf(a, topic) == MessagesOf(b, topic)
  {
    var i := IndexOf(a, topic);
    assert forall k :: 0 <= k <= i ==> a[k] == b[k];
    assert IndexOf(b, topic) == i;
  }

  /** Putting a topic in front in place of where it stood leaves what the others show. */
  lemma {:induction false} OthersShow(held: seq<Held>, h: Held, topic: string)
    ensures MessagesOf([h] + Without(held, h.topic), topic) ==
      if topic == h.topic then h.messages else MessagesOf(held, topic)
  {
    var rest, at := Without(held, h.topic), IndexOf(held, h.topic);
    ConsShows(h, rest, topic);
    if topic != h.topic && at < |held| {
      CutAt(held, at);
      CutShows(held, rest, at, topic);
    }
  }

  lemma {:induction false} ConsShows(h: Held, rest: seq<Held>, topic: string)
    ensures MessagesOf([h] + rest, topic) == if topic == h.topic then h.messages else MessagesOf(rest, topic)
  {
    assert ([h] + rest)[1..] == rest;
  }

  lemma {:induction false} CutShows(held: seq<Held>, rest: seq<Held>, at: nat, topic: string)
    requires at < |held| && held[at].topic != topic && |rest| == |held| - 1
    requires forall k :: 0 <= k < |rest| ==> rest[k] == held[if k < at then k else k + 1]
    ensures MessagesOf(rest, topic) == MessagesOf(held, topic)
  {
    var i := IndexOf(held, topic);
    FirstInCut(held, rest, at, topic, i);
    FirstIsIndex(rest, topic, if i < at then i else i - 1);
  }

  lemma CutAt<T>(s: seq<T>, at: nat)
    requires at < |s|
    ensures var rest := s[..at] + s[at + 1..];
      |rest| == |s| - 1 && forall k :: 0 <= k < |rest| ==> rest[k] == s[if k < at then k else k + 1]
  {
  }

  lemma {:induction false} FirstInCut(held: seq<Held>, rest: seq<Held>, at: nat, topic: string, i: nat)
    requires IsFirst(held, topic, i) && at < |held| && held[at].topic != topic && |rest| == |held| - 1
    requires forall k :: 0 <= k < |rest| ==> rest[k] == held[if k < at then k else k + 1]
    ensures IsFirst(rest, topic, if i < at then i else i - 1)
  {
  }

  ghost predicate IsFirst(held: seq<Held>, topic: string, i: nat) {
    && i <= |held|
    && (i < |held| ==> held[i].topic == topic)
    && forall k :: 0 <= k < i ==> held[k].topic != topic
  }

  lemma {:induction false} FirstIsIndex(held: seq<Held>, topic: string, i: nat)
    requires IsFirst(held, topic, i)
    ensures IndexOf(held, topic) == i
  {
  }

  // Reading counts as using.

  /** A read leaves the recency order as it is exactly when the topic is not held or in front already. */
  lemma {:induction false} ReadChangesOrder(held: seq<Held>, topic: string)
    ensures Touched(held, topic) == held <==> IsIdle(held, topic)
  {
    var i := IndexOf(held, topic);
    if i < |held| && held[0].topic == topic {
      TouchedIsToFront(held, 0);
      assert ToFront(held, 0) == held;
    } else if i < |held| {
      assert Touched(held, topic)[0].topic == topic;
    }
  }

  function OneByte(topic: string): Message {
    Message("", topic, [0], 0, false, false, 0)
  }

  function OneByteHeld(topic: string): Held {
    Held(topic, [OneByte(topic)])
  }

  /** Eviction does not go by updates alone. With room for two topics, the one updated first is evicted for a
      third, unless it has been read in between: then it is the other one. */
  lemma {:induction false} ReadSavesTopic(a: string, b: string, c: string)
    requires a != b && b != c && c != a
    ensures var ab := [Add(OneByte(a))] + [Add(OneByte(b))];
      && RunHeld(ab + [Add(OneByte(c))], 1, 2) == [OneByteHeld(c), OneByteHeld(b)]
      && RunHeld(ab + [Read(a)] + [Add(OneByte(c))], 1, 2) == [OneByteHeld(c), OneByteHeld(a)]
  {
    var ab := [Add(OneByte(a))] + [Add(OneByte(b))];
    TwoAdded(a, b);
    Evicts(ab, OneByteHeld(b), OneByteHeld(a), c);
    RunHeldSnoc(ab, Read(a), 1, 2);
    TouchSecond(OneByteHeld(b), OneByteHeld(a));
    Evicts(ab + [Read(a)], OneByteHeld(a), OneByteHeld(b), c);
  }

  lemma {:induction false} TouchSecond(x: Held, y: Held)
    requires x.topic != y.topic
    ensures Touched([x, y], y.topic) == [y, x]
  {
    assert [x, y][1..] == [y];
    assert IndexOf([x, y], y.topic) == 1;
  }

  lemma {:induction false} TwoAdded(a: string, b: string)
    requires a != b
    ensures RunHeld([Add(OneByte(a))] + [Add(OneByte(b))], 1, 2) == [OneByteHeld(b), OneByteHeld(a)]
  {
    var first := Add(OneByte(a));
    assert [] + [first] == [first];
    RunHeldSnoc([], first, 1, 2);
    AddOneByte([], a);
    RunHeldSnoc([first], Add(OneByte(b)), 1, 2);
    AddOneByte([OneByteHeld(a)], b);
  }

  lemma {:induction false} Evicts(ops: seq<Op>, x: Held, y: Held, topic: string)
    requires RunHeld(ops, 1, 2) == [x, y] && x.topic != topic && y.topic != topic
    requires Bytes(x.messages) == 1 && Bytes(y.messages) == 1
    ensures RunHeld(ops + [Add(OneByte(topic))], 1, 2) == [OneByteHeld(topic), x]
  {
    RunHeldSnoc(ops, Add(OneByte(topic)), 1, 2);
    AddOneByte([x, y], topic);
  }

  lemma {:induction false} RunHeldSnoc(ops: seq<Op>, op: Op, n: nat, budget: nat)
    ensures RunHeld(ops + [op], n, budget) == StepHeld(RunHeld(ops, n, budget), op, n, budget)
  {
    assert (ops + [op])[..|ops|] == ops;
  }

  /** Adding a one-byte message for a new topic within a budget of two bytes keeps the two latest topics. */
  lemma {:induction false} AddOneByte(held: seq<Held>, topic: string)
    requires |held| <= 2 && IndexOf(held, topic) == |held|
    requires forall i :: 0 <= i < |held| ==> Bytes(held[i].messages) == 1
    ensures StepHeld(held, Add(OneByte(topic)), 1, 2) ==
      if |held| == 2 then [OneByteHeld(topic), held[0]] else [OneByteHeld(topic)] + held
  {
    var m := OneByte(topic);
    assert MessagesOf(held, topic) == [] && [] + [m] == [m];
    var w := [OneByteHeld(topic)] + held;
    assert Written(held, Kept(m), 1) == w;
    assert Bytes([m]) == 1;
    AllOneByte(w);
    if |held| == 2 {
      var kept := w[..2];
      assert kept == [OneByteHeld(topic), held[0]];
      AllOneByte(kept);
      assert Evict(kept, 2) == kept;
    }
  }

  lemma {:induction false} AllOneByte(held: seq<Held>)
    requires forall i :: 0 <= i < |held| ==> Bytes(held[i].messages) == 1
    ensures TotalBytes(held) == |held|
  {
    if held != [] { AllOneByte(held[..|held| - 1]); }
  }

  // In which order topics go.

  /** When a run last added to or read a topic: one more than the operation's index, zero for never. */
  function LastUse(ops: seq<Op>, topic: string): (at: nat)
    ensures at <= |ops|
  {
    if ops == [] then 0
    else if Uses(ops[|ops| - 1], topic) then |ops|
    else LastUse(ops[..|ops| - 1], topic)
  }

  predicate Uses(op: Op, topic: string) {
    match op
    case Add(m) => m.topic == topic
    case Read(t) => t == topic
    case Clear => false
  }

  /** Topics in the order of their last use, the latest in front. */
  ghost predicate ByLastUse(held: seq<Held>, ops: seq<Op>) {
    forall i, j :: 0 <= i < j < |held| ==> LastUse(ops, held[i].topic) > LastUse(ops, held[j].topic)
  }

  /** After any run the topics held stand in the order of their last use. */
  lemma {:induction false} HeldByLastUse(ops: seq<Op>, n: nat, budget: nat)
    ensures ByLastUse(RunHeld(ops, n, budget), ops)
  {
    if ops != [] {
      var front, op := ops[..|ops| - 1], ops[|ops| - 1];
      var held := RunHeld(front, n, budget);
      HeldByLastUse(front, n, budget);
      match op
      case Add(m) =>
        UsedInFront(held, ops, Held(m.topic, LastN(MessagesOf(held, m.topic) + [Kept(m)], n)));
      case Read(topic) =>
        if IndexOf(held, topic) < |held| {
          UsedInFront(held, ops, Held(topic, MessagesOf(held, topic)));
        } else {
          assert forall i :: 0 <= i < |held| ==> LastUse(ops, held[i].topic) == LastUse(front, held[i].topic);
        }
      case Clear =>
    }
  }

  /** The topic used last stands in front of the others, which keep their order. */
  lemma {:induction false} UsedInFront(held: seq<Held>, ops: seq<Op>, h: Held)
    requires ops != [] && ByLastUse(held, ops[..|ops| - 1]) && Uses(ops[|ops| - 1], h.topic)
    ensures ByLastUse([h] + Without(held, h.topic), ops)
  {
    var rest, at := Without(held, h.topic), IndexOf(held, h.topic);
    forall k | 0 <= k < |rest|
      ensures rest[k] == held[if k < at then k else k + 1] && rest[k].topic != h.topic
      ensures LastUse(ops, rest[k].topic) == LastUse(ops[..|ops| - 1], rest[k].topic)
    {
    }
  }

  /** A topic is evicted only when every topic that stays was used after it. */
  lemma {:induction false} EvictedUsedBefore(ops: seq<Op>, m: Message, n: nat, budget: nat, gone: string, kept: string)
    requires var after := RunHeld(ops + [Add(m)], n, budget);
      IndexOf(RunHeld(ops, n, budget), gone) < |RunHeld(ops, n, budget)| &&
      IndexOf(after, gone) == |after| && IndexOf(after, kept) < |after|
    ensures LastUse(ops + [Add(m)], kept) > LastUse(ops + [Add(m)], gone)
  {
    RunHeldSnoc(ops, Add(m), n, budget);
    HeldByLastUse(ops, n, budget);
    assert (ops + [Add(m)])[..|ops|] == ops;
    EvictedFromWritten(RunHeld(ops, n, budget), ops + [Add(m)], m, n, budget, gone, kept);
  }

  lemma {:induction false} EvictedFromWritten(held: seq<Held>, ops: seq<Op>, m: Message, n: nat, budget: nat,
                                              gone: string, kept: string)
    requires ops != [] && ops[|ops| - 1] == Add(m) && ByLastUse(held, ops[..|ops| - 1])
    requires var after := Evict(Written(held, Kept(m), n), budget);
      IndexOf(held, gone) < |held| && IndexOf(after, gone) == |after| && IndexOf(after, kept) < |after|
    ensures LastUse(ops, kept) > LastUse(ops, gone)
  {
    var written := Written(held, Kept(m), n);
    UsedInFront(held, ops, written[0]);
    EvictKeepsFront(written, budget);
    var i, j := KeptBeforeGone(held, written, Evict(written, budget), gone, kept);
    assert LastUse(ops, written[i].topic) > LastUse(ops, written[j].topic);
  }

  lemma {:induction false} EvictKeepsFront(held: seq<Held>, budget: nat)
    requires held != []
    ensures Evict(held, budget) != [] && Evict(held, budget)[0] == held[0]
  {
    EvictIsShortest(held, budget);
  }

  lemma {:induction false} KeptBeforeGone(held: seq<Held>, written: seq<Held>, after: seq<Held>, gone: string,
                                          kept: string) returns (i: nat, j: nat)
    requires after <= written && after != [] && written[1..] == Without(held, written[0].topic)
    requires IndexOf(held, gone) < |held| && IndexOf(after, gone) == |after| && IndexOf(after, kept) < |after|
    ensures i < j < |written| && written[i].topic == kept && written[j].topic == gone
  {
    assert after[0] == written[0];
    j := OtherStays(held, written[0].topic, gone);
    i, j := IndexOf(after, kept), j + 1;
    assert written[j] == written[1..][j - 1];
    assert forall k :: 0 <= k < |after| ==> after[k] == written[k];
  }

  lemma {:induction false} OtherStays(held: seq<Held>, topic: string, other: string) returns (j: nat)
    requires IndexOf(held, other) < |held| && other != topic
    ensures j < |Without(held, topic)| && Without(held, topic)[j].topic == other
  {
    var i, at := IndexOf(held, other), IndexOf(held, topic);
    j := i;
    if at < |held| {
      CutOut(held, at, i);
      j := if i < at then i else i - 1;
    }
  }

  lemma CutOut<T>(s: seq<T>, at: nat, i: nat)
    requires at < |s| && i < |s| && i != at
    ensures (s[..at] + s[at + 1..])[if i < at then i else i - 1] == s[i]
  {
  }

  /** A run without its reads. */
  function NoReads(ops: seq<Op>): seq<Op> {
    if ops == [] then []
    else
      var front, op := NoReads(ops[..|ops| - 1]), ops[|ops| - 1];
      if op.Read? then front else front + [op]
  }

  predicate IsIdle(held: seq<Held>, topic: string) {
    IndexOf(held, topic) == |held| || held[0].topic == topic
  }

  /** Every read of the run finds its topic absent or in front already. */
  ghost predicate ReadsAreIdle(ops: seq<Op>, n: nat, budget: nat) {
    ops == [] || (ReadsAreIdle(ops[..|ops| - 1], n, budget) && LastIsIdle(ops, n, budget))
  }

  ghost predicate LastIsIdle(ops: seq<Op>, n: nat, budget: nat)
    requires ops != []
  {
    var op := ops[|ops| - 1];
    op.Read? ==> IsIdle(RunHeld(ops[..|ops| - 1], n, budget), op.topic)
  }

  /** After every operation of the run the log is what it would be without the reads. */
  ghost predicate ReadsDoNotMatter(ops: seq<Op>, n: nat, budget: nat) {
    SameWithoutReads(ops, n, budget) && (ops == [] || ReadsDoNotMatter(ops[..|ops| - 1], n, budget))
  }

  ghost predicate SameWithoutReads(ops: seq<Op>, n: nat, budget: nat) {
    RunHeld(ops, n, budget) == RunHeld(NoReads(ops), n, budget)
  }

  /** Over any run, eviction goes by last update as long as each read finds its topic absent or in front:
      then, and only then, the log is at every moment what the run without its reads makes of it. */
  lemma {:induction false} ReadsMatter(ops: seq<Op>, n: nat, budget: nat)
    ensures ReadsDoNotMatter(ops, n, budget) <==> ReadsAreIdle(ops, n, budget)
  {
    if ops != [] {
      var front := ops[..|ops| - 1];
      ReadsMatter(front, n, budget);
      if SameWithoutReads(front, n, budget) { LastReadMatters(ops, n, budget); }
    }
  }

  /** In such a run the topics held stand in the order of their last update. */
  lemma {:induction false} HeldByLastUpdate(ops: seq<Op>, n: nat, budget: nat)
    requires ReadsAreIdle(ops, n, budget)
    ensures ByLastUse(RunHeld(ops, n, budget), NoReads(ops))
  {
    ReadsMatter(ops, n, budget);
    HeldByLastUse(NoReads(ops), n, budget);
  }

  lemma {:induction false} LastReadMatters(ops: seq<Op>, n: nat, budget: nat)
    requires ops != [] && SameWithoutReads(ops[..|ops| - 1], n, budget)
    ensures SameWithoutReads(ops, n, budget) <==> LastIsIdle(ops, n, budget)
  {
    var front, op := ops[..|ops| - 1], ops[|ops| - 1];
    if op.Read? {
      ReadChangesOrder(RunHeld(front, n, budget), op.topic);
    } else {
      RunHeldSnoc(NoReads(front), op, n, budget);
    }
  }
}

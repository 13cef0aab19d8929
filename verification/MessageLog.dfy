/** What the topic tree remembers, as a function of the messages it has accepted. */
module MessageLog {
  import opened Levels

  /** A PUBLISH. Times are integers with 0 for Go's zero time. */
  datatype Message = Message(
    connectionId: string,
    topic: string,
    payload: seq<bv8>,
    qos: nat,
    retain: bool,
    truncated: bool,
    receivedAt: int)

  /** The last known state of one topic. */
  datatype TopicValue = TopicValue(
    topic: string,
    payload: seq<bv8>,
    truncated: bool,
    size: nat,
    qos: nat,
    retain: bool,
    updatedAt: int,
    count: nat)

  const MAX_STORED_PAYLOAD := 262144
  const MAX_TOPICS := 200000

  type Path = seq<string>

  function PathOf(topic: string): Path {
    Split(topic, '/')
  }

  ghost predicate Within(p: Path, q: Path) {
    |p| <= |q| && q[..|p|] == p
  }

  function Clip(payload: seq<bv8>, cap: nat): seq<bv8> {
    if |payload| > cap then payload[..cap] else payload
  }

  /** The plain map the trie stands for: each topic's last message and how many there were. */
  ghost function LastValues(log: seq<Message>): map<string, TopicValue>
  {
    if log == [] then map[]
    else
      var before, m := LastValues(log[..|log| - 1]), log[|log| - 1];
      before[m.topic := Latest(m, if m.topic in before then before[m.topic].count else 0)]
  }

  ghost function Latest(m: Message, before: nat): TopicValue {
    TopicValue(m.topic, Clip(m.payload, MAX_STORED_PAYLOAD), |m.payload| > MAX_STORED_PAYLOAD, |m.payload|,
               m.qos, m.retain, m.receivedAt, before + 1)
  }

  /** The messages that arrived at or below a path. */
  ghost function Under(log: seq<Message>, p: Path): seq<Message>
  {
    if log == [] then []
    else
      var m := log[|log| - 1];
      Under(log[..|log| - 1], p) + if Within(p, PathOf(m.topic)) then [m] else []
  }

  /** The newest receive time in a sequence of messages, the zero time when none is later. */
  ghost function Newest(log: seq<Message>): int
  {
    if log == [] then 0
    else
      var before, at := Newest(log[..|log| - 1]), log[|log| - 1].receivedAt;
      if at > before then at else before
  }

  /** The topics seen at or below a path. */
  ghost function TopicsUnder(log: seq<Message>, p: Path): set<string> {
    set t | t in LastValues(log) && Within(p, PathOf(t))
  }

  ghost predicate Full(log: seq<Message>) {
    |LastValues(log)| >= MAX_TOPICS
  }

  /** The nodes of the trie: every prefix of a topic seen, and the root. */
  ghost predicate IsNode(log: seq<Message>, p: Path) {
    p == [] || exists i :: 0 <= i < |log| && Within(p, PathOf(log[i].topic))
  }

  /** A full tree accepts a message only where its node already exists. */
  ghost predicate Accepts(log: seq<Message>, m: Message) {
    !Full(log) || IsNode(log, PathOf(m.topic))
  }

  ghost function Recorded(log: seq<Message>, m: Message): seq<Message> {
    if Accepts(log, m) then log + [m] else log
  }

  lemma Append(log: seq<Message>, m: Message, p: Path)
    ensures LastValues(log + [m]) ==
      LastValues(log)[m.topic := Latest(m, if m.topic in LastValues(log) then LastValues(log)[m.topic].count else 0)]
    ensures Under(log + [m], p) == Under(log, p) + if Within(p, PathOf(m.topic)) then [m] else []
    ensures TopicsUnder(log + [m], p) ==
      TopicsUnder(log, p) + if Within(p, PathOf(m.topic)) then {m.topic} else {}
  {
    assert (log + [m])[..|log|] == log;
  }

  lemma {:induction false} LastValuesAppend(log: seq<Message>, m: Message)
    ensures LastValues(log + [m]) ==
      LastValues(log)[m.topic := Latest(m, if m.topic in LastValues(log) then LastValues(log)[m.topic].count else 0)]
  {
    assert (log + [m])[..|log|] == log;
  }

  lemma UnderAppend(log: seq<Message>, m: Message, p: Path)
    ensures Under(log + [m], p) == if Within(p, PathOf(m.topic)) then Under(log, p) + [m] else Under(log, p)
  {
    Append(log, m, p);
    assert Under(log, p) + [] == Under(log, p);
  }

  lemma TopicsUnderAppend(log: seq<Message>, m: Message, p: Path)
    ensures Within(p, PathOf(m.topic)) ==>
      |TopicsUnder(log + [m], p)| == |TopicsUnder(log, p)| + if m.topic in LastValues(log) then 0 else 1
    ensures !Within(p, PathOf(m.topic)) ==> TopicsUnder(log + [m], p) == TopicsUnder(log, p)
  {
    Append(log, m, p);
    if Within(p, PathOf(m.topic)) {
      assert m.topic in TopicsUnder(log, p) <==> m.topic in LastValues(log);
      if m.topic in LastValues(log) { assert TopicsUnder(log, p) + {m.topic} == TopicsUnder(log, p); }
    }
  }

  lemma NewestAppend(log: seq<Message>, m: Message)
    ensures Newest(log + [m]) == if m.receivedAt > Newest(log) then m.receivedAt else Newest(log)
  {
    assert (log + [m])[..|log|] == log;
  }

  lemma IsNodeAppend(log: seq<Message>, m: Message, p: Path)
    ensures IsNode(log + [m], p) <==> IsNode(log, p) || Within(p, PathOf(m.topic))
  {
    var log' := log + [m];
    if i :| 0 <= i < |log| && Within(p, PathOf(log[i].topic)) { assert log'[i] == log[i]; }
    if Within(p, PathOf(m.topic)) { assert log'[|log|] == m; }
  }

  /** Nothing arrived below a path that is no node. */
  lemma {:induction false} NoNode(log: seq<Message>, p: Path)
    requires !IsNode(log, p)
    ensures Under(log, p) == [] && TopicsUnder(log, p) == {}
  {
    if log != [] {
      var before, m := log[..|log| - 1], log[|log| - 1];
      assert log == before + [m];
      IsNodeAppend(before, m, p);
      NoNode(before, p);
      Append(before, m, p);
    }
  }

  /** A node other than the root has at least one topic at or below it. */
  lemma {:induction false} NodeHasTopic(log: seq<Message>, p: Path)
    requires IsNode(log, p) && p != []
    ensures |TopicsUnder(log, p)| >= 1
  {
    var before, m := log[..|log| - 1], log[|log| - 1];
    assert log == before + [m];
    IsNodeAppend(before, m, p);
    Append(before, m, p);
    if Within(p, PathOf(m.topic)) {
      assert m.topic in TopicsUnder(log, p);
      assert TopicsUnder(log, p) != {};
    } else {
      NodeHasTopic(before, p);
    }
  }

  /** Every topic is below the root. */
  lemma {:induction false} RootCovers(log: seq<Message>)
    ensures Under(log, []) == log
    ensures TopicsUnder(log, []) == LastValues(log).Keys
  {
    if log != [] {
      var before, m := log[..|log| - 1], log[|log| - 1];
      assert log == before + [m];
      RootCovers(before);
      Append(before, m, []);
    }
  }

  /** A topic's value is keyed by the topic itself and counts at least one message. */
  lemma {:induction false} ValueShape(log: seq<Message>)
    ensures forall t :: t in LastValues(log) ==> LastValues(log)[t].topic == t && LastValues(log)[t].count >= 1
    ensures forall t :: t in LastValues(log) ==> IsNode(log, PathOf(t))
  {
    if log != [] {
      var before, m := log[..|log| - 1], log[|log| - 1];
      assert log == before + [m];
      ValueShape(before);
      Append(before, m, []);
      forall t | t in LastValues(log) ensures IsNode(log, PathOf(t)) {
        IsNodeAppend(before, m, PathOf(t));
      }
    }
  }

  /** When a topic's messages arrived. */
  ghost function ArrivalsOf(log: seq<Message>, topic: string): set<nat> {
    set i: nat | i < |log| && log[i].topic == topic
  }

  /** What is remembered of a topic is its last message: the payload or, of one too large to keep, its first bytes
      and a mark; all else as it came; and how many messages there were. */
  lemma {:induction false} RemembersLast(log: seq<Message>, i: nat)
    requires i < |log| && forall j :: i < j < |log| ==> log[j].topic != log[i].topic
    ensures log[i].topic in LastValues(log)
    ensures var v, m := LastValues(log)[log[i].topic], log[i];
      && v.topic == m.topic
      && v.payload <= m.payload
      && |v.payload| == (if |m.payload| > MAX_STORED_PAYLOAD then MAX_STORED_PAYLOAD else |m.payload|)
      && (v.truncated <==> |m.payload| > MAX_STORED_PAYLOAD)
      && v.size == |m.payload| && v.qos == m.qos && v.retain == m.retain && v.updatedAt == m.receivedAt
      && v.count == |ArrivalsOf(log, m.topic)|
  {
    CountsArrivals(log, log[i].topic);
    KeepsLast(log, i);
  }

  lemma {:induction false} KeepsLast(log: seq<Message>, i: nat)
    requires i < |log| && forall j :: i < j < |log| ==> log[j].topic != log[i].topic
    ensures log[i].topic in LastValues(log)
    ensures var v := LastValues(log)[log[i].topic]; v.count >= 1 && v == Latest(log[i], v.count - 1)
  {
    var front := log[..|log| - 1];
    if i < |front| {
      assert forall j :: i < j < |front| ==> front[j] == log[j];
      KeepsLast(front, i);
    }
  }

  lemma {:induction false} CountsArrivals(log: seq<Message>, topic: string)
    ensures topic in LastValues(log) <==> ArrivalsOf(log, topic) != {}
    ensures topic in LastValues(log) ==> LastValues(log)[topic].count == |ArrivalsOf(log, topic)|
  {
    if log != [] {
      var front, n := log[..|log| - 1], |log| - 1;
      CountsArrivals(front, topic);
      assert ArrivalsOf(log, topic) == ArrivalsOf(front, topic) + if log[n].topic == topic then {n} else {};
    }
  }

  /** When the messages at or below a path arrived. */
  ghost function ArrivalsUnder(log: seq<Message>, p: Path): set<nat> {
    set i: nat | i < |log| && Within(p, PathOf(log[i].topic))
  }

  /** The messages at or below a path are those of the log whose topic has the path as its first levels. */
  lemma {:induction false} UnderIsArrivals(log: seq<Message>, p: Path)
    ensures |Under(log, p)| == |ArrivalsUnder(log, p)|
    ensures forall m :: m in Under(log, p) <==> m in log && Within(p, PathOf(m.topic))
  {
    if log != [] {
      var front, n := log[..|log| - 1], |log| - 1;
      UnderIsArrivals(front, p);
      ArrivalsStep(log, p);
      assert log == front + [log[n]];
    }
  }

  lemma {:induction false} ArrivalsStep(log: seq<Message>, p: Path)
    requires log != []
    ensures var n: nat := |log| - 1;
      ArrivalsUnder(log, p) == ArrivalsUnder(log[..n], p) + if Within(p, PathOf(log[n].topic)) then {n} else {}
  {
  }

  /** The messages each topic of a set has received, added up. */
  ghost function SumCounts(values: map<string, TopicValue>, topics: set<string>): nat
    requires topics <= values.Keys
  {
    if topics == {} then 0
    else
      var t :| t in topics;
      values[t].count + SumCounts(values, topics - {t})
  }

  lemma {:induction false} SumCountsRemove(values: map<string, TopicValue>, topics: set<string>, t: string)
    requires topics <= values.Keys && t in topics
    ensures SumCounts(values, topics) == values[t].count + SumCounts(values, topics - {t})
    decreases |topics|
  {
    var u :| u in topics && SumCounts(values, topics) == values[u].count + SumCounts(values, topics - {u});
    if u != t {
      SumCountsRemove(values, topics - {u}, t);
      SumCountsRemove(values, topics - {t}, u);
      assert topics - {u} - {t} == topics - {t} - {u};
    }
  }

  lemma {:induction false} SumCountsSame(v: map<string, TopicValue>, w: map<string, TopicValue>, topics: set<string>)
    requires topics <= v.Keys && topics <= w.Keys
    requires forall t :: t in topics ==> v[t].count == w[t].count
    ensures SumCounts(v, topics) == SumCounts(w, topics)
    decreases |topics|
  {
    if topics != {} {
      var t :| t in topics;
      SumCountsSame(v, w, topics - {t});
      SumCountsRemove(v, topics, t);
      SumCountsRemove(w, topics, t);
    }
  }

  /** The messages at or below a path are the messages of the topics there, added up. */
  lemma {:induction false} CountsAddUp(log: seq<Message>, p: Path)
    ensures TopicsUnder(log, p) <= LastValues(log).Keys
    ensures |Under(log, p)| == SumCounts(LastValues(log), TopicsUnder(log, p))
  {
    if log != [] {
      var before, m := log[..|log| - 1], log[|log| - 1];
      assert log == before + [m];
      CountsAddUp(before, p);
      Append(before, m, p);
      var v, w := LastValues(before), LastValues(log);
      var s, t := TopicsUnder(before, p), TopicsUnder(log, p);
      if Within(p, PathOf(m.topic)) {
        SumCountsRemove(w, t, m.topic);
        assert t - {m.topic} == s - {m.topic};
        SumCountsSame(v, w, s - {m.topic});
        if m.topic in s { SumCountsRemove(v, s, m.topic); }
        else { assert m.topic !in v; }
      } else {
        assert m.topic !in s && t == s;
        SumCountsSame(v, w, s);
      }
    }
  }

  /** Newest is the latest receive time, or the zero time when nothing is later than that. */
  lemma {:induction false} NewestIsLatest(log: seq<Message>)
    ensures Newest(log) >= 0 && forall i :: 0 <= i < |log| ==> log[i].receivedAt <= Newest(log)
    ensures Newest(log) == 0 || exists i :: 0 <= i < |log| && log[i].receivedAt == Newest(log)
  {
    if log != [] {
      var before := log[..|log| - 1];
      NewestIsLatest(before);
      assert forall i :: 0 <= i < |before| ==> before[i] == log[i];
      assert log[|log| - 1].receivedAt <= Newest(log);
      if log[|log| - 1].receivedAt <= Newest(before) && Newest(before) != 0 {
        var i :| 0 <= i < |before| && before[i].receivedAt == Newest(before);
        assert log[i].receivedAt == Newest(log);
      }
    }
  }

  /** A full tree stays full and its set of nodes is frozen; a refused message changes nothing. */
  lemma FrozenWhenFull(log: seq<Message>, m: Message)
    requires Full(log)
    ensures Full(Recorded(log, m))
    ensures forall p :: IsNode(Recorded(log, m), p) <==> IsNode(log, p)
    ensures !IsNode(log, PathOf(m.topic)) ==> Recorded(log, m) == log
  {
    Append(log, m, []);
    if Accepts(log, m) {
      forall p ensures IsNode(log + [m], p) <==> IsNode(log, p) {
        IsNodeAppend(log, m, p);
        if Within(p, PathOf(m.topic)) { NodePrefix(log, p, PathOf(m.topic)); }
      }
    }
  }

  lemma NodePrefix(log: seq<Message>, p: Path, q: Path)
    requires IsNode(log, q) && Within(p, q)
    ensures IsNode(log, p)
  {
    if p != [] {
      var i :| 0 <= i < |log| && Within(q, PathOf(log[i].topic));
      assert PathOf(log[i].topic)[..|p|] == PathOf(log[i].topic)[..|q|][..|p|];
      assert Within(p, PathOf(log[i].topic));
    }
  }

  /** The limit on topics is not a bound: a full tree gains a topic exactly when the message's node
      is there already without a value of its own. */
  lemma GrowsWhenFull(log: seq<Message>, m: Message)
    requires Full(log)
    ensures |LastValues(Recorded(log, m))| > |LastValues(log)| <==>
      IsNode(log, PathOf(m.topic)) && m.topic !in LastValues(log)
  {
    Append(log, m, []);
    if m.topic in LastValues(log) {
      assert LastValues(log + [m]).Keys == LastValues(log).Keys;
    } else {
      NewTopic(log, m);
    }
  }

  /** Recording a sequence of messages into an empty tree. */
  ghost function Run(ms: seq<Message>): seq<Message> {
    if ms == [] then [] else Recorded(Run(ms[..|ms| - 1]), ms[|ms| - 1])
  }

  /** The n-th of the topics a/, a/b, a/bb, ... */
  ghost function CrowdTopic(n: nat): string {
    if n == 0 then "a/" else CrowdTopic(n - 1) + "b"
  }

  function At(topic: string): Message {
    Message("", topic, [], 0, false, false, 1)
  }

  lemma {:induction false} CrowdTopicShape(n: nat)
    ensures |CrowdTopic(n)| == n + 2 && CrowdTopic(n)[..2] == "a/"
  {
    if n > 0 { CrowdTopicShape(n - 1); }
  }

  lemma CrowdPath(n: nat)
    ensures Within(["a"], PathOf(CrowdTopic(n)))
  {
    CrowdTopicShape(n);
    var t := CrowdTopic(n);
    SplitAppend("a", t[2..], '/');
    SplitPart("a", "", '/');
    assert "a" + ['/'] + t[2..] == t;
    assert PathOf(t)[..1] == ["a"];
  }

  lemma {:induction false} NewTopic(log: seq<Message>, m: Message)
    requires m.topic !in LastValues(log)
    ensures LastValues(log + [m]).Keys == LastValues(log).Keys + {m.topic}
    ensures |LastValues(log + [m])| == |LastValues(log)| + 1
  {
    LastValuesAppend(log, m);
    OneKeyMore(LastValues(log), m.topic, Latest(m, 0));
  }

  lemma OneKeyMore(values: map<string, TopicValue>, topic: string, v: TopicValue)
    requires topic !in values
    ensures values[topic := v].Keys == values.Keys + {topic}
    ensures |values[topic := v]| == |values| + 1
  {
    assert |values.Keys + {topic}| == |values.Keys| + 1;
  }

  lemma RunStep(ms: seq<Message>, m: Message)
    ensures Run(ms + [m]) == Recorded(Run(ms), m)
  {
    assert (ms + [m])[..|ms|] == ms;
  }

  /** A message for a branch of a full tree that is no topic yet. */
  ghost predicate Latecomer(log: seq<Message>, m: Message) {
    Full(log) && IsNode(log, PathOf(m.topic)) && m.topic !in LastValues(log)
  }

  ghost predicate LatecomerAt(ms: seq<Message>, i: int)
    requires 0 <= i < |ms|
  {
    Latecomer(Run(ms[..i]), ms[i])
  }

  ghost predicate HasLatecomer(ms: seq<Message>) {
    exists i :: 0 <= i < |ms| && LatecomerAt(ms, i)
  }

  /** Over any run the tree exceeds its limit on topics exactly when at some time, already full, it has
      received a message for a branch that was no topic yet. */
  lemma {:induction false} ExceededByLatecomers(ms: seq<Message>)
    ensures |LastValues(Run(ms))| > MAX_TOPICS <==> HasLatecomer(ms)
  {
    if ms != [] {
      var front, m := ms[..|ms| - 1], ms[|ms| - 1];
      ExceededByLatecomers(front);
      LatecomerStep(ms);
      TopicsStep(Run(front), m);
    }
  }

  lemma {:induction false} LatecomerStep(ms: seq<Message>)
    requires ms != []
    ensures var front, m := ms[..|ms| - 1], ms[|ms| - 1];
      HasLatecomer(ms) <==> HasLatecomer(front) || Latecomer(Run(front), m)
  {
    var front, m := ms[..|ms| - 1], ms[|ms| - 1];
    forall i | 0 <= i < |front| ensures LatecomerAt(ms, i) <==> LatecomerAt(front, i) {
      LatecomerFront(ms, i);
    }
    assert LatecomerAt(ms, |front|) <==> Latecomer(Run(front), m);
  }

  lemma {:induction false} LatecomerFront(ms: seq<Message>, i: nat)
    requires i < |ms| - 1
    ensures LatecomerAt(ms, i) <==> LatecomerAt(ms[..|ms| - 1], i)
  {
    assert ms[..i] == ms[..|ms| - 1][..i];
  }

  lemma {:induction false} TopicsStep(log: seq<Message>, m: Message)
    ensures |LastValues(log)| <= |LastValues(Recorded(log, m))| <= |LastValues(log)| + 1
    ensures Full(log) ==> (|LastValues(Recorded(log, m))| > |LastValues(log)| <==> Latecomer(log, m))
  {
    if m.topic in LastValues(log) {
      LastValuesAppend(log, m);
      assert LastValues(log + [m]).Keys == LastValues(log).Keys;
    } else {
      NewTopic(log, m);
    }
    if Full(log) { GrowsWhenFull(log, m); }
  }

  lemma RunWithRoom(ms: seq<Message>, m: Message)
    requires Run(ms) == ms && |LastValues(ms)| < MAX_TOPICS
    ensures Run(ms + [m]) == ms + [m]
  {
    RunStep(ms, m);
  }

  /** A run that fills the tree with n topics below "a". */
  lemma {:induction false} Crowd(n: nat) returns (ms: seq<Message>)
    requires n <= MAX_TOPICS
    ensures Run(ms) == ms && |LastValues(ms)| == n
    ensures forall t :: t in LastValues(ms) ==> 2 <= |t| < n + 2
    ensures n > 0 ==> IsNode(ms, ["a"])
  {
    ms := [];
    if n > 0 {
      var before := Crowd(n - 1);
      var m := At(CrowdTopic(n - 1));
      CrowdTopicShape(n - 1);
      CrowdPath(n - 1);
      NewTopic(before, m);
      RunWithRoom(before, m);
      IsNodeAppend(before, m, ["a"]);
      ms := before + [m];
    }
  }

  /** A run that ends with one topic more than the limit: the tree fills up with topics below "a",
      and then "a" itself, so far only a branch, receives a message. */
  lemma LimitExceeded() returns (ms: seq<Message>)
    ensures |LastValues(Run(ms))| == MAX_TOPICS + 1
  {
    var crowd := Crowd(MAX_TOPICS);
    RunStep(crowd, At("a"));
    SplitPart("a", "", '/');
    NewTopic(crowd, At("a"));
    ms := crowd + [At("a")];
  }
}

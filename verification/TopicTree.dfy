/** The topic tree (internal/mqttc/tree.go): a mutable trie whose every node caches totals for
    what is at or below it. */
module TopicTree {
  import opened Collections
  import opened Levels
  import opened MessageLog
  import opened Sorting
  import opened Picture
  import Topic

  class TreeNode {
    const name: string
    const topic: string
    var children: map<string, TreeNode>

    var hasValue: bool
    /** Payload, size, QoS, time and count of the last message, once there is one. */
    var value: TopicValue

    var subMessages: nat
    var subUpdatedAt: int
    var subTopics: nat

    constructor (name: string, topic: string)
      ensures this.name == name && this.topic == topic
      ensures children == map[] && Blank(Stats()) && value.topic == topic
    {
      this.name, this.topic, children := name, topic, map[];
      hasValue, value := false, TopicValue(topic, [], false, 0, 0, false, 0, 0);
      subMessages, subUpdatedAt, subTopics := 0, 0, 0;
    }

    /** Takes over a message, clipping a payload too large to keep. */
    method Keep(m: Message)
      requires value.topic == m.topic
      modifies `value
      ensures value == Latest(m, old(value.count))
    {
      var payload, truncated := m.payload, false;
      if |m.payload| > MAX_STORED_PAYLOAD {
        payload, truncated := m.payload[..MAX_STORED_PAYLOAD], true;
      }
      value := TopicValue(value.topic, payload, truncated, |m.payload|, m.qos, m.retain, m.receivedAt, value.count + 1);
    }

    ghost function Stats(): NodeStats
      reads this`hasValue, this`value, this`subMessages, this`subUpdatedAt, this`subTopics
    {
      NodeStats(hasValue, value, subMessages, subUpdatedAt, subTopics)
    }
  }

  /** What a node remembers about its own topic and about everything at or below it. */
  datatype NodeStats = NodeStats(hasValue: bool, value: TopicValue, subMessages: nat, subUpdatedAt: int, subTopics: nat)

  /** The node at path `p` holds exactly what the log says about `p`. */
  ghost predicate Counted(log: seq<Message>, p: Path, s: NodeStats) {
    && (p != [] ==> PathOf(s.value.topic) == p)
    && (s.hasValue <==> p != [] && s.value.topic in LastValues(log))
    && (if s.hasValue then s.value == LastValues(log)[s.value.topic] else s.value.count == 0)
    && s.subMessages == |Under(log, p)|
    && s.subUpdatedAt == Newest(Under(log, p))
    && s.subTopics == |TopicsUnder(log, p)|
  }

  /** What recording `m` does to the node at path `p`. */
  ghost function Bumped(s: NodeStats, p: Path, m: Message, isNew: bool): NodeStats {
    if !Within(p, PathOf(m.topic)) then s
    else
      NodeStats(
        s.hasValue || p == PathOf(m.topic),
        if p == PathOf(m.topic) then Latest(m, s.value.count) else s.value,
        s.subMessages + 1,
        if m.receivedAt > s.subUpdatedAt then m.receivedAt else s.subUpdatedAt,
        if isNew then s.subTopics + 1 else s.subTopics)
  }

  lemma BumpedFields(s: NodeStats, t: NodeStats, p: Path, m: Message, isNew: bool)
    requires t.hasValue == (s.hasValue || p == PathOf(m.topic))
    requires t.value == if p == PathOf(m.topic) then Latest(m, s.value.count) else s.value
    requires t.subTopics == s.subTopics + if Within(p, PathOf(m.topic)) && isNew then 1 else 0
    requires t.subMessages == s.subMessages + if Within(p, PathOf(m.topic)) then 1 else 0
    requires t.subUpdatedAt ==
      if Within(p, PathOf(m.topic)) && m.receivedAt > s.subUpdatedAt then m.receivedAt else s.subUpdatedAt
    ensures t == Bumped(s, p, m, isNew)
  {
    assert p == PathOf(m.topic) ==> Within(p, PathOf(m.topic));
  }

  /** The cached totals follow the log through one more message. */
  lemma BumpedCounts(log: seq<Message>, p: Path, s: NodeStats, m: Message)
    requires Counted(log, p, s)
    ensures Counted(log + [m], p, Bumped(s, p, m, m.topic !in LastValues(log)))
  {
    BumpedTotals(log, p, m);
    Append(log, m, p);
    if p != [] && p != PathOf(m.topic) {
      assert s.value.topic != m.topic;
    }
    if p != [] && p == PathOf(m.topic) {
      SplitInjective(s.value.topic, m.topic, '/');
    }
  }

  lemma BumpedTotals(log: seq<Message>, p: Path, m: Message)
    ensures if Within(p, PathOf(m.topic)) then
              && |Under(log + [m], p)| == |Under(log, p)| + 1
              && Newest(Under(log + [m], p)) ==
                   (if m.receivedAt > Newest(Under(log, p)) then m.receivedAt else Newest(Under(log, p)))
              && |TopicsUnder(log + [m], p)| == |TopicsUnder(log, p)| + (if m.topic in LastValues(log) then 0 else 1)
            else
              && Under(log + [m], p) == Under(log, p)
              && TopicsUnder(log + [m], p) == TopicsUnder(log, p)
  {
    UnderAppend(log, m, p);
    NewestAppend(Under(log, p), m);
    TopicsUnderAppend(log, m, p);
  }

  ghost predicate Blank(s: NodeStats) {
    !s.hasValue && s.value.count == 0 && s.subMessages == 0 && s.subUpdatedAt == 0 && s.subTopics == 0
  }

  /** A node created on the way to a topic starts out counting nothing. */
  lemma BlankCounts(log: seq<Message>, p: Path, s: NodeStats)
    requires !IsNode(log, p) && PathOf(s.value.topic) == p && Blank(s)
    ensures Counted(log, p, s)
  {
    NoNode(log, p);
    ValueShape(log);
  }

  /** All nodes together say what the log says. */
  ghost predicate Summary(log: seq<Message>, stats: map<Path, NodeStats>) {
    forall p {:trigger Counted(log, p, stats[p])} :: p in stats ==> Counted(log, p, stats[p])
  }

  ghost predicate NodesOf(log: seq<Message>, paths: set<Path>) {
    forall p {:trigger IsNode(log, p)} :: p in paths <==> IsNode(log, p)
  }

  ghost predicate Consistent(log: seq<Message>, stats: map<Path, NodeStats>, topics: nat, messages: nat, full: bool) {
    && NodesOf(log, stats.Keys)
    && Summary(log, stats)
    && topics == |LastValues(log)|
    && messages == |log|
    && full == Full(log)
  }

  ghost function LinksOf(nodes: map<Path, TreeNode>): map<Path, map<string, TreeNode>>
    reads nodes.Values`children
  {
    map p | p in nodes :: nodes[p].children
  }

  ghost function StatsOf(nodes: map<Path, TreeNode>): map<Path, NodeStats>
    reads nodes.Values`hasValue, nodes.Values`value, nodes.Values`subMessages, nodes.Values`subUpdatedAt,
      nodes.Values`subTopics
  {
    map p | p in nodes :: nodes[p].Stats()
  }

  lemma NodeAdded(nodes: map<Path, TreeNode>, q: Path, child: TreeNode)
    ensures LinksOf(nodes[q := child]) == LinksOf(nodes)[q := child.children]
    ensures StatsOf(nodes[q := child]) == StatsOf(nodes)[q := child.Stats()]
    ensures nodes[q := child].Values <= nodes.Values + {child}
  {
  }

  lemma NothingRecorded(s: NodeStats)
    requires Blank(s)
    ensures Consistent([], map[[] := s], 0, 0, false)
  {
    assert forall p {:trigger IsNode([], p)} :: IsNode([], p) <==> p == [];
    assert Counted([], [], s);
  }

  /** The nodes of `before` are all still there, and what is new is blank and on the way to `levels`. */
  ghost predicate Grown(before: map<Path, NodeStats>, after: map<Path, NodeStats>, levels: Path) {
    && before.Keys <= after.Keys
    && forall p {:trigger GrownAt(before, after, levels, p)} :: p in after ==> GrownAt(before, after, levels, p)
  }

  ghost predicate GrownAt(before: map<Path, NodeStats>, after: map<Path, NodeStats>, levels: Path, p: Path)
    requires p in after
  {
    if p in before then after[p] == before[p]
    else Within(p, levels) && Blank(after[p]) && PathOf(after[p].value.topic) == p
  }

  lemma GrownAdd(before: map<Path, NodeStats>, grown: map<Path, NodeStats>, levels: Path, p: Path, s: NodeStats)
    requires Grown(before, grown, levels) && p !in grown
    requires Within(p, levels) && Blank(s) && PathOf(s.value.topic) == p
    ensures Grown(before, grown[p := s], levels)
  {
    var after := grown[p := s];
    forall q | q in after ensures GrownAt(before, after, levels, q) {
      if q != p { assert GrownAt(before, grown, levels, q); }
    }
  }

  lemma GrownSame(before: map<Path, NodeStats>, after: map<Path, NodeStats>, levels: Path)
    requires Grown(before, after, levels) && before.Keys == after.Keys
    ensures before == after
  {
    forall p | p in after ensures after[p] == before[p] { assert GrownAt(before, after, levels, p); }
  }

  ghost predicate AllBumped(before: map<Path, NodeStats>, after: map<Path, NodeStats>, m: Message, isNew: bool) {
    && before.Keys == after.Keys
    && forall p {:trigger Bumped(before[p], p, m, isNew)} :: p in before ==> after[p] == Bumped(before[p], p, m, isNew)
  }

  lemma SummaryAfterWalk(log: seq<Message>, before: map<Path, NodeStats>, walked: map<Path, NodeStats>, levels: Path)
    requires NodesOf(log, before.Keys) && Summary(log, before) && Grown(before, walked, levels)
    ensures Summary(log, walked)
  {
    forall p | p in walked ensures Counted(log, p, walked[p]) {
      assert GrownAt(before, walked, levels, p);
      if p in before { assert Counted(log, p, before[p]); }
      if p !in before { BlankCounts(log, p, walked[p]); }
    }
  }

  lemma NodesAfter(log: seq<Message>, before: map<Path, NodeStats>, walked: map<Path, NodeStats>, m: Message)
    requires NodesOf(log, before.Keys) && Grown(before, walked, PathOf(m.topic))
    requires forall k :: 0 <= k <= |PathOf(m.topic)| ==> PathOf(m.topic)[..k] in walked
    ensures NodesOf(log + [m], walked.Keys)
  {
    forall p ensures p in walked.Keys <==> IsNode(log + [m], p) {
      IsNodeAppend(log, m, p);
      if p in walked { assert GrownAt(before, walked, PathOf(m.topic), p); }
    }
  }

  /** The leaf is new exactly when the topic has not been seen. */
  lemma LeafIsNew(log: seq<Message>, walked: map<Path, NodeStats>, m: Message)
    requires Summary(log, walked) && PathOf(m.topic) in walked
    ensures walked[PathOf(m.topic)].value.topic == m.topic
    ensures walked[PathOf(m.topic)].hasValue <==> m.topic in LastValues(log)
  {
    var p := PathOf(m.topic);
    assert Counted(log, p, walked[p]);
    SplitInjective(walked[p].value.topic, m.topic, '/');
  }

  /** Walking to the leaf and bumping the counters on the way accounts for exactly one more message. */
  lemma ConsistentAfter(log: seq<Message>, before: map<Path, NodeStats>, walked: map<Path, NodeStats>,
                        after: map<Path, NodeStats>, m: Message, topics: nat, messages: nat, full: bool)
    requires Consistent(log, before, topics, messages, full) && Grown(before, walked, PathOf(m.topic))
    requires forall k :: 0 <= k <= |PathOf(m.topic)| ==> PathOf(m.topic)[..k] in walked
    requires PathOf(m.topic) in walked && AllBumped(walked, after, m, !walked[PathOf(m.topic)].hasValue)
    ensures var isNew := !walked[PathOf(m.topic)].hasValue;
      var topics' := if isNew then topics + 1 else topics;
      Consistent(log + [m], after, topics', messages + 1, full || (isNew && topics' >= MAX_TOPICS))
  {
    SummaryAfterWalk(log, before, walked, PathOf(m.topic));
    NodesAfter(log, before, walked, m);
    LeafIsNew(log, walked, m);
    Append(log, m, []);
    var isNew := !walked[PathOf(m.topic)].hasValue;
    forall p | p in after ensures Counted(log + [m], p, after[p]) {
      assert Counted(log, p, walked[p]) && after[p] == Bumped(walked[p], p, m, isNew);
      BumpedCounts(log, p, walked[p], m);
    }
  }

  class Tree {
    var root: TreeNode
    var topics: nat
    var messages: nat
    var full: bool

    /** The messages accepted since the tree was last empty. */
    ghost var log: seq<Message>
    /** Every node, by the levels that lead to it. */
    ghost var nodes: map<Path, TreeNode>

    ghost predicate Shape()
      reads this, nodes.Values
    {
      [] in nodes && nodes[[]] == root && IsTrie(nodes, Links())
    }

    /** Each node's children, by path. */
    ghost function Links(): map<Path, map<string, TreeNode>>
      reads this`nodes, nodes.Values`children
    {
      LinksOf(nodes)
    }

    ghost function Stats(): map<Path, NodeStats>
      reads this`nodes, nodes.Values`hasValue, nodes.Values`value, nodes.Values`subMessages,
        nodes.Values`subUpdatedAt, nodes.Values`subTopics
    {
      StatsOf(nodes)
    }

    ghost predicate Valid()
      reads this, nodes.Values
    {
      Shape() && Consistent(log, Stats(), topics, messages, full)
    }

    /** An empty tree. */
    constructor ()
      ensures Valid() && log == [] && fresh(nodes.Values)
    {
      root := new TreeNode("", "");
      topics, messages, full := 0, 0, false;
      log := [];
      new;
      nodes := map[[] := root];
      JustRoot();
    }

    /** A blank root alone is a tree. */
    lemma JustRoot()
      requires nodes == map[[] := root] && root.children == map[] && Blank(root.Stats())
      requires log == [] && topics == 0 && messages == 0 && !full
      ensures Valid()
    {
      assert Links() == map[[] := map[]] && Stats() == map[[] := root.Stats()];
      RootAlone(root);
      NothingRecorded(root.Stats());
    }

    /** The nodes at or below a path that are topics themselves. */
    ghost function ValueNodes(p: Path): set<Path>
      reads this, nodes.Values
    {
      set q | q in nodes && Within(p, q) && nodes[q].hasValue
    }

    /** In every state the cached totals are the totals over the nodes below: the number of topics, the
        sum of their messages and the latest time any of them was received. Only the root may be
        without a topic, so no message leaves half a path behind. */
    lemma TotalsAreSums(p: Path)
      requires Valid() && p in nodes
      ensures nodes[p].subTopics == |ValueNodes(p)|
      ensures nodes[p].subMessages == SumCounts(LastValues(log), TopicsUnder(log, p))
      ensures nodes[p].subUpdatedAt == Newest(Under(log, p))
      ensures p != [] ==> nodes[p].subTopics >= 1
      ensures topics == root.subTopics && messages == root.subMessages
    {
      assert Counted(log, p, Stats()[p]) && Counted(log, [], Stats()[[]]);
      CountsAddUp(log, p);
      RootCovers(log);
      if p != [] { assert IsNode(log, p); NodeHasTopic(log, p); }
      PathsSize(TopicsUnder(log, p));
      ValueNodesAreTopics(p);
    }

    lemma ValueNodesAreTopics(p: Path)
      requires Valid()
      ensures ValueNodes(p) == PathsOf(TopicsUnder(log, p))
    {
      forall q | q in ValueNodes(p) ensures q in PathsOf(TopicsUnder(log, p)) {
        assert Counted(log, q, Stats()[q]);
      }
      ValueShape(log);
      forall t | t in TopicsUnder(log, p) ensures PathOf(t) in ValueNodes(p) {
        assert IsNode(log, PathOf(t));
        assert Counted(log, PathOf(t), Stats()[PathOf(t)]);
        SplitInjective(t, nodes[PathOf(t)].value.topic, '/');
      }
    }

    /** Adds an empty node under an existing one. */
    static method AddChild(ghost ns: map<Path, TreeNode>, ghost p: Path, cur: TreeNode, level: string, topic: string)
      returns (child: TreeNode)
      requires IsTrie(ns, LinksOf(ns)) && p in ns && ns[p] == cur && level !in cur.children
      requires PathOf(topic) == p + [level]
      modifies cur`children
      ensures fresh(child) && p + [level] !in ns
      ensures IsTrie(ns[p + [level] := child], LinksOf(ns[p + [level] := child]))
      ensures Blank(child.Stats()) && child.value.topic == topic
      ensures StatsOf(ns[p + [level] := child]) == old(StatsOf(ns))[p + [level] := child.Stats()]
    {
      ghost var q, links, stats := p + [level], LinksOf(ns), StatsOf(ns);
      child := new TreeNode(level, topic);
      TrieAdd(ns, links, p, level, child);
      LinkChild(ns, p, cur, level, child);
      assert StatsOf(ns) == stats;
      NodeAdded(ns, q, child);
      assert StatsOf(ns[q := child]) == stats[q := child.Stats()];
    }

    /** Hangs a node under another; nothing else changes. */
    static method LinkChild(ghost ns: map<Path, TreeNode>, ghost p: Path, cur: TreeNode, level: string, child: TreeNode)
      requires Injective(ns) && p in ns && ns[p] == cur && child !in ns.Values
      modifies cur`children
      ensures LinksOf(ns) == old(LinksOf(ns))[p := old(cur.children)[level := child]]
      ensures StatsOf(ns) == old(StatsOf(ns))
      ensures child.children == old(child.children)
    {
      cur.children := cur.children[level := child];
    }

    /** One level down, creating the child when it is missing. */
    static method Descend(ghost ns: map<Path, TreeNode>, ghost before: map<Path, NodeStats>, levels: Path,
                          topic: string,
                          i: nat, cur: TreeNode)
      returns (next: TreeNode, ghost grown: map<Path, TreeNode>)
      requires IsTrie(ns, LinksOf(ns)) && Grown(before, StatsOf(ns), levels)
      requires levels == PathOf(topic) && i < |levels| && levels[..i] in ns && cur == ns[levels[..i]]
      modifies cur`children
      ensures IsTrie(grown, LinksOf(grown)) && Grown(before, StatsOf(grown), levels)
      ensures Extends(ns, grown) && levels[..i + 1] in grown && next == grown[levels[..i + 1]]
      ensures forall n :: n in grown.Values ==> n in ns.Values || fresh(n)
      ensures levels[i] in old(cur.children) ==> grown == ns && LinksOf(ns) == old(LinksOf(ns))
    {
      ghost var p, q, stats := levels[..i], levels[..i + 1], StatsOf(ns);
      assert q == p + [levels[i]];
      ChildLinked(ns, LinksOf(ns), p, levels[i]);
      if levels[i] !in cur.children {
        JoinPrefix(topic, i + 1);
        assert Within(q, levels);
        next := AddChild(ns, p, cur, levels[i], Join(levels[..i + 1], '/'));
        GrownAdd(before, stats, levels, q, next.Stats());
        grown := ns[q := next];
      } else {
        next, grown := cur.children[levels[i]], ns;
      }
    }

    /** Walks to the node of a topic, creating what is missing, and returns the nodes passed.
        A full tree creates nothing and gives up at the first missing level. */
    method WalkOrCreate(levels: Path, topic: string) returns (ok: bool, path: seq<TreeNode>)
      requires Shape() && levels == PathOf(topic)
      modifies this`nodes, nodes.Values`children
      ensures Shape() && Grown(old(Stats()), Stats(), levels)
      ensures forall n :: n in nodes.Values ==> n in old(nodes.Values) || fresh(n)
      ensures ok == (!full || old(levels in nodes))
      ensures !ok ==> nodes == old(nodes) && Stats() == old(Stats()) && Links() == old(Links())
      ensures ok ==> OnPath(nodes, path, levels, |levels|)
    {
      ghost var grown;
      assert levels[..|levels|] == levels;
      ok, path, grown := Grow(root, full, nodes, levels, topic);
      Adopt(grown);
    }

    ghost method Adopt(ns: map<Path, TreeNode>)
      requires IsTrie(ns, LinksOf(ns)) && [] in ns && ns[[]] == root
      modifies this`nodes
      ensures nodes == ns && Links() == old(LinksOf(ns)) && Stats() == old(StatsOf(ns))
      ensures Shape()
    {
      nodes := ns;
    }

    /** The walk itself, from the root of some nodes. */
    static method Grow(root: TreeNode, full: bool, ghost ns: map<Path, TreeNode>, levels: Path, topic: string)
      returns (ok: bool, path: seq<TreeNode>, ghost grown: map<Path, TreeNode>)
      requires [] in ns && ns[[]] == root && IsTrie(ns, LinksOf(ns)) && levels == PathOf(topic)
      modifies ns.Values`children
      ensures IsTrie(grown, LinksOf(grown)) && Grown(old(StatsOf(ns)), StatsOf(grown), levels) && Extends(ns, grown)
      ensures forall n :: n in grown.Values ==> n in ns.Values || fresh(n)
      ensures ok == (!full || levels in ns)
      ensures !ok ==> grown == ns && StatsOf(ns) == old(StatsOf(ns)) && LinksOf(ns) == old(LinksOf(ns))
      ensures ok ==> OnPath(grown, path, levels, |levels|)
    {
      ghost var before, links := StatsOf(ns), LinksOf(ns);
      var cur := root;
      path, grown := [cur], ns;
      for i := 0 to |levels|
        invariant IsTrie(grown, LinksOf(grown)) && Grown(before, StatsOf(grown), levels) && Extends(ns, grown)
        invariant forall n :: n in grown.Values ==> n in ns.Values || fresh(n)
        invariant OnPath(grown, path, levels, i) && cur == path[i]
        invariant full ==> grown == ns && LinksOf(ns) == links
      {
        assert cur == grown[levels[..i]] && cur.children == LinksOf(grown)[levels[..i]];
        if full && levels[i] !in cur.children {
          Unreachable(ns, links, levels, i);
          GrownSame(before, StatsOf(ns), levels);
          return false, path, ns;
        }
        ghost var passed := grown;
        cur, grown := Descend(grown, before, levels, topic, i, cur);
        OnPathExtend(passed, grown, path, levels, i);
        path := path + [cur];
      }
      ok := true;
      assert levels[..|levels|] == levels;
    }

    /** Folds a message into the tree. */
    method Record(m: Message)
      requires Valid()
      modifies this, nodes.Values
      ensures Valid() && log == Recorded(old(log), m)
      ensures forall n :: n in nodes.Values ==> n in old(nodes.Values) || fresh(n)
    {
      var levels := Split(m.topic, '/');
      ghost var before := Stats();
      assert IsNode(log, levels) <==> levels in nodes;
      var ok, path := WalkOrCreate(levels, m.topic);
      if ok {
        RecordAt(before, levels, path, m);
      }
    }

    /** Counts a message whose nodes are all in place. */
    method RecordAt(ghost before: map<Path, NodeStats>, levels: Path, path: seq<TreeNode>, m: Message)
      requires Shape() && Consistent(log, before, topics, messages, full)
      requires levels == PathOf(m.topic) && Grown(before, Stats(), levels) && OnPath(nodes, path, levels, |levels|)
      modifies this, nodes.Values
      ensures log == old(log) + [m] && nodes == old(nodes)
      ensures Valid()
    {
      ghost var walked, links := Stats(), Links();
      assert levels[..|levels|] == levels;
      assert levels in nodes && nodes[levels].value.topic == m.topic by {
        SummaryAfterWalk(log, before, walked, levels);
        LeafIsNew(log, walked, m);
      }
      Store(levels, path, m);
      ConsistentAfter(old(log), before, walked, Stats(), m, old(topics), old(messages), old(full));
      assert Links() == links;
    }

    /** Writes a message into the node at the end of a path and counts it in every node passed. */
    method Store(levels: Path, path: seq<TreeNode>, m: Message)
      requires levels == PathOf(m.topic)
      requires Injective(nodes) && OnPath(nodes, path, levels, |levels|)
      requires levels in nodes && nodes[levels].value.topic == m.topic
      modifies this`topics, this`full, this`messages, this`log, nodes.Values
      ensures log == old(log) + [m]
      ensures forall p :: p in nodes ==> nodes[p].children == old(nodes[p].children)
      ensures AllBumped(old(Stats()), Stats(), m, old(!nodes[levels].hasValue))
      ensures messages == old(messages) + 1
      ensures topics == old(topics) + if old(nodes[levels].hasValue) then 0 else 1
      ensures full == (old(full) || (old(!nodes[levels].hasValue) && topics >= MAX_TOPICS))
    {
      ghost var before, isNew := Stats(), !nodes[levels].hasValue;
      Update(levels, path, m);
      ghost var after := Stats();
      forall p | p in before ensures after[p] == Bumped(before[p], p, m, isNew) {
        BumpedFields(before[p], after[p], p, m, isNew);
      }
    }

    /** The same, field by field. */
    method Update(levels: Path, path: seq<TreeNode>, m: Message)
      requires Injective(nodes) && OnPath(nodes, path, levels, |levels|)
      requires levels in nodes && nodes[levels].value.topic == m.topic
      modifies this`topics, this`full, this`messages, this`log, nodes.Values
      ensures log == old(log) + [m] && messages == old(messages) + 1
      ensures topics == old(topics) + if old(nodes[levels].hasValue) then 0 else 1
      ensures full == (old(full) || (old(!nodes[levels].hasValue) && topics >= MAX_TOPICS))
      ensures forall p :: p in nodes ==>
        && nodes[p].children == old(nodes[p].children)
        && nodes[p].hasValue == (old(nodes[p].hasValue) || p == levels)
        && nodes[p].value == (if p == levels then Latest(m, old(nodes[p].value.count)) else old(nodes[p].value))
      ensures forall p :: p in nodes ==>
        && nodes[p].subTopics == old(nodes[p].subTopics) + (if Within(p, levels) &&
          old(!nodes[levels].hasValue) then 1 else 0)
        && nodes[p].subMessages == old(nodes[p].subMessages) + (if Within(p, levels) then 1 else 0)
        && nodes[p].subUpdatedAt ==
             if Within(p, levels) && m.receivedAt > old(nodes[p].subUpdatedAt) then m.receivedAt
               else old(nodes[p].subUpdatedAt)
    {
      assert levels[..|levels|] == levels;
      EnsureTopic(levels, path);
      Deliver(levels, path, m);
    }

    /** Counts the node at the end of a path as a topic unless it is one already. */
    method EnsureTopic(levels: Path, path: seq<TreeNode>)
      requires Injective(nodes) && OnPath(nodes, path, levels, |levels|) && levels in nodes
      modifies this`topics, this`full, nodes.Values`hasValue, nodes.Values`subTopics
      ensures topics == old(topics) + if old(nodes[levels].hasValue) then 0 else 1
      ensures full == (old(full) || (old(!nodes[levels].hasValue) && topics >= MAX_TOPICS))
      ensures forall p :: p in nodes ==> nodes[p].hasValue == (old(nodes[p].hasValue) || p == levels)
      ensures forall p :: p in nodes ==>
        nodes[p].subTopics == old(nodes[p].subTopics) + if Within(p, levels) &&
          old(!nodes[levels].hasValue) then 1 else 0
    {
      assert levels[..|levels|] == levels;
      if !path[|levels|].hasValue {
        CountTopic(levels, path);
      }
    }

    /** Stores a message in the node at the end of a path and counts it in the nodes passed. */
    method Deliver(levels: Path, path: seq<TreeNode>, m: Message)
      requires Injective(nodes) && OnPath(nodes, path, levels, |levels|)
      requires levels in nodes && nodes[levels].value.topic == m.topic
      modifies this`messages, this`log, nodes.Values`value, nodes.Values`subMessages, nodes.Values`subUpdatedAt
      ensures messages == old(messages) + 1 && log == old(log) + [m]
      ensures forall p :: p in nodes ==>
        nodes[p].value == if p == levels then Latest(m, old(nodes[p].value.count)) else old(nodes[p].value)
      ensures forall p :: p in nodes ==>
        nodes[p].subMessages == old(nodes[p].subMessages) + if Within(p, levels) then 1 else 0
      ensures forall p :: p in nodes ==>
        nodes[p].subUpdatedAt ==
          if Within(p, levels) && m.receivedAt > old(nodes[p].subUpdatedAt) then m.receivedAt
            else old(nodes[p].subUpdatedAt)
    {
      var cur := path[|levels|];
      assert levels[..|levels|] == levels && cur == nodes[levels];
      assert forall p :: p in nodes && p != levels ==> nodes[p] != cur;
      cur.Keep(m);
      CountMessage(levels, path, m);
    }

    /** The node at the end of a path becomes a topic: one more at or below every node passed. */
    method CountTopic(levels: Path, path: seq<TreeNode>)
      requires Injective(nodes) && OnPath(nodes, path, levels, |levels|)
      requires levels in nodes && !nodes[levels].hasValue
      modifies this`topics, this`full, nodes.Values`hasValue, nodes.Values`subTopics
      ensures topics == old(topics) + 1 && full == (old(full) || topics >= MAX_TOPICS)
      ensures forall p :: p in nodes ==> nodes[p].hasValue == (old(nodes[p].hasValue) || p == levels)
      ensures forall p :: p in nodes ==>
        nodes[p].subTopics == old(nodes[p].subTopics) + if Within(p, levels) then 1 else 0
    {
      assert levels[..|levels|] == levels;
      path[|levels|].hasValue := true;
      topics := topics + 1;
      if topics >= MAX_TOPICS { full := true; }
      BumpTopics(levels, path);
    }

    method BumpTopics(ghost levels: Path, path: seq<TreeNode>)
      requires Injective(nodes) && OnPath(nodes, path, levels, |levels|)
      modifies nodes.Values`subTopics
      ensures forall p :: p in nodes ==>
        nodes[p].subTopics == old(nodes[p].subTopics) + if Within(p, levels) then 1 else 0
    {
      for i := 0 to |path|
        invariant forall p :: p in nodes ==>
          nodes[p].subTopics == old(nodes[p].subTopics) + if Within(p, levels) && |p| < i then 1 else 0
      {
        path[i].subTopics := path[i].subTopics + 1;
      }
    }

    /** One more message in the tree, and at or below every node of a path. */
    method CountMessage(ghost levels: Path, path: seq<TreeNode>, m: Message)
      requires Injective(nodes) && OnPath(nodes, path, levels, |levels|)
      modifies this`messages, this`log, nodes.Values`subMessages, nodes.Values`subUpdatedAt
      ensures messages == old(messages) + 1 && log == old(log) + [m]
      ensures forall p :: p in nodes ==>
        nodes[p].subMessages == old(nodes[p].subMessages) + if Within(p, levels) then 1 else 0
      ensures forall p :: p in nodes ==>
        nodes[p].subUpdatedAt ==
          if Within(p, levels) && m.receivedAt > old(nodes[p].subUpdatedAt) then m.receivedAt
            else old(nodes[p].subUpdatedAt)
    {
      BumpMessages(levels, path, m.receivedAt);
      messages := messages + 1;
      log := log + [m];
    }

    method BumpMessages(ghost levels: Path, path: seq<TreeNode>, at: int)
      requires Injective(nodes) && OnPath(nodes, path, levels, |levels|)
      modifies nodes.Values`subMessages, nodes.Values`subUpdatedAt
      ensures forall p :: p in nodes ==>
        nodes[p].subMessages == old(nodes[p].subMessages) + if Within(p, levels) then 1 else 0
      ensures forall p :: p in nodes ==>
        nodes[p].subUpdatedAt ==
          if Within(p, levels) && at > old(nodes[p].subUpdatedAt) then at else old(nodes[p].subUpdatedAt)
    {
      for i := 0 to |path|
        invariant forall p :: p in nodes ==>
          nodes[p].subMessages == old(nodes[p].subMessages) + if Within(p, levels) && |p| < i then 1 else 0
        invariant forall p :: p in nodes ==>
          nodes[p].subUpdatedAt ==
            if Within(p, levels) && |p| < i && at > old(nodes[p].subUpdatedAt) then at else old(nodes[p].subUpdatedAt)
      {
        path[i].subMessages := path[i].subMessages + 1;
        if at > path[i].subUpdatedAt { path[i].subUpdatedAt := at; }
      }
    }

    /** Empties the tree. */
    method Clear()
      modifies this
      ensures Valid() && log == [] && fresh(nodes.Values)
    {
      root := new TreeNode("", "");
      topics, messages, full := 0, 0, false;
      log, nodes := [], map[[] := root];
      JustRoot();
    }

    /** The node of a topic, or of the root for the empty topic. */
    method Find(topic: string) returns (n: TreeNode?)
      requires Valid()
      ensures topic == "" ==> n == root
      ensures topic != "" ==> n == if PathOf(topic) in nodes then nodes[PathOf(topic)] else null
    {
      if topic == "" { return root; }
      var levels := Split(topic, '/');
      var cur := root;
      for i := 0 to |levels|
        invariant levels[..i] in nodes && nodes[levels[..i]] == cur
      {
        Unreachable(nodes, Links(), levels, i);
        ChildLinked(nodes, Links(), levels[..i], levels[i]);
        assert levels[..i + 1] == levels[..i] + [levels[i]];
        if levels[i] !in cur.children { return null; }
        cur := cur.children[levels[i]];
      }
      assert levels[..|levels|] == levels;
      return cur;
    }

    /** A lookup in the tree is a lookup in the plain map of last values. */
    method Value(topic: string) returns (v: Option<TopicValue>)
      requires Valid()
      ensures v == if topic != "" && topic in LastValues(log) then Some(LastValues(log)[topic]) else None
    {
      var n := Find(topic);
      ValueShape(log);
      if n == null { return None; }
      if topic != "" {
        assert Counted(log, PathOf(topic), Stats()[PathOf(topic)]);
        SplitInjective(n.value.topic, topic, '/');
      } else {
        assert Counted(log, [], Stats()[[]]);
      }
      if !n.hasValue { return None; }
      return Some(n.value);
    }

    /** A node's own value, if its topic matches. */
    method OwnValue(n: TreeNode, ghost p: Path, filter: string) returns (vs: seq<TopicValue>)
      requires Valid() && p in nodes && nodes[p] == n
      ensures Collected(log, filter, Covered(log, p, {}), vs)
    {
      vs := [];
      assert Counted(log, p, Stats()[p]);
      CoveredNone(log, p, n.value.topic, n.hasValue);
      if n.hasValue {
        var ok := Topic.MatchFilter(filter, n.value.topic);
        if ok { vs := [n.value]; }
      }
    }

    /** Collects the values of the matching topics at or below a node. */
    method Walk(n: TreeNode, ghost p: Path, filter: string) returns (vs: seq<TopicValue>)
      requires Valid() && p in nodes && nodes[p] == n
      ensures Collected(log, filter, TopicsUnder(log, p), vs)
      decreases set q | q in nodes && Within(p, q)
    {
      vs := OwnValue(n, p, filter);
      var todo := n.children.Keys;
      ghost var done := {};
      while todo != {}
        invariant todo !! done && todo + done == n.children.Keys
        invariant Collected(log, filter, Covered(log, p, done), vs)
      {
        var l :| l in todo;
        assert ChildAt(nodes, Links(), p, l);
        WithinChild(p, l, nodes.Keys);
        var sub := Walk(n.children[l], p + [l], filter);
        CollectedStep(log, filter, p, done, l, vs, sub);
        vs := vs + sub;
        todo, done := todo - {l}, done + {l};
      }
      forall l | IsNode(log, p + [l]) ensures l in done { ChildLinked(nodes, Links(), p, l); }
      CoveredAll(log, p, done);
    }

    /** The last values of the topics matching a filter, newest first, at most `limit` of them. */
    method Match(filter: string, limit: int) returns (out: seq<TopicValue>)
      requires Valid()
      ensures MatchAnswer(log, filter, if limit <= 0 then 500 else limit, out)
    {
      var cap := if limit <= 0 then 500 else limit;
      var vs := Walk(root, [], filter);
      RootCovers(log);
      var keyed := seq(|vs|, i requires 0 <= i < |vs| => (vs[i].updatedAt, vs[i]));
      var sorted := SortDescending(keyed);
      SortedIsAnswer(log, filter, vs, keyed, sorted, cap);
      out := seq(if |sorted| > cap then cap else |sorted|, i requires 0 <= i < |sorted| => sorted[i].1);
    }

    /** A node's children, loudest first. */
    method LoudestFirst(parent: TreeNode, ghost p: Path) returns (kids: seq<TreeNode>)
      requires Valid() && p in nodes && nodes[p] == parent
      ensures ChildList(nodes.Keys, Loudness(), p, KidPaths(p, kids))
      ensures forall i :: 0 <= i < |kids| ==> IsKid(p, kids[i])
    {
      var items := KeyedChildren(parent, p);
      var sorted := SortDescending(items);
      kids := seq(|sorted|, i requires 0 <= i < |sorted| => sorted[i].1);
      SortedKids(p, items, sorted, kids);
    }

    method KeyedChildren(parent: TreeNode, ghost p: Path) returns (items: seq<(int, TreeNode)>)
      requires Valid() && p in nodes && nodes[p] == parent
      ensures forall l :: l in parent.children ==> (parent.children[l].subMessages, parent.children[l]) in items
      ensures forall i :: 0 <= i < |items| ==> IsKid(p, items[i].1) && items[i].0 == items[i].1.subMessages
      ensures NoRepeats(items)
    {
      items := [];
      var todo := parent.children.Keys;
      ghost var names := [];
      while todo != {}
        invariant todo <= parent.children.Keys
        invariant KeyedBy(parent.children, names, items)
        invariant forall l {:trigger l in names} :: l in names <==> l in parent.children && l !in todo
      {
        var l :| l in todo;
        var child := parent.children[l];
        KeyedMore(parent.children, names, items, l);
        items := items + [(child.subMessages, child)];
        names := names + [l];
        todo := todo - {l};
      }
      KeyedKids(p, parent, names, items);
    }

    lemma KeyedKids(p: Path, parent: TreeNode, names: seq<string>, items: seq<(int, TreeNode)>)
      requires Shape() && p in nodes && nodes[p] == parent
      requires KeyedBy(parent.children, names, items) && forall l :: l in parent.children ==> l in names
      ensures forall l :: l in parent.children ==> (parent.children[l].subMessages, parent.children[l]) in items
      ensures forall i :: 0 <= i < |items| ==> IsKid(p, items[i].1) && items[i].0 == items[i].1.subMessages
      ensures NoRepeats(items)
    {
      forall i | 0 <= i < |items| ensures IsKid(p, items[i].1) && items[i].1.name == names[i] {
        KidNamed(p, names[i]);
      }
      forall l | l in parent.children ensures (parent.children[l].subMessages, parent.children[l]) in items {
        var i :| 0 <= i < |names| && names[i] == l;
        assert items[i] == (parent.children[l].subMessages, parent.children[l]);
      }
    }

    ghost function Loudness(): map<Path, nat>
      reads this, nodes.Values
    {
      map p | p in nodes :: nodes[p].subMessages
    }

    ghost predicate IsKid(p: Path, n: TreeNode)
      reads this
    {
      p + [n.name] in nodes && nodes[p + [n.name]] == n
    }

    lemma KidNamed(p: Path, l: string)
      requires Shape() && p in nodes && l in nodes[p].children
      ensures IsKid(p, nodes[p].children[l]) && nodes[p].children[l].name == l
    {
      assert ChildAt(nodes, Links(), p, l);
      assert Linked(nodes, Links(), p + [l]);
    }

    lemma SortedKids(p: Path, items: seq<(int, TreeNode)>, sorted: seq<(int, TreeNode)>, kids: seq<TreeNode>)
      requires Shape() && p in nodes
      requires forall l :: l in nodes[p].children ==> (nodes[p].children[l].subMessages, nodes[p].children[l]) in items
      requires forall i :: 0 <= i < |items| ==> IsKid(p, items[i].1) && items[i].0 == items[i].1.subMessages
      requires NoRepeats(items) && Descending(sorted) && NoRepeats(sorted)
      requires forall x :: x in items <==> x in sorted
      requires |kids| == |sorted| && forall i :: 0 <= i < |kids| ==> kids[i] == sorted[i].1
      ensures ChildList(nodes.Keys, Loudness(), p, KidPaths(p, kids))
      ensures forall i :: 0 <= i < |kids| ==> IsKid(p, kids[i])
    {
      var kp := KidPaths(p, kids);
      forall i | 0 <= i < |kids|
        ensures kp[i] in nodes && IsKid(p, kids[i]) && sorted[i].0 == Loudness()[kp[i]] && IsChild(p, kp[i])
      {
        assert sorted[i] in items;
      }
      forall i, j | 0 <= i < j < |kp| ensures kp[i] != kp[j] {
        assert sorted[i] != sorted[j];
      }
      forall q | q in nodes && IsChild(p, q) ensures q in kp {
        var l := q[|p|];
        assert q == p + [l];
        ChildLinked(nodes, Links(), p, l);
        KidNamed(p, l);
        var x := (nodes[p].children[l].subMessages, nodes[p].children[l]);
        assert x in sorted;
        var i :| 0 <= i < |sorted| && sorted[i] == x;
        assert kp[i] == q;
      }
    }

    /** One node of the picture. */
    function Draw(n: TreeNode, depth: nat, maxDepth: nat): GraphNode
      reads n
    {
      GraphNode(n.name, n.topic, depth, n.subMessages, n.subTopics, |n.children|, n.subUpdatedAt,
                depth == maxDepth && |n.children| > 0)
    }

    ghost predicate Pictures(out: seq<GraphNode>, drawn: seq<Path>, maxDepth: nat)
      reads this, nodes.Values
    {
      |out| == |drawn|
      && forall i :: 0 <= i < |out| ==> drawn[i] in nodes && out[i] == Draw(nodes[drawn[i]], |drawn[i]|, maxDepth)
    }

    ghost predicate Refer(level: seq<TreeNode>, paths: seq<Path>)
      reads this
    {
      |level| == |paths| && forall i :: 0 <= i < |level| ==> paths[i] in nodes && nodes[paths[i]] == level[i]
    }

    lemma ReferAppend(a: seq<TreeNode>, pa: seq<Path>, b: seq<TreeNode>, pb: seq<Path>)
      requires Refer(a, pa) && Refer(b, pb)
      ensures Refer(a + b, pa + pb)
    {
    }

    /** Draws as many of a parent's children, loudest first, as the budget allows. */
    method DrawChildren(kids: seq<TreeNode>, ghost kp: seq<Path>, depth: nat, maxDepth: nat, budget: nat,
                        out0: seq<GraphNode>, ghost drawn: seq<Path>)
      returns (out: seq<GraphNode>, truncated: bool)
      requires Refer(kids, kp) && Pictures(out0, drawn, maxDepth) && |out0| <= budget
      requires forall i :: 0 <= i < |kp| ==> |kp[i]| == depth
      ensures |out0| <= |out| <= budget && |out| - |out0| <= |kids|
      ensures Pictures(out, drawn + kp[..|out| - |out0|], maxDepth)
      ensures truncated == (|out| - |out0| < |kids|)
      ensures truncated ==> |out| == budget
    {
      out, truncated := out0, false;
      for i := 0 to |kids|
        invariant |out| == |out0| + i <= budget && !truncated
        invariant Pictures(out, drawn + kp[..i], maxDepth)
      {
        if |out| >= budget { truncated := true; break; }
        out := out + [Draw(kids[i], depth, maxDepth)];
        assert drawn + kp[..i + 1] == drawn + kp[..i] + [kp[i]];
      }
    }

    /** Draws one parent's children, and says which ones made it into the picture. */
    method DrawParent(kids: seq<TreeNode>, ghost kp: seq<Path>, ghost lp: seq<Path>, ghost k: nat,
                      depth: nat, maxDepth: nat, budget: nat,
                      out0: seq<GraphNode>, ghost drawn: seq<Path>, ghost added: seq<Path>)
      returns (out: seq<GraphNode>, taken: seq<TreeNode>, ghost more: seq<Path>)
      requires k < |lp| && depth >= 1 && LevelNodes(nodes.Keys, lp, depth - 1) && Ranked(Loudness(), lp)
      requires Refer(kids, kp) && ChildList(nodes.Keys, Loudness(), lp[k], kp)
      requires Pictures(out0, drawn + added, maxDepth) && |out0| <= budget
      requires LevelPart(nodes.Keys, Loudness(), lp, k, added)
      ensures |out0| <= |out| <= budget && Pictures(out, drawn + (added + more), maxDepth)
      ensures LevelDrawn(nodes.Keys, Loudness(), lp, added + more)
      ensures |out| < budget ==> LevelPart(nodes.Keys, Loudness(), lp, k + 1, added + more)
      ensures Refer(taken, more) && |more| == |out| - |out0|
    {
      var cut: bool;
      out, cut := DrawChildren(kids, kp, depth, maxDepth, budget, out0, drawn + added);
      taken := kids[..|out| - |out0|];
      more := kp[..|out| - |out0|];
      TakeKids(nodes.Keys, Loudness(), lp, k, kp, added, |more|);
      DrawnJoin(drawn, added, more);
    }

    /** The same, loudest child first. */
    method DrawFamily(parent: TreeNode, ghost lp: seq<Path>, ghost k: nat, depth: nat, maxDepth: nat, budget: nat,
                      out0: seq<GraphNode>, ghost drawn: seq<Path>, ghost added: seq<Path>)
      returns (out: seq<GraphNode>, taken: seq<TreeNode>, ghost more: seq<Path>)
      requires Valid() && k < |lp| && depth >= 1 && LevelNodes(nodes.Keys, lp, depth - 1) && nodes[lp[k]] == parent
      requires Ranked(Loudness(), lp)
      requires Pictures(out0, drawn + added, maxDepth) && |out0| <= budget
      requires LevelPart(nodes.Keys, Loudness(), lp, k, added)
      ensures |out0| <= |out| <= budget && Pictures(out, drawn + (added + more), maxDepth)
      ensures LevelDrawn(nodes.Keys, Loudness(), lp, added + more)
      ensures |out| < budget ==> LevelPart(nodes.Keys, Loudness(), lp, k + 1, added + more)
      ensures Refer(taken, more) && |more| == |out| - |out0|
    {
      var kids := LoudestFirst(parent, lp[k]);
      out, taken, more := DrawParent(kids, KidPaths(lp[k], kids), lp, k, depth, maxDepth, budget, out0, drawn, added);
    }

    /** Draws one level of the namespace: the children of `level`, parent by parent. */
    method DrawLevel(level: seq<TreeNode>, ghost lp: seq<Path>, depth: nat, maxDepth: nat, budget: nat,
                     out0: seq<GraphNode>, ghost drawn: seq<Path>)
      returns (out: seq<GraphNode>, next: seq<TreeNode>, truncated: bool, ghost added: seq<Path>)
      requires Valid() && Refer(level, lp) && depth >= 1 && LevelNodes(nodes.Keys, lp, depth - 1)
      requires Ranked(Loudness(), lp)
      requires Pictures(out0, drawn, maxDepth) && |out0| <= budget && budget > 0
      ensures |out| <= budget && Pictures(out, drawn + added, maxDepth)
      ensures LevelDrawn(nodes.Keys, Loudness(), lp, added)
      ensures |out| < budget ==> Complete(nodes.Keys, lp, added)
      ensures |added| == |out| - |out0|
      ensures if depth < maxDepth then Refer(next, added) else next == []
      ensures truncated == (|level| > 0 && |out| == budget)
    {
      ghost var loud := Loudness();
      out, next, truncated, added := out0, [], false, [];
      assert drawn + [] == drawn;
      for k := 0 to |level|
        invariant |out| <= budget && Pictures(out, drawn + added, maxDepth) && !truncated
        invariant k > 0 ==> |out| < budget
        invariant |added| == |out| - |out0|
        invariant Loudness() == loud && LevelPart(nodes.Keys, loud, lp, k, added)
        invariant if depth < maxDepth then Refer(next, added) else next == []
      {
        ghost var more;
        var taken;
        out, taken, more := DrawFamily(level[k], lp, k, depth, maxDepth, budget, out, drawn, added);
        if depth < maxDepth {
          ReferAppend(next, added, taken, more);
          next := next + taken;
        }
        added := added + more;
        if |out| >= budget { return out, next, true, added; }
      }
      PartIsDrawn(nodes.Keys, loud, lp, added);
    }

    /** The namespace down to a depth, breadth-first and within a budget. */
    method Graph(maxDepth: int, maxNodes: int) returns (out: seq<GraphNode>, newest: int, truncated: bool)
      requires Valid()
      ensures GraphAnswer(out, truncated, if maxDepth <= 0 then 3 else maxDepth, if maxNodes <= 0 then 500
        else maxNodes)
      ensures newest == Newest(log)
    {
      var deepest := if maxDepth <= 0 then 3 else maxDepth;
      var budget := if maxNodes <= 0 then 500 else maxNodes;
      ghost var drawn, lp, depth;
      AllPrefixClosed();
      out, truncated, drawn, lp, depth := DrawLevels(deepest, budget);
      GraphDone(out, drawn, lp, depth, deepest, truncated);
      assert Counted(log, [], Stats()[[]]);
      RootCovers(log);
      newest := root.subUpdatedAt;
    }

    /** Where the drawing stands, with the nodes of `level` to be expanded next. */
    ghost predicate Drawing(out: seq<GraphNode>, drawn: seq<Path>, level: seq<TreeNode>, lp: seq<Path>, depth: nat,
                            deepest: nat, budget: nat, truncated: bool)
      reads this, nodes.Values
    {
      && |out| <= budget && truncated == (|out| == budget)
      && Pictures(out, drawn, deepest) && Refer(level, lp)
      && Progress(nodes.Keys, Loudness(), drawn, lp, depth, deepest, truncated)
    }

    /** Draws one more level and accounts for it. */
    method DrawNext(level: seq<TreeNode>, ghost lp0: seq<Path>, depth: nat, deepest: nat, budget: nat,
                    out0: seq<GraphNode>, ghost drawn0: seq<Path>, truncated: bool)
      returns (out: seq<GraphNode>, next: seq<TreeNode>, cut: bool, ghost drawn: seq<Path>, ghost lp: seq<Path>)
      requires Valid() && PrefixClosed(nodes.Keys) && |level| > 0 && 1 <= depth <= deepest && budget > 0
      requires Drawing(out0, drawn0, level, lp0, depth, deepest, budget, truncated)
      ensures Drawing(out, drawn, next, lp, depth + 1, deepest, budget, truncated || cut)
    {
      ghost var added, loud := [], Loudness();
      out, next, cut, added := DrawLevel(level, lp0, depth, deepest, budget, out0, drawn0);
      assert Loudness() == loud;
      GraphStep(nodes.Keys, loud, drawn0, lp0, depth, added, deepest, truncated, cut);
      drawn, lp := drawn0 + added, if depth < deepest then added else [];
    }

    method DrawLevels(deepest: nat, budget: nat)
      returns (out: seq<GraphNode>, truncated: bool, ghost drawn: seq<Path>, ghost lp: seq<Path>, ghost reached: nat)
      requires Valid() && PrefixClosed(nodes.Keys) && deepest > 0 && budget > 0
      ensures |out| <= budget && truncated == (|out| == budget)
      ensures Pictures(out, drawn, deepest) && (reached <= deepest ==> lp == [])
      ensures Progress(nodes.Keys, Loudness(), drawn, lp, reached, deepest, truncated)
    {
      out, truncated, drawn := [], false, [];
      var level := [root];
      lp := [[]];
      ProgressStart(nodes.Keys, Loudness(), deepest);
      var depth := 1;
      while depth <= deepest && |level| > 0
        invariant 1 <= depth <= deepest + 1
        invariant Drawing(out, drawn, level, lp, depth, deepest, budget, truncated)
        decreases deepest - depth
      {
        var cut;
        out, level, cut, drawn, lp := DrawNext(level, lp, depth, deepest, budget, out, drawn, truncated);
        truncated := truncated || cut;
        depth := depth + 1;
      }
      reached := depth;
    }

    lemma AllPrefixClosed()
      requires Shape()
      ensures PrefixClosed(nodes.Keys)
    {
      forall q | q in nodes && q != [] ensures HasParent(nodes.Keys, q) { assert Linked(nodes, Links(), q); }
    }

    /** The paths of the nodes drawn. */
    static ghost function DrawnPaths(out: seq<GraphNode>): seq<Path> {
      seq(|out|, i requires 0 <= i < |out| => PathOf(out[i].topic))
    }

    /** A picture of the namespace: each entry shows the node of its topic with the totals of the log;
        the entries are distinct, level by level, each after its parent, siblings loudest first; the
        picture is cut exactly when the budget is used up, and a cut picture leaves out only nodes
        that are as deep as any drawn, no louder than their drawn siblings, and outranked by every
        drawn node of their depth: where the paths part, the drawn one's branch is at least as loud. */
    ghost predicate GraphAnswer(out: seq<GraphNode>, truncated: bool, maxDepth: nat, budget: nat)
      requires Valid()
      reads this, nodes.Values
    {
      var drawn := DrawnPaths(out);
      && |out| <= budget
      && Drawn(nodes.Keys, drawn, maxDepth) && LoudestSiblingFirst(Loudness(), drawn)
      && (forall i :: 0 <= i < |out| ==> drawn[i] in nodes && Shows(out[i], drawn[i], maxDepth))
      && (truncated <==> |out| == budget)
      && (!truncated ==> DrawnTo(nodes.Keys, drawn, maxDepth))
      && FairlyOmitted(nodes.Keys, Loudness(), drawn, maxDepth)
      && BusiestKept(nodes.Keys, Loudness(), drawn, maxDepth)
    }

    ghost predicate Shows(g: GraphNode, p: Path, maxDepth: nat)
      requires p in nodes
      reads this, nodes.Values
    {
      && p != [] && g.depth == |p| && g.name == p[|p| - 1]
      && g.messages == |Under(log, p)|
      && g.topics == |TopicsUnder(log, p)|
      && g.updatedAt == Newest(Under(log, p))
      && g.children == |nodes[p].children|
      && (g.truncated <==> |p| == maxDepth && exists l :: p + [l] in nodes)
    }

    lemma DrawShows(p: Path, maxDepth: nat)
      requires Valid() && p in nodes && p != []
      ensures Shows(Draw(nodes[p], |p|, maxDepth), p, maxDepth) && PathOf(nodes[p].topic) == p
    {
      assert Linked(nodes, Links(), p);
      assert Counted(log, p, Stats()[p]);
      if |nodes[p].children| > 0 {
        var l :| l in nodes[p].children;
        assert ChildAt(nodes, Links(), p, l);
      }
      if l :| p + [l] in nodes { ChildLinked(nodes, Links(), p, l); }
    }

    lemma GraphDone(out: seq<GraphNode>, drawn: seq<Path>, lp: seq<Path>, depth: nat, deepest: nat, truncated: bool)
      requires Valid() && PrefixClosed(nodes.Keys) && Pictures(out, drawn, deepest)
      requires Progress(nodes.Keys, Loudness(), drawn, lp, depth, deepest, truncated)
      requires depth <= deepest ==> lp == []
      ensures DrawnPaths(out) == drawn
      ensures Drawn(nodes.Keys, drawn, deepest) && LoudestSiblingFirst(Loudness(), drawn)
      ensures forall i :: 0 <= i < |out| ==> Shows(out[i], drawn[i], deepest)
      ensures !truncated ==> DrawnTo(nodes.Keys, drawn, deepest)
      ensures FairlyOmitted(nodes.Keys, Loudness(), drawn, deepest)
      ensures BusiestKept(nodes.Keys, Loudness(), drawn, deepest)
    {
      forall i | 0 <= i < |out| ensures Shows(out[i], drawn[i], deepest) && PathOf(out[i].topic) == drawn[i] {
        DrawShows(drawn[i], deepest);
      }
      WholePicture(nodes.Keys, Loudness(), drawn, lp, depth, deepest, truncated);
    }
  }

  ghost function PathsOf(topics: set<string>): set<Path> {
    set t | t in topics :: PathOf(t)
  }

  lemma {:induction false} PathsSize(topics: set<string>)
    ensures |PathsOf(topics)| == |topics|
  {
    if topics != {} {
      var t :| t in topics;
      PathsSize(topics - {t});
      assert PathOf(t) !in PathsOf(topics - {t}) by {
        forall u | u in topics && PathOf(u) == PathOf(t) ensures u == t { SplitInjective(u, t, '/'); }
      }
      assert PathsOf(topics) == PathsOf(topics - {t}) + {PathOf(t)};
    }
  }

  datatype GraphNode = GraphNode(
    name: string,
    topic: string,
    depth: nat,
    messages: nat,
    topics: nat,
    children: nat,
    updatedAt: int,
    truncated: bool)

  ghost function KidPaths(p: Path, kids: seq<TreeNode>): seq<Path> {
    seq(|kids|, i requires 0 <= i < |kids| => p + [kids[i].name])
  }

  /** What matching a filter answers: current values of matching topics, each once, newest first;
      anything left out was squeezed out by the limit and is no newer than what is there. */
  ghost predicate MatchAnswer(log: seq<Message>, filter: string, limit: nat, out: seq<TopicValue>) {
    && |out| <= limit
    && (forall i :: 0 <= i < |out| ==> IsMatch(log, filter, out[i]))
    && (forall i, j :: 0 <= i < j < |out| ==> out[i].topic != out[j].topic && out[i].updatedAt >= out[j].updatedAt)
    && (forall t :: t in LastValues(log) && Topic.Matches(filter, t) ==>
          LastValues(log)[t] in out || (|out| == limit && NoNewer(out, LastValues(log)[t].updatedAt)))
  }

  ghost predicate NoNewer(out: seq<TopicValue>, at: int) {
    forall i :: 0 <= i < |out| ==> out[i].updatedAt >= at
  }

  lemma {:induction false} SortedIsAnswer(log: seq<Message>, filter: string, vs: seq<TopicValue>,
                                          keyed: seq<(int, TopicValue)>, sorted: seq<(int, TopicValue)>, cap: nat)
    requires Collected(log, filter, LastValues(log).Keys, vs)
    requires |keyed| == |vs| && forall i :: 0 <= i < |vs| ==> keyed[i] == (vs[i].updatedAt, vs[i])
    requires Descending(sorted) && (NoRepeats(keyed) ==> NoRepeats(sorted)) && forall x :: x in sorted <==> x in keyed
    ensures MatchAnswer(log, filter, cap,
      seq(if |sorted| > cap then cap else |sorted|, i requires 0 <= i < |sorted| => sorted[i].1))
  {
    var out := seq(if |sorted| > cap then cap else |sorted|, i requires 0 <= i < |sorted| => sorted[i].1);
    assert NoRepeats(keyed);
    forall i | 0 <= i < |sorted| ensures IsMatch(log, filter, sorted[i].1) && sorted[i].0 == sorted[i].1.updatedAt {
      assert sorted[i] in keyed;
    }
    forall i, j | 0 <= i < j < |out| ensures out[i].topic != out[j].topic && out[i].updatedAt >= out[j].updatedAt {
      assert sorted[i] != sorted[j];
    }
    forall t | t in LastValues(log) && Topic.Matches(filter, t)
      ensures LastValues(log)[t] in out || (|out| == cap && NoNewer(out, LastValues(log)[t].updatedAt))
    {
      var k :| 0 <= k < |vs| && vs[k] == LastValues(log)[t];
      assert keyed[k] in sorted;
      KeptOrCut(sorted, out, keyed[k]);
    }
  }

  /** Of a descending list cut at the end, each element is kept or no newer than what is kept. */
  lemma KeptOrCut(sorted: seq<(int, TopicValue)>, out: seq<TopicValue>, x: (int, TopicValue))
    requires Descending(sorted) && x in sorted && |out| <= |sorted|
    requires forall i :: 0 <= i < |out| ==> out[i] == sorted[i].1 && out[i].updatedAt == sorted[i].0
    ensures x.1 in out || (|out| < |sorted| && NoNewer(out, x.0))
  {
    var i :| 0 <= i < |sorted| && sorted[i] == x;
    if i < |out| { assert out[i] == x.1; }
  }

  /** `vs` holds the last value of every topic of the set that matches the filter, each once. */
  ghost predicate Collected(log: seq<Message>, filter: string, topics: set<string>, vs: seq<TopicValue>) {
    && (forall i :: 0 <= i < |vs| ==> vs[i].topic in topics && IsMatch(log, filter, vs[i]))
    && (forall t :: t in topics && t in LastValues(log) && Topic.Matches(filter, t) ==> LastValues(log)[t] in vs)
    && (forall i, j :: 0 <= i < j < |vs| ==> vs[i].topic != vs[j].topic)
  }

  ghost predicate IsMatch(log: seq<Message>, filter: string, v: TopicValue) {
    v.topic in LastValues(log) && v == LastValues(log)[v.topic] && Topic.Matches(filter, v.topic)
  }

  lemma CollectedAppend(log: seq<Message>, filter: string, s: set<string>, t: set<string>, vs: seq<TopicValue>,
                        ws: seq<TopicValue>)
    requires Collected(log, filter, s, vs) && Collected(log, filter, t, ws) && s !! t
    ensures Collected(log, filter, s + t, vs + ws)
  {
  }

  /** The topics at a node and below those of its children already visited. */
  ghost function Covered(log: seq<Message>, p: Path, done: set<string>): set<string> {
    set t | t in TopicsUnder(log, p) && (|PathOf(t)| == |p| || PathOf(t)[|p|] in done)
  }

  lemma CoveredNone(log: seq<Message>, p: Path, topic: string, hasValue: bool)
    requires p != [] ==> PathOf(topic) == p
    requires hasValue <==> p != [] && topic in LastValues(log)
    ensures Covered(log, p, {}) == if hasValue then {topic} else {}
  {
    forall t | t in Covered(log, p, {}) ensures t == topic && hasValue {
      assert PathOf(t) == p;
      SplitInjective(t, topic, '/');
    }
  }

  lemma WithinStep(p: Path, l: string, q: Path)
    ensures Within(p + [l], q) <==> Within(p, q) && |q| > |p| && q[|p|] == l
  {
    if |q| > |p| { assert q[..|p| + 1] == q[..|p|] + [q[|p|]]; }
    if Within(p + [l], q) { assert q[..|p|] == (p + [l])[..|p|] == p; }
  }

  lemma WithinChild(p: Path, l: string, paths: set<Path>)
    requires p in paths
    ensures (set q | q in paths && Within(p + [l], q)) < (set q | q in paths && Within(p, q))
  {
    var below, within := set q | q in paths && Within(p + [l], q), set q | q in paths && Within(p, q);
    forall q | q in below ensures q in within { WithinStep(p, l, q); }
    assert p in within && p !in below;
  }

  lemma CoveredStep(log: seq<Message>, p: Path, done: set<string>, l: string)
    requires l !in done
    ensures Covered(log, p, done + {l}) == Covered(log, p, done) + TopicsUnder(log, p + [l])
    ensures Covered(log, p, done) !! TopicsUnder(log, p + [l])
  {
    forall t { WithinStep(p, l, PathOf(t)); }
  }

  lemma CollectedStep(log: seq<Message>, filter: string, p: Path, done: set<string>, l: string,
                      vs: seq<TopicValue>, sub: seq<TopicValue>)
    requires l !in done
    requires Collected(log, filter, Covered(log, p, done), vs) && Collected(log, filter, TopicsUnder(log, p + [l]), sub)
    ensures Collected(log, filter, Covered(log, p, done + {l}), vs + sub)
  {
    CoveredStep(log, p, done, l);
    CollectedAppend(log, filter, Covered(log, p, done), TopicsUnder(log, p + [l]), vs, sub);
  }

  lemma CoveredAll(log: seq<Message>, p: Path, done: set<string>)
    requires forall l :: IsNode(log, p + [l]) ==> l in done
    ensures Covered(log, p, done) == TopicsUnder(log, p)
  {
    ValueShape(log);
    forall t | t in TopicsUnder(log, p) ensures t in Covered(log, p, done) {
      var q := PathOf(t);
      if |q| > |p| {
        WithinStep(p, q[|p|], q);
        NodePrefix(log, p + [q[|p|]], q);
      }
    }
  }

  /** The items are children under the given names, each name once, keyed by how loud they are. */
  ghost predicate KeyedBy(children: map<string, TreeNode>, names: seq<string>, items: seq<(int, TreeNode)>)
    reads children.Values
  {
    && NoRepeats(names) && |names| == |items|
    && forall i :: 0 <= i < |names| ==>
      names[i] in children && items[i] == (children[names[i]].subMessages, children[names[i]])
  }

  lemma KeyedMore(children: map<string, TreeNode>, names: seq<string>, items: seq<(int, TreeNode)>, l: string)
    requires KeyedBy(children, names, items) && l in children && l !in names
    ensures KeyedBy(children, names + [l], items + [(children[l].subMessages, children[l])])
  {
  }

  /** The node objects form a trie: one object per path, linked from its parent under its last level. */
  ghost predicate IsTrie(nodes: map<Path, TreeNode>, links: map<Path, map<string, TreeNode>>) {
    && nodes.Keys == links.Keys
    && Injective(nodes)
    && (forall p {:trigger Linked(nodes, links, p)} :: p in nodes && p != [] ==> Linked(nodes, links, p))
    && (forall p, l {:trigger ChildAt(nodes, links, p, l)} :: p in nodes && l in links[p] ==>
      ChildAt(nodes, links, p, l))
  }

  ghost predicate ChildAt(nodes: map<Path, TreeNode>, links: map<Path, map<string, TreeNode>>, p: Path, l: string)
    requires p in links && l in links[p]
  {
    p + [l] in nodes && nodes[p + [l]] == links[p][l]
  }

  ghost predicate Linked(nodes: map<Path, TreeNode>, links: map<Path, map<string, TreeNode>>, p: Path)
    requires p != [] && p in nodes
  {
    && p[..|p| - 1] in links && p[|p| - 1] in links[p[..|p| - 1]]
    && links[p[..|p| - 1]][p[|p| - 1]] == nodes[p]
    && nodes[p].name == p[|p| - 1] && PathOf(nodes[p].topic) == p
  }

  lemma RootAlone(root: TreeNode)
    ensures IsTrie(map[[] := root], map[[] := map[]])
  {
  }

  lemma TrieAdd(nodes: map<Path, TreeNode>, links: map<Path, map<string, TreeNode>>, p: Path, level: string,
                child: TreeNode)
    requires IsTrie(nodes, links) && p in nodes && level !in links[p] && child !in nodes.Values
    requires child.name == level && PathOf(child.topic) == p + [level]
    ensures p + [level] !in nodes
    ensures IsTrie(nodes[p + [level] := child], links[p := links[p][level := child]][p + [level] := map[]])
  {
    var q := p + [level];
    assert q[..|q| - 1] == p && q[|q| - 1] == level;
    ChildLinked(nodes, links, p, level);
    AllLinked(nodes, links, p, level, child);
    AllChildrenAt(nodes, links, p, level, child);
  }

  lemma AllLinked(nodes: map<Path, TreeNode>, links: map<Path, map<string, TreeNode>>, p: Path, level: string,
                  child: TreeNode)
    requires IsTrie(nodes, links) && p in nodes && level !in links[p] && p + [level] !in nodes
    requires child.name == level && PathOf(child.topic) == p + [level]
    ensures var nodes', links' := nodes[p + [level] := child], links[p := links[p][level := child]][p + [level] :=
      map[]];
      forall r {:trigger Linked(nodes', links', r)} :: r in nodes' && r != [] ==> Linked(nodes', links', r)
  {
    var q := p + [level];
    var nodes', links' := nodes[q := child], links[p := links[p][level := child]][q := map[]];
    assert q[..|q| - 1] == p && q[|q| - 1] == level;
    forall r | r in nodes' && r != [] ensures Linked(nodes', links', r) {
      if r != q { assert Linked(nodes, links, r); }
    }
  }

  lemma AllChildrenAt(nodes: map<Path, TreeNode>, links: map<Path, map<string, TreeNode>>, p: Path, level: string,
                      child: TreeNode)
    requires IsTrie(nodes, links) && p in nodes && level !in links[p] && p + [level] !in nodes
    ensures var nodes', links' := nodes[p + [level] := child], links[p := links[p][level := child]][p + [level] :=
      map[]];
      forall r, l {:trigger ChildAt(nodes', links', r, l)} ::
        r in nodes' && l in links'[r] ==> ChildAt(nodes', links', r, l)
  {
    var q := p + [level];
    var nodes', links' := nodes[q := child], links[p := links[p][level := child]][q := map[]];
    forall r, l | r in nodes' && l in links'[r] ensures ChildAt(nodes', links', r, l) {
      if r in nodes && l in links[r] { assert ChildAt(nodes, links, r, l); }
      if r + [l] == q { assert (r + [l])[..|r|] == r && (r + [l])[|r|] == l; }
    }
  }

  /** A node has a child under a level exactly when the longer path is a node. */
  lemma ChildLinked(nodes: map<Path, TreeNode>, links: map<Path, map<string, TreeNode>>, p: Path, l: string)
    requires IsTrie(nodes, links) && p in nodes
    ensures p + [l] in nodes <==> l in links[p]
    ensures l in links[p] ==> nodes[p + [l]] == links[p][l]
  {
    var q := p + [l];
    assert q[..|q| - 1] == p && q[|q| - 1] == l;
    if q in nodes { assert Linked(nodes, links, q); }
    if l in links[p] { assert ChildAt(nodes, links, p, l); }
  }

  /** A level missing from a node means nothing beyond it exists. */
  lemma Unreachable(nodes: map<Path, TreeNode>, links: map<Path, map<string, TreeNode>>, levels: Path, i: nat)
    requires IsTrie(nodes, links) && i < |levels| && levels[..i] in nodes
    ensures levels[i] in links[levels[..i]] || levels !in nodes
  {
    assert levels[..i + 1] == levels[..i] + [levels[i]];
    ChildLinked(nodes, links, levels[..i], levels[i]);
    if levels in nodes { PrefixInNodes(nodes, links, levels, i + 1); }
  }

  lemma {:induction false} PrefixInNodes(nodes: map<Path, TreeNode>, links: map<Path, map<string, TreeNode>>, p: Path,
                                         k: nat)
    requires IsTrie(nodes, links) && p in nodes && k <= |p|
    ensures p[..k] in nodes
    decreases |p| - k
  {
    if k < |p| {
      PrefixInNodes(nodes, links, p, k + 1);
      assert Linked(nodes, links, p[..k + 1]);
      assert p[..k + 1][..k] == p[..k];
    } else {
      assert p[..k] == p;
    }
  }

  ghost predicate Injective(nodes: map<Path, TreeNode>) {
    forall p, q :: p in nodes && q in nodes && nodes[p] == nodes[q] ==> p == q
  }

  ghost predicate Extends(before: map<Path, TreeNode>, after: map<Path, TreeNode>) {
    forall p :: p in before ==> p in after && after[p] == before[p]
  }

  /** `path` holds the nodes of the first k + 1 prefixes of `levels`. */
  ghost predicate OnPath(nodes: map<Path, TreeNode>, path: seq<TreeNode>, levels: Path, k: nat)
    requires k <= |levels|
  {
    && |path| == k + 1
    && forall i :: 0 <= i <= k ==> levels[..i] in nodes && path[i] == nodes[levels[..i]]
  }

  lemma OnPathExtend(before: map<Path, TreeNode>, after: map<Path, TreeNode>, path: seq<TreeNode>, levels: Path, k: nat)
    requires k < |levels| && OnPath(before, path, levels, k) && Extends(before, after)
    requires levels[..k + 1] in after
    ensures OnPath(after, path + [after[levels[..k + 1]]], levels, k + 1)
  {
  }

  lemma JoinPrefix(topic: string, k: nat)
    requires 1 <= k <= |PathOf(topic)|
    ensures PathOf(Join(PathOf(topic)[..k], '/')) == PathOf(topic)[..k]
  {
    SplitJoin(PathOf(topic)[..k], '/');
  }
}

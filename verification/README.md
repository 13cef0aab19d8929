# mqttview, verified

mqttview keeps live MQTT state in bounded, hand-written structures. Each of them is a fast form of
something simple: a trie for a map of topics, rings and a recency list for lists of messages, reverse
indexes for a scan, a cursor for a grammar, a replaced wake channel for a condition. This project models
those structures as the code has them and proves that each one behaves as the simple thing does, over
every run and every input.

| file | part of mqttview | the simple thing it is proved against |
|---|---|---|
| `Collections.dfy` | options, last elements of a sequence | |
| `Levels.dfy` | splitting and joining topic levels | a bijection |
| `Topic.dfy` | topic and filter validation, filter matching | section 4.7 of MQTT Version 5.0 |
| `MessageLog.dfy` | what the tree remembers | functions of the messages accepted |
| `TopicTree.dfy`, `Picture.dfy`, `Sorting.dfy` | the topic tree, its cached totals, `Match`, `Graph` | the message log |
| `GraphFlags.dfy`, `GraphLoudness.dfy` | the flags of a `Graph` picture, the branches it keeps | counting the nodes there are to draw and their messages |
| `TopicLog.dfy` | the log kept per topic | a recency-ordered list of topics with the last messages of each |
| `Discovery.dfy` | Home Assistant discovery topics | a bijection with discovery records |
| `TopicIndex.dfy`, `HassRegistry.dfy` | the registry and its three reverse indexes | a scan of all entities |
| `HassReadings.dfy`, `HassDevices.dfy` | what the registry reads out of payloads | the settings of the discovery payload |
| `Protowire.dfy` | the protobuf reader | the Protocol Buffers encoding specification |
| `Sparkplug.dfy`, `SparkplugLaws.dfy` | the Sparkplug B decoder | section 6.4 of Sparkplug 3.0.0 |
| `Journal.dfy`, `JournalWait.dfy` | the signal journal and waiting on it | the list of all edges; every interleaving |
| `Recorder.dfy` | the recorder pipeline | the list of accepted messages; every run |
| `LoginLimiter.dfy`, `HubLimiter.dfy` | the two fixed-window limiters | counts over any interval |
| `JsonPaths.dfy` | the field chooser and the field reader | each other |
| `Administrators.dfy` | accounts and the last administrator | "there is always one" over every run |

The tree, its nodes, the rings, the log, the registry, its entities, the protobuf reader, the journal, the
recorder, the limiters and the user table are classes whose methods change them in place. Each carries a
ghost value (the messages accepted, the topics held, the edges appended, ...) that its `Valid()` ties to the
real fields, and each method says what it does to that value. The properties are then lemmas about those
values. `dafny verify dfyconfig.toml` checks everything.

## What the code does where its documentation says otherwise

The model follows the code. For each of these there is a concrete run or input on which the documented
property fails, and a theorem saying exactly when it holds or, for the busiest branches, how far.

- The tree's limit on topics is described as a bound on memory. It is a latch: a node that is already there as a
  branch can still become a topic afterwards. `MessageLog.LimitExceeded` is a run ending with one topic more
  than the limit. Over any run the limit is exceeded exactly when some message hit a valueless node of a tree
  already full (`MessageLog.ExceededByLatecomers`); its set of nodes is frozen (`MessageLog.FrozenWhenFull`).
- `Graph` reports a cut picture also when the budget is exactly filled. `GraphFlags.FullNotCut` is a tree whose
  only node fills the budget; the flag is right exactly when the nodes there are to draw do not number
  exactly the budget (`GraphFlags.FlagIsTrue`).
- A node of the picture is flagged when it has children that were not returned. The flag is set at the depth limit
  only: `GraphFlags.CutNotFlagged` is a node whose child the budget cut, unflagged. When the first level fits the
  budget, the flags of all nodes are right exactly when everything down to the depth does; when it does not fit,
  exactly when the depth is one or every node drawn is a leaf (`GraphFlags.NodeFlagsAreTrue`).
- A cut picture is to keep what is busiest. Read node by node this fails: `GraphLoudness.QuieterKept` is a picture
  that shows a node with one message and leaves out one with two, below a quieter branch. What it keeps is the
  busiest branches: where the paths to a node drawn and to one left out of the same depth part, the branch of
  the one drawn has at least as many messages (`GraphLoudness.BranchesKept`); for siblings that is the node itself.
- The topic log's order is called most recently updated; reading counts as well. `TopicLog.ReadSavesTopic` is a run in
  which the least recently updated topic stays and another goes, because of a read. Topics go by their last use
  (`TopicLog.EvictedUsedBefore`). Over any run the log is at every moment what it would be without the reads
  exactly when each read finds its topic absent or in front (`TopicLog.ReadsMatter`).
- The varint reader's comment says the tenth byte can carry one bit only. Further bits are accepted and dropped:
  `Protowire.TenthByteDropped` is a buffer that spells 2^70 - 1 and reads as 2^64 - 1. What is read is what is spelled
  exactly when there is no tenth byte or it brings one bit at most (`Protowire.ExactUnlessTenthByte`).
- A journal client is to resume without gaps. The timeout path of `Wait` reads the newest number under a lock of its
  own, so an edge appended just before is skipped: `JournalWait.TimeoutSkipsEdge` is such a run. Over every
  run, resuming after giving up misses nothing exactly when no edge matched in three stretches
  (`JournalWait.GivingUpLoses`); while nothing is dropped, exactly when none was appended between the last look and
  the reading of the number (`JournalWait.GivingUpLosesLateEdges`).
- `orphanedTopics` is described as listing the topics no remaining entity uses. It looks at each role separately, so a
  topic it reports can still be read in another role (`HassRegistry.OrphanStillRead`); this happens exactly when
  another entity reads one of the entity's main topics in other roles only (`HassRegistry.ReportedAreUnread`). And
  it does not look at the extra state topics, so it misses unused ones (`HassRegistry.PositionMissed`); what it misses
  is exactly those that are none of the entity's main topics (`HassRegistry.MissedAreExtra`).
- `combineAvailability` is described as making an entity offline when any source says so. Unless the mode says `all`, one
  source saying online prevails: `HassReadings.OfflineOutvoted` is such an entity. One that says offline makes the
  entity offline exactly in the mode `all` or when none says online (`HassReadings.OfflineIfAnySays`).

## Model

| member | source | states |
|---|---|---|
| `Levels.JoinSplit` | internal/mqttc/tree.go:112 | Joining the levels of any topic gives the topic back. |
| `Levels.SplitJoin` | internal/mqttc/tree.go:112 | Splitting joined levels gives them back, when there is one at least and none holds the separator. |
| `Levels.SplitInjective` | internal/mqttc/tree.go:94 | Two topics with the same levels are the same topic, so a trie by levels is a map by topics. |
| `Topic.ValidateTopic` | internal/mqttc/topic.go:16-33 | A topic is accepted if and only if it is non-empty, within 65535 bytes, valid text without a null character, and none of its levels holds a wildcard. |
| `Topic.ValidateFilter` | internal/mqttc/topic.go:37-64 | A filter is accepted if and only if it is non-empty, within 65535 bytes, valid text without a null character, and every wildcard fills its level, `#` only the last (section 4.7.1 of MQTT 5.0). |
| `Topic.MatchFilter` | internal/mqttc/topic.go:67-93 | For any two strings at all, the loop with its early exits answers the level-by-level recursion with the `$` rule. |
| `Topic.MatchesSelf` | internal/mqttc/topic.go:68-70 | The string-equality shortcut is redundant once the `$` rule is passed: any levels match themselves. |
| `Topic.LevelsMatchIsAgree` | internal/mqttc/topic.go:79-92 | Whatever the levels, recursive matching is agreement position by position, up to the first `#`, or of equally many levels when there is none. |
| `Topic.MatchesIsSection47` | internal/mqttc/topic.go:66-93 | For every accepted filter and every topic, matching agrees with section 4.7 of MQTT 5.0, both ways. |
| `Topic.HashMatchesParent` | internal/mqttc/topic.go:80-84 | `prefix/#` matches exactly the topics whose levels start with those of the prefix, the prefix itself among them. |
| `Sorting.SortDescending` | internal/mqttc/tree.go:211 | Sorting gives a descending permutation. |
| `MessageLog.CountsAddUp` | internal/mqttc/tree.go:145-151 | The number of messages at or below a node is the sum of the counts of the topics there. |
| `MessageLog.NewestIsLatest` | internal/mqttc/tree.go:148-150 | The latest time kept is attained by some message and exceeded by none, or is the zero time. |
| `MessageLog.RemembersLast` | internal/mqttc/tree.go:132-143 | For the last message of any topic in any log: its value is that payload, or the first 262144 bytes of it and a mark, its size, QoS, retain flag and time, and the number of messages of the topic. |
| `MessageLog.UnderIsArrivals` | internal/mqttc/tree.go:145-151 | The messages counted at a path are as many as there are messages of the log whose topic starts with its levels, and are those. |
| `MessageLog.NodeHasTopic` | internal/mqttc/tree.go:104-119 | Every node but the root has at least one topic at or below it. |
| `MessageLog.FrozenWhenFull` | internal/mqttc/tree.go:106-109 | A full tree stays full, its set of nodes never changes again, and a refused message changes nothing. |
| `MessageLog.GrowsWhenFull` | internal/mqttc/tree.go:121-126 | A full tree gains a topic exactly when the message's node exists and holds no value yet. |
| `MessageLog.ExceededByLatecomers` | internal/mqttc/tree.go:104-126 | Over any run of messages, the tree holds more topics than the limit if and only if some message of the run found it full, its node there and its topic without a value. |
| `MessageLog.LimitExceeded` | internal/mqttc/tree.go:121-126 | A run of messages after which the tree holds more topics than the limit. |
| `TopicTree.BumpedCounts` | internal/mqttc/tree.go:121-151 | Bumping the cached totals of the nodes on one path keeps every node's totals equal to what the log says, for one more message. |
| `TopicTree.ConsistentAfter` | internal/mqttc/tree.go:93-152 | Walking, creating nodes and bumping one path accounts for exactly one more message everywhere: nodes, values, totals, tree counters and the full latch. |
| `TopicTree.Tree.constructor` | internal/mqttc/tree.go:88-90 | A new tree is valid and has accepted nothing. |
| `TopicTree.Tree.WalkOrCreate` | internal/mqttc/tree.go:99-119 | The walk succeeds unless the tree is full and the topic has no node; refused, it leaves nodes, links and counters as they were; otherwise it yields the nodes of all prefixes and adds only blank ones. |
| `TopicTree.Tree.Grow` | internal/mqttc/tree.go:99-119 | The loop of the walk, on the node objects: what it creates is blank, on the way to the topic and part of the trie; a full tree creates nothing. |
| `TopicTree.Tree.Descend` | internal/mqttc/tree.go:104-118 | One step of the walk: the child under the next level, created blank only when missing. |
| `TopicTree.Tree.AddChild` | internal/mqttc/tree.go:110-115 | A new node hangs under its parent by its last level, and the nodes still form a trie. |
| `TopicTree.Tree.Record` | internal/mqttc/tree.go:93-152 | Recording keeps every invariant and appends the message to the log exactly when the tree is not full or the topic's node exists. |
| `TopicTree.Tree.Update` | internal/mqttc/tree.go:121-151 | Every field of every node and of the tree after a message: value and flag of the leaf, the three totals along the path, nothing elsewhere. |
| `TopicTree.Tree.EnsureTopic` | internal/mqttc/tree.go:121-130 | A node becomes a topic once: the tree counter, the full latch and the path's topic totals move only then. |
| `TopicTree.Tree.Deliver` | internal/mqttc/tree.go:132-151 | The leaf takes the message over, clipped, and each node on the path counts it and its time. |
| `TopicTree.TreeNode.Keep` | internal/mqttc/tree.go:132-143 | A payload over the cap is kept as its first 262144 bytes and marked; size, QoS, flags, time and count are the message's. |
| `TopicTree.Tree.TotalsAreSums` | internal/mqttc/tree.go:65-85 | In every valid state each node's totals are the number of value-bearing nodes at or below it, the sum of their counts and the latest time ever recorded there; every node but the root has a topic; the tree's totals are the root's. |
| `TopicTree.Tree.ValueNodesAreTopics` | internal/mqttc/tree.go:121-130 | The value-bearing nodes at or below a path are exactly the topics seen there. |
| `TopicTree.Tree.Clear` | internal/mqttc/tree.go:252-259 | A cleared tree is valid and has accepted nothing. |
| `TopicTree.Tree.Find` | internal/mqttc/tree.go:261-274 | The walk returns the node of a topic if there is one, and the root for the empty topic. |
| `TopicTree.Tree.Value` | internal/mqttc/tree.go:185-194 | A lookup in the trie is a lookup in the map from topics to last accepted messages, whose entries `MessageLog.RemembersLast` spells out. |
| `TopicTree.Tree.Walk` | internal/mqttc/tree.go:276-281 | Walking below a node collects the value of every matching topic at or below it, each once. |
| `TopicTree.Tree.Match` | internal/mqttc/tree.go:198-216 | The answer is the map of last values filtered by matching, each topic once, newest first; only the limit leaves something out, and nothing left out is newer. |
| `TopicTree.Tree.LoudestFirst` | internal/mqttc/tree.go:378-385 | The children of a node, all of them, once each, loudest first. |
| `TopicTree.Tree.DrawLevel` | internal/mqttc/tree.go:376-416 | One level of the picture: distinct children of the level's nodes, the loudest of each kept, all of them unless the budget is used up. |
| `TopicTree.Tree.Graph` | internal/mqttc/tree.go:358-423 | At most the budget of distinct nodes, level by level, each after its parent, siblings loudest first, none too deep, each shown with the totals of the log; the flag is set exactly when the budget is used up, unset means complete to the depth, and what is left out is as deep as anything drawn; where its path parts from that of a drawn node of its depth, the drawn one's branch is at least as loud. |
| `GraphFlags.FlagIsTrue` | internal/mqttc/tree.go:388-414 | The flag is right about something being left out if and only if the nodes down to the depth do not number exactly the budget. |
| `GraphFlags.FullNotCut` | internal/mqttc/tree.go:411-414 | A tree with exactly as many nodes as the budget: nothing is left out and the flag is set. |
| `GraphFlags.NodeFlagsAreTrue` | internal/mqttc/tree.go:348-350 | Given that the first level fits the budget, every drawn node's flag is right about its children being left out if and only if the nodes down to the depth fit; given that it does not, if and only if the depth is one or every drawn node is a leaf. |
| `GraphFlags.CutNotFlagged` | internal/mqttc/tree.go:401-405 | A node whose only child the budget cut, its own flag not set. |
| `GraphLoudness.BranchesKept` | internal/mqttc/tree.go:355-357 | Of a drawn node and a node left out of the same depth, there is a level where their paths part, and there the drawn one's branch has received at least as many messages; for siblings it is their own. |
| `GraphLoudness.QuieterKept` | internal/mqttc/tree.go:355-357 | A tree and a budget with which a node of one message is drawn and one of two messages at the same depth is left out. |
| `Picture.NextLevelBusiest` | internal/mqttc/tree.go:374-417 | When the levels before are complete, a level cut after any parent still keeps, for each of its nodes and each one left out, the louder branch. |
| `Picture.TakeKids` | internal/mqttc/tree.go:387-415 | Taking the first of a parent's sorted children keeps distinctness, completeness of the parents before and loudest-first omission. |
| `Picture.GraphStep` | internal/mqttc/tree.go:374-417 | A level more keeps the picture parent-first, bounded in depth, and complete or fairly cut. |
| `Picture.NextLevelInOrder` | internal/mqttc/tree.go:383-385 | A level appended with its siblings in order keeps all siblings of the picture in order. |
| `Picture.WholePicture` | internal/mqttc/tree.go:374-419 | When the levels run out, the picture is fairly cut, and complete unless cut. |
| `TopicLog.UnrolledPut` | internal/mqttc/topiclog.go:109-122 | Overwriting the slot at the cursor of a ring appends to its chronological contents and drops the oldest once it has wrapped. |
| `TopicLog.TopicRing.Overwrite` | internal/mqttc/topiclog.go:114-122 | Writing at the cursor and moving it on appends the message, dropping the oldest of a wrapped ring. |
| `TopicLog.TopicRing.constructor` | internal/mqttc/topiclog.go:97 | A new ring is empty and holds no bytes. |
| `TopicLog.TopicRing.Put` | internal/mqttc/topiclog.go:104-122 | The ring holds the last messages that fit, and its byte count is theirs. |
| `TopicLog.TopicLog.constructor` | internal/mqttc/topiclog.go:63-79 | Defaults for non-positive arguments, the cap on entries, and an empty log. |
| `TopicLog.TopicLog.Add` | internal/mqttc/topiclog.go:82-125 | Adding clips the message, puts its topic in front with the message as its last, and evicts from the back; a ring is created exactly when the topic had none. The invariant it keeps: bytes are the sum of the payloads held, map and recency list hold the same topics once, rings created are those held, evicted and cleared. |
| `TopicLog.TopicLog.Write` | internal/mqttc/topiclog.go:92-122 | The same before eviction. |
| `TopicLog.TopicLog.MoveToFront` | internal/mqttc/topiclog.go:101 | The ring moves to the front of the recency order and nothing else changes. |
| `TopicLog.TopicLog.EvictBack` | internal/mqttc/topiclog.go:131-148 | Whole topics go from the back until the budget is met or one is left. |
| `TopicLog.EvictIsShortest` | internal/mqttc/topiclog.go:127-148 | Eviction keeps the longest front part of the recency order that meets the budget, and always the front topic: any longer part is over the budget. |
| `TopicLog.WrittenSurvives` | internal/mqttc/topiclog.go:137-141 | The topic just written is still there, in front, its last message the one written. |
| `TopicLog.WrittenBytes` | internal/mqttc/topiclog.go:109-117 | The bytes held change by what the written topic gains. |
| `TopicLog.TouchedBytes` | internal/mqttc/topiclog.go:160 | Reading a topic changes no byte count. |
| `TopicLog.WithinBudget` | internal/mqttc/topiclog.go:36-48 | In every valid state the bytes held are at most the budget, or at most one ring of clipped payloads. |
| `TopicLog.ReadChangesOrder` | internal/mqttc/topiclog.go:160 | A read leaves the recency order alone if and only if the topic is not held or in front already. |
| `TopicLog.ReadsMatter` | internal/mqttc/topiclog.go:47 | Over any run, the log is after every operation what the run without its reads makes of it if and only if each read finds its topic absent or in front. |
| `TopicLog.HeldByLastUpdate` | internal/mqttc/topiclog.go:20-22 | In such a run the topics held stand in the order of their last update, from which eviction takes the last. |
| `TopicLog.HeldByLastUse` | internal/mqttc/topiclog.go:82-160 | After any run the topics held stand in the order in which they were last added to or read. |
| `TopicLog.EvictedUsedBefore` | internal/mqttc/topiclog.go:127-149 | A topic that an addition evicts was last used before every topic that stays. |
| `TopicLog.ReadSavesTopic` | internal/mqttc/topiclog.go:131-160 | For any three topics, a run in which reading the one updated first makes the other the one evicted. |
| `TopicLog.TopicLog.Entries` | internal/mqttc/topiclog.go:152-175 | The topic's messages, oldest first, the last `limit` of them when it is positive, and the topic moves to the front. |
| `TopicLog.TopicLog.Previous` | internal/mqttc/topiclog.go:192-198 | The last message but one of a topic, or nothing. |
| `TopicLog.TopicLog.Clear` | internal/mqttc/topiclog.go:231-237 | Nothing is held, no bytes are counted, and the topics dropped are accounted for. |
| `TopicLog.ShownStep` | internal/mqttc/topiclog.go:82-175 | Adding, reading and clearing commute with showing only the last messages of each topic's unbounded past. |
| `TopicLog.RunShowsPast` | internal/mqttc/topiclog.go:82-237 | After any run each topic shows its last clipped messages since its ring was last created. |
| `TopicLog.KeptMeans` | internal/mqttc/topiclog.go:82-90 | The copy kept of a message holds the payload, or its first 8192 bytes and a mark, and all else as it came. |
| `TopicLog.ShowsAddedSince` | internal/mqttc/topiclog.go:82-237 | In every run, a topic shows exactly the last `perTopic` of the messages added for it since it was last not held, whatever else happened in between. |
| `TopicLog.OthersShow` | internal/mqttc/topiclog.go:94-102 | Bringing a topic to the front changes nothing of what the others show. |
| `Discovery.ParseRebuilds` | internal/plugins/hass/discovery.go:28-61 | Whenever a topic is accepted, the parsed record is well formed and rebuilds the topic exactly. |
| `Discovery.ParseTopicOf` | internal/plugins/hass/registry.go:766-773 | Every well-formed record is parsed back from its own topic. |
| `Discovery.TopicSpelled` | internal/plugins/hass/discovery.go:28-61 | A record stands for prefix, component, node if there is one, object and `config`, in this order. |
| `Discovery.AcceptedExactly` | internal/plugins/hass/discovery.go:28-61 | The topics accepted under a prefix are exactly those some well-formed record is announced on. |
| `Discovery.DistinctTopicsDistinctRecords` | internal/plugins/hass/discovery.go:40-50 | Two accepted topics have the same record, and the same identity, only if they are the same topic. |
| `TopicIndex.IndexKeyInjective` | internal/plugins/hass/registry.go:133 | Keys of connections without the separator in their id determine connection and topic. |
| `TopicIndex.AddAll` | internal/plugins/hass/registry.go:284-305 | Indexing lists the entity under the keys of its topics and changes no other list. |
| `TopicIndex.DropAll` | internal/plugins/hass/registry.go:328-358 | Unindexing removes every entity of that id from the lists of its topics, changes no other list and leaves none empty. |
| `TopicIndex.AgreesWithout` | internal/plugins/hass/registry.go:328-358 | After unindexing, the index agrees with a scan of the remaining entities. |
| `TopicIndex.AgreesWith` | internal/plugins/hass/registry.go:282-306 | After indexing, the index agrees with a scan of the entities including the new one. |
| `HassRegistry.Registry.constructor` | internal/plugins/hass/registry.go:122-131 | An empty registry is valid. |
| `HassRegistry.Registry.IndexIsScan` | internal/plugins/hass/registry.go:112-116 | In every valid state an index lookup finds exactly the connection's entities that use the topic in that role; no list is empty and every object found is the current one of its id. |
| `HassRegistry.Registry.Upsert` | internal/plugins/hass/registry.go:137-196 | The entity announced replaces the one of the same id, carries over its state, attributes, availability and discovery time, and the topics returned are exactly those it uses in any role, once each. |
| `HassRegistry.Registry.Replace` | internal/plugins/hass/registry.go:190-195 | Replacing unindexes the old object first, so all three indexes agree with the scan again. |
| `HassRegistry.Registry.UpsertDevice` | internal/plugins/hass/registry.go:199-249 | The device a payload names is created, pinned if it was, or seen again; no other device changes, and a payload naming none changes nothing. |
| `HassRegistry.Registry.Remove` | internal/plugins/hass/registry.go:253-279 | The entity goes, its device too once unused, and the topics returned are exactly its main topics that no remaining entity reads in the same role. |
| `HassRegistry.Registry.IndexEntity` | internal/plugins/hass/registry.go:282-306 | Indexing keeps the three indexes in agreement with the scan and returns the topics used, once each. |
| `HassRegistry.Registry.Unindex` | internal/plugins/hass/registry.go:328-358 | Unindexing leaves the three indexes in agreement with the entities that remain. |
| `HassRegistry.Registry.OrphanedTopics` | internal/plugins/hass/registry.go:361-377 | Exactly the topics, role by role, that no entity reads in that role. |
| `HassRegistry.OrphanStillRead` | internal/plugins/hass/registry.go:360-377 | A registry in which a topic reported as unused is another entity's availability topic. |
| `HassRegistry.ReportedAreUnread` | internal/plugins/hass/registry.go:360-377 | Everything reported is unused by the remaining entities in every role if and only if no other entity reads one of the main topics in other roles only. |
| `HassRegistry.MissedAreExtra` | internal/plugins/hass/registry.go:360-377 | A topic the entity used and nobody reads any more is missing from the report if and only if it is none of its main topics; then it is an extra state topic. |
| `HassRegistry.PositionMissed` | internal/plugins/hass/registry.go:360-377 | An entity that follows a position topic only: removing it reports nothing and leaves no reader. |
| `HassRegistry.Registry.ClearConnection` | internal/plugins/hass/registry.go:670-685 | Exactly the connection's entities and devices go, and the indexes agree with what is left. |
| `HassRegistry.Registry.ApplyState` | internal/plugins/hass/registry.go:381-442 | Exactly the entities a scan finds are changed, each only in the roles it uses the topic in, with the primary or secondary template, the last verdict of its availability sources and the attributes parsed; those returned are exactly those changed. |
| `HassRegistry.ReadSources` | internal/plugins/hass/registry.go:408-422 | Of several availability sources on one topic the last one counts. |
| `HassReadings.StateMeans` | internal/plugins/hass/registry.go:381-404 | A message on the state topic is rendered with the entity's own template, one on another topic with that of the first extra key naming it; the state keeps payload, value, whether the template was understood, and the time. |
| `HassReadings.TemplateGoesWith` | internal/plugins/hass/registry.go:446-472 | With `x_state_topic` goes `x_value_template` or else `x_state_template`; with the position, current temperature, tilt status and action topics the template named after them. |
| `HassReadings.StateTopicsRead` | internal/plugins/hass/registry.go:293-304 | For its state an entity reads the state topic and the topics of the extra keys, and no others. |
| `HassReadings.OtherTopicsRead` | internal/plugins/hass/registry.go:293-297 | For its availability it reads the topics of its sources, for its attributes one topic with a template of its own. |
| `HassReadings.SourcesMean` | internal/plugins/hass/discovery.go:268-299 | Its sources are the single one and those of the list that name a topic, each with its template and its words for online and offline, or the default words. |
| `HassReadings.SourcesInOrder` | internal/plugins/hass/discovery.go:279-297 | The sources of the list stand in its order. |
| `HassReadings.LastSourceSpeaks` | internal/plugins/hass/registry.go:408-422 | What is known of a topic is what the last source on it makes of the message: online for its word for online, offline for its word for offline, nothing for any other. |
| `HassReadings.CombinedMeans` | internal/plugins/hass/registry.go:476-515 | Online if and only if some source says so and, in the mode `all`, none says offline; offline if and only if some source says so and either the mode is `all` or none says online. |
| `HassReadings.OfflineIfAnySays` | internal/plugins/hass/registry.go:474-515 | Given a source that says offline, the entity is offline if and only if the mode is `all` or no source says online. |
| `HassReadings.OfflineOutvoted` | internal/plugins/hass/registry.go:474-515 | Two sources that disagree and no mode: the entity is online. |
| `HassDevices.KeyIsIdentifier` | internal/plugins/hass/registry.go:703-710 | A device with identifiers is known by the first of them in dictionary order. |
| `HassDevices.KeyIsConnection` | internal/plugins/hass/registry.go:711-713 | Without identifiers, by its first well-formed connection. |
| `HassDevices.KeyIsName` | internal/plugins/hass/registry.go:714-717 | Without those, by its name; without a name it is no device. |
| `HassDevices.SeenMeans` | internal/plugins/hass/registry.go:212-247 | A device seen again stays what it was but for the time; a new one is pinned as asked for; no other device changes. |
| `HassReadings.SettingMeans` | internal/plugins/hass/discovery.go:192-206 | A setting reads as a given text exactly when it is that text, a number written so, or a flag. |
| `Protowire.VarintRoundTrip` | internal/payload/protowire.go:51-71 | Decoding inverts the base 128 encoding of every 64-bit number, whatever follows. |
| `Protowire.OrIsAdd` | internal/payload/protowire.go:65 | Or-ing a shifted number onto the bits below it, bit by bit, is adding it. |
| `Protowire.OrGroup` | internal/payload/protowire.go:65 | One step of the decoder, or-ing in a group shifted within 64 bits, adds the group modulo 2^64 to the sum of those before. |
| `Protowire.AddGroup` | internal/payload/protowire.go:62-69 | Accumulating one group more computes the sum of the groups modulo 2^64, the tenth byte's surplus bits dropped. |
| `Protowire.NextGroup` | internal/payload/protowire.go:54-70 | One turn of the loop takes the sum of k groups modulo 2^64 to that of k + 1. |
| `Protowire.ExactUnlessTenthByte` | internal/payload/protowire.go:60-64 | A read varint is the number its groups spell if and only if there is no tenth byte or it brings at most one bit. |
| `Protowire.TenthByteDropped` | internal/payload/protowire.go:60-64 | A ten-byte varint that spells 2^70 - 1 and is read as 2^64 - 1. |
| `Protowire.Varint` | internal/payload/protowire.go:51-71 | A successful read takes one to ten bytes, within the buffer, and yields a 64-bit number. |
| `Protowire.FixedRoundTrip` | internal/payload/protowire.go:73-89 | Little-endian reading inverts little-endian writing for every width. |
| `Protowire.ReadField` | internal/payload/protowire.go:38-49 | A field never reads beyond the buffer, and one that is read takes at least a byte: the measure on which the decoding loops end. |
| `Protowire.FieldRoundTrip` | internal/payload/protowire.go:38-104 | A tag and what it announces are read back as they were written, whatever follows. |
| `Protowire.FieldCut` | internal/payload/protowire.go:38-104 | A written field that breaks off anywhere is refused as truncated. |
| `Protowire.TagRefused` | internal/payload/protowire.go:38-49 | Field number zero, groups and unknown wire types are refused, each with its own error. |
| `Protowire.VarintTooLong` | internal/payload/protowire.go:51-71 | More than ten bytes that all announce another are refused as an overflow. |
| `Protowire.Reader.ReadVarint` | internal/payload/protowire.go:51-71 | The loop, or-ing shifted groups into a word, reads the sum of the 7-bit groups modulo 2^64, or fails as truncated or overlong, and the cursor advances by the bytes read. |
| `Protowire.Reader.ReadFixed` | internal/payload/protowire.go:73-89 | The little-endian number at the cursor, or truncated with the cursor unmoved. |
| `Protowire.Reader.ReadBytes` | internal/payload/protowire.go:91-104 | The bytes a length announces, refused when they are not all there. |
| `Protowire.Reader.ReadTagHere` | internal/payload/protowire.go:38-49 | Field number and wire type, refusing field number zero. |
| `Protowire.Reader.Skip` | internal/payload/protowire.go:107-128 | Skipping takes exactly as many bytes as reading would, and fails exactly where reading would. |
| `Sparkplug.DecodeMetric` | internal/payload/sparkplug.go:235-366 | The loop over the cursor decodes field by field, ends at the first field it cannot read and keeps what it had. |
| `Sparkplug.DecodeMetricField` | internal/payload/sparkplug.go:249-351 | What each field does to a metric, and that an unknown one does nothing but move the cursor past itself. |
| `Sparkplug.DecodeSparkplug` | internal/payload/sparkplug.go:161-220 | The same for payloads. |
| `Sparkplug.DecodePayloadField` | internal/payload/sparkplug.go:170-213 | What each field does to a payload, a metric that cannot be decoded failing the payload. |
| `SparkplugLaws.MetricReadsFields` | internal/payload/sparkplug.go:244-352 | The bytes of any well-formed fields are read as those fields, in order. |
| `SparkplugLaws.UnknownIgnoredInMetric` | internal/payload/sparkplug.go:347-351 | Unknown fields anywhere in a metric change nothing. |
| `SparkplugLaws.UnknownIgnoredInPayload` | internal/payload/sparkplug.go:206-213 | Unknown fields anywhere in a payload change nothing. |
| `SparkplugLaws.SignedInverse` | internal/payload/sparkplug.go:371-385 | A signed number comes back from any word whose low bits are right, sign-extended or masked. |
| `SparkplugLaws.CarriedIsDisplayed` | internal/payload/sparkplug.go:376-406 | A value that arrives in the arm its datatype calls for is shown as the reading it carries, for all nineteen datatypes. |
| `SparkplugLaws.AnyArm` | internal/payload/sparkplug.go:293-406 | A value in any arm, for any of the nineteen datatypes: in an arm kept in the same member as the datatype's own it is shown as if it had arrived there, and in any other arm as zero, empty or without a size. |
| `SparkplugLaws.UnknownTypeShown` | internal/payload/sparkplug.go:408-430 | For any fields of a metric that is not null and whose last datatype is missing, zero or above 19: the last value is shown as it arrived, arm by arm, noted with that datatype. |
| `SparkplugLaws.KnownTypeShown` | internal/payload/sparkplug.go:376-406 | For any fields of a metric that is not null and of a known datatype: the last value is shown as the reading it carries, in whatever arm kept in the same member, and as blank in any other. |
| `SparkplugLaws.BadFieldEndsMetric` | internal/payload/sparkplug.go:235-366 | What cannot be read as a field ends a metric with that error and what was read before it. |
| `SparkplugLaws.CutPayload` | internal/payload/sparkplug.go:161-217 | A payload that breaks off inside a field is refused, never taken for a shorter one. |
| `SparkplugLaws.BadMetricEndsPayload` | internal/payload/sparkplug.go:178-187 | A metric that cannot be read ends the payload with its error and what was read before it, whatever follows. |
| `SparkplugLaws.MetricRoundTrip` | internal/payload/sparkplug.go:235-366 | Any fields, in any order, repeated and with unknown ones in between, whose last occurrences are the members of a metric and whose last value carries its reading, decode to that metric. |
| `SparkplugLaws.PayloadRoundTrip` | internal/payload/sparkplug.go:161-366 | The same for payloads: whatever the order of fields in the payload and in its metrics, decoding gives the payload back with its metrics in order. |
| `SparkplugLaws.EncoderWritesMetric` | internal/payload/sparkplug.go:38-56 | The fields of a metric in the order of their numbers, defaults left out, are one such encoding. |
| `SparkplugLaws.EncodedPayloadIsDecoded` | internal/payload/sparkplug.go:161-366 | Decoding the encoding of a payload gives the payload back. |
| `SparkplugLaws.LastOccurrenceCounts` | internal/payload/sparkplug.go:165-214 | Whatever the order and repetition of fields, a decoded payload has the last occurrence of each single field and every metric in order. |
| `SparkplugLaws.LastOccurrenceCountsInMetric` | internal/payload/sparkplug.go:244-365 | Whatever the order and repetition of fields, a metric has the last occurrence of each member and the last arm of the oneof. |
| `Journal.Journal.constructor` | internal/plugins/plc/journal.go:53-58 | A new journal is empty, with the default capacity for a non-positive one. |
| `Journal.Journal.Append` | internal/plugins/plc/journal.go:61-76 | The edge gets the next number, the history grows by it, what is kept stays its last `size` edges, and the wake channel is replaced. |
| `Journal.Journal.Since` | internal/plugins/plc/journal.go:84-106 | The matching edges kept that are newer than the number, oldest first, the latest ones within the limit, with the newest number. |
| `Journal.Journal.Latest` | internal/plugins/plc/journal.go:150-154 | The newest number issued is the number of edges ever appended. |
| `Journal.Journal.Contiguous` | internal/plugins/plc/journal.go:61-71 | The edges kept carry contiguous numbers ending at the newest; there are min(newest, size) of them. |
| `Journal.SinceMeans` | internal/plugins/plc/journal.go:81-106 | A read from any number with any limit returns, of the matching edges of the whole history that are newer and still kept, all, or the latest as many as a positive limit allows. |
| `Journal.ResumeIsComplete` | internal/plugins/plc/journal.go:15-16 | For every limit, a reader resuming from a number gets every matching edge since then if and only if none of those already dropped matched and the others are within the limit. |
| `Journal.PagingSeesAll` | internal/plugins/plc/journal.go:81-106 | Paging with at most `size` appends between polls sees every matching edge once, in order. |
| `JournalWait.StepKeepsInv` | internal/plugins/plc/journal.go:116-147 | Every step of a waiter or an appender keeps: a waiter parked on an open channel has nothing to see. |
| `JournalWait.NeverLost` | internal/plugins/plc/journal.go:127-146 | In every interleaving of appends and waits, in every state, no wake-up is lost. |
| `JournalWait.NewsWakes` | internal/plugins/plc/journal.go:134-144 | A parked waiter with something to see can be woken, and three steps of its own return it. |
| `JournalWait.ReturnedWasFound` | internal/plugins/plc/journal.go:116-147 | In every run, whatever a wait returns is what a look found at that moment, or nothing after giving up, with the newest number of the moment. |
| `JournalWait.FoundIsReturned` | internal/plugins/plc/journal.go:117-136 | In every run, a look returns exactly when it finds something, and then what it found. |
| `JournalWait.WaitsAsAsked` | internal/plugins/plc/journal.go:120-143 | In every run, a wait without a timeout never waits, and one with a timeout gives up only after it is over. |
| `JournalWait.TimeoutSkipsEdge` | internal/plugins/plc/journal.go:138-142 | A run in which a wait times out and the number it returns skips a matching edge. |
| `JournalWait.GivingUpLoses` | internal/plugins/plc/journal.go:116-147 | In every run, for every wait that looks in vain and then gives up, and every later state: resuming from the number returned misses no matching edge newer than the number waited from if and only if none matched among those dropped before the last look, those appended between the look and the reading of the number, and those dropped since. |
| `JournalWait.GivingUpLosesLateEdges` | internal/plugins/plc/journal.go:134-142 | While nothing is dropped unseen, what is missed is exactly the matching edges appended between the last look and the reading of the number; nothing if and only if there are none. |
| `Recorder.StepConserves` | internal/recorder/recorder.go:100-199 | Every step keeps: accepted messages are the attempted batches in order, then the batch, then the queue; offered is accepted plus dropped; batch and queue stay within 500 and 4096. |
| `Recorder.RunsConserve` | internal/recorder/recorder.go:140-182 | The same in every state of every run. |
| `Recorder.DroppedOnlyWhenFull` | internal/recorder/recorder.go:100-132 | In every run, an offered message is dropped if and only if its connection is recorded and 4096 messages wait; when fewer wait it is queued with its connection, topic, QoS, retain flag, time and the first 65536 bytes of its payload; of an unrecorded connection it changes nothing. |
| `Recorder.WantedIsConfigured` | internal/recorder/recorder.go:79-87 | In every run, a connection is recorded exactly when it was last configured to be, with the limit given then. |
| `Recorder.WrittenWhenFull` | internal/recorder/recorder.go:149-177 | In every run, taking writes the batch if and only if it makes it 500 records, the timer and the end write what there is, and nothing else writes. |
| `Recorder.PhaseMeans` | internal/recorder/recorder.go:140-199 | In every run, the recorder is running until it is stopped, and finished exactly when its loop has ended. |
| `Recorder.StoppedMeansFlushed` | internal/recorder/recorder.go:184-199 | In every run, once the loop has finished it stays stopped, everything accepted up to then has been attempted, and what waits in the queue is exactly what was accepted after. |
| `Recorder.DrainedIsFlushed` | internal/recorder/recorder.go:184-199 | Shutting down attempts everything accepted, keeps the counters and leaves queue and batch empty. |
| `Recorder.Recorder.Configure` | internal/recorder/recorder.go:79-87 | A connection is recorded with its limit or not at all, and nothing else changes. |
| `Recorder.Recorder.Observe` | internal/recorder/recorder.go:100-132 | A wanted message is clipped and queued, or dropped when the queue is full; never blocks. |
| `Recorder.Recorder.Write` | internal/recorder/recorder.go:149-161 | The batch is attempted, counted when it succeeds, and emptied either way; an empty batch is not attempted. |
| `Recorder.Recorder.Receive` | internal/recorder/recorder.go:171-175 | The oldest queued message joins the batch, which is written when full. |
| `Recorder.Recorder.Tick` | internal/recorder/recorder.go:176-177 | The timer writes whatever the batch holds. |
| `Recorder.Recorder.Drain` | internal/recorder/recorder.go:184-199 | Stopping takes and writes everything queued, in order, full batches first, and leaves queue and batch empty with all accepted messages attempted. |
| `LoginLimiter.AttemptLimiter.Allow` | internal/auth/service.go:436-456 | After any calls, sweeping and counting in place answers what the run of all calls so far answers, so the theorems about runs hold of the limiter object. |
| `LoginLimiter.AttemptLimiter.Sweep` | internal/auth/service.go:443-447 | The loop drops exactly the stale entries. |
| `LoginLimiter.SweepChangesNothing` | internal/auth/service.go:441-447 | In any run of attempts and resets with a clock that does not run backwards, dropping stale entries changes no answer. |
| `LoginLimiter.WindowBound` | internal/auth/service.go:419-456 | Without resets, one key is allowed at most twice the limit in any closed interval as long as the window; a limit below one counts as one, as a window always opens with an allowed attempt. |
| `LoginLimiter.FewAttemptsAllowed` | internal/auth/service.go:419-456 | Whatever else is called, an attempt is allowed when the key was tried no more often than the limit within the window before it. |
| `LoginLimiter.FirstOfWindowAllowed` | internal/auth/service.go:449-456 | When a key is tried within one window only, exactly the first attempts up to the limit are allowed, and always the very first. |
| `LoginLimiter.ResetAnswers` | internal/auth/service.go:458-462 | After a reset a key is answered as if it had never been tried before. |
| `LoginLimiter.NothingStaleKept` | internal/auth/service.go:441-447 | After an attempt no entry is kept whose window is over. |
| `HubLimiter.TwoWindows` | internal/hub/hub.go:268-282 | In any interval shorter than a second at most two windows' worth of tokens is granted, whatever rate changes come in between. |
| `HubLimiter.NeverOverCap` | internal/hub/hub.go:314-329 | Whatever a browser asks for, at most twice the cap. |
| `HubLimiter.WindowGrantsRate` | internal/hub/hub.go:268-282 | In every run, the frame that finds its window over opens a new one in which exactly as many frames pass as the rate at its opening allows, the first ones. |
| `HubLimiter.FirstWindowGrantsDefault` | internal/hub/hub.go:268-282 | In the first window exactly the default rate of frames passes, the first ones. |
| `HubLimiter.RateMeans` | internal/hub/hub.go:314-329 | The rate is the last positive one asked for, at most 5000, or the default; it is never zero. |
| `JsonPaths.NumericAt` | internal/api/topic_history.go:294-328 | Reading a dotted path follows its segments through objects to a value that charts. |
| `JsonPaths.ReadsWhereKeysLead` | internal/api/topic_history.go:294-328 | What is read is what the document the keys lead to charts as: a number as itself, a flag as one or zero, a text as it is read, anything else not. |
| `JsonPaths.ReadsNothingElse` | internal/api/topic_history.go:294-328 | Something is read only where the keys lead somewhere. |
| `JsonPaths.WalkNumericPaths` | internal/api/topic_history.go:373-400 | The walk adds exactly the paths spelled by at most seven keys, less those above, that lead to a value that charts. |
| `JsonPaths.CollectNumericPaths` | internal/api/topic_history.go:356-368 | A payload that is itself a number offers the empty path only; otherwise its document is walked. |
| `JsonPaths.OfferedIsReadable` | internal/api/topic_history.go:292-400 | For any payload whose keys are non-empty and dot-free, a path is offered if and only if reading it succeeds and it has at most seven segments. |
| `JsonPaths.EmptyPathNotOffered` | internal/api/topic_history.go:356-368 | For an object, the empty path is not offered. |
| `Administrators.Service.CreateUser` | internal/store/users.go:90-117 | Creation with its refusals, on the whole user table. |
| `Administrators.Service.UpdateUser` | internal/api/users.go:107-167 | The update with its guards in their order, on the whole user table. |
| `Administrators.Service.DeleteUser` | internal/api/users.go:201-227 | Deletion with its guards, on the whole user table. |
| `Administrators.Service.ResolveIngressUser` | internal/auth/ingress.go:174-248 | Finding or creating the sender's account and re-deriving its role. |
| `Administrators.Service.BySubject` | internal/store/users.go:130-134 | The lookup finds the account that holds the subject, if any. |
| `Administrators.DeletionMeans` | internal/api/users.go:201-227 | A deletion succeeds if and only if somebody else deletes an existing account that is not the only administrator; then that account is gone and every other as before; refused, nothing changes. |
| `Administrators.UpdateMeans` | internal/api/users.go:107-167 | An update succeeds if and only if the account exists, role and address are valid, the address is nobody else's, an administrator remains and nobody disables their own account; then it writes address, name, role and flag of that account and nothing else; refused, nothing changes. |
| `Administrators.CreationMeans` | internal/store/users.go:90-117 | A creation succeeds if and only if there is an address and a valid role and id, address and person are new; then the account is added as asked for and no other changes; refused, nothing changes. |
| `Administrators.FirstEntryMeans` | internal/auth/ingress.go:174-248 | A sender without an account gets an enabled one with their names and the role due to them, if id and address are free; otherwise nothing changes. |
| `Administrators.LaterEntryMeans` | internal/auth/ingress.go:193-226 | A sender with an account gets the role due, unless that takes it from the only administrator; a disabled account is refused; no other account changes. |
| `Administrators.ArrivingIsDue` | internal/auth/ingress.go:177-192 | The role due: administrator while there is none or when listed as one, else the configured role, else viewer. |
| `Administrators.OnlyAdmin` | internal/store/users.go:163-169 | An enabled administrator counted at most once is the only one. |
| `Administrators.UpdateKeeps` | internal/api/users.go:127-137 | No update takes the last enabled administrator away. |
| `Administrators.DeleteKeeps` | internal/api/users.go:205-220 | No deletion takes the last enabled administrator away. |
| `Administrators.EnterKeeps` | internal/auth/ingress.go:177-226 | No request through Home Assistant takes the last enabled administrator away, and every successful one leaves at least one. |
| `Administrators.LastAdministratorStays` | internal/auth/ingress.go:204-220 | The only administrator's own request succeeds and changes nothing, whatever role the configuration gives them. |
| `Administrators.RefusedUpdates` | internal/api/users.go:127-137 | An update is refused as the last administrator's if and only if it would leave none. |
| `Administrators.RefusedDeletions` | internal/api/users.go:214-220 | A deletion is refused for that reason if and only if somebody else deletes the only one. |
| `Administrators.AlwaysAnAdministrator` | internal/api/users.go:127-137 | Over any run of creations, updates, deletions and requests through Home Assistant, once there is an enabled administrator there always is one. |
| `Administrators.FirstEntryMakesOne` | internal/auth/ingress.go:177-192 | After one successful request through Home Assistant there is an administrator ever after. |

## Left out

- Integer widths: the message counters are 64-bit in the code and unbounded here; the protobuf reader's arithmetic is modulo 2^64 as in the code.
- `Protowire.ReadTag`: the code's `int` is taken to be 64 bits wide (internal/payload/protowire.go:43). On the 32-bit builds (linux/arm/v6 and arm/v7) a field number of 2^31 or more is cut or refused there, and can come out as a known one; here it is kept whole.
- Locks: every method is atomic, except `Journal.Wait` and the recorder, whose interleavings are the point.
- Strings are sequences of characters standing for bytes; UTF-8 validity, case folding, trimming, address normalisation, number parsing and templates are parameters.
- `Tree.Children`, `Node`, `Search`, `Stats` and the payload previews, and the JSON forms of all results: they only read what is proved here.
- `TopicTree.TreeNode.Keep`: the node's value fields are one record, so that the code reuses the payload's backing array is not captured.
- `TopicLog.TopicLog.Entries`: the copies it hands out are values here, so that a caller cannot disturb the ring through them is not captured; the recency list is a sequence and not linked cells.
- `TopicLog.Topics`, `Stats` and `Span`: they add only reads.
- `HassRegistry.Registry.Upsert`: the entity's name, actions and the descriptive fields of entity and device are not modelled; they take no part in indexing.
- `HassRegistry.Registry.UpsertDevice`: of a device only its key, connection, pin and times are modelled, not the descriptive fields later announcements fill in.
- `HassRegistry.Registry.Remove`: its topics are exactly those unread in their own role, not those unread in every role, because the code does not look further.
- `HassRegistry.Registry.IndexIsScan`: connection ids are taken to hold no `|`, which the identifiers the server issues never do (internal/api/connections.go:299).
- The registry's lists are values: that `unindex` filters them within their own backing array is not captured. Views, pinning and the expansion of `~` and of abbreviated keys are left out, and so is that a device stays behind when its last entity is announced again under another one.
- `SparkplugLaws.CarriedIsDisplayed`: a value that arrives in another arm than its datatype calls for is outside it; `SparkplugLaws.AnyArm` says what is shown then: the same in an arm kept in the same member (long and boolean, dataset and template), zero or nothing in any other.
- Floating point, decimal and time formatting and the names of datatypes: floats are shown as their bits, times as milliseconds, datatypes as their index. `ParseSparkplugTopic` is not modelled.
- `JournalWait.NewsWakes`: that a woken waiter is scheduled is not part of the model; timers and cancellation are events that may come at any time.
- `Recorder.Recorder.Drain`: one step here, with nothing offered meanwhile; offers during the drain are in the step system (`StoppedMeansFlushed`).
- Recorder: pruning.
- `JsonPaths.OfferedIsReadable`: JSON parsing is left out; a payload is its text and its document, and that the text of an object is no number is a premise.
- `Administrators.Service.ResolveIngressUser`: the sender's subject is non-empty, as the code that identifies the sender ensures before calling it (internal/auth/ingress.go:140-166).
- Administrators: database failures, passwords, sessions, second factors and accounts linked through single sign-on; requests run one at a time.
- `internal/mqttc/history.go` and `internal/logbuf/logbuf.go`: the same ring without the accounting.
- Collection leases and the connection lifecycle: their counts and their calls are under separate locks, so the invariants one would want fail under interleaving.
- MQTT clients, transports, HTTP, SQL text, cryptography and single sign-on: input and output, or library code.

/** The registry's entities and its reverse indexes from topics to entities
    (internal/plugins/hass/registry.go). */
module TopicIndex {
  import opened Collections
  import opened Discovery

  /** A value of a discovery payload. A number carries its decimal rendering. */
  datatype ConfigValue =
    | Text(text: string)
    | Number(rendered: string)
    | Flag(on: bool)
    | List(items: seq<ConfigValue>)
    | Object(fields: map<string, ConfigValue>)
    | Null

  type Config = map<string, ConfigValue>

  /** A config entry read as a string; anything but text, a number or a flag reads as empty. */
  function Str(c: Config, key: string): string {
    if key !in c then ""
    else match c[key]
      case Text(s) => s
      case Number(s) => s
      case Flag(b) => if b then "true" else "false"
      case _ => ""
  }

  function StrDefault(c: Config, key: string, def: string): string {
    if Str(c, key) != "" then Str(c, key) else def
  }

  datatype Availability = Unknown | Online | Offline

  datatype AvailabilitySpec = AvailabilitySpec(topic: string, template: string, online: string, offline: string)

  /** The single availability topic, then those of the availability list. */
  function AvailabilityTopics(c: Config): seq<AvailabilitySpec> {
    (if Str(c, "availability_topic") != "" then
       [AvailabilitySpec(Str(c, "availability_topic"), Str(c, "availability_template"),
                         StrDefault(c, "payload_available", "online"),
                         StrDefault(c, "payload_not_available", "offline"))]
     else []) +
    if "availability" in c && c["availability"].List? then ListedTopics(c["availability"].items) else []
  }

  function ListedTopics(items: seq<ConfigValue>): seq<AvailabilitySpec> {
    if items == [] then [] else ListedTopic(items[0]) + ListedTopics(items[1..])
  }

  function ListedTopic(item: ConfigValue): seq<AvailabilitySpec> {
    if item.Object? && Str(item.fields, "topic") != "" then
      var sub := item.fields;
      [AvailabilitySpec(Str(sub, "topic"), Str(sub, "value_template"),
                        StrDefault(sub, "payload_available", "online"),
                        StrDefault(sub, "payload_not_available", "offline"))]
    else []
  }

  /** Read topics other than the state topic that carry an entity's state. */
  const EXTRA_STATE_TOPIC_KEYS: seq<string> := [
    "position_topic",
    "brightness_state_topic",
    "percentage_state_topic",
    "preset_mode_state_topic",
    "mode_state_topic",
    "temperature_state_topic",
    "current_temperature_topic",
    "target_humidity_state_topic",
    "effect_state_topic",
    "color_temp_state_topic",
    "rgb_state_topic",
    "oscillation_state_topic",
    "tilt_status_topic",
    "action_topic"
  ]

  datatype EntityState<V> = EntityState(raw: string, value: V, templateSupported: bool, updatedAt: int)

  /** One discovered entity. What it is comes from its discovery payload and never changes; what it
      reports is updated in place. `V` is whatever a template evaluates to. */
  class Entity<V> {
    const id: string
    const connectionId: string
    const discoveryTopic: string
    const component: string
    const deviceKey: string
    const config: Config
    const stateTopic: string
    const valueTemplate: string
    const availSpecs: seq<AvailabilitySpec>
    const attrTopic: string
    const attrTemplate: string
    const discoveredAt: int

    var state: Option<EntityState<V>>
    var attributes: Option<map<string, V>>
    var availability: Availability
    var availState: map<string, Availability>
    var updatedAt: int

    constructor (connId: string, dt: DiscoveryTopic, cfg: Config, deviceKey: string, discoveredAt: int, now: int)
      ensures FromConfig(this, connId, dt, cfg)
      ensures this.deviceKey == deviceKey && this.discoveredAt == discoveredAt
      ensures state == None && attributes == None && availability == Unknown && availState == map[] && updatedAt == now
    {
      id, connectionId, discoveryTopic := IndexKey(connId, TopicOf(dt)), connId, TopicOf(dt);
      component, config := dt.component, cfg;
      this.deviceKey, this.discoveredAt := deviceKey, discoveredAt;
      stateTopic, valueTemplate := Str(cfg, "state_topic"), Str(cfg, "value_template");
      attrTopic, attrTemplate := Str(cfg, "json_attributes_topic"), Str(cfg, "json_attributes_template");
      availSpecs := AvailabilityTopics(cfg);
      state, attributes, availability, availState, updatedAt := None, None, Unknown, map[], now;
    }
  }

  /** The entity is the one a discovery payload announces. */
  ghost predicate FromConfig<V>(e: Entity<V>, connId: string, dt: DiscoveryTopic, cfg: Config) {
    && e.id == IndexKey(connId, TopicOf(dt)) && e.connectionId == connId && e.config == cfg
    && e.discoveryTopic == TopicOf(dt) && e.component == dt.component
    && e.stateTopic == Str(cfg, "state_topic") && e.valueTemplate == Str(cfg, "value_template")
    && e.attrTopic == Str(cfg, "json_attributes_topic") && e.attrTemplate == Str(cfg, "json_attributes_template")
    && e.availSpecs == AvailabilityTopics(cfg)
  }

  function IndexKey(connId: string, topic: string): string {
    connId + "|" + topic
  }

  /** Connection ids without the separator make index keys unambiguous. */
  lemma IndexKeyInjective(c: string, t: string, d: string, u: string)
    requires '|' !in c && '|' !in d
    ensures IndexKey(c, t) == IndexKey(d, u) <==> c == d && t == u
  {
    if IndexKey(c, t) == IndexKey(d, u) {
      var k := IndexKey(c, t);
      assert k[|c|] == '|' && k[|d|] == '|';
      assert forall i :: 0 <= i < |c| ==> k[i] == c[i];
      assert forall i :: 0 <= i < |d| ==> k[i] == d[i];
      assert |c| == |d|;
      assert c == k[..|c|] && t == k[|c| + 1..];
    }
  }

  datatype Role = StateRole | AvailRole | AttrRole

  /** The topics an entity reads in one role, in the order they are indexed; some may be empty. */
  function TopicsOf<V>(role: Role, e: Entity<V>): seq<string> {
    match role
    case StateRole => [e.stateTopic] + ExtraTopics(e.config, EXTRA_STATE_TOPIC_KEYS)
    case AvailRole => SpecTopics(e.availSpecs)
    case AttrRole => [e.attrTopic]
  }

  function SpecTopics(specs: seq<AvailabilitySpec>): (topics: seq<string>)
    ensures |topics| == |specs| && forall i :: 0 <= i < |specs| ==> topics[i] == specs[i].topic
  {
    seq(|specs|, i requires 0 <= i < |specs| => specs[i].topic)
  }

  function ExtraTopics(c: Config, keys: seq<string>): (topics: seq<string>)
    ensures |topics| == |keys| && forall i :: 0 <= i < |keys| ==> topics[i] == Str(c, keys[i])
  {
    seq(|keys|, i requires 0 <= i < |keys| => Str(c, keys[i]))
  }

  /** The entity reads the topic in the role. */
  predicate Uses<V>(role: Role, e: Entity<V>, topic: string) {
    topic != "" && topic in TopicsOf(role, e)
  }

  /** The entity belongs under an index key. */
  ghost predicate UsesKey<V>(role: Role, e: Entity<V>, key: string) {
    exists t :: Uses(role, e, t) && key == IndexKey(e.connectionId, t)
  }

  type Index<V> = map<string, seq<Entity<V>>>

  /** The entities an index lists under a key. */
  ghost function Listed<V>(index: Index<V>, key: string): set<Entity<V>> {
    if key in index then set e | e in index[key] else {}
  }

  ghost predicate NoEmptyList<V>(index: Index<V>) {
    forall k :: k in index ==> index[k] != []
  }

  /** What a scan of all entities finds for a key. */
  ghost function Scan<V>(entities: map<string, Entity<V>>, role: Role, key: string): set<Entity<V>> {
    set e | e in entities.Values && UsesKey(role, e, key)
  }

  /** The index agrees with the scan on every key and holds no empty list. */
  ghost predicate Agrees<V>(index: Index<V>, entities: map<string, Entity<V>>, role: Role) {
    NoEmptyList(index) && forall k {:trigger Scan(entities, role, k)} :: Listed(index, k) == Scan(entities, role, k)
  }

  /** Appends an entity under a topic; the empty topic is not indexed. */
  function Added<V>(index: Index<V>, e: Entity<V>, topic: string): Index<V> {
    if topic == "" then index
    else
      var k := IndexKey(e.connectionId, topic);
      index[k := (if k in index then index[k] else []) + [e]]
  }

  function Others<V>(list: seq<Entity<V>>, id: string): (r: seq<Entity<V>>)
    ensures forall e | e in r :: e in list && e.id != id
    ensures forall e | e in list :: e.id != id ==> e in r
  {
    if list == [] then []
    else (if list[0].id != id then [list[0]] else []) + Others(list[1..], id)
  }

  /** Drops every entity of an id from the list of a topic, and the list when nothing is left. */
  function Dropped<V>(index: Index<V>, e: Entity<V>, topic: string): Index<V> {
    if topic == "" then index
    else
      var k := IndexKey(e.connectionId, topic);
      var rest := Others(if k in index then index[k] else [], e.id);
      if |rest| == 0 then index - {k} else index[k := rest]
  }

  lemma AddedLists<V>(index: Index<V>, e: Entity<V>, topic: string, k: string)
    ensures Listed(Added(index, e, topic), k) ==
      Listed(index, k) + if topic != "" && k == IndexKey(e.connectionId, topic) then {e} else {}
    ensures NoEmptyList(index) ==> NoEmptyList(Added(index, e, topic))
  {
  }

  lemma DroppedLists<V>(index: Index<V>, e: Entity<V>, topic: string, k: string)
    ensures Listed(Dropped(index, e, topic), k) ==
      if topic != "" && k == IndexKey(e.connectionId, topic) then set x | x in Listed(index, k) && x.id != e.id
      else Listed(index, k)
    ensures NoEmptyList(index) ==> NoEmptyList(Dropped(index, e, topic))
  {
    if topic != "" && k == IndexKey(e.connectionId, topic) {
      var rest := Others(if k in index then index[k] else [], e.id);
      assert |rest| == 0 ==> forall x :: x !in rest;
    }
  }

  /** The entity is listed under some of its topics. */
  ghost predicate AmongKeys<V>(e: Entity<V>, topics: seq<string>, key: string) {
    exists i :: 0 <= i < |topics| && topics[i] != "" && key == IndexKey(e.connectionId, topics[i])
  }

  method AddAll<V>(index: Index<V>, e: Entity<V>, topics: seq<string>) returns (r: Index<V>)
    ensures forall k {:trigger Listed(r, k)} ::
      Listed(r, k) == Listed(index, k) + if AmongKeys(e, topics, k) then {e} else {}
    ensures NoEmptyList(index) ==> NoEmptyList(r)
  {
    r := index;
    for i := 0 to |topics|
      invariant forall k {:trigger Listed(r, k)} ::
        Listed(r, k) == Listed(index, k) + if AmongKeys(e, topics[..i], k) then {e} else {}
      invariant NoEmptyList(index) ==> NoEmptyList(r)
    {
      ghost var was := r;
      r := Added(r, e, topics[i]);
      forall k ensures Listed(r, k) == Listed(index, k) + if AmongKeys(e, topics[..i + 1], k) then {e} else {} {
        AddedLists(was, e, topics[i], k);
        AmongKeysStep(e, topics, i, k);
        assert Listed(was, k) == Listed(was, k);
      }
      AddedLists(was, e, topics[i], "");
    }
    assert topics[..|topics|] == topics;
  }

  method DropAll<V>(index: Index<V>, e: Entity<V>, topics: seq<string>) returns (r: Index<V>)
    ensures forall k {:trigger Listed(r, k)} ::
      Listed(r, k) == if AmongKeys(e, topics, k) then NotOf(Listed(index, k), e.id) else Listed(index, k)
    ensures NoEmptyList(index) ==> NoEmptyList(r)
  {
    r := index;
    for i := 0 to |topics|
      invariant forall k {:trigger Listed(r, k)} ::
        Listed(r, k) == if AmongKeys(e, topics[..i], k) then NotOf(Listed(index, k), e.id) else Listed(index, k)
      invariant NoEmptyList(index) ==> NoEmptyList(r)
    {
      ghost var was := r;
      r := Dropped(r, e, topics[i]);
      forall k
        ensures Listed(r, k) == if AmongKeys(e, topics[..i + 1], k) then NotOf(Listed(index, k), e.id)
          else Listed(index, k)
      {
        DroppedLists(was, e, topics[i], k);
        AmongKeysStep(e, topics, i, k);
        assert Listed(was, k) == Listed(was, k);
      }
      DroppedLists(was, e, topics[i], "");
    }
    assert topics[..|topics|] == topics;
  }

  ghost function NotOf<V>(es: set<Entity<V>>, id: string): set<Entity<V>> {
    set x | x in es && x.id != id
  }

  lemma AmongKeysStep<V>(e: Entity<V>, topics: seq<string>, i: nat, k: string)
    requires i < |topics|
    ensures AmongKeys(e, topics[..i + 1], k) <==>
      AmongKeys(e, topics[..i], k) || (topics[i] != "" && k == IndexKey(e.connectionId, topics[i]))
  {
    if AmongKeys(e, topics[..i], k) {
      var j :| 0 <= j < i && topics[..i][j] != "" && k == IndexKey(e.connectionId, topics[..i][j]);
      assert topics[..i + 1][j] == topics[..i][j];
    }
    if topics[i] != "" && k == IndexKey(e.connectionId, topics[i]) {
      assert topics[..i + 1][i] == topics[i];
    }
    if AmongKeys(e, topics[..i + 1], k) {
      var j :| 0 <= j < i + 1 && topics[..i + 1][j] != "" && k == IndexKey(e.connectionId, topics[..i + 1][j]);
      if j < i { assert topics[..i][j] == topics[..i + 1][j]; }
    }
  }

  lemma AmongKeysIsUse<V>(role: Role, e: Entity<V>, k: string)
    ensures AmongKeys(e, TopicsOf(role, e), k) <==> UsesKey(role, e, k)
  {
    var topics := TopicsOf(role, e);
    if AmongKeys(e, topics, k) {
      var i :| 0 <= i < |topics| && topics[i] != "" && k == IndexKey(e.connectionId, topics[i]);
      assert Uses(role, e, topics[i]);
    }
    if UsesKey(role, e, k) {
      var t :| Uses(role, e, t) && k == IndexKey(e.connectionId, t);
      var i :| 0 <= i < |topics| && topics[i] == t;
    }
  }

  /** Entities are keyed by their own id. */
  ghost predicate Keyed<V>(entities: map<string, Entity<V>>) {
    forall id :: id in entities ==> entities[id].id == id
  }

  /** Unindexing an entity leaves the index agreeing with the entities that remain. */
  lemma AgreesWithout<V>(before: Index<V>, after: Index<V>, entities: map<string, Entity<V>>, role: Role, id: string)
    requires Keyed(entities) && id in entities && Agrees(before, entities, role) && NoEmptyList(after)
    requires forall k {:trigger Listed(after, k)} ::
      Listed(after, k) ==
        if AmongKeys(entities[id], TopicsOf(role, entities[id]), k) then NotOf(Listed(before, k), id)
          else Listed(before, k)
    ensures Agrees(after, entities - {id}, role)
  {
    var e := entities[id];
    forall k ensures Listed(after, k) == Scan(entities - {id}, role, k) {
      AmongKeysIsUse(role, e, k);
      assert Listed(before, k) == Scan(entities, role, k);
      ValuesWithout(entities, id);
    }
  }

  lemma ValuesWithout<V>(entities: map<string, Entity<V>>, id: string)
    requires Keyed(entities) && id in entities
    ensures forall x :: x in (entities - {id}).Values <==> x in entities.Values && x.id != id
    ensures forall x :: x in entities.Values && x.id == id ==> x == entities[id]
  {
    var rest := entities - {id};
    forall x | x in rest.Values ensures x in entities.Values && x.id != id {
      var j :| j in rest && rest[j] == x;
    }
    forall x | x in entities.Values && x.id != id ensures x in rest.Values {
      var j :| j in entities && entities[j] == x;
      assert rest[j] == x;
    }
  }

  /** Indexing a new entity leaves the index agreeing with the entities including it. */
  lemma AgreesWith<V>(before: Index<V>, after: Index<V>, entities: map<string, Entity<V>>, role: Role, e: Entity<V>)
    requires Agrees(before, entities, role) && e.id !in entities && NoEmptyList(after)
    requires forall k {:trigger Listed(after, k)} ::
      Listed(after, k) == Listed(before, k) + if AmongKeys(e, TopicsOf(role, e), k) then {e} else {}
    ensures Agrees(after, entities[e.id := e], role)
  {
    forall k ensures Listed(after, k) == Scan(entities[e.id := e], role, k) {
      AmongKeysIsUse(role, e, k);
      assert Listed(before, k) == Scan(entities, role, k);
      ValuesWith(entities, e);
    }
  }

  lemma ValuesWith<V>(entities: map<string, Entity<V>>, e: Entity<V>)
    requires e.id !in entities
    ensures forall x :: x in entities[e.id := e].Values <==> x in entities.Values || x == e
  {
    var more := entities[e.id := e];
    forall x | x in entities.Values ensures x in more.Values {
      var j :| j in entities && entities[j] == x;
      assert more[j] == x;
    }
    assert more[e.id] == e;
  }
}

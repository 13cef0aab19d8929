/** The registry of discovered devices and entities (internal/plugins/hass/registry.go). */
module HassRegistry {
  import opened Collections
  import opened Discovery
  import opened TopicIndex

  datatype Device = Device(key: string, connectionId: string, pinned: bool, firstSeen: int, lastSeen: int)

  /** A config entry read as a list of strings. */
  function Strings(c: Config, key: string): seq<string> {
    if key !in c then []
    else match c[key]
      case List(items) => Texts(items)
      case Text(s) => [s]
      case _ => []
  }

  function Texts(items: seq<ConfigValue>): seq<string> {
    if items == [] then []
    else (if items[0].Text? then [items[0].text] else []) + Texts(items[1..])
  }

  /** Byte-wise order on strings. */
  predicate Before(a: string, b: string) {
    a == "" || (b != "" && (a[0] < b[0] || (a[0] == b[0] && Before(a[1..], b[1..]))))
  }

  function Least(ss: seq<string>): (s: string)
    requires |ss| > 0
    ensures s in ss
  {
    if |ss| == 1 then ss[0]
    else
      var rest := Least(ss[1..]);
      if Before(ss[0], rest) then ss[0] else rest
  }

  /** The first well-formed pair of the device's connections, joined with a colon. */
  function FirstConnection(items: seq<ConfigValue>): Option<string> {
    if items == [] then None
    else match items[0]
      case List(pair) =>
        if |pair| == 2 && pair[0].Text? && pair[1].Text? then Some(pair[0].text + ":" + pair[1].text)
        else FirstConnection(items[1..])
      case _ => FirstConnection(items[1..])
  }

  /** The stable key of a device block: an identifier, else a connection, else the name, else nothing. */
  function DeviceKey(dev: Config): string {
    var ids := Strings(dev, "identifiers");
    if |ids| > 0 then "id:" + Least(ids)
    else
      var cn := if "connections" in dev &&
        dev["connections"].List? then FirstConnection(dev["connections"].items) else None;
      if cn.Some? then "cn:" + cn.value
      else if Str(dev, "name") != "" then "name:" + Str(dev, "name")
      else ""
  }

  /** The key of the device an entity's discovery payload names, empty when it names none. */
  function DeviceOf(cfg: Config): string {
    if "device" in cfg && cfg["device"].Object? then DeviceKey(cfg["device"].fields) else ""
  }

  /** The devices after one of them announced itself; an empty key names none. */
  function Seen(devices: map<string, Device>, pinned: map<string, bool>, connId: string, key: string, now: int)
    : map<string, Device>
  {
    var k := IndexKey(connId, key);
    if key == "" then devices
    else if k in devices then devices[k := devices[k].(lastSeen := now)]
    else devices[k := Device(key, connId, k in pinned && pinned[k], now, now)]
  }

  method Dedupe(ts: seq<string>) returns (out: seq<string>)
    ensures NoRepeats(out) && forall t :: t in out <==> t in ts
  {
    out := [];
    for i := 0 to |ts|
      invariant NoRepeats(out) && forall t :: t in out <==> t in ts[..i]
    {
      assert ts[..i + 1] == ts[..i] + [ts[i]];
      if ts[i] !in out { out := out + [ts[i]]; }
    }
    assert ts[..|ts|] == ts;
  }

  function NonEmpty(ts: seq<string>): (out: seq<string>)
    ensures forall t :: t in out <==> t in ts && t != ""
  {
    if ts == [] then [] else (if ts[0] != "" then [ts[0]] else []) + NonEmpty(ts[1..])
  }

  /** What a template evaluates to: a value, its text, and whether the template was understood. */
  datatype Rendered<V> = Rendered(value: V, text: string, supported: bool)

  /** The template engine: rendering a template, and reading an attributes object. */
  datatype Engine<!V> = Engine(render: (string, string) -> Rendered<V>, attributes: (string,
    string) -> Option<map<string, V>>)

  class Registry<V> {
    var devices: map<string, Device>
    var entities: map<string, Entity<V>>
    var stateIndex: Index<V>
    var availIndex: Index<V>
    var attrIndex: Index<V>
    var pinned: map<string, bool>

    ghost predicate Valid()
      reads this
    {
      && Keyed(entities)
      && (forall id :: id in entities ==> '|' !in entities[id].connectionId)
      && IndexesAgree(entities)
      && DevicesKeyed()
      && DevicesCover(devices, entities)
    }

    ghost predicate IndexesAgree(es: map<string, Entity<V>>)
      reads this
    {
      Agrees(stateIndex, es, StateRole) && Agrees(availIndex, es, AvailRole) && Agrees(attrIndex, es, AttrRole)
    }

    ghost predicate DevicesKeyed()
      reads this
    {
      forall k :: k in devices ==>
        k == IndexKey(devices[k].connectionId, devices[k].key) && '|' !in devices[k].connectionId
    }

    function IndexOf(role: Role): Index<V>
      reads this
    {
      match role
      case StateRole => stateIndex
      case AvailRole => availIndex
      case AttrRole => attrIndex
    }

    constructor ()
      ensures Valid() && entities == map[] && devices == map[]
    {
      devices, entities, pinned := map[], map[], map[];
      stateIndex, availIndex, attrIndex := map[], map[], map[];
    }

    /** Looking a topic up in an index finds exactly the entities of the connection that a scan of all
        entities finds using the topic in that role, all of them current. */
    lemma IndexIsScan(role: Role, connId: string, topic: string)
      requires Valid() && '|' !in connId
      ensures Listed(IndexOf(role), IndexKey(connId, topic)) ==
              set e | e in entities.Values && e.connectionId == connId && Uses(role, e, topic)
      ensures IndexKey(connId, topic) in IndexOf(role) ==> IndexOf(role)[IndexKey(connId, topic)] != []
      ensures forall e :: e in Listed(IndexOf(role), IndexKey(connId, topic)) ==>
        e.id in entities && entities[e.id] == e
    {
      var k := IndexKey(connId, topic);
      assert Listed(IndexOf(role), k) == Scan(entities, role, k);
      forall e | e in entities.Values
        ensures UsesKey(role, e, k) <==> e.connectionId == connId && Uses(role, e, topic)
        ensures e.id in entities && entities[e.id] == e
      {
        var id :| id in entities && entities[id] == e;
        UsesKeyIsUse(role, e, connId, topic);
      }
    }

    /** Records a discovery payload and returns the entity with the topics it must be subscribed to. */
    method Upsert(connId: string, dt: DiscoveryTopic, cfg: Config, now: int) returns (e: Entity<V>, topics: seq<string>)
      requires Valid() && '|' !in connId
      modifies this`entities, this`devices, this`stateIndex, this`availIndex, this`attrIndex
      ensures Valid() && fresh(e)
      ensures FromConfig(e, connId, dt, cfg) && e.updatedAt == now
      ensures entities == old(entities)[e.id := e]
      ensures if e.id in old(entities) then
                var was := old(entities)[e.id];
                e.state == was.state && e.attributes == was.attributes && e.availability == was.availability
                && e.availState == was.availState && e.discoveredAt == was.discoveredAt
              else
                e.state == None && e.attributes == None && e.availability == Unknown && e.availState == map[]
                && e.discoveredAt == now
      ensures NoRepeats(topics) && forall t :: t in topics <==> exists role :: Uses(role, e, t)
      ensures e.deviceKey == DeviceOf(cfg)
      ensures devices == Seen(old(devices), pinned, connId, DeviceOf(cfg), now)
    {
      var key := UpsertDevice(connId, cfg, now);
      e := Announced(connId, dt, cfg, key, now);
      topics := Replace(e);
    }

    /** The entity a payload announces, with what the one it replaces was last known to report. */
    method Announced(connId: string, dt: DiscoveryTopic, cfg: Config, key: string, now: int) returns (e: Entity<V>)
      ensures fresh(e) && FromConfig(e, connId, dt, cfg) && e.deviceKey == key && e.updatedAt == now
      ensures if e.id in entities then
                var was := entities[e.id];
                e.state == was.state && e.attributes == was.attributes && e.availability == was.availability
                && e.availState == was.availState && e.discoveredAt == was.discoveredAt
              else
                e.state == None && e.attributes == None && e.availability == Unknown && e.availState == map[]
                && e.discoveredAt == now
    {
      var id := IndexKey(connId, TopicOf(dt));
      e := new Entity(connId, dt, cfg, key, if id in entities then entities[id].discoveredAt else now, now);
      if id in entities {
        var was := entities[id];
        e.state, e.attributes := was.state, was.attributes;
        e.availability, e.availState := was.availability, was.availState;
      }
    }

    /** Puts an entity in place of the one with the same id, if any. */
    method Replace(e: Entity<V>) returns (topics: seq<string>)
      requires Valid() && '|' !in e.connectionId
      requires e.deviceKey != "" ==> IndexKey(e.connectionId, e.deviceKey) in devices
      modifies this`entities, this`stateIndex, this`availIndex, this`attrIndex
      ensures Valid() && entities == old(entities)[e.id := e]
      ensures NoRepeats(topics) && forall t :: t in topics <==> exists role :: Uses(role, e, t)
    {
      if e.id in entities {
        Unindex(entities[e.id]);
      } else {
        assert entities - {e.id} == entities;
      }
      assert entities[e.id := e] == (entities - {e.id})[e.id := e];
      topics := IndexEntity(entities - {e.id}, e);
      entities := entities[e.id := e];
    }

    /** Finds or creates the device of a payload; an empty key means the payload names none. */
    method UpsertDevice(connId: string, cfg: Config, now: int) returns (key: string)
      requires DevicesKeyed() && '|' !in connId
      modifies this`devices
      ensures DevicesKeyed() && key == DeviceOf(cfg)
      ensures key != "" ==> IndexKey(connId, key) in devices
      ensures devices == Seen(old(devices), pinned, connId, DeviceOf(cfg), now)
    {
      key := DeviceOf(cfg);
      if key != "" {
        var k := IndexKey(connId, key);
        if k in devices {
          devices := devices[k := devices[k].(lastSeen := now)];
        } else {
          devices := devices[k := Device(key, connId, k in pinned && pinned[k], now, now)];
        }
      }
    }

    /** Adds an entity to the topic indexes and returns the topics it needs. */
    method IndexEntity(ghost es: map<string, Entity<V>>, e: Entity<V>) returns (topics: seq<string>)
      requires IndexesAgree(es) && e.id !in es
      modifies this`stateIndex, this`availIndex, this`attrIndex
      ensures IndexesAgree(es[e.id := e])
      ensures NoRepeats(topics) && forall t :: t in topics <==> exists role :: Uses(role, e, t)
    {
      ghost var s, a, t := stateIndex, availIndex, attrIndex;
      stateIndex := AddAll(stateIndex, e, TopicsOf(StateRole, e));
      availIndex := AddAll(availIndex, e, TopicsOf(AvailRole, e));
      attrIndex := AddAll(attrIndex, e, TopicsOf(AttrRole, e));
      AgreesWith(s, stateIndex, es, StateRole, e);
      AgreesWith(a, availIndex, es, AvailRole, e);
      AgreesWith(t, attrIndex, es, AttrRole, e);
      topics := Dedupe(NonEmpty(TopicsOf(StateRole, e) + TopicsOf(AvailRole, e) + TopicsOf(AttrRole, e)));
      forall u ensures u in topics <==> exists role :: Uses(role, e, u) {
        if u in topics {
          var role := if u in TopicsOf(StateRole, e) then StateRole
            else if u in TopicsOf(AvailRole, e) then AvailRole else AttrRole;
          assert Uses(role, e, u);
        }
      }
    }

    /** Takes an entity out of the topic indexes. */
    method Unindex(e: Entity<V>)
      requires Keyed(entities) && IndexesAgree(entities) && e.id in entities && entities[e.id] == e
      modifies this`stateIndex, this`availIndex, this`attrIndex
      ensures IndexesAgree(entities - {e.id})
    {
      ghost var s, a, t := stateIndex, availIndex, attrIndex;
      stateIndex := DropAll(stateIndex, e, TopicsOf(StateRole, e));
      availIndex := DropAll(availIndex, e, TopicsOf(AvailRole, e));
      attrIndex := DropAll(attrIndex, e, TopicsOf(AttrRole, e));
      AgreesWithout(s, stateIndex, entities, StateRole, e.id);
      AgreesWithout(a, availIndex, entities, AvailRole, e.id);
      AgreesWithout(t, attrIndex, entities, AttrRole, e.id);
    }

    /** Deletes an entity and returns the topics, of those it read by state, availability or attributes,
        that no remaining entity reads in the same role. */
    method Remove(connId: string, discoveryTopic: string) returns (topics: seq<string>)
      requires Valid() && '|' !in connId
      modifies this`entities, this`devices, this`stateIndex, this`availIndex, this`attrIndex
      ensures Valid() && entities == old(entities) - {IndexKey(connId, discoveryTopic)}
      ensures var id := IndexKey(connId, discoveryTopic);
        if id !in old(entities) then topics == [] && devices == old(devices)
        else
          var e := old(entities)[id];
          && NoRepeats(topics)
          && (forall t :: t in topics <==>
            exists role :: t in Unsubscribed(role, e) && Orphaned(entities, connId, role, t))
          && devices == if DeviceUsed(connId, e.deviceKey) || e.deviceKey == "" then old(devices)
                        else old(devices) - {IndexKey(connId, e.deviceKey)}
    {
      var id := IndexKey(connId, discoveryTopic);
      if id !in entities {
        assert entities - {id} == entities;
        return [];
      }
      var e := entities[id];
      Unindex(e);
      entities := entities - {id};
      if e.deviceKey != "" {
        var used := UsesDevice(connId, e.deviceKey);
        if !used { DropDevice(connId, e.deviceKey); }
      }
      topics := OrphanedTopics(connId, e);
    }

    /** Some entity of the connection belongs to the device. */
    ghost predicate DeviceUsed(connId: string, key: string)
      reads this
    {
      exists id :: id in entities && entities[id].connectionId == connId && entities[id].deviceKey == key
    }

    method UsesDevice(connId: string, key: string) returns (used: bool)
      ensures used == DeviceUsed(connId, key)
    {
      var todo := entities.Keys;
      while todo != {}
        invariant todo <= entities.Keys
        invariant forall id :: id in entities && id !in todo ==>
          !(entities[id].connectionId == connId && entities[id].deviceKey == key)
      {
        var id :| id in todo;
        if entities[id].connectionId == connId && entities[id].deviceKey == key { return true; }
        todo := todo - {id};
      }
      return false;
    }

    /** Forgets a device no entity belongs to. */
    method DropDevice(connId: string, key: string)
      requires Keyed(entities) && DevicesKeyed() && DevicesCover(devices, entities) && '|' !in connId
      requires forall id :: id in entities ==> '|' !in entities[id].connectionId
      requires !DeviceUsed(connId, key)
      modifies this`devices
      ensures DevicesKeyed() && DevicesCover(devices, entities)
      ensures devices == old(devices) - {IndexKey(connId, key)}
    {
      forall id | id in entities
        ensures IndexKey(entities[id].connectionId, entities[id].deviceKey) != IndexKey(connId, key)
      {
        IndexKeyInjective(entities[id].connectionId, entities[id].deviceKey, connId, key);
      }
      devices := devices - {IndexKey(connId, key)};
    }

    method OrphanedTopics(connId: string, e: Entity<V>) returns (out: seq<string>)
      requires Valid() && '|' !in connId
      ensures NoRepeats(out)
      ensures forall t :: t in out <==> exists role :: t in Unsubscribed(role, e) && Orphaned(entities, connId, role, t)
    {
      var s := Unread(connId, StateRole, Unsubscribed(StateRole, e));
      var a := Unread(connId, AvailRole, Unsubscribed(AvailRole, e));
      var t := Unread(connId, AttrRole, Unsubscribed(AttrRole, e));
      out := Dedupe(s + a + t);
      forall u | u in out ensures exists role :: u in Unsubscribed(role, e) && Orphaned(entities, connId, role, u) {
        var role := if u in s then StateRole else if u in a then AvailRole else AttrRole;
        assert u in Unsubscribed(role, e) && Orphaned(entities, connId, role, u);
      }
    }

    /** Those of some topics that no entity reads in a role. */
    method Unread(connId: string, role: Role, topics: seq<string>) returns (out: seq<string>)
      requires Valid() && '|' !in connId
      ensures forall t :: t in out <==> t in topics && Orphaned(entities, connId, role, t)
    {
      out := [];
      for i := 0 to |topics|
        invariant forall t :: t in out <==> t in topics[..i] && Orphaned(entities, connId, role, t)
      {
        assert topics[..i + 1] == topics[..i] + [topics[i]];
        UnlistedIsOrphaned(connId, role, topics[i]);
        if topics[i] != "" && |At(IndexOf(role), IndexKey(connId, topics[i]))| == 0 {
          out := out + [topics[i]];
        }
      }
      assert topics[..|topics|] == topics;
    }

    lemma UnlistedIsOrphaned(connId: string, role: Role, topic: string)
      requires Valid() && '|' !in connId
      ensures topic != "" ==> (|At(IndexOf(role), IndexKey(connId, topic))| == 0 <==>
        Orphaned(entities, connId, role, topic))
    {
      IndexIsScan(role, connId, topic);
      var k := IndexKey(connId, topic);
      if k in IndexOf(role) {
        var e := IndexOf(role)[k][0];
        assert e in Listed(IndexOf(role), k);
        assert entities[e.id] == e;
      } else {
        assert Listed(IndexOf(role), k) == {};
        forall id | id in entities ensures !Reads(role, entities[id], connId, topic) {
          assert entities[id] in entities.Values;
          assert entities[id] !in Listed(IndexOf(role), k);
        }
      }
    }

    /** Drops everything learned from one broker. */
    method ClearConnection(connId: string)
      requires Valid() && '|' !in connId
      modifies this`entities, this`devices, this`stateIndex, this`availIndex, this`attrIndex
      ensures Valid()
      ensures entities == map id | id in old(entities) && old(entities)[id].connectionId != connId :: old(entities)[id]
      ensures devices == map k | k in old(devices) && old(devices)[k].connectionId != connId :: old(devices)[k]
    {
      ClearEntities(connId);
      DevicesCoverOthers(connId);
      devices := map k | k in devices && devices[k].connectionId != connId :: devices[k];
    }

    method ClearEntities(connId: string)
      requires Valid()
      modifies this`entities, this`stateIndex, this`availIndex, this`attrIndex
      ensures Valid()
      ensures entities == map id | id in old(entities) && old(entities)[id].connectionId != connId :: old(entities)[id]
    {
      var todo := entities.Keys;
      ghost var before := entities;
      while todo != {}
        invariant Valid() && todo <= entities.Keys
        invariant entities == map id | id in before && (id in todo || before[id].connectionId != connId) :: before[id]
      {
        var id :| id in todo;
        if entities[id].connectionId == connId { Forget(id); }
        todo := todo - {id};
      }
    }

    method Forget(id: string)
      requires Valid() && id in entities
      modifies this`entities, this`stateIndex, this`availIndex, this`attrIndex
      ensures Valid() && entities == old(entities) - {id}
    {
      Unindex(entities[id]);
      entities := entities - {id};
    }

    lemma DevicesCoverOthers(connId: string)
      requires Valid() && forall id :: id in entities ==> entities[id].connectionId != connId
      ensures DevicesCover(map k | k in devices && devices[k].connectionId != connId :: devices[k], entities)
    {
      forall id | id in entities && entities[id].deviceKey != ""
        ensures devices[IndexKey(entities[id].connectionId, entities[id].deviceKey)].connectionId != connId
      {
        var k := IndexKey(entities[id].connectionId, entities[id].deviceKey);
        IndexKeyInjective(entities[id].connectionId, entities[id].deviceKey, devices[k].connectionId, devices[k].key);
      }
    }

    /** Routes a message to the entities that read its topic, and returns those that changed: exactly
        the entities a scan finds, each updated in just the roles it uses the topic in. */
    method ApplyState(eng: Engine<V>, connId: string, topic: string, payload: string, now: int)
      returns (touched: set<Entity<V>>)
      requires Valid() && '|' !in connId
      modifies entities.Values
      ensures Valid() && entities == old(entities)
      ensures forall e :: e in touched <==>
        && e in entities.Values
        && (Reads(StateRole, e, connId, topic) || Reads(AvailRole, e, connId, topic)
            || (Reads(AttrRole, e, connId, topic) && eng.attributes(e.attrTemplate, payload).Some?))
      ensures forall e :: e in entities.Values ==>
        && e.state == (if Reads(StateRole, e, connId, topic) then Some(StateFrom(eng, e, topic, payload, now))
          else old(e.state))
        && e.availState == (if Reads(AvailRole, e, connId, topic)
                            then old(e.availState)[topic :=
                              Verdict(eng, e.availSpecs, topic, payload)] else old(e.availState))
        && e.availability == (if Reads(AvailRole, e, connId, topic) then Combined(e.config, e.availState)
          else old(e.availability))
        && e.attributes == (if Reads(AttrRole, e, connId, topic) && eng.attributes(e.attrTemplate, payload).Some?
                            then eng.attributes(e.attrTemplate, payload) else old(e.attributes))
        && e.updatedAt == (if e in touched then now else old(e.updatedAt))
    {
      var k := IndexKey(connId, topic);
      var s, a, t := At(stateIndex, k), At(availIndex, k), At(attrIndex, k);
      IndexReads(StateRole, connId, topic);
      IndexReads(AvailRole, connId, topic);
      IndexReads(AttrRole, connId, topic);
      forall e | e in a ensures topic in SpecTopics(e.availSpecs) { assert Reads(AvailRole, e, connId, topic); }
      touched := ApplyToAll(s, a, t, eng, topic, payload, now, entities.Values);
    }

    lemma IndexReads(role: Role, connId: string, topic: string)
      requires Valid() && '|' !in connId
      ensures forall e :: e in At(IndexOf(role), IndexKey(connId, topic)) <==>
        e in entities.Values && Reads(role, e, connId, topic)
    {
      IndexIsScan(role, connId, topic);
      var k := IndexKey(connId, topic);
      forall e ensures e in At(IndexOf(role), k) <==> e in Listed(IndexOf(role), k) {}
    }
  }

  function At<V>(index: Index<V>, key: string): seq<Entity<V>> {
    if key in index then index[key] else []
  }

  /** The entity belongs to the connection and reads the topic in the role. */
  ghost predicate Reads<V>(role: Role, e: Entity<V>, connId: string, topic: string) {
    e.connectionId == connId && Uses(role, e, topic)
  }

  /** The topics an entity is asked about when it goes: its extra state topics are not among them. */
  function Unsubscribed<V>(role: Role, e: Entity<V>): seq<string> {
    match role
    case StateRole => [e.stateTopic]
    case AvailRole => SpecTopics(e.availSpecs)
    case AttrRole => [e.attrTopic]
  }

  /** None of the entities reads the topic of the connection in the role. */
  ghost predicate Orphaned<V>(es: map<string, Entity<V>>, connId: string, role: Role, topic: string) {
    topic != "" && forall id :: id in es ==> !Reads(role, es[id], connId, topic)
  }

  /** The template for a topic other than the primary state topic: that of the first extra key naming it. */
  function SecondaryTemplate(c: Config, keys: seq<string>, topic: string): string {
    if keys == [] then ""
    else if Str(c, keys[0]) != topic then SecondaryTemplate(c, keys[1..], topic)
    else
      var suffix := "_state_topic";
      var n := |keys[0]| - |suffix|;
      if n >= 0 && keys[0][n..] == suffix then
        var base := keys[0][..n];
        StrDefault(c, base + "_value_template", Str(c, base + "_state_template"))
      else if keys[0] == "position_topic" then Str(c, "position_template")
      else if keys[0] == "current_temperature_topic" then Str(c, "current_temperature_template")
      else if keys[0] == "tilt_status_topic" then Str(c, "tilt_status_template")
      else if keys[0] == "action_topic" then Str(c, "action_template")
      else SecondaryTemplate(c, keys[1..], topic)
  }

  function StateFrom<V>(eng: Engine<V>, e: Entity<V>, topic: string, payload: string, now: int): EntityState<V> {
    var tpl := if topic != e.stateTopic then SecondaryTemplate(e.config, EXTRA_STATE_TOPIC_KEYS, topic)
      else e.valueTemplate;
    var res := eng.render(tpl, payload);
    EntityState(payload, res.value, res.supported, now)
  }

  /** Updates the entities of the three lists, each in its own way, and no other of `all`. */
  method ApplyToAll<V>(s: seq<Entity<V>>, a: seq<Entity<V>>, t: seq<Entity<V>>, eng: Engine<V>,
                       topic: string, payload: string, now: int, ghost all: set<Entity<V>>)
    returns (touched: set<Entity<V>>)
    requires forall e :: e in s || e in a || e in t ==> e in all
    requires forall e :: e in a ==> topic in SpecTopics(e.availSpecs)
    modifies all
    ensures forall e :: e in touched <==> e in s || e in a || (e in t && eng.attributes(e.attrTemplate, payload).Some?)
    ensures forall e :: e in all ==>
      && e.state == (if e in s then Some(StateFrom(eng, e, topic, payload, now)) else old(e.state))
      && e.availState == (if e in a then old(e.availState)[topic := Verdict(eng, e.availSpecs, topic, payload)]
                          else old(e.availState))
      && e.availability == (if e in a then Combined(e.config, e.availState) else old(e.availability))
      && e.attributes == (if e in t && eng.attributes(e.attrTemplate, payload).Some?
                          then eng.attributes(e.attrTemplate, payload) else old(e.attributes))
      && e.updatedAt == (if e in touched then now else old(e.updatedAt))
  {
    ApplyToState(s, eng, topic, payload, now);
    ApplyToAvailability(a, eng, topic, payload, now);
    var changed := ApplyToAttributes(t, eng, payload, now);
    touched := (set e | e in s) + (set e | e in a) + changed;
  }

  method ApplyToState<V>(list: seq<Entity<V>>, eng: Engine<V>, topic: string, payload: string, now: int)
    modifies list`state, list`updatedAt
    ensures forall e :: e in list ==> e.state == Some(StateFrom(eng, e, topic, payload, now)) && e.updatedAt == now
  {
    for i := 0 to |list|
      invariant forall j :: 0 <= j < i ==>
        list[j].state == Some(StateFrom(eng, list[j], topic, payload, now)) && list[j].updatedAt == now
    {
      list[i].state := Some(StateFrom(eng, list[i], topic, payload, now));
      list[i].updatedAt := now;
    }
  }

  /** What one availability source says about a payload. */
  function Says<V>(eng: Engine<V>, spec: AvailabilitySpec, payload: string): Availability {
    var text := eng.render(spec.template, payload).text;
    if text == spec.online then Online else if text == spec.offline then Offline else Unknown
  }

  /** What the sources on a topic say; the last of them counts. */
  function Verdict<V>(eng: Engine<V>, specs: seq<AvailabilitySpec>, topic: string, payload: string): Availability {
    if specs == [] then Unknown
    else if specs[|specs| - 1].topic == topic then Says(eng, specs[|specs| - 1], payload)
    else Verdict(eng, specs[..|specs| - 1], topic, payload)
  }

  /** An entity's availability from all its sources, by its availability mode. */
  function Combined(c: Config, states: map<string, Availability>): Availability {
    var online := exists t :: t in states && states[t] == Online;
    var offline := exists t :: t in states && states[t] == Offline;
    if StrDefault(c, "availability_mode", "latest") == "all" then
      if offline then Offline else if online then Online else Unknown
    else
      if online then Online else if offline then Offline else Unknown
  }

  method ApplyToAvailability<V>(list: seq<Entity<V>>, eng: Engine<V>, topic: string, payload: string, now: int)
    requires forall e :: e in list ==> topic in SpecTopics(e.availSpecs)
    modifies list`availState, list`availability, list`updatedAt
    ensures forall e :: e in list ==>
      && e.availState == old(e.availState)[topic := Verdict(eng, e.availSpecs, topic, payload)]
      && e.availability == Combined(e.config, e.availState) && e.updatedAt == now
  {
    for i := 0 to |list|
      invariant forall e :: e in list[..i] ==>
        && e.availState == old(e.availState)[topic := Verdict(eng, e.availSpecs, topic, payload)]
        && e.availability == Combined(e.config, e.availState) && e.updatedAt == now
      invariant forall e :: e in list && e !in list[..i] ==> e.availState == old(e.availState)
    {
      var e := list[i];
      assert e in list;
      var states := ReadSources(eng, e.availSpecs, topic, payload, e.availState);
      e.availState := states;
      e.availability := Combined(e.config, e.availState);
      e.updatedAt := now;
      assert list[..i + 1] == list[..i] + [e];
    }
    assert list[..|list|] == list;
  }

  /** Records what each source on the topic says, in order. */
  method ReadSources<V>(eng: Engine<V>, specs: seq<AvailabilitySpec>, topic: string, payload: string,
                        before: map<string, Availability>) returns (states: map<string, Availability>)
    ensures states == if topic in SpecTopics(specs) then before[topic :=
      Verdict(eng, specs, topic, payload)] else before
  {
    states := before;
    for i := 0 to |specs|
      invariant states ==
        if topic in SpecTopics(specs[..i]) then before[topic := Verdict(eng, specs[..i], topic, payload)] else before
    {
      assert specs[..i + 1][..i] == specs[..i];
      assert SpecTopics(specs[..i + 1]) == SpecTopics(specs[..i]) + [specs[i].topic];
      if specs[i].topic == topic { states := states[topic := Says(eng, specs[i], payload)]; }
    }
    assert specs[..|specs|] == specs;
  }

  method ApplyToAttributes<V>(list: seq<Entity<V>>, eng: Engine<V>, payload: string, now: int)
    returns (changed: set<Entity<V>>)
    modifies list`attributes, list`updatedAt
    ensures forall e :: e in changed <==> e in list && eng.attributes(e.attrTemplate, payload).Some?
    ensures forall e :: e in list ==>
      && e.attributes == (if e in changed then eng.attributes(e.attrTemplate, payload) else old(e.attributes))
      && e.updatedAt == (if e in changed then now else old(e.updatedAt))
  {
    changed := {};
    for i := 0 to |list|
      invariant forall e :: e in changed <==> e in list[..i] && eng.attributes(e.attrTemplate, payload).Some?
      invariant forall e :: e in list ==>
        && e.attributes == (if e in changed then eng.attributes(e.attrTemplate, payload) else old(e.attributes))
        && e.updatedAt == (if e in changed then now else old(e.updatedAt))
    {
      var e := list[i];
      assert list[..i + 1] == list[..i] + [e];
      var attrs := eng.attributes(e.attrTemplate, payload);
      if attrs.Some? {
        e.attributes, e.updatedAt := attrs, now;
        changed := changed + {e};
      }
    }
    assert list[..|list|] == list;
  }

  /** Every entity's device is known. */
  ghost predicate DevicesCover<V>(devices: map<string, Device>, entities: map<string, Entity<V>>) {
    forall id :: id in entities && entities[id].deviceKey != "" ==>
      IndexKey(entities[id].connectionId, entities[id].deviceKey) in devices
  }

  lemma UsesKeyIsUse<V>(role: Role, e: Entity<V>, connId: string, topic: string)
    requires '|' !in e.connectionId && '|' !in connId
    ensures UsesKey(role, e, IndexKey(connId, topic)) <==> e.connectionId == connId && Uses(role, e, topic)
  {
    if UsesKey(role, e, IndexKey(connId, topic)) {
      var t :| Uses(role, e, t) && IndexKey(connId, topic) == IndexKey(e.connectionId, t);
      IndexKeyInjective(connId, topic, e.connectionId, t);
    }
  }

  const StateOnT: Config := map["state_topic" := Text("t")]
  const AvailOnT: Config := map["availability_topic" := Text("t")]

  lemma {:induction false} ReadersOfT(e: Entity<int>, a: DiscoveryTopic, f: Entity<int>, b: DiscoveryTopic)
    requires FromConfig(e, "c", a, StateOnT) && FromConfig(f, "c", b, AvailOnT)
    ensures e.stateTopic == "t" && Reads(AvailRole, f, "c", "t") && !Uses(StateRole, f, "t")
  {
    assert "availability" !in AvailOnT;
    assert f.availSpecs[0].topic == "t";
    NoExtraTopics();
  }

  lemma NoExtraTopics()
    ensures forall i :: 0 <= i < |EXTRA_STATE_TOPIC_KEYS| ==> Str(AvailOnT, EXTRA_STATE_TOPIC_KEYS[i]) == ""
  {
  }

  method AnnounceTwo(a: DiscoveryTopic, b: DiscoveryTopic) returns (r: Registry<int>, e: Entity<int>, f: Entity<int>)
    requires TopicOf(a) != TopicOf(b)
    ensures fresh(r) && r.Valid()
    ensures e.id != f.id && e.id == IndexKey("c", TopicOf(a))
    ensures r.entities.Keys == {e.id, f.id} && r.entities[e.id] == e && r.entities[f.id] == f
    ensures FromConfig(e, "c", a, StateOnT) && FromConfig(f, "c", b, AvailOnT)
  {
    IndexKeyInjective("c", TopicOf(a), "c", TopicOf(b));
    r := new Registry<int>();
    var _, _ := r.Upsert("c", a, StateOnT, 1);
    e := r.entities[IndexKey("c", TopicOf(a))];
    var _, _ := r.Upsert("c", b, AvailOnT, 2);
    f := r.entities[IndexKey("c", TopicOf(b))];
  }

  /** A topic reported as no longer needed can still be read: the roles are checked one by one. Here a
      topic that was one entity's state topic is another entity's availability topic. */
  method OrphanStillRead(a: DiscoveryTopic, b: DiscoveryTopic) returns (r: Registry<int>, topics: seq<string>)
    requires TopicOf(a) != TopicOf(b)
    ensures "t" in topics
    ensures exists id :: id in r.entities && Reads(AvailRole, r.entities[id], "c", "t")
  {
    var e, f;
    r, e, f := AnnounceTwo(a, b);
    ReadersOfT(e, a, f, b);
    assert "t" in Unsubscribed(StateRole, e);
    topics := r.Remove("c", TopicOf(a));
    assert f.id in r.entities && Reads(AvailRole, r.entities[f.id], "c", "t");
    assert Orphaned(r.entities, "c", StateRole, "t");
  }

  // What Remove reports, against what no remaining entity uses.

  /** What is reported when the entity of an id goes: role by role, its main topics that no other entity reads
      in that role. */
  ghost predicate Reported<V>(es: map<string, Entity<V>>, connId: string, id: string, topics: seq<string>)
    requires id in es
  {
    forall t {:trigger t in topics} ::
      t in topics <==> exists role :: t in Unsubscribed(role, es[id]) && Orphaned(es - {id}, connId, role, t)
  }

  /** No entity reads the topic in any role. */
  ghost predicate NobodyReads<V>(es: map<string, Entity<V>>, connId: string, topic: string) {
    forall id, role :: id in es ==> !Reads(role, es[id], connId, topic)
  }

  /** Another entity reads one of the entity's main topics, but none does in the role the entity has it in. */
  ghost predicate ReadInOtherRole<V>(es: map<string, Entity<V>>, connId: string, id: string)
    requires id in es
  {
    exists role, t ::
      t in Unsubscribed(role, es[id]) && Orphaned(es - {id}, connId, role, t) && ReadByAnother(es, connId, id, t)
  }

  ghost predicate ReadByAnother<V>(es: map<string, Entity<V>>, connId: string, id: string, topic: string) {
    exists other, role :: other in es && other != id && Reads(role, es[other], connId, topic)
  }

  lemma NobodyIsNoOther<V>(es: map<string, Entity<V>>, connId: string, id: string, topic: string)
    ensures NobodyReads(es - {id}, connId, topic) <==> !ReadByAnother(es, connId, id, topic)
  {
    var rest := es - {id};
    if other, role :| other in es && other != id && Reads(role, es[other], connId, topic) {
      assert rest[other] == es[other];
    }
    if k, role :| k in rest && Reads(role, rest[k], connId, topic) {
      assert es[k] == rest[k];
    }
  }

  /** What is reported is really unused exactly when no other entity reads one of the entity's main topics in
      other roles only. */
  lemma ReportedAreUnread<V>(es: map<string, Entity<V>>, connId: string, id: string, topics: seq<string>)
    requires id in es && Reported(es, connId, id, topics)
    ensures (forall t :: t in topics ==> NobodyReads(es - {id}, connId, t)) <==> !ReadInOtherRole(es, connId, id)
  {
    forall t ensures NobodyReads(es - {id}, connId, t) <==> !ReadByAnother(es, connId, id, t) {
      NobodyIsNoOther(es, connId, id, t);
    }
    if ReadInOtherRole(es, connId, id) {
      var role, t :|
        t in Unsubscribed(role, es[id]) && Orphaned(es - {id}, connId, role, t) && ReadByAnother(es, connId, id, t);
      assert t in topics;
    }
  }

  /** A topic that the entity used and nobody reads any more is missing from the report exactly when it is none
      of the entity's main topics: it is one of the extra state topics. */
  lemma MissedAreExtra<V>(es: map<string, Entity<V>>, connId: string, id: string, topics: seq<string>, topic: string)
    requires id in es && Reported(es, connId, id, topics)
    requires (exists role :: Uses(role, es[id], topic)) && NobodyReads(es - {id}, connId, topic)
    ensures topic !in topics <==> forall role :: topic !in Unsubscribed(role, es[id])
    ensures topic !in topics ==> topic in ExtraTopics(es[id].config, EXTRA_STATE_TOPIC_KEYS)
  {
    forall role ensures Orphaned(es - {id}, connId, role, topic) {
      assert topic != "";
    }
    var role :| Uses(role, es[id], topic);
    if topic !in topics {
      assert topic !in Unsubscribed(role, es[id]);
      assert topic in TopicsOf(role, es[id]);
    }
  }

  const PositionOnP: Config := map["position_topic" := Text("p")]

  /** A topic nobody reads any more that is not reported: an entity that follows a position topic only. */
  method PositionMissed(dt: DiscoveryTopic) returns (r: Registry<int>, e: Entity<int>, topics: seq<string>)
    ensures FromConfig(e, "c", dt, PositionOnP) && Reads(StateRole, e, "c", "p")
    ensures r.entities == map[] && topics == []
  {
    r, e := AnnounceOne(dt, PositionOnP);
    OnlyPosition(e, dt);
    topics := r.Remove("c", TopicOf(dt));
    SomethingIn(topics);
  }

  lemma SomethingIn(ts: seq<string>)
    ensures ts != [] ==> exists t :: t in ts
  {
    if ts != [] { assert ts[0] in ts; }
  }

  method AnnounceOne(dt: DiscoveryTopic, cfg: Config) returns (r: Registry<int>, e: Entity<int>)
    ensures fresh(r) && r.Valid() && r.entities == map[e.id := e]
    ensures FromConfig(e, "c", dt, cfg)
  {
    r := new Registry<int>();
    var followed;
    e, followed := r.Upsert("c", dt, cfg, 1);
  }

  lemma OnlyPosition(e: Entity<int>, dt: DiscoveryTopic)
    requires FromConfig(e, "c", dt, PositionOnP)
    ensures Reads(StateRole, e, "c", "p")
    ensures forall role, t :: t in Unsubscribed(role, e) ==> t == ""
  {
    assert ExtraTopics(PositionOnP, EXTRA_STATE_TOPIC_KEYS)[0] == "p";
    assert "availability" !in PositionOnP && Str(PositionOnP, "availability_topic") == "";
    assert e.availSpecs == [];
  }
}

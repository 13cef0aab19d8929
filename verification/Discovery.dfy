/** Home Assistant discovery topics (internal/plugins/hass/discovery.go). */
module Discovery {
  import opened Collections
  import opened Levels

  /** `<prefix>/<component>/[<node>/]<object>/config`. */
  datatype DiscoveryTopic = DiscoveryTopic(
    prefix: string,
    component: string,
    nodeId: string,
    objectId: string,
    deviceScoped: bool)

  const CONFIG := "config"

  function ParseDiscoveryTopic(prefix: string, topic: string): Option<DiscoveryTopic> {
    if !(prefix + "/" <= topic) then None
    else
      var parts := Split(topic[|prefix| + 1..], '/');
      if |parts| < 3 || |parts| > 4 || parts[|parts| - 1] != CONFIG then None
      else if exists i :: 0 <= i < |parts| - 1 && parts[i] == "" then None
      else if |parts| == 4 then Some(DiscoveryTopic(prefix, parts[0], parts[1], parts[2], parts[0] == "device"))
      else Some(DiscoveryTopic(prefix, parts[0], "", parts[1], parts[0] == "device"))
  }

  /** The levels after the prefix. */
  function Parts(dt: DiscoveryTopic): seq<string> {
    if dt.nodeId != "" then [dt.component, dt.nodeId, dt.objectId, CONFIG] else [dt.component, dt.objectId, CONFIG]
  }

  /** The topic a discovery record was announced on; it is the entity's identity. */
  function TopicOf(dt: DiscoveryTopic): string {
    Join([dt.prefix] + Parts(dt), '/')
  }

  /** The records parsing can produce: one-level names, none empty but the optional node. */
  predicate WellFormed(dt: DiscoveryTopic) {
    && dt.component != "" && dt.objectId != ""
    && '/' !in dt.component && '/' !in dt.nodeId && '/' !in dt.objectId
    && dt.deviceScoped == (dt.component == "device")
  }

  lemma TopicOfRest(dt: DiscoveryTopic)
    ensures TopicOf(dt) == dt.prefix + "/" + Join(Parts(dt), '/')
  {
    assert ([dt.prefix] + Parts(dt))[1..] == Parts(dt);
  }

  /** A record's topic spelled out: prefix, component, node if there is one, object and `config`. */
  lemma TopicSpelled(dt: DiscoveryTopic)
    ensures TopicOf(dt) == dt.prefix + "/" + (dt.component + "/" +
      ((if dt.nodeId != "" then dt.nodeId + "/" else "") + (dt.objectId + "/config")))
  {
    TopicOfRest(dt);
    var last := [dt.objectId, CONFIG];
    assert last[1..] == [CONFIG];
    assert Join(last, '/') == dt.objectId + "/config";
    if dt.nodeId != "" {
      assert Parts(dt)[1..] == [dt.nodeId] + last && ([dt.nodeId] + last)[1..] == last;
      assert Join([dt.nodeId] + last, '/') == dt.nodeId + "/" + Join(last, '/');
    } else {
      assert Parts(dt)[1..] == last;
    }
  }

  /** Every accepted topic is rebuilt exactly. */
  lemma ParseRebuilds(prefix: string, topic: string)
    requires ParseDiscoveryTopic(prefix, topic).Some?
    ensures var dt := ParseDiscoveryTopic(prefix, topic).value;
      WellFormed(dt) && dt.prefix == prefix && TopicOf(dt) == topic
  {
    var dt := ParseDiscoveryTopic(prefix, topic).value;
    var rest := topic[|prefix| + 1..];
    var parts := Split(rest, '/');
    assert Parts(dt) == parts;
    JoinSplit(rest, '/');
    TopicOfRest(dt);
    assert topic == topic[..|prefix| + 1] + rest;
    assert topic[..|prefix| + 1] == prefix + "/";
  }

  /** Every well-formed record is read back from its own topic. */
  lemma ParseTopicOf(dt: DiscoveryTopic)
    requires WellFormed(dt)
    ensures ParseDiscoveryTopic(dt.prefix, TopicOf(dt)) == Some(dt)
  {
    TopicOfRest(dt);
    var topic := TopicOf(dt);
    assert topic[|dt.prefix| + 1..] == Join(Parts(dt), '/');
    SplitJoin(Parts(dt), '/');
    assert topic[..|dt.prefix| + 1] == dt.prefix + "/";
  }

  /** Two accepted topics never share an identity: topics and records correspond one to one. */
  lemma DistinctTopicsDistinctRecords(prefix: string, a: string, b: string)
    requires ParseDiscoveryTopic(prefix, a).Some? && ParseDiscoveryTopic(prefix, b).Some?
    ensures ParseDiscoveryTopic(prefix, a) == ParseDiscoveryTopic(prefix, b) <==> a == b
    ensures TopicOf(ParseDiscoveryTopic(prefix, a).value) == TopicOf(ParseDiscoveryTopic(prefix, b).value) <==> a == b
  {
    ParseRebuilds(prefix, a);
    ParseRebuilds(prefix, b);
  }

  /** The topics accepted are exactly those some well-formed record is announced on. */
  lemma AcceptedExactly(prefix: string, topic: string)
    ensures ParseDiscoveryTopic(prefix, topic).Some? <==>
      exists dt :: WellFormed(dt) && dt.prefix == prefix && TopicOf(dt) == topic
  {
    if ParseDiscoveryTopic(prefix, topic).Some? { ParseRebuilds(prefix, topic); }
    if dt :| WellFormed(dt) && dt.prefix == prefix && TopicOf(dt) == topic { ParseTopicOf(dt); }
  }
}

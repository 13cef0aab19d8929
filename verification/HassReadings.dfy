/** What the registry (internal/plugins/hass/registry.go) reads out of a discovery payload, and what it makes of the
    messages that follow: which template reads a topic, and who says what about availability. */
module HassReadings {
  import opened Collections
  import opened Discovery
  import opened HassRegistry
  import opened TopicIndex

  // Settings.

  /** A setting reads as a non-empty string when it is that text, a number written so, or a flag. */
  lemma SettingMeans(c: Config, key: string, s: string)
    requires s != ""
    ensures Str(c, key) == s <==> key in c && ReadsAs(c[key], s)
  {
  }

  predicate ReadsAs(v: ConfigValue, s: string) {
    v == Text(s) || v == Number(s) || (v == Flag(true) && s == "true") || (v == Flag(false) && s == "false")
  }

  /** An entity's state comes on the state topic its payload names and on those of the extra keys. */
  lemma {:induction false} StateTopicsRead<V>(e: Entity<V>, connId: string, dt: DiscoveryTopic, cfg: Config,
                                              topic: string)
    requires FromConfig(e, connId, dt, cfg) && topic != ""
    ensures Uses(StateRole, e, topic) <==>
      Str(cfg, "state_topic") == topic || exists k :: k in EXTRA_STATE_TOPIC_KEYS && Str(cfg, k) == topic
  {
    ExtraMean(cfg, EXTRA_STATE_TOPIC_KEYS, topic);
  }

  /** Its availability comes on the topics of its sources, and its attributes on one topic with a template. */
  lemma {:induction false} OtherTopicsRead<V>(e: Entity<V>, connId: string, dt: DiscoveryTopic, cfg: Config,
                                              topic: string)
    requires FromConfig(e, connId, dt, cfg) && topic != ""
    ensures Uses(AvailRole, e, topic) <==> exists s :: s in AvailabilityTopics(cfg) && s.topic == topic
    ensures Uses(AttrRole, e, topic) <==> Str(cfg, "json_attributes_topic") == topic
    ensures e.attrTemplate == Str(cfg, "json_attributes_template")
  {
    SpecsMean(e.availSpecs, topic);
  }

  lemma ExtraMean(c: Config, keys: seq<string>, topic: string)
    ensures topic in ExtraTopics(c, keys) <==> exists k :: k in keys && Str(c, k) == topic
  {
    var extra := ExtraTopics(c, keys);
    if k :| k in keys && Str(c, k) == topic {
      var i :| 0 <= i < |keys| && keys[i] == k;
      assert extra[i] == topic;
    }
    if i :| 0 <= i < |extra| && extra[i] == topic { assert keys[i] in keys; }
  }

  lemma SpecsMean(specs: seq<AvailabilitySpec>, topic: string)
    ensures topic in SpecTopics(specs) <==> exists s :: s in specs && s.topic == topic
  {
    var topics := SpecTopics(specs);
    if s :| s in specs && s.topic == topic {
      var i :| 0 <= i < |specs| && specs[i] == s;
      assert topics[i] == topic;
    }
    if i :| 0 <= i < |topics| && topics[i] == topic { assert specs[i] in specs; }
  }

  // Which template reads a topic.

  /** The i-th key is the first that names the topic. */
  ghost predicate FirstNames(c: Config, keys: seq<string>, topic: string, i: nat) {
    i < |keys| && Str(c, keys[i]) == topic && forall j :: 0 <= j < i ==> Str(c, keys[j]) != topic
  }

  /** The template that goes with an extra key: `x_value_template` or else `x_state_template` with `x_state_topic`,
      and with the other four the one named after them. */
  ghost predicate GoesWith(c: Config, key: string, template: string) {
    && (forall x: string :: key == x + "_state_topic" ==>
          template == (if Str(c, x + "_value_template") != "" then Str(c, x + "_value_template")
                       else Str(c, x + "_state_template")))
    && (key == "position_topic" ==> template == Str(c, "position_template"))
    && (key == "current_temperature_topic" ==> template == Str(c, "current_temperature_template"))
    && (key == "tilt_status_topic" ==> template == Str(c, "tilt_status_template"))
    && (key == "action_topic" ==> template == Str(c, "action_template"))
  }

  /** The template goes with the first of the keys that names the topic. */
  ghost predicate TemplateOf(c: Config, keys: seq<string>, topic: string, template: string) {
    exists i: nat :: FirstNames(c, keys, topic, i) && GoesWith(c, keys[i], template)
  }

  /** The state shows the payload as a template renders it, whether the template was understood, and the time. */
  ghost predicate RenderedWith<V>(eng: Engine<V>, template: string, s: EntityState<V>, payload: string, now: int) {
    var r := eng.render(template, payload);
    s.raw == payload && s.value == r.value && s.templateSupported == r.supported && s.updatedAt == now
  }

  /** A message on the state topic is rendered with the entity's own template; one on another topic with the
      template of the first extra key that names it. */
  lemma {:induction false} StateMeans<V>(eng: Engine<V>, e: Entity<V>, connId: string, dt: DiscoveryTopic, cfg: Config,
                                         topic: string, payload: string, now: int) returns (template: string)
    requires FromConfig(e, connId, dt, cfg) && Uses(StateRole, e, topic)
    ensures RenderedWith(eng, template, StateFrom(eng, e, topic, payload, now), payload, now)
    ensures if topic == Str(cfg, "state_topic") then template == Str(cfg, "value_template")
            else TemplateOf(cfg, EXTRA_STATE_TOPIC_KEYS, topic, template)
  {
    template := Str(cfg, "value_template");
    if topic != Str(cfg, "state_topic") {
      template := SecondaryTemplate(cfg, EXTRA_STATE_TOPIC_KEYS, topic);
      SecondaryMeans(cfg, EXTRA_STATE_TOPIC_KEYS, topic);
    }
  }

  lemma {:induction false} SecondaryMeans(c: Config, keys: seq<string>, topic: string)
    requires topic in ExtraTopics(c, keys)
    ensures TemplateOf(c, keys, topic, SecondaryTemplate(c, keys, topic))
  {
    if Str(c, keys[0]) == topic {
      TemplateGoesWith(c, keys, topic);
      assert FirstNames(c, keys, topic, 0);
    } else {
      var rest := keys[1..];
      var k :| 0 <= k < |keys| && ExtraTopics(c, keys)[k] == topic;
      assert ExtraTopics(c, rest)[k - 1] == topic;
      SecondaryMeans(c, rest, topic);
      var i: nat :| FirstNames(c, rest, topic, i) && GoesWith(c, rest[i], SecondaryTemplate(c, rest, topic));
      FirstNamesNext(c, keys, topic, i);
    }
  }

  lemma FirstNamesNext(c: Config, keys: seq<string>, topic: string, i: nat)
    requires keys != [] && Str(c, keys[0]) != topic && FirstNames(c, keys[1..], topic, i)
    ensures FirstNames(c, keys, topic, i + 1) && keys[i + 1] == keys[1..][i]
  {
    assert forall j :: 1 <= j < |keys| ==> keys[j] == keys[1..][j - 1];
  }

  lemma {:induction false} TemplateGoesWith(c: Config, keys: seq<string>, topic: string)
    requires keys != [] && Str(c, keys[0]) == topic
    ensures GoesWith(c, keys[0], SecondaryTemplate(c, keys, topic))
  {
    var key, template := keys[0], SecondaryTemplate(c, keys, topic);
    if |key| >= 12 && key[|key| - 12] == '_' { OtherKeys(key); }
    forall x: string | key == x + "_state_topic"
      ensures template ==
        if Str(c, x + "_value_template") != "" then Str(c, x + "_value_template") else Str(c, x + "_state_template")
    {
      var n := |key| - |"_state_topic"|;
      assert key[n..] == "_state_topic" && key[..n] == x;
    }
  }

  /** The four keys that do not follow the rule do not end like the others. */
  lemma OtherKeys(key: string)
    requires |key| >= 12 && key[|key| - 12] == '_'
    ensures key != "position_topic" && key != "current_temperature_topic"
    ensures key != "tilt_status_topic" && key != "action_topic"
  {
    assert "position_topic"[2] == 's' && "current_temperature_topic"[13] == 'r';
    assert "tilt_status_topic"[5] == 's' && "action_topic"[0] == 'a';
  }

  // Availability.

  /** The source stands in a block of settings: a topic, a template, and the words for online and offline. */
  ghost predicate SourceIn(s: AvailabilitySpec, c: Config, topicKey: string, templateKey: string) {
    && Str(c, topicKey) != "" && s.topic == Str(c, topicKey) && s.template == Str(c, templateKey)
    && s.online == (if Str(c, "payload_available") != "" then Str(c, "payload_available") else "online")
    && s.offline == (if Str(c, "payload_not_available") != "" then Str(c, "payload_not_available") else "offline")
  }

  ghost predicate SourceAt(s: AvailabilitySpec, item: ConfigValue) {
    item.Object? && SourceIn(s, item.fields, "topic", "value_template")
  }

  /** An entity's sources are the single one and those listed. */
  lemma SourcesMean(c: Config, s: AvailabilitySpec)
    ensures s in AvailabilityTopics(c) <==>
      || SourceIn(s, c, "availability_topic", "availability_template")
      || ("availability" in c && c["availability"].List? &&
          exists i :: 0 <= i < |c["availability"].items| && SourceAt(s, c["availability"].items[i]))
  {
    if "availability" in c && c["availability"].List? { ListedMean(c["availability"].items, s); }
  }

  lemma {:induction false} ListedMean(items: seq<ConfigValue>, s: AvailabilitySpec)
    ensures s in ListedTopics(items) <==> exists i :: 0 <= i < |items| && SourceAt(s, items[i])
  {
    if items != [] {
      ListedMean(items[1..], s);
      if i :| 0 <= i < |items| && SourceAt(s, items[i]) {
        assert i > 0 ==> items[1..][i - 1] == items[i];
      }
    }
  }

  /** And they stand in the order of the list, after the single one. */
  lemma {:induction false} SourcesInOrder(a: seq<ConfigValue>, b: seq<ConfigValue>)
    ensures ListedTopics(a + b) == ListedTopics(a) + ListedTopics(b)
  {
    if a == [] {
      assert a + b == b;
    } else {
      var x, rest := a[0], a[1..];
      SourcesInOrder(rest, b);
      assert a + b == [x] + (rest + b);
      ListedFirst(x, rest + b);
      ListedFirst(x, rest);
      assert a == [x] + rest;
      Associate(ListedTopic(x), ListedTopics(rest), ListedTopics(b));
    }
  }

  lemma ListedFirst(x: ConfigValue, rest: seq<ConfigValue>)
    ensures ListedTopics([x] + rest) == ListedTopic(x) + ListedTopics(rest)
  {
    assert ([x] + rest)[1..] == rest;
  }

  lemma Associate(a: seq<AvailabilitySpec>, b: seq<AvailabilitySpec>, c: seq<AvailabilitySpec>)
    ensures a + (b + c) == a + b + c
  {
  }

  /** What is known of a topic is what the last source on it makes of the message: online for its word for online,
      offline for its word for offline, nothing for any other. */
  lemma {:induction false} LastSourceSpeaks<V>(eng: Engine<V>, specs: seq<AvailabilitySpec>, topic: string,
                                               payload: string, i: nat)
    requires i < |specs| && specs[i].topic == topic
    requires forall j :: i < j < |specs| ==> specs[j].topic != topic
    ensures var text, v := eng.render(specs[i].template, payload).text, Verdict(eng, specs, topic, payload);
      && (v == Online <==> text == specs[i].online)
      && (v == Offline <==> text == specs[i].offline && text != specs[i].online)
  {
    if i < |specs| - 1 { LastSourceSpeaks(eng, specs[..|specs| - 1], topic, payload, i); }
  }

  ghost predicate SomeSays(states: map<string, Availability>, a: Availability) {
    exists t :: t in states && states[t] == a
  }

  /** An entity whose sources disagree is offline in the mode "all" and online in every other. */
  lemma CombinedMeans(c: Config, states: map<string, Availability>)
    ensures var all := Str(c, "availability_mode") == "all";
      && (Combined(c, states) == Online <==> SomeSays(states, Online) && (all ==> !SomeSays(states, Offline)))
      && (Combined(c, states) == Offline <==> SomeSays(states, Offline) && (all || !SomeSays(states, Online)))
  {
  }

  /** An entity with several sources is not offline whenever one of them says so: without a mode, the other one
      saying online prevails. */
  lemma OfflineOutvoted(a: string, b: string)
    requires a != b
    ensures var states := map[a := Offline, b := Online]; SomeSays(states, Offline) && Combined(map[], states) == Online
  {
    var states := map[a := Offline, b := Online];
    assert states[a] == Offline && states[b] == Online;
  }

  /** One source saying offline makes the entity offline exactly in the mode "all" or when none says online. */
  lemma OfflineIfAnySays(c: Config, states: map<string, Availability>)
    requires SomeSays(states, Offline)
    ensures Combined(c, states) == Offline <==> Str(c, "availability_mode") == "all" || !SomeSays(states, Online)
  {
    CombinedMeans(c, states);
  }
}

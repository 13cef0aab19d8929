/** Which device a discovery payload (internal/plugins/hass/registry.go) means, and what becomes of it. */
module HassDevices {
  import opened Collections
  import opened HassRegistry
  import opened TopicIndex

  /** In dictionary order: a prefix comes first, else the first difference decides. */
  ghost predicate NotAfter(a: string, b: string) {
    a <= b || exists k: nat :: k < |a| && k < |b| && a[..k] == b[..k] && a[k] < b[k]
  }

  lemma {:induction false} BeforeMeans(a: string, b: string)
    ensures Before(a, b) <==> NotAfter(a, b)
  {
    if a != "" && b != "" {
      if a[0] == b[0] {
        BeforeMeans(a[1..], b[1..]);
        SameStart(a, b);
      } else {
        OtherStart(a, b);
      }
    }
  }

  lemma SameStart(a: string, b: string)
    requires a != "" && b != "" && a[0] == b[0]
    ensures NotAfter(a, b) <==> NotAfter(a[1..], b[1..])
  {
    if NotAfter(a[1..], b[1..]) { SameStartMore(a, b); }
    if NotAfter(a, b) { SameStartLess(a, b); }
  }

  lemma SameStartMore(a: string, b: string)
    requires a != "" && b != "" && a[0] == b[0] && NotAfter(a[1..], b[1..])
    ensures NotAfter(a, b)
  {
    var x, y := a[1..], b[1..];
    assert a == [a[0]] + x && b == [b[0]] + y;
    if k: nat :| k < |x| && k < |y| && x[..k] == y[..k] && x[k] < y[k] {
      assert a[..k + 1] == [a[0]] + x[..k] && b[..k + 1] == [b[0]] + y[..k];
      assert a[k + 1] < b[k + 1];
    }
  }

  lemma SameStartLess(a: string, b: string)
    requires a != "" && b != "" && a[0] == b[0] && NotAfter(a, b)
    ensures NotAfter(a[1..], b[1..])
  {
    if k: nat :| k < |a| && k < |b| && a[..k] == b[..k] && a[k] < b[k] {
      assert a[1..][..k - 1] == a[..k][1..] && b[1..][..k - 1] == b[..k][1..];
    }
  }

  lemma OtherStart(a: string, b: string)
    requires a != "" && b != "" && a[0] != b[0]
    ensures NotAfter(a, b) <==> a[0] < b[0]
  {
    assert forall k: nat :: 0 < k <= |a| ==> a[..k][0] == a[0];
    assert forall k: nat :: 0 < k <= |b| ==> b[..k][0] == b[0];
    assert a[..0] == b[..0];
  }

  lemma {:induction false} BeforeTotal(a: string, b: string, c: string)
    ensures Before(a, a) && (Before(a, b) || Before(b, a))
    ensures Before(a, b) && Before(b, c) ==> Before(a, c)
  {
    if a != "" { BeforeTotal(a[1..], if b != "" then b[1..] else "", if c != "" then c[1..] else ""); }
  }

  lemma {:induction false} LeastIsFirst(ss: seq<string>)
    requires |ss| > 0
    ensures Least(ss) in ss && forall s :: s in ss ==> NotAfter(Least(ss), s)
  {
    BeforeTotal(ss[0], ss[0], ss[0]);
    if |ss| > 1 {
      LeastIsFirst(ss[1..]);
      var rest := Least(ss[1..]);
      forall s | s in ss ensures Before(Least(ss), s) {
        BeforeMeans(rest, s);
        BeforeTotal(ss[0], rest, s);
        assert s == ss[0] || s in ss[1..];
      }
    }
    forall s | s in ss ensures NotAfter(Least(ss), s) { BeforeMeans(Least(ss), s); }
  }

  /** A device's identifier: a text, or a text in a list. */
  ghost predicate Identifies(dev: Config, id: string) {
    "identifiers" in dev && match dev["identifiers"]
      case Text(s) => s == id
      case List(items) => Text(id) in items
      case _ => false
  }

  ghost predicate IsPair(item: ConfigValue) {
    item.List? && |item.items| == 2 && item.items[0].Text? && item.items[1].Text?
  }

  /** The i-th of the device's connections is the first that is a pair of texts. */
  ghost predicate FirstPair(dev: Config, i: nat) {
    && "connections" in dev && dev["connections"].List? && i < |dev["connections"].items|
    && IsPair(dev["connections"].items[i])
    && forall j :: 0 <= j < i ==> !IsPair(dev["connections"].items[j])
  }

  lemma {:induction false} TextsMean(items: seq<ConfigValue>, s: string)
    ensures s in Texts(items) <==> Text(s) in items
  {
    if items != [] {
      TextsMean(items[1..], s);
      assert items == [items[0]] + items[1..];
    }
  }

  lemma {:induction false} FirstConnectionMeans(items: seq<ConfigValue>, i: nat)
    requires i < |items| && IsPair(items[i]) && forall j :: 0 <= j < i ==> !IsPair(items[j])
    ensures FirstConnection(items) == Some(items[i].items[0].text + ":" + items[i].items[1].text)
  {
    if i > 0 {
      assert !IsPair(items[0]);
      assert forall j :: 1 <= j < |items| ==> items[j] == items[1..][j - 1];
      FirstConnectionMeans(items[1..], i - 1);
    }
  }

  lemma {:induction false} NoConnection(items: seq<ConfigValue>)
    requires FirstConnection(items).Some?
    ensures exists i :: 0 <= i < |items| && IsPair(items[i]) && forall j :: 0 <= j < i ==> !IsPair(items[j])
  {
    if !IsPair(items[0]) {
      NoConnection(items[1..]);
      assert forall j :: 1 <= j < |items| ==> items[j] == items[1..][j - 1];
      var i :| 0 <= i < |items[1..]| && IsPair(items[1..][i]) && forall j :: 0 <= j < i ==> !IsPair(items[1..][j]);
      assert IsPair(items[i + 1]);
    }
  }

  lemma IdentifiersMean(dev: Config, id: string)
    ensures id in Strings(dev, "identifiers") <==> Identifies(dev, id)
  {
    if "identifiers" in dev && dev["identifiers"].List? { TextsMean(dev["identifiers"].items, id); }
  }

  ghost predicate NoIdentifier(dev: Config) {
    forall id :: !Identifies(dev, id)
  }

  ghost predicate NoPair(dev: Config) {
    forall i: nat :: !FirstPair(dev, i)
  }

  lemma NoIdentifierMeans(dev: Config)
    ensures NoIdentifier(dev) <==> Strings(dev, "identifiers") == []
  {
    var ids := Strings(dev, "identifiers");
    forall id ensures id in ids <==> Identifies(dev, id) { IdentifiersMean(dev, id); }
    assert ids != [] ==> ids[0] in ids;
  }

  /** A device is known by the first of its identifiers in dictionary order. */
  lemma KeyIsIdentifier(dev: Config) returns (least: string)
    requires !NoIdentifier(dev)
    ensures DeviceKey(dev) == "id:" + least && Identifies(dev, least)
    ensures forall id :: Identifies(dev, id) ==> NotAfter(least, id)
  {
    NoIdentifierMeans(dev);
    var ids := Strings(dev, "identifiers");
    least := Least(ids);
    LeastIsFirst(ids);
    forall id ensures id in ids <==> Identifies(dev, id) { IdentifiersMean(dev, id); }
  }

  /** Without any, by its first well-formed connection. */
  lemma KeyIsConnection(dev: Config, i: nat)
    requires NoIdentifier(dev) && FirstPair(dev, i)
    ensures var pair := dev["connections"].items[i].items; DeviceKey(dev) == "cn:" + (pair[0].text + ":" + pair[1].text)
  {
    NoIdentifierMeans(dev);
    FirstConnectionMeans(dev["connections"].items, i);
  }

  /** Without that, by its name; and without a name it is no device. */
  lemma KeyIsName(dev: Config)
    requires NoIdentifier(dev) && NoPair(dev)
    ensures DeviceKey(dev) == if Str(dev, "name") != "" then "name:" + Str(dev, "name") else ""
  {
    NoIdentifierMeans(dev);
    if "connections" in dev && dev["connections"].List? && FirstConnection(dev["connections"].items).Some? {
      var items := dev["connections"].items;
      NoConnection(items);
      var i: nat :| i < |items| && IsPair(items[i]) && forall j :: 0 <= j < i ==> !IsPair(items[j]);
      assert FirstPair(dev, i);
    }
  }

  /** A payload that names a device leaves it seen now; one seen for the first time is pinned as was asked for, and
      one seen before stays what it was. No other device changes. */
  lemma SeenMeans(devices: map<string, Device>, pinned: map<string, bool>, connId: string, key: string, now: int)
    ensures key == "" ==> Seen(devices, pinned, connId, key, now) == devices
    ensures key != "" ==>
      var after, k := Seen(devices, pinned, connId, key, now), IndexKey(connId, key);
      && k in after
      && (k in devices ==> after[k] == devices[k].(lastSeen := now))
      && (k !in devices ==> after[k] == Device(key, connId, k in pinned && pinned[k], now, now))
      && after - {k} == devices - {k}
  {
  }
}

/** Decoding Sparkplug B payloads (internal/payload/sparkplug.go). */
module Sparkplug {
  import opened Collections
  import opened Protowire

  const TWO53: nat := 0x20_0000_0000_0000

  /** Milliseconds since the epoch; an absurd number of them reads as the epoch itself. */
  function Millis(v: nat): nat {
    if v > TWO53 then 0 else v
  }

  /** Two's complement: the low bits of a word read as a signed number. */
  function Signed(v: nat, modulus: nat): int
    requires modulus > 0
  {
    if v % modulus >= modulus / 2 then v % modulus - modulus else v % modulus
  }

  /** Whichever arm of the oneof arrived, every other member zero. */
  datatype MetricValue = MetricValue(
    kind: nat, u32: nat, u64: nat, f32: nat, f64: nat, str: seq<Byte>, blob: seq<Byte>, nested: Option<nat>)

  const NoValue := MetricValue(0, 0, 0, 0, 0, [], [], None)

  /** A reading as it is shown; numbers as numbers, floating point as its bits, a time as milliseconds. */
  datatype Shown =
    | Nothing
    | Whole(i: int)
    | FloatBits(bits32: nat)
    | DoubleBits(bits64: nat)
    | Truth(b: bool)
    | Text(s: seq<Byte>)
    | Time(ms: nat)

  datatype Note =
    | NoNote
    | IsNullNote
    | NoValueNote
    | BlobNote(size: nat)
    | DataSetNote(nested: Option<nat>)
    | TemplateNote(nested: Option<nat>)
    | UnknownTypeNote(datatypeIndex: nat)
    | UnknownBlobNote(size: nat, datatypeIndex: nat)

  datatype Metric = Metric(
    name: seq<Byte>,
    alias: Option<nat>,
    dataType: nat,
    value: Shown,
    note: Note,
    isNull: bool,
    isHistorical: bool,
    isTransient: bool,
    timestamp: Option<nat>)

  datatype Payload = Payload(
    timestamp: Option<nat>,
    seqNo: Option<nat>,
    uuid: seq<Byte>,
    metrics: seq<Metric>,
    bodyBytes: nat)

  const EmptyPayload := Payload(None, None, [], [], 0)

  const F_TIMESTAMP := 1
  const F_METRICS := 2
  const F_SEQ := 3
  const F_UUID := 4
  const F_BODY := 5

  const M_NAME := 1
  const M_ALIAS := 2
  const M_TIMESTAMP := 3
  const M_DATATYPE := 4
  const M_IS_HISTORICAL := 5
  const M_IS_TRANSIENT := 6
  const M_IS_NULL := 7
  const M_INT := 10
  const M_LONG := 11
  const M_FLOAT := 12
  const M_DOUBLE := 13
  const M_BOOL := 14
  const M_STRING := 15
  const M_BYTES := 16
  const M_DATASET := 17
  const M_TEMPLATE := 18

  const DT_INT8 := 1
  const DT_INT16 := 2
  const DT_INT32 := 3
  const DT_INT64 := 4
  const DT_UINT8 := 5
  const DT_UINT16 := 6
  const DT_UINT32 := 7
  const DT_UINT64 := 8
  const DT_FLOAT := 9
  const DT_DOUBLE := 10
  const DT_BOOLEAN := 11
  const DT_STRING := 12
  const DT_DATETIME := 13
  const DT_TEXT := 14
  const DT_UUID := 15
  const DT_DATASET := 16
  const DT_BYTES := 17
  const DT_FILE := 18
  const DT_TEMPLATE := 19

  /** A wire value read by its datatype; for an unknown datatype, by the arm it arrived in. */
  function RenderValue(dt: nat, v: MetricValue): (Shown, Note) {
    if dt == DT_INT8 then (Whole(Signed(v.u32, 0x100)), NoNote)
    else if dt == DT_INT16 then (Whole(Signed(v.u32, 0x1_0000)), NoNote)
    else if dt == DT_INT32 then (Whole(Signed(v.u32, TWO32)), NoNote)
    else if dt == DT_INT64 then (Whole(Signed(v.u64, TWO64)), NoNote)
    else if dt == DT_UINT8 || dt == DT_UINT16 || dt == DT_UINT32 then (Whole(v.u32), NoNote)
    else if dt == DT_UINT64 then (Whole(v.u64), NoNote)
    else if dt == DT_FLOAT then (FloatBits(v.f32), NoNote)
    else if dt == DT_DOUBLE then (DoubleBits(v.f64), NoNote)
    else if dt == DT_BOOLEAN then (Truth(v.u64 != 0), NoNote)
    else if dt == DT_STRING || dt == DT_TEXT || dt == DT_UUID then (Text(v.str), NoNote)
    else if dt == DT_DATETIME then (Time(Millis(v.u64)), NoNote)
    else if dt == DT_BYTES || dt == DT_FILE then (Nothing, BlobNote(|v.blob|))
    else if dt == DT_DATASET then (Nothing, DataSetNote(v.nested))
    else if dt == DT_TEMPLATE then (Nothing, TemplateNote(v.nested))
    else if v.kind == M_INT then (Whole(v.u32), UnknownTypeNote(dt))
    else if v.kind == M_LONG then (Whole(v.u64), UnknownTypeNote(dt))
    else if v.kind == M_FLOAT then (FloatBits(v.f32), UnknownTypeNote(dt))
    else if v.kind == M_DOUBLE then (DoubleBits(v.f64), UnknownTypeNote(dt))
    else if v.kind == M_BOOL then (Truth(v.u64 != 0), UnknownTypeNote(dt))
    else if v.kind == M_STRING then (Text(v.str), UnknownTypeNote(dt))
    else if v.kind == M_BYTES then (Nothing, UnknownBlobNote(|v.blob|, dt))
    else (Nothing, UnknownTypeNote(dt))
  }

  // Metrics.

  /** A metric being read: its members so far, its datatype and its value, if any. */
  datatype Draft = Draft(m: Metric, dt: nat, val: Option<MetricValue>)

  const EmptyDraft := Draft(Metric([], None, 0, Nothing, NoNote, false, false, false, None), 0, None)

  /** What one field does to a metric being read. A field that is not known, or that comes with
      another wire type, does nothing. */
  function MetricField(d: Draft, f: Field): Draft {
    match f.wire
    case AsVarint(v) =>
      if f.number == M_ALIAS then d.(m := d.m.(alias := Some(v)))
      else if f.number == M_TIMESTAMP then d.(m := d.m.(timestamp := Some(Millis(v))))
      else if f.number == M_DATATYPE then d.(dt := v % TWO32)
      else if f.number == M_IS_HISTORICAL then d.(m := d.m.(isHistorical := v != 0))
      else if f.number == M_IS_TRANSIENT then d.(m := d.m.(isTransient := v != 0))
      else if f.number == M_IS_NULL then d.(m := d.m.(isNull := v != 0))
      else if f.number == M_INT then d.(val := Some(NoValue.(kind := M_INT, u32 := v % TWO32)))
      else if f.number == M_LONG then d.(val := Some(NoValue.(kind := M_LONG, u64 := v)))
      else if f.number == M_BOOL then d.(val := Some(NoValue.(kind := M_BOOL, u64 := v)))
      else d
    case AsI32(v) => if f.number == M_FLOAT then d.(val := Some(NoValue.(kind := M_FLOAT, f32 := v))) else d
    case AsI64(v) => if f.number == M_DOUBLE then d.(val := Some(NoValue.(kind := M_DOUBLE, f64 := v))) else d
    case AsBytes(b) =>
      if f.number == M_NAME then d.(m := d.m.(name := b))
      else if f.number == M_STRING then d.(val := Some(NoValue.(kind := M_STRING, str := b)))
      else if f.number == M_BYTES then d.(val := Some(NoValue.(kind := M_BYTES, blob := b)))
      else if f.number == M_DATASET then d.(val := Some(NoValue.(kind := M_DATASET, nested := Some(|b|))))
      else if f.number == M_TEMPLATE then d.(val := Some(NoValue.(kind := M_TEMPLATE, nested := Some(|b|))))
      else d
  }

  function Finish(d: Draft): Metric {
    var m := d.m.(dataType := d.dt);
    if m.isNull then m.(note := IsNullNote)
    else if d.val == None then m.(note := NoValueNote)
    else m.(value := RenderValue(d.dt, d.val.value).0, note := RenderValue(d.dt, d.val.value).1)
  }

  datatype Decoded<+T> = Done(value: T) | Failed(error: Error, partial: T)

  /** Reading a metric field by field; the first field that cannot be read ends it. */
  ghost function MetricFrom(s: seq<Byte>, d: Draft): Decoded<Draft>
    decreases |s|
  {
    if s == [] then Done(d)
    else
      match ReadField(s)
      case Err(e, _) => Failed(e, d)
      case Ok(f, n) => MetricFrom(s[n..], MetricField(d, f))
  }

  method DecodeMetric(raw: seq<Byte>) returns (r: Decoded<Metric>)
    ensures r == DecodedMetric(raw)
  {
    var reader := new Reader(raw);
    var d := EmptyDraft;
    assert raw[0..] == raw;
    while reader.pos < |raw|
      invariant reader.buf == raw && reader.Valid()
      invariant MetricFrom(raw, EmptyDraft) == MetricFrom(reader.Rest(), d)
      decreases |raw| - reader.pos
    {
      ghost var s := reader.Rest();
      var t := reader.ReadTagHere();
      if t.Err? { return Failed(t.error, d.m); }
      assert reader.Rest() == s[t.used..];
      var next := DecodeMetricField(reader, t.value, d);
      if next.Failed? { return Failed(next.error, d.m); }
      assert reader.Rest() == s[ReadField(s).used..];
      d := next.value;
    }
    return Done(Finish(d));
  }

  /** Reads the value that a tag announces into the metric, or passes over it. */
  method DecodeMetricField(reader: Reader, t: Tag, d: Draft) returns (r: Decoded<Draft>)
    requires reader.Valid()
    modifies reader`pos
    ensures reader.Valid()
    ensures var w := ReadWire(old(reader.Rest()), t.wire);
      && reader.pos == old(reader.pos) + w.used
      && r == if w.Ok? then Done(MetricField(d, Field(t.field, w.value))) else Failed(w.error, d)
  {
    if t.wire == WIRE_VARINT && (t.field == M_ALIAS || t.field == M_TIMESTAMP || t.field == M_DATATYPE
         || t.field == M_IS_HISTORICAL || t.field == M_IS_TRANSIENT || t.field == M_IS_NULL
         || t.field == M_INT || t.field == M_LONG || t.field == M_BOOL) {
      var v := reader.ReadVarint();
      if v.Err? { return Failed(v.error, d); }
      return Done(MetricField(d, Field(t.field, AsVarint(v.value))));
    } else if t.wire == WIRE_I32 && t.field == M_FLOAT {
      var v := reader.ReadFixed(4);
      if v.Err? { return Failed(v.error, d); }
      return Done(d.(val := Some(NoValue.(kind := M_FLOAT, f32 := v.value))));
    } else if t.wire == WIRE_I64 && t.field == M_DOUBLE {
      var v := reader.ReadFixed(8);
      if v.Err? { return Failed(v.error, d); }
      return Done(d.(val := Some(NoValue.(kind := M_DOUBLE, f64 := v.value))));
    } else if t.wire == WIRE_BYTES && (t.field == M_NAME || t.field == M_STRING || t.field == M_BYTES
                || t.field == M_DATASET || t.field == M_TEMPLATE) {
      var b := reader.ReadBytes();
      if b.Err? { return Failed(b.error, d); }
      return Done(MetricField(d, Field(t.field, AsBytes(b.value))));
    } else {
      var k := reader.Skip(t.wire);
      if k.Err? { return Failed(k.error, d); }
      return Done(d);
    }
  }

  ghost function DecodedMetric(raw: seq<Byte>): Decoded<Metric> {
    match MetricFrom(raw, EmptyDraft)
    case Done(d) => Done(Finish(d))
    case Failed(e, d) => Failed(e, d.m)
  }

  // Payloads.

  /** What one field does to a payload being read. */
  ghost function PayloadField(p: Payload, f: Field): Decoded<Payload> {
    match f.wire
    case AsVarint(v) =>
      if f.number == F_TIMESTAMP then Done(p.(timestamp := Some(Millis(v))))
      else if f.number == F_SEQ then Done(p.(seqNo := Some(v)))
      else Done(p)
    case AsBytes(b) =>
      if f.number == F_METRICS then
        match DecodedMetric(b)
        case Done(m) => Done(p.(metrics := p.metrics + [m]))
        case Failed(e, _) => Failed(e, p)
      else if f.number == F_UUID then Done(p.(uuid := b))
      else if f.number == F_BODY then Done(p.(bodyBytes := |b|))
      else Done(p)
    case _ => Done(p)
  }

  ghost function PayloadFrom(s: seq<Byte>, p: Payload): Decoded<Payload>
    decreases |s|
  {
    if s == [] then Done(p)
    else
      match ReadField(s)
      case Err(e, _) => Failed(e, p)
      case Ok(f, n) =>
        match PayloadField(p, f)
        case Failed(e, q) => Failed(e, q)
        case Done(q) => PayloadFrom(s[n..], q)
  }

  method DecodeSparkplug(raw: seq<Byte>) returns (r: Decoded<Payload>)
    ensures r == PayloadFrom(raw, EmptyPayload)
  {
    var reader := new Reader(raw);
    var p := EmptyPayload;
    assert raw[0..] == raw;
    while reader.pos < |raw|
      invariant reader.buf == raw && reader.Valid()
      invariant PayloadFrom(raw, EmptyPayload) == PayloadFrom(reader.Rest(), p)
      decreases |raw| - reader.pos
    {
      ghost var s := reader.Rest();
      var t := reader.ReadTagHere();
      if t.Err? { return Failed(t.error, p); }
      assert reader.Rest() == s[t.used..];
      var next := DecodePayloadField(reader, t.value, p);
      if next.Failed? { return next; }
      assert reader.Rest() == s[ReadField(s).used..];
      p := next.value;
    }
    return Done(p);
  }

  method DecodePayloadField(reader: Reader, t: Tag, p: Payload) returns (r: Decoded<Payload>)
    requires reader.Valid()
    modifies reader`pos
    ensures reader.Valid()
    ensures var w := ReadWire(old(reader.Rest()), t.wire);
      && reader.pos == old(reader.pos) + w.used
      && r == if w.Ok? then PayloadField(p, Field(t.field, w.value)) else Failed(w.error, p)
  {
    if t.wire == WIRE_VARINT && (t.field == F_TIMESTAMP || t.field == F_SEQ) {
      var v := reader.ReadVarint();
      if v.Err? { return Failed(v.error, p); }
      return Done(if t.field == F_TIMESTAMP then p.(timestamp := Some(Millis(v.value))) else p.(seqNo :=
        Some(v.value)));
    } else if t.wire == WIRE_BYTES && t.field == F_METRICS {
      var b := reader.ReadBytes();
      if b.Err? { return Failed(b.error, p); }
      var m := DecodeMetric(b.value);
      if m.Failed? { return Failed(m.error, p); }
      return Done(p.(metrics := p.metrics + [m.value]));
    } else if t.wire == WIRE_BYTES && (t.field == F_UUID || t.field == F_BODY) {
      var b := reader.ReadBytes();
      if b.Err? { return Failed(b.error, p); }
      return Done(if t.field == F_UUID then p.(uuid := b.value) else p.(bodyBytes := |b.value|));
    } else {
      var k := reader.Skip(t.wire);
      if k.Err? { return Failed(k.error, p); }
      return Done(p);
    }
  }
}

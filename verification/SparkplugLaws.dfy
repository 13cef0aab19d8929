/** What decoding a Sparkplug B payload means: it inverts the encoding, whatever unknown fields
    stand in between, and the last occurrence of a field counts. */
module SparkplugLaws {
  import opened Collections
  import opened Protowire
  import opened Sparkplug

  function EncodeFields(fs: seq<Field>): seq<Byte> {
    if fs == [] then [] else EncodeField(fs[0]) + EncodeFields(fs[1..])
  }

  ghost predicate AllEncodable(fs: seq<Field>) {
    forall i :: 0 <= i < |fs| ==> Encodable(fs[i])
  }

  // From bytes to fields.

  function FoldMetric(fs: seq<Field>, d: Draft): Draft {
    if fs == [] then d else FoldMetric(fs[1..], MetricField(d, fs[0]))
  }

  ghost function FoldPayload(fs: seq<Field>, p: Payload): Decoded<Payload> {
    if fs == [] then Done(p)
    else
      match PayloadField(p, fs[0])
      case Failed(e, q) => Failed(e, q)
      case Done(q) => FoldPayload(fs[1..], q)
  }

  lemma {:induction false} MetricReadsFields(fs: seq<Field>, d: Draft)
    requires AllEncodable(fs)
    ensures MetricFrom(EncodeFields(fs), d) == Done(FoldMetric(fs, d))
  {
    if fs != [] {
      var head, tail := EncodeField(fs[0]), EncodeFields(fs[1..]);
      FieldRoundTrip(fs[0], tail);
      assert (head + tail)[|head|..] == tail;
      MetricReadsFields(fs[1..], MetricField(d, fs[0]));
    }
  }

  lemma {:induction false} PayloadReadsFields(fs: seq<Field>, p: Payload)
    requires AllEncodable(fs)
    ensures PayloadFrom(EncodeFields(fs), p) == FoldPayload(fs, p)
  {
    if fs != [] {
      var head, tail := EncodeField(fs[0]), EncodeFields(fs[1..]);
      FieldRoundTrip(fs[0], tail);
      assert (head + tail)[|head|..] == tail;
      var q := PayloadField(p, fs[0]);
      if q.Done? { PayloadReadsFields(fs[1..], q.value); }
    }
  }

  // Bytes that are not whole fields.

  lemma {:induction false} MetricReadsOn(fs: seq<Field>, tail: seq<Byte>, d: Draft)
    requires AllEncodable(fs)
    ensures MetricFrom(EncodeFields(fs) + tail, d) == MetricFrom(tail, FoldMetric(fs, d))
  {
    if fs == [] {
      assert EncodeFields(fs) + tail == tail;
    } else {
      var head, rest := EncodeField(fs[0]), EncodeFields(fs[1..]);
      FieldRoundTrip(fs[0], rest + tail);
      Splice(head, rest, tail);
      MetricReadsOn(fs[1..], tail, MetricField(d, fs[0]));
    }
  }

  lemma {:induction false} PayloadReadsOn(fs: seq<Field>, tail: seq<Byte>, p: Payload)
    requires AllEncodable(fs)
    ensures PayloadFrom(EncodeFields(fs) + tail, p) ==
      match FoldPayload(fs, p) case Done(q) => PayloadFrom(tail, q) case Failed(e, q) => Failed(e, q)
  {
    if fs == [] {
      assert EncodeFields(fs) + tail == tail;
    } else {
      var head, rest := EncodeField(fs[0]), EncodeFields(fs[1..]);
      FieldRoundTrip(fs[0], rest + tail);
      Splice(head, rest, tail);
      var q := PayloadField(p, fs[0]);
      if q.Done? { PayloadReadsOn(fs[1..], tail, q.value); }
    }
  }

  /** What cannot be read as a field ends a metric with that error and what has been read so far. */
  lemma {:induction false} BadFieldEndsMetric(fs: seq<Field>, tail: seq<Byte>)
    requires AllEncodable(fs) && tail != [] && ReadField(tail).Err?
    ensures DecodedMetric(EncodeFields(fs) + tail) == Failed(ReadField(tail).error, FoldMetric(fs, EmptyDraft).m)
  {
    MetricReadsOn(fs, tail, EmptyDraft);
  }

  /** The same for a payload. */
  lemma {:induction false} BadFieldEndsPayload(fs: seq<Field>, tail: seq<Byte>)
    requires AllEncodable(fs) && tail != [] && ReadField(tail).Err? && FoldPayload(fs, EmptyPayload).Done?
    ensures PayloadFrom(EncodeFields(fs) + tail, EmptyPayload) ==
      Failed(ReadField(tail).error, FoldPayload(fs, EmptyPayload).value)
  {
    PayloadReadsOn(fs, tail, EmptyPayload);
  }

  /** A payload that breaks off inside a field is refused, never taken for a shorter one. */
  lemma {:induction false} CutPayload(fs: seq<Field>, f: Field, k: nat)
    requires AllEncodable(fs) && Encodable(f) && 0 < k < |EncodeField(f)| && FoldPayload(fs, EmptyPayload).Done?
    ensures PayloadFrom(EncodeFields(fs) + EncodeField(f)[..k], EmptyPayload) ==
      Failed(Truncated, FoldPayload(fs, EmptyPayload).value)
  {
    FieldCut(f, k);
    BadFieldEndsPayload(fs, EncodeField(f)[..k]);
  }

  /** And so is one with a metric that cannot be read: it ends there, whatever follows. */
  lemma {:induction false} BadMetricEndsPayload(fs: seq<Field>, bytes: seq<Byte>, tail: seq<Byte>)
    requires AllEncodable(fs) && |bytes| < TWO64 && DecodedMetric(bytes).Failed? && FoldPayload(fs, EmptyPayload).Done?
    ensures PayloadFrom(EncodeFields(fs) + (EncodeField(Field(F_METRICS, AsBytes(bytes))) + tail), EmptyPayload) ==
      Failed(DecodedMetric(bytes).error, FoldPayload(fs, EmptyPayload).value)
  {
    var f := Field(F_METRICS, AsBytes(bytes));
    PayloadReadsOn(fs, EncodeField(f) + tail, EmptyPayload);
    FieldRoundTrip(f, tail);
  }

  // Unknown fields.

  predicate KnownInMetric(f: Field) {
    match f.wire
    case AsVarint(_) => f.number in {M_ALIAS, M_TIMESTAMP, M_DATATYPE, M_IS_HISTORICAL, M_IS_TRANSIENT, M_IS_NULL,
                                     M_INT, M_LONG, M_BOOL}
    case AsI32(_) => f.number == M_FLOAT
    case AsI64(_) => f.number == M_DOUBLE
    case AsBytes(_) => f.number in {M_NAME, M_STRING, M_BYTES, M_DATASET, M_TEMPLATE}
  }

  predicate KnownInPayload(f: Field) {
    match f.wire
    case AsVarint(_) => f.number in {F_TIMESTAMP, F_SEQ}
    case AsBytes(_) => f.number in {F_METRICS, F_UUID, F_BODY}
    case _ => false
  }

  function Keep(fs: seq<Field>, known: Field -> bool): seq<Field> {
    if fs == [] then [] else (if known(fs[0]) then [fs[0]] else []) + Keep(fs[1..], known)
  }

  /** Unknown fields anywhere in a metric change nothing. */
  lemma {:induction false} UnknownIgnoredInMetric(fs: seq<Field>, d: Draft)
    ensures FoldMetric(fs, d) == FoldMetric(Keep(fs, KnownInMetric), d)
  {
    if fs != [] {
      var kept := Keep(fs[1..], KnownInMetric);
      UnknownIgnoredInMetric(fs[1..], MetricField(d, fs[0]));
      if KnownInMetric(fs[0]) {
        assert ([fs[0]] + kept)[1..] == kept;
      } else {
        assert [] + kept == kept;
      }
    }
  }

  /** Unknown fields anywhere in a payload change nothing. */
  lemma {:induction false} UnknownIgnoredInPayload(fs: seq<Field>, p: Payload)
    ensures FoldPayload(fs, p) == FoldPayload(Keep(fs, KnownInPayload), p)
  {
    if fs != [] {
      var kept := Keep(fs[1..], KnownInPayload);
      var q := PayloadField(p, fs[0]);
      if q.Done? { UnknownIgnoredInPayload(fs[1..], q.value); }
      if KnownInPayload(fs[0]) {
        assert ([fs[0]] + kept)[1..] == kept;
      } else {
        assert [] + kept == kept;
      }
    }
  }

  // Repeated fields.

  /** The last varint of a field number. */
  function LastVarint(fs: seq<Field>, number: nat): Option<nat> {
    if fs == [] then None
    else
      var f := fs[|fs| - 1];
      if f.number == number && f.wire.AsVarint? then Some(f.wire.v) else LastVarint(fs[..|fs| - 1], number)
  }

  function LastBytes(fs: seq<Field>, number: nat): seq<Byte> {
    if fs == [] then []
    else
      var f := fs[|fs| - 1];
      if f.number == number && f.wire.AsBytes? then f.wire.bytes else LastBytes(fs[..|fs| - 1], number)
  }

  /** The encoded metrics among the fields, in order. */
  function MetricBytes(fs: seq<Field>): seq<seq<Byte>> {
    if fs == [] then []
    else
      var f := fs[|fs| - 1];
      MetricBytes(fs[..|fs| - 1]) + if f.number == F_METRICS && f.wire.AsBytes? then [f.wire.bytes] else []
  }

  /** Each metric is the decoding of its bytes. */
  ghost predicate DecodedFrom(ms: seq<Metric>, bytes: seq<seq<Byte>>) {
    |ms| == |bytes| && forall i :: 0 <= i < |ms| ==> DecodedMetric(bytes[i]) == Done(ms[i])
  }

  /** Whatever the fields and their order: when decoding succeeds, the last occurrence of each single
      field counts, and every metric is kept, in order. */
  lemma {:induction false} LastOccurrenceCounts(fs: seq<Field>)
    requires AllEncodable(fs) && PayloadFrom(EncodeFields(fs), EmptyPayload).Done?
    ensures var q := PayloadFrom(EncodeFields(fs), EmptyPayload).value;
      && q.timestamp == Moment(LastVarint(fs, F_TIMESTAMP))
      && q.seqNo == LastVarint(fs, F_SEQ)
      && q.uuid == LastBytes(fs, F_UUID)
      && q.bodyBytes == |LastBytes(fs, F_BODY)|
      && DecodedFrom(q.metrics, MetricBytes(fs))
  {
    PayloadReadsFields(fs, EmptyPayload);
    FoldMeansLast(fs);
  }

  lemma {:induction false} FoldMeansLast(fs: seq<Field>)
    requires FoldPayload(fs, EmptyPayload).Done?
    ensures var q := FoldPayload(fs, EmptyPayload).value;
      && q.timestamp == Moment(LastVarint(fs, F_TIMESTAMP))
      && q.seqNo == LastVarint(fs, F_SEQ)
      && q.uuid == LastBytes(fs, F_UUID)
      && q.bodyBytes == |LastBytes(fs, F_BODY)|
      && DecodedFrom(q.metrics, MetricBytes(fs))
  {
    if fs != [] {
      var before, f := fs[..|fs| - 1], fs[|fs| - 1];
      assert fs == before + [f];
      FoldPayloadSnoc(before, f, EmptyPayload);
      FoldMeansLast(before);
    }
  }

  /** A payload whose metrics all decode has them all. */
  lemma {:induction false} MetricsDecode(fs: seq<Field>, ms: seq<Metric>)
    requires DecodedFrom(ms, MetricBytes(fs))
    ensures var r := FoldPayload(fs, EmptyPayload);
      r.Done? && r.value.metrics == ms
  {
    if fs != [] {
      var before, f := fs[..|fs| - 1], fs[|fs| - 1];
      assert fs == before + [f];
      FoldPayloadSnoc(before, f, EmptyPayload);
      if f.number == F_METRICS && f.wire.AsBytes? {
        var last := |ms| - 1;
        MetricsDecode(before, ms[..last]);
        assert MetricBytes(fs)[last] == f.wire.bytes;
        assert ms == ms[..last] + [ms[last]];
      } else {
        assert MetricBytes(fs) == MetricBytes(before);
        MetricsDecode(before, ms);
      }
    }
  }

  lemma FoldPayloadSnoc(fs: seq<Field>, f: Field, p: Payload)
    ensures FoldPayload(fs + [f], p) ==
      match FoldPayload(fs, p) case Done(q) => PayloadField(q, f) case Failed(e, q) => Failed(e, q)
  {
    FoldPayloadJoin(fs, [f], p);
    var r := FoldPayload(fs, p);
    if r.Done? { PayloadOptional([f], r.value); }
  }

  /** The last field that brings a value. */
  function LastValue(fs: seq<Field>): (f: Option<Field>)
    ensures f.Some? ==> BringsValue(f.value)
  {
    if fs == [] then None
    else if BringsValue(fs[|fs| - 1]) then Some(fs[|fs| - 1])
    else LastValue(fs[..|fs| - 1])
  }

  /** The field is an arm of the oneof, in its own wire type. */
  predicate BringsValue(f: Field) {
    KnownInMetric(f) && M_INT <= f.number <= M_TEMPLATE
  }

  /** The fields are those of a metric whose members are the last ones given. */
  ghost predicate HoldsLast(fs: seq<Field>, d: Draft) {
    && d.m == EmptyDraft.m.(
         name := LastBytes(fs, M_NAME),
         alias := LastVarint(fs, M_ALIAS),
         timestamp := Moment(LastVarint(fs, M_TIMESTAMP)),
         isHistorical := Given(LastVarint(fs, M_IS_HISTORICAL)) != 0,
         isTransient := Given(LastVarint(fs, M_IS_TRANSIENT)) != 0,
         isNull := Given(LastVarint(fs, M_IS_NULL)) != 0)
    && d.dt == Given(LastVarint(fs, M_DATATYPE)) % TWO32
    && d.val == if LastValue(fs).Some? then MetricField(EmptyDraft, LastValue(fs).value).val else None
  }

  function Given(v: Option<nat>): nat {
    if v.Some? then v.value else 0
  }

  /** The same for a metric: members may come in any order and any number of times, and the arm of
      the oneof that comes last is the value. */
  lemma LastOccurrenceCountsInMetric(fs: seq<Field>) returns (d: Draft)
    requires AllEncodable(fs)
    ensures HoldsLast(fs, d) && DecodedMetric(EncodeFields(fs)) == Done(Finish(d))
  {
    d := FoldMetric(fs, EmptyDraft);
    MetricReadsFields(fs, EmptyDraft);
    MetricFoldMeansLast(fs);
  }

  lemma {:induction false} MetricFoldMeansLast(fs: seq<Field>)
    ensures HoldsLast(fs, FoldMetric(fs, EmptyDraft))
  {
    if fs != [] {
      var before, f := fs[..|fs| - 1], fs[|fs| - 1];
      assert fs == before + [f];
      FoldMetricJoin(before, [f], EmptyDraft);
      FoldOne(f, FoldMetric(before, EmptyDraft));
      MetricFoldMeansLast(before);
      HoldsLastStep(before, f, FoldMetric(before, EmptyDraft));
    }
  }

  lemma HoldsLastStep(before: seq<Field>, f: Field, d: Draft)
    requires HoldsLast(before, d)
    ensures HoldsLast(before + [f], MetricField(d, f))
  {
    LastBytesAppend(before, f, M_NAME);
    LastVarintAppend(before, f, M_ALIAS);
    LastVarintAppend(before, f, M_TIMESTAMP);
    LastVarintAppend(before, f, M_IS_HISTORICAL);
    LastVarintAppend(before, f, M_IS_TRANSIENT);
    LastVarintAppend(before, f, M_IS_NULL);
    LastVarintAppend(before, f, M_DATATYPE);
    LastValueAppend(before, f);
    ValueStep(d, f);
  }

  /** The value is that of a field that brings one, and stays otherwise. */
  lemma ValueStep(d: Draft, f: Field)
    ensures MetricField(d, f).val == if BringsValue(f) then MetricField(EmptyDraft, f).val else d.val
  {
  }

  lemma LastVarintAppend(before: seq<Field>, f: Field, n: nat)
    ensures LastVarint(before + [f], n) ==
      if f.number == n && f.wire.AsVarint? then Some(f.wire.v) else LastVarint(before, n)
  {
    assert (before + [f])[..|before|] == before;
  }

  lemma LastBytesAppend(before: seq<Field>, f: Field, n: nat)
    ensures LastBytes(before + [f], n) ==
      if f.number == n && f.wire.AsBytes? then f.wire.bytes else LastBytes(before, n)
  {
    assert (before + [f])[..|before|] == before;
  }

  lemma LastValueAppend(before: seq<Field>, f: Field)
    ensures LastValue(before + [f]) == if BringsValue(f) then Some(f) else LastValue(before)
  {
    assert (before + [f])[..|before|] == before;
  }

  // The specification's payloads.

  /** A reading with its type. */
  datatype Reading =
    | Int8(i: int) | Int16(i: int) | Int32(i: int) | Int64(i: int)
    | UInt8(u: nat) | UInt16(u: nat) | UInt32(u: nat) | UInt64(u: nat)
    | Float(bits: nat) | Double(bits: nat)
    | Boolean(b: bool)
    | String(s: seq<Byte>) | TextValue(s: seq<Byte>) | Uuid(s: seq<Byte>)
    | DateTime(ms: nat)
    | Bytes(blob: seq<Byte>) | File(blob: seq<Byte>)
    | DataSet(blob: seq<Byte>) | Template(blob: seq<Byte>)

  predicate InRange(r: Reading) {
    match r
    case Int8(i) => -0x80 <= i < 0x80
    case Int16(i) => -0x8000 <= i < 0x8000
    case Int32(i) => -0x8000_0000 <= i < 0x8000_0000
    case Int64(i) => -0x8000_0000_0000_0000 <= i < 0x8000_0000_0000_0000
    case UInt8(u) => u < 0x100
    case UInt16(u) => u < 0x1_0000
    case UInt32(u) => u < TWO32
    case UInt64(u) => u < TWO64
    case Float(bits) => bits < TWO32
    case Double(bits) => bits < TWO64
    case DateTime(ms) => ms < TWO64
    case _ => true
  }

  function TypeIndex(r: Reading): nat {
    match r
    case Int8(_) => DT_INT8
    case Int16(_) => DT_INT16
    case Int32(_) => DT_INT32
    case Int64(_) => DT_INT64
    case UInt8(_) => DT_UINT8
    case UInt16(_) => DT_UINT16
    case UInt32(_) => DT_UINT32
    case UInt64(_) => DT_UINT64
    case Float(_) => DT_FLOAT
    case Double(_) => DT_DOUBLE
    case Boolean(_) => DT_BOOLEAN
    case String(_) => DT_STRING
    case TextValue(_) => DT_TEXT
    case Uuid(_) => DT_UUID
    case DateTime(_) => DT_DATETIME
    case Bytes(_) => DT_BYTES
    case File(_) => DT_FILE
    case DataSet(_) => DT_DATASET
    case Template(_) => DT_TEMPLATE
  }

  /** The field carries the reading. A signed number may arrive sign-extended to any width the varint
      allows, or masked to its own: what counts is that its low bits are right. */
  predicate Carries(f: Field, r: Reading) {
    match r
    case Int8(i) => f.number == M_INT && f.wire.AsVarint? && f.wire.v % 0x100 == i % 0x100
    case Int16(i) => f.number == M_INT && f.wire.AsVarint? && f.wire.v % 0x1_0000 == i % 0x1_0000
    case Int32(i) => f.number == M_INT && f.wire.AsVarint? && f.wire.v % TWO32 == i % TWO32
    case Int64(i) => f.number == M_LONG && f.wire.AsVarint? && f.wire.v % TWO64 == i % TWO64
    case UInt8(u) => f == Field(M_INT, AsVarint(u))
    case UInt16(u) => f == Field(M_INT, AsVarint(u))
    case UInt32(u) => f == Field(M_INT, AsVarint(u))
    case UInt64(u) => f == Field(M_LONG, AsVarint(u))
    case Float(bits) => f == Field(M_FLOAT, AsI32(bits))
    case Double(bits) => f == Field(M_DOUBLE, AsI64(bits))
    case Boolean(b) => f.number == M_BOOL && f.wire.AsVarint? && (b <==> f.wire.v != 0)
    case String(s) => f == Field(M_STRING, AsBytes(s))
    case TextValue(s) => f == Field(M_STRING, AsBytes(s))
    case Uuid(s) => f == Field(M_STRING, AsBytes(s))
    case DateTime(ms) => f == Field(M_LONG, AsVarint(ms))
    case Bytes(b) => f == Field(M_BYTES, AsBytes(b))
    case File(b) => f == Field(M_BYTES, AsBytes(b))
    case DataSet(b) => f == Field(M_DATASET, AsBytes(b))
    case Template(b) => f == Field(M_TEMPLATE, AsBytes(b))
  }

  /** What a reader is shown of a reading. */
  function Display(r: Reading): (Shown, Note) {
    match r
    case Int8(i) => (Whole(i), NoNote)
    case Int16(i) => (Whole(i), NoNote)
    case Int32(i) => (Whole(i), NoNote)
    case Int64(i) => (Whole(i), NoNote)
    case UInt8(u) => (Whole(u), NoNote)
    case UInt16(u) => (Whole(u), NoNote)
    case UInt32(u) => (Whole(u), NoNote)
    case UInt64(u) => (Whole(u), NoNote)
    case Float(bits) => (FloatBits(bits), NoNote)
    case Double(bits) => (DoubleBits(bits), NoNote)
    case Boolean(b) => (Truth(b), NoNote)
    case String(s) => (Text(s), NoNote)
    case TextValue(s) => (Text(s), NoNote)
    case Uuid(s) => (Text(s), NoNote)
    case DateTime(ms) => (Time(if ms <= TWO53 then ms else 0), NoNote)
    case Bytes(b) => (Nothing, BlobNote(|b|))
    case File(b) => (Nothing, BlobNote(|b|))
    case DataSet(b) => (Nothing, DataSetNote(Some(|b|)))
    case Template(b) => (Nothing, TemplateNote(Some(|b|)))
  }

  datatype SpecMetric = SpecMetric(
    name: seq<Byte>,
    alias: Option<nat>,
    timestamp: Option<nat>,
    typeIndex: nat,
    isHistorical: bool,
    isTransient: bool,
    isNull: bool,
    reading: Option<Reading>)

  datatype SpecPayload = SpecPayload(
    timestamp: Option<nat>,
    metrics: seq<SpecMetric>,
    seqNo: Option<nat>,
    uuid: seq<Byte>,
    body: seq<Byte>)

  ghost predicate WellTyped(m: SpecMetric) {
    && m.typeIndex < TWO32
    && (m.reading.Some? ==> InRange(m.reading.value) && m.typeIndex == TypeIndex(m.reading.value))
  }

  function Optional(number: nat, v: Option<nat>): seq<Field> {
    if v.Some? then [Field(number, AsVarint(v.value))] else []
  }

  function Flag(number: nat, b: bool): seq<Field> {
    if b then [Field(number, AsVarint(1))] else []
  }

  function Blob(number: nat, b: seq<Byte>): seq<Field> {
    if b != [] then [Field(number, AsBytes(b))] else []
  }

  /** All fields of a metric but its value; members at their default are left out, as encoders may. */
  function Header(m: SpecMetric): seq<Field> {
    Blob(M_NAME, m.name) + Optional(M_ALIAS, m.alias) + Optional(M_TIMESTAMP, m.timestamp)
    + [Field(M_DATATYPE, AsVarint(m.typeIndex))]
    + Flag(M_IS_HISTORICAL, m.isHistorical) + Flag(M_IS_TRANSIENT, m.isTransient) + Flag(M_IS_NULL, m.isNull)
  }

  /** The fields write the metric. They may come in any order, repeated, and with unknown fields in
      between: what is written is the last occurrence of each member, or its default when there is none,
      and the last value. */
  ghost predicate WritesMetric(fs: seq<Field>, m: SpecMetric) {
    && AllEncodable(fs)
    && LastBytes(fs, M_NAME) == m.name
    && LastVarint(fs, M_ALIAS) == m.alias
    && Moment(LastVarint(fs, M_TIMESTAMP)) == Moment(m.timestamp)
    && Given(LastVarint(fs, M_DATATYPE)) % TWO32 == m.typeIndex
    && (m.isHistorical <==> Given(LastVarint(fs, M_IS_HISTORICAL)) != 0)
    && (m.isTransient <==> Given(LastVarint(fs, M_IS_TRANSIENT)) != 0)
    && (m.isNull <==> Given(LastVarint(fs, M_IS_NULL)) != 0)
    && (if m.reading.Some? then LastValue(fs).Some? && Carries(LastValue(fs).value, m.reading.value)
        else LastValue(fs).None?)
  }

  /** The metric as it is shown. */
  function ViewMetric(m: SpecMetric): Metric {
    var (value, note) :=
      if m.isNull then (Nothing, IsNullNote)
      else if m.reading.None? then (Nothing, NoValueNote)
      else Display(m.reading.value);
    Metric(m.name, m.alias, m.typeIndex, value, note, m.isNull, m.isHistorical, m.isTransient, Moment(m.timestamp))
  }

  function Moment(ms: Option<nat>): Option<nat> {
    if ms.Some? then Some(if ms.value <= TWO53 then ms.value else 0) else None
  }

  function ViewPayload(p: SpecPayload): Payload {
    Payload(Moment(p.timestamp), p.seqNo, p.uuid,
            ViewMetrics(p.metrics), |p.body|)
  }

  function ViewMetrics(ms: seq<SpecMetric>): seq<Metric> {
    seq(|ms|, i requires 0 <= i < |ms| => ViewMetric(ms[i]))
  }

  lemma {:induction false} FoldMetricJoin(a: seq<Field>, b: seq<Field>, d: Draft)
    ensures FoldMetric(a + b, d) == FoldMetric(b, FoldMetric(a, d))
  {
    if a == [] {
      assert a + b == b;
    } else {
      assert (a + b)[1..] == a[1..] + b;
      FoldMetricJoin(a[1..], b, MetricField(d, a[0]));
    }
  }

  lemma FoldOne(f: Field, d: Draft)
    ensures FoldMetric([f], d) == MetricField(d, f)
  {
    assert [f][1..] == [];
  }

  /** Low bits and two's complement: the signed number comes back. */
  lemma SignedInverse(v: nat, i: int, modulus: nat)
    requires modulus > 0 && modulus % 2 == 0 && -(modulus / 2) <= i < modulus / 2 && v % modulus == i % modulus
    ensures Signed(v, modulus) == i
  {
    if i < 0 {
      assert i % modulus == i + modulus by { ModShift(i, modulus); }
    } else {
      assert i % modulus == i by { ModSmall(i, modulus); }
    }
  }

  lemma ModShift(i: int, m: int)
    requires m > 0 && -m <= i < 0
    ensures i % m == i + m
  {
  }

  lemma ModSmall(i: int, m: nat)
    requires 0 <= i < m
    ensures i % m == i
  {
  }

  lemma LowBits(v: nat)
    ensures (v % TWO32) % 0x100 == v % 0x100 && (v % TWO32) % 0x1_0000 == v % 0x1_0000 &&
      (v % TWO32) % TWO32 == v % TWO32
  {
    var q, r := v / TWO32, v % TWO32;
    assert v == 0x100 * (q * 0x100_0000) + r && v == 0x1_0000 * (q * 0x1_0000) + r;
    Multiple8(q * 0x100_0000, r);
    Multiple16(q * 0x1_0000, r);
  }

  lemma Multiple8(k: nat, r: nat)
    ensures (0x100 * k + r) % 0x100 == r % 0x100
  {
  }

  lemma Multiple16(k: nat, r: nat)
    ensures (0x1_0000 * k + r) % 0x1_0000 == r % 0x1_0000
  {
  }

  /** A value field is rendered as the reading it carries. */
  lemma CarriedIsDisplayed(f: Field, r: Reading, d: Draft)
    requires InRange(r) && Carries(f, r) && Encodable(f)
    ensures var d' := MetricField(d, f);
      d' == d.(val := d'.val) && d'.val.Some? && RenderValue(TypeIndex(r), d'.val.value) == Display(r)
  {
    match r
    case Int8(i) => LowBits(f.wire.v); SignedInverse(f.wire.v % TWO32, i, 0x100);
    case Int16(i) => LowBits(f.wire.v); SignedInverse(f.wire.v % TWO32, i, 0x1_0000);
    case Int32(i) => LowBits(f.wire.v); SignedInverse(f.wire.v % TWO32, i, TWO32);
    case Int64(i) => SignedInverse(f.wire.v, i, TWO64);
    case _ =>
  }

  /** The arm of the oneof that a datatype calls for. */
  function ArmOf(dt: nat): nat {
    if dt in {DT_INT64, DT_UINT64, DT_DATETIME} then M_LONG
    else if dt == DT_FLOAT then M_FLOAT
    else if dt == DT_DOUBLE then M_DOUBLE
    else if dt == DT_BOOLEAN then M_BOOL
    else if dt in {DT_STRING, DT_TEXT, DT_UUID} then M_STRING
    else if dt in {DT_BYTES, DT_FILE} then M_BYTES
    else if dt == DT_DATASET then M_DATASET
    else if dt == DT_TEMPLATE then M_TEMPLATE
    else M_INT
  }

  /** Long and boolean values are kept in one member, and so are the sizes of datasets and templates. */
  predicate SameSlot(a: nat, b: nat) {
    a == b || {a, b} == {M_LONG, M_BOOL} || {a, b} == {M_DATASET, M_TEMPLATE}
  }

  /** What is shown when nothing is in the member a datatype is read from. */
  function Blank(dt: nat): (Shown, Note) {
    if dt == DT_FLOAT then (FloatBits(0), NoNote)
    else if dt == DT_DOUBLE then (DoubleBits(0), NoNote)
    else if dt == DT_BOOLEAN then (Truth(false), NoNote)
    else if dt in {DT_STRING, DT_TEXT, DT_UUID} then (Text([]), NoNote)
    else if dt == DT_DATETIME then (Time(0), NoNote)
    else if dt in {DT_BYTES, DT_FILE} then (Nothing, BlobNote(0))
    else if dt == DT_DATASET then (Nothing, DataSetNote(None))
    else if dt == DT_TEMPLATE then (Nothing, TemplateNote(None))
    else (Whole(0), NoNote)
  }

  /** A value may arrive in any arm, whatever its datatype. In an arm kept in the same member it is shown as in
      the datatype's own arm, so a reading it carries is shown; in any other arm it is shown as blank. */
  lemma AnyArm(f: Field, dt: nat, d: Draft)
    requires BringsValue(f) && Encodable(f) && DT_INT8 <= dt <= DT_TEMPLATE
    ensures var d', own := MetricField(d, f), f.(number := ArmOf(dt));
      && d'.val.Some?
      && RenderValue(dt, d'.val.value) ==
          (if SameSlot(f.number, ArmOf(dt)) then RenderValue(dt, MetricField(d, own).val.value) else Blank(dt))
      && forall r :: InRange(r) && TypeIndex(r) == dt && SameSlot(f.number, ArmOf(dt)) && Carries(own, r) ==>
          RenderValue(dt, d'.val.value) == Display(r)
  {
    var own := f.(number := ArmOf(dt));
    forall r | InRange(r) && TypeIndex(r) == dt && Carries(own, r)
      ensures MetricField(d, own).val.Some? && RenderValue(dt, MetricField(d, own).val.value) == Display(r)
    {
      CarriedIsDisplayed(own, r, d);
    }
    InArm(f, dt, d);
  }

  lemma InArm(f: Field, dt: nat, d: Draft)
    requires BringsValue(f) && DT_INT8 <= dt <= DT_TEMPLATE
    ensures MetricField(d, f).val.Some?
    ensures SameSlot(f.number, ArmOf(dt)) ==> MetricField(d, f.(number := ArmOf(dt))).val.Some?
    ensures RenderValue(dt, MetricField(d, f).val.value) ==
      if SameSlot(f.number, ArmOf(dt)) then RenderValue(dt, MetricField(d, f.(number := ArmOf(dt))).val.value)
      else Blank(dt)
  {
  }

  /** A value shown by the arm it arrived in, noted with its datatype. */
  function AsArrived(f: Field, dt: nat): (Shown, Note)
    requires BringsValue(f)
  {
    match f.wire
    case AsI32(bits) => (FloatBits(bits), UnknownTypeNote(dt))
    case AsI64(bits) => (DoubleBits(bits), UnknownTypeNote(dt))
    case AsVarint(v) =>
      (if f.number == M_BOOL then Truth(v != 0) else Whole(if f.number == M_LONG then v else v % TWO32),
       UnknownTypeNote(dt))
    case AsBytes(b) =>
      if f.number == M_STRING then (Text(b), UnknownTypeNote(dt))
      else (Nothing, if f.number == M_BYTES then UnknownBlobNote(|b|, dt) else UnknownTypeNote(dt))
  }

  /** The datatype the fields of a metric end up giving it; zero when they give none. */
  function DatatypeOf(fs: seq<Field>): nat {
    Given(LastVarint(fs, M_DATATYPE)) % TWO32
  }

  /** A metric without a datatype, as data messages may send, or with one that is not known shows what its last
      value carries, as it arrived. */
  lemma UnknownTypeShown(fs: seq<Field>, f: Field)
    requires AllEncodable(fs) && LastValue(fs) == Some(f) && Given(LastVarint(fs, M_IS_NULL)) == 0
    requires DatatypeOf(fs) == 0 || DatatypeOf(fs) > DT_TEMPLATE
    ensures var r := DecodedMetric(EncodeFields(fs));
      r.Done? && r.value.dataType == DatatypeOf(fs) && (r.value.value, r.value.note) == AsArrived(f, DatatypeOf(fs))
  {
    var d := LastOccurrenceCountsInMetric(fs);
    UnknownTypeRendered(f, DatatypeOf(fs));
  }

  lemma UnknownTypeRendered(f: Field, dt: nat)
    requires BringsValue(f) && (dt == 0 || dt > DT_TEMPLATE)
    ensures MetricField(EmptyDraft, f).val.Some?
    ensures RenderValue(dt, MetricField(EmptyDraft, f).val.value) == AsArrived(f, dt)
  {
  }

  /** A metric of a known datatype shows its last value as that datatype, whatever arm it came in. */
  lemma KnownTypeShown(fs: seq<Field>, f: Field)
    requires AllEncodable(fs) && LastValue(fs) == Some(f) && Given(LastVarint(fs, M_IS_NULL)) == 0
    requires DT_INT8 <= DatatypeOf(fs) <= DT_TEMPLATE
    ensures var r, own := DecodedMetric(EncodeFields(fs)), f.(number := ArmOf(DatatypeOf(fs)));
      && r.Done? && r.value.dataType == DatatypeOf(fs)
      && (!SameSlot(f.number, own.number) ==> (r.value.value, r.value.note) == Blank(DatatypeOf(fs)))
      && forall x :: InRange(x) && TypeIndex(x) == DatatypeOf(fs) && SameSlot(f.number, own.number) && Carries(own, x)
           ==> (r.value.value, r.value.note) == Display(x)
  {
    var d := LastOccurrenceCountsInMetric(fs);
    LastValueEncodable(fs);
    AnyArm(f, DatatypeOf(fs), EmptyDraft);
  }

  /** The draft a header leaves. */
  function HeaderDraft(m: SpecMetric): Draft {
    Draft(Metric(m.name, m.alias, 0, Nothing, NoNote, m.isNull, m.isHistorical, m.isTransient, Moment(m.timestamp)),
          m.typeIndex, None)
  }

  lemma HeaderFold(m: SpecMetric)
    requires m.typeIndex < TWO32
    ensures FoldMetric(Header(m), EmptyDraft) == HeaderDraft(m)
  {
    var d0 := EmptyDraft;
    var a := Blob(M_NAME, m.name);
    var b := Optional(M_ALIAS, m.alias);
    var c := Optional(M_TIMESTAMP, m.timestamp);
    var t := [Field(M_DATATYPE, AsVarint(m.typeIndex))];
    var e := Flag(M_IS_HISTORICAL, m.isHistorical);
    var f := Flag(M_IS_TRANSIENT, m.isTransient);
    var g := Flag(M_IS_NULL, m.isNull);
    var d1 := d0.(m := d0.m.(name := m.name));
    OptionalFold(a, d0);
    assert FoldMetric(a, d0) == d1;
    var d2 := d1.(m := d1.m.(alias := m.alias));
    OptionalFold(b, d1);
    assert FoldMetric(b, d1) == d2;
    var d3 := d2.(m := d2.m.(timestamp := Moment(m.timestamp)));
    OptionalFold(c, d2);
    assert FoldMetric(c, d2) == d3;
    OptionalFold(t, d3);
    var d4 := d3.(dt := m.typeIndex);
    assert FoldMetric(t, d3) == d4;
    var d5 := d4.(m := d4.m.(isHistorical := m.isHistorical));
    OptionalFold(e, d4);
    assert FoldMetric(e, d4) == d5;
    var d6 := d5.(m := d5.m.(isTransient := m.isTransient));
    OptionalFold(f, d5);
    assert FoldMetric(f, d5) == d6;
    OptionalFold(g, d6);
    HeaderJoin(a, b, c, t, e, f, g, d0);
  }

  lemma OptionalFold(fs: seq<Field>, d: Draft)
    requires |fs| <= 1
    ensures FoldMetric(fs, d) == if fs == [] then d else MetricField(d, fs[0])
  {
    if fs != [] { assert fs == [fs[0]]; FoldOne(fs[0], d); }
  }

  lemma HeaderJoin(a: seq<Field>, b: seq<Field>, c: seq<Field>, t: seq<Field>, e: seq<Field>, f: seq<Field>,
                   g: seq<Field>,
                   d: Draft)
    ensures FoldMetric(a + b + c + t + e + f + g, d) ==
      FoldMetric(g, FoldMetric(f, FoldMetric(e, FoldMetric(t, FoldMetric(c, FoldMetric(b, FoldMetric(a, d)))))))
  {
    FoldMetricJoin(a + b + c + t + e + f, g, d);
    FoldMetricJoin(a + b + c + t + e, f, d);
    FoldMetricJoin(a + b + c + t, e, d);
    FoldMetricJoin(a + b + c, t, d);
    FoldMetricJoin(a + b, c, d);
    FoldMetricJoin(a, b, d);
  }

  /** Decoding any encoding of a metric, whatever the order of its fields, shows that metric. */
  lemma MetricRoundTrip(fs: seq<Field>, m: SpecMetric)
    requires WellTyped(m) && WritesMetric(fs, m)
    ensures DecodedMetric(EncodeFields(fs)) == Done(ViewMetric(m))
  {
    var d := LastOccurrenceCountsInMetric(fs);
    if m.reading.Some? {
      var f := LastValue(fs).value;
      LastValueEncodable(fs);
      CarriedIsDisplayed(f, m.reading.value, EmptyDraft);
    }
  }

  lemma {:induction false} LastValueEncodable(fs: seq<Field>)
    requires AllEncodable(fs) && LastValue(fs).Some?
    ensures Encodable(LastValue(fs).value)
  {
    var last := |fs| - 1;
    assert Encodable(fs[last]);
    if !BringsValue(fs[last]) { LastValueEncodable(fs[..last]); }
  }

  ghost predicate Written(m: SpecMetric, gs: seq<Field>) {
    WellTyped(m) && WritesMetric(gs, m)
  }

  ghost predicate AllWritten(ms: seq<SpecMetric>, gss: seq<seq<Field>>) {
    |gss| == |ms| && forall i {:trigger Written(ms[i], gss[i])} :: 0 <= i < |ms| ==> Written(ms[i], gss[i])
  }

  /** The fields write the payload, each metric by the fields given for it. They may come in any order, repeated,
      and with unknown fields in between: of each single member the last occurrence counts, and the metrics
      stand in order. */
  ghost predicate WritesPayload(fs: seq<Field>, gss: seq<seq<Field>>, p: SpecPayload) {
    && AllEncodable(fs) && AllWritten(p.metrics, gss)
    && Moment(LastVarint(fs, F_TIMESTAMP)) == Moment(p.timestamp)
    && LastVarint(fs, F_SEQ) == p.seqNo
    && LastBytes(fs, F_UUID) == p.uuid
    && LastBytes(fs, F_BODY) == p.body
    && |MetricBytes(fs)| == |gss| && forall i :: 0 <= i < |gss| ==> MetricBytes(fs)[i] == EncodeFields(gss[i])
  }

  /** Decoding any encoding of a payload, whatever the order of its fields and of those of its metrics, shows
      the payload: metrics in order, every value restored. */
  lemma PayloadRoundTrip(fs: seq<Field>, gss: seq<seq<Field>>, p: SpecPayload)
    requires WritesPayload(fs, gss, p)
    ensures PayloadFrom(EncodeFields(fs), EmptyPayload) == Done(ViewPayload(p))
  {
    var ms := ViewMetrics(p.metrics);
    forall i | 0 <= i < |ms| ensures DecodedMetric(MetricBytes(fs)[i]) == Done(ms[i]) {
      assert Written(p.metrics[i], gss[i]);
      MetricRoundTrip(gss[i], p.metrics[i]);
    }
    PayloadReadsFields(fs, EmptyPayload);
    MetricsDecode(fs, ms);
    FoldMeansLast(fs);
  }

  /** The fields of a payload whose metrics are written by the given fields. */
  function PayloadFields(p: SpecPayload, metrics: seq<seq<Field>>): seq<Field> {
    Optional(F_TIMESTAMP, p.timestamp) + MetricBlobs(metrics)
    + Optional(F_SEQ, p.seqNo) + Blob(F_UUID, p.uuid) + Blob(F_BODY, p.body)
  }

  function MetricBlobs(metrics: seq<seq<Field>>): seq<Field> {
    if metrics == [] then [] else [Field(F_METRICS, AsBytes(EncodeFields(metrics[0])))] + MetricBlobs(metrics[1..])
  }

  lemma {:induction false} FoldPayloadJoin(a: seq<Field>, b: seq<Field>, p: Payload)
    ensures FoldPayload(a + b, p) ==
      match FoldPayload(a, p) case Done(q) => FoldPayload(b, q) case Failed(e, q) => Failed(e, q)
  {
    if a == [] {
      assert a + b == b;
    } else {
      assert (a + b)[1..] == a[1..] + b;
      var q := PayloadField(p, a[0]);
      if q.Done? { FoldPayloadJoin(a[1..], b, q.value); }
    }
  }

  lemma PayloadOptional(fs: seq<Field>, p: Payload)
    requires |fs| <= 1
    ensures FoldPayload(fs, p) == if fs == [] then Done(p) else PayloadField(p, fs[0])
  {
    if fs != [] { assert fs[1..] == []; }
  }

  lemma MetricStep(p: Payload, gs: seq<Field>, m: SpecMetric)
    requires Written(m, gs)
    ensures PayloadField(p, Field(F_METRICS, AsBytes(EncodeFields(gs)))) == Done(p.(metrics :=
      p.metrics + [ViewMetric(m)]))
  {
    MetricRoundTrip(gs, m);
  }

  lemma FoldPayloadCons(f: Field, rest: seq<Field>, p: Payload, q: Payload)
    requires PayloadField(p, f) == Done(q)
    ensures FoldPayload([f] + rest, p) == FoldPayload(rest, q)
  {
    assert ([f] + rest)[1..] == rest;
  }

  lemma {:induction false} MetricsFold(ms: seq<SpecMetric>, gss: seq<seq<Field>>, p: Payload)
    requires AllWritten(ms, gss)
    ensures FoldPayload(MetricBlobs(gss), p) == Done(p.(metrics := p.metrics + ViewMetrics(ms)))
  {
    if ms == [] {
      assert ViewMetrics(ms) == [];
      assert p.metrics + [] == p.metrics;
    } else {
      var view := ViewMetric(ms[0]);
      AllWrittenTail(ms, gss);
      MetricStep(p, gss[0], ms[0]);
      var q := p.(metrics := p.metrics + [view]);
      MetricsFold(ms[1..], gss[1..], q);
      FoldPayloadCons(Field(F_METRICS, AsBytes(EncodeFields(gss[0]))), MetricBlobs(gss[1..]), p, q);
      ViewMetricsCons(ms);
      Associate(p.metrics, view, ViewMetrics(ms[1..]));
    }
  }

  lemma ViewMetricsCons(ms: seq<SpecMetric>)
    requires ms != []
    ensures ViewMetrics(ms) == [ViewMetric(ms[0])] + ViewMetrics(ms[1..])
  {
  }

  lemma Associate(a: seq<Metric>, x: Metric, b: seq<Metric>)
    ensures a + [x] + b == a + ([x] + b)
  {
  }

  lemma AllWrittenTail(ms: seq<SpecMetric>, gss: seq<seq<Field>>)
    requires AllWritten(ms, gss) && ms != []
    ensures Written(ms[0], gss[0]) && AllWritten(ms[1..], gss[1..])
  {
    forall i | 0 <= i < |ms[1..]| ensures Written(ms[1..][i], gss[1..][i]) { assert Written(ms[i + 1], gss[i + 1]); }
  }

  lemma FoldPayloadParts(a: seq<Field>, b: seq<Field>, c: seq<Field>, d: seq<Field>, e: seq<Field>,
                         p0: Payload, p1: Payload, p2: Payload, p3: Payload, p4: Payload, p5: Payload)
    requires FoldPayload(a, p0) == Done(p1) && FoldPayload(b, p1) == Done(p2) && FoldPayload(c, p2) == Done(p3)
    requires FoldPayload(d, p3) == Done(p4) && FoldPayload(e, p4) == Done(p5)
    ensures FoldPayload(a + b + c + d + e, p0) == Done(p5)
  {
    FoldPayloadJoin(a + b + c + d, e, p0);
    FoldPayloadJoin(a + b + c, d, p0);
    FoldPayloadJoin(a + b, c, p0);
    FoldPayloadJoin(a, b, p0);
  }

  lemma PayloadFieldsFold(p: SpecPayload, gss: seq<seq<Field>>)
    requires AllWritten(p.metrics, gss)
    ensures FoldPayload(PayloadFields(p, gss), EmptyPayload) == Done(ViewPayload(p))
  {
    var p1 := EmptyPayload.(timestamp := Moment(p.timestamp));
    var p2 := p1.(metrics := ViewMetrics(p.metrics));
    var p3 := p2.(seqNo := p.seqNo);
    var p4 := p3.(uuid := p.uuid);
    PayloadOptional(Optional(F_TIMESTAMP, p.timestamp), EmptyPayload);
    MetricsFold(p.metrics, gss, p1);
    assert p1.metrics + ViewMetrics(p.metrics) == ViewMetrics(p.metrics);
    PayloadOptional(Optional(F_SEQ, p.seqNo), p2);
    PayloadOptional(Blob(F_UUID, p.uuid), p3);
    PayloadOptional(Blob(F_BODY, p.body), p4);
    FoldPayloadParts(Optional(F_TIMESTAMP, p.timestamp), MetricBlobs(gss), Optional(F_SEQ, p.seqNo),
                     Blob(F_UUID, p.uuid), Blob(F_BODY, p.body), EmptyPayload, p1, p2, p3, p4, ViewPayload(p));
  }

  // The specification's own encoding: members in the order of their numbers.

  /** The field an encoder writes for a reading. */
  function ReadingField(r: Reading): (f: Field)
    ensures InRange(r) ==> Carries(f, r) && BringsValue(f)
  {
    match r
    case Int8(i) => Field(M_INT, AsVarint(i % 0x100))
    case Int16(i) => Field(M_INT, AsVarint(i % 0x1_0000))
    case Int32(i) => Field(M_INT, AsVarint(i % TWO32))
    case Int64(i) => Field(M_LONG, AsVarint(i % TWO64))
    case UInt8(u) => Field(M_INT, AsVarint(u))
    case UInt16(u) => Field(M_INT, AsVarint(u))
    case UInt32(u) => Field(M_INT, AsVarint(u))
    case UInt64(u) => Field(M_LONG, AsVarint(u))
    case Float(bits) => Field(M_FLOAT, AsI32(bits))
    case Double(bits) => Field(M_DOUBLE, AsI64(bits))
    case Boolean(b) => Field(M_BOOL, AsVarint(if b then 1 else 0))
    case String(s) => Field(M_STRING, AsBytes(s))
    case TextValue(s) => Field(M_STRING, AsBytes(s))
    case Uuid(s) => Field(M_STRING, AsBytes(s))
    case DateTime(ms) => Field(M_LONG, AsVarint(ms))
    case Bytes(b) => Field(M_BYTES, AsBytes(b))
    case File(b) => Field(M_BYTES, AsBytes(b))
    case DataSet(b) => Field(M_DATASET, AsBytes(b))
    case Template(b) => Field(M_TEMPLATE, AsBytes(b))
  }

  function MetricFields(m: SpecMetric): seq<Field> {
    if m.reading.Some? then Header(m) + [ReadingField(m.reading.value)] else Header(m)
  }

  /** An encoder's fields write the metric. */
  lemma EncoderWritesMetric(m: SpecMetric)
    requires WellTyped(m) && AllEncodable(MetricFields(m))
    ensures WritesMetric(MetricFields(m), m)
  {
    var h, fs := Header(m), MetricFields(m);
    HeaderFold(m);
    NoValueInHeader(h);
    MetricFoldMeansLast(fs);
    if m.reading.Some? { ValueAfterHeader(h, ReadingField(m.reading.value), m); }
    HeldIsWritten(fs, FoldMetric(fs, EmptyDraft), m);
  }

  lemma ValueAfterHeader(h: seq<Field>, f: Field, m: SpecMetric)
    requires FoldMetric(h, EmptyDraft) == HeaderDraft(m) && BringsValue(f)
    ensures LastValue(h + [f]) == Some(f)
    ensures FoldMetric(h + [f], EmptyDraft) == HeaderDraft(m).(val := FoldMetric(h + [f], EmptyDraft).val)
  {
    FoldMetricJoin(h, [f], EmptyDraft);
    FoldOne(f, HeaderDraft(m));
    LastValueAppend(h, f);
  }

  lemma HeldIsWritten(fs: seq<Field>, d: Draft, m: SpecMetric)
    requires AllEncodable(fs) && HoldsLast(fs, d)
    requires d.m == HeaderDraft(m).m && d.dt == m.typeIndex
    requires if m.reading.Some? then LastValue(fs).Some? && Carries(LastValue(fs).value, m.reading.value)
             else LastValue(fs).None?
    ensures WritesMetric(fs, m)
  {
  }

  lemma {:induction false} NoValueInHeader(fs: seq<Field>)
    requires forall i :: 0 <= i < |fs| ==> fs[i].number < M_INT
    ensures LastValue(fs).None?
  {
    if fs != [] { NoValueInHeader(fs[..|fs| - 1]); }
  }

  function MetricsFields(ms: seq<SpecMetric>): seq<seq<Field>> {
    seq(|ms|, i requires 0 <= i < |ms| => MetricFields(ms[i]))
  }

  /** All lengths and numbers fit their fields. */
  ghost predicate Fits(p: SpecPayload) {
    && AllEncodable(PayloadFields(p, MetricsFields(p.metrics)))
    && forall i :: 0 <= i < |p.metrics| ==> WellTyped(p.metrics[i]) && AllEncodable(MetricFields(p.metrics[i]))
  }

  function EncodePayload(p: SpecPayload): seq<Byte> {
    EncodeFields(PayloadFields(p, MetricsFields(p.metrics)))
  }

  /** Decoding inverts encoding. */
  lemma EncodedPayloadIsDecoded(p: SpecPayload)
    requires Fits(p)
    ensures PayloadFrom(EncodePayload(p), EmptyPayload) == Done(ViewPayload(p))
  {
    var gss := MetricsFields(p.metrics);
    forall i | 0 <= i < |p.metrics| ensures Written(p.metrics[i], gss[i]) {
      EncoderWritesMetric(p.metrics[i]);
    }
    PayloadReadsFields(PayloadFields(p, gss), EmptyPayload);
    PayloadFieldsFold(p, gss);
  }
}

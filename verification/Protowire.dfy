/** The protobuf wire reader (internal/payload/protowire.go). */
module Protowire {

  type Byte = b: int | 0 <= b < 256

  const TWO32: nat := 0x1_0000_0000
  const TWO63: nat := 0x8000_0000_0000_0000
  const TWO64: nat := 0x1_0000_0000_0000_0000

  datatype Error = Truncated | FieldNumberZero | VarintOverflow | GroupEncoding | UnknownWireType

  /** The outcome of reading from the front of a byte sequence, and how many bytes that took. */
  datatype Read<+T> = Ok(value: T, used: nat) | Err(error: Error, used: nat)

  const WIRE_VARINT := 0
  const WIRE_I64 := 1
  const WIRE_BYTES := 2
  const WIRE_SGROUP := 3
  const WIRE_EGROUP := 4
  const WIRE_I32 := 5

  // Base 128 varints.

  function Pow128(k: nat): (p: nat)
    ensures p > 0
  {
    if k == 0 then 1 else 128 * Pow128(k - 1)
  }

  /** The number spelled by 7-bit groups, least significant first. */
  function Groups(s: seq<Byte>): nat {
    if s == [] then 0 else s[0] % 128 + 128 * Groups(s[1..])
  }

  /** How many bytes at the front carry the continuation bit. */
  function Continued(s: seq<Byte>): (n: nat)
    ensures n <= |s| && (forall i :: 0 <= i < n ==> s[i] >= 128) && (n < |s| ==> s[n] < 128)
  {
    if s == [] || s[0] < 128 then 0 else 1 + Continued(s[1..])
  }

  /** The varint at the front: the sum of its groups modulo 2^64, in at most ten bytes. */
  function Varint(s: seq<Byte>): (r: Read<nat>)
    ensures r.Ok? ==> 1 <= r.used <= 10 && r.used <= |s| && r.value < TWO64
    ensures r.used <= |s|
  {
    var n := Continued(s);
    if n < 10 then
      if n < |s| then Ok(Groups(s[..n + 1]) % TWO64, n + 1) else Err(Truncated, |s|)
    else if |s| > 10 then Err(VarintOverflow, 11) else Err(Truncated, 10)
  }

  function EncodeVarint(v: nat): (s: seq<Byte>)
    ensures |s| >= 1
  {
    if v < 128 then [v] else [v % 128 + 128] + EncodeVarint(v / 128)
  }

  lemma {:induction false} GroupsAppend(s: seq<Byte>, b: Byte)
    ensures Groups(s + [b]) == Groups(s) + (b % 128) * Pow128(|s|)
  {
    if s == [] {
      assert [b][1..] == [];
      assert s + [b] == [b];
    } else {
      GroupsAppend(s[1..], b);
      assert (s + [b])[1..] == s[1..] + [b];
      var x, p := b % 128, Pow128(|s| - 1);
      assert 128 * (x * p) == x * (128 * p);
    }
  }

  lemma {:induction false} GroupsBound(s: seq<Byte>)
    ensures Groups(s) < Pow128(|s|)
  {
    if s != [] { GroupsBound(s[1..]); }
  }

  lemma Pow128Small()
    ensures Pow128(9) == TWO63 && Pow128(10) == 64 * TWO64
  {
    assert Pow128(4) == 0x1000_0000;
    assert Pow128(8) == 0x1000_0000 * 0x1000_0000;
  }

  lemma {:induction false} Pow128Mono(j: nat, k: nat)
    requires j <= k
    ensures Pow128(j) <= Pow128(k)
  {
    if j < k { Pow128Mono(j, k - 1); }
  }

  // Words of 64 bits as numbers: bitwise or, and shifting left with what passes the top lost.

  function Pow2(k: nat): (p: nat)
    ensures p > 0
  {
    if k == 0 then 1 else 2 * Pow2(k - 1)
  }

  function Or(a: nat, b: nat): nat
    decreases a + b
  {
    if a == 0 && b == 0 then 0
    else (if a % 2 == 1 || b % 2 == 1 then 1 else 0) + 2 * Or(a / 2, b / 2)
  }

  function ShiftLeft(x: nat, k: nat): nat {
    x * Pow2(k) % TWO64
  }

  lemma {:induction false} OrZero(b: nat)
    ensures Or(0, b) == b
  {
    if b != 0 { OrZero(b / 2); }
  }

  /** Or-ing a shifted number onto the bits below it is adding it: no bit is set twice. */
  lemma {:induction false} OrIsAdd(v: nat, x: nat, k: nat)
    requires v < Pow2(k)
    ensures Or(v, x * Pow2(k)) == v + x * Pow2(k)
  {
    if k == 0 {
      OrZero(x);
    } else {
      var half := x * Pow2(k - 1);
      assert x * Pow2(k) == 2 * half;
      OrIsAdd(v / 2, x, k - 1);
      OrEven(v, half);
    }
  }

  lemma OrEven(v: nat, h: nat)
    ensures Or(v, 2 * h) == v % 2 + 2 * Or(v / 2, h)
  {
    assert (2 * h) % 2 == 0 && 2 * h / 2 == h;
  }

  lemma {:induction false} Pow2Seven(k: nat)
    ensures Pow2(7 * k) == Pow128(k)
  {
    if k > 0 {
      Pow2Seven(k - 1);
      var p := Pow2(7 * (k - 1));
      assert Pow2(7 * k - 6) == 2 * p;
      assert Pow2(7 * k - 4) == 8 * p;
      assert Pow2(7 * k - 2) == 32 * p;
    }
  }

  /** What the decoder's word holds after one group more is what its groups add up to, reduced to 64 bits:
      the group's own bits beyond the top are lost in the shift, and or-ing adds the rest. */
  lemma OrGroup(s: seq<Byte>, b: Byte)
    requires |s| <= 9
    ensures Or(Groups(s), ShiftLeft(b % 128, 7 * |s|)) == Groups(s) + (b % 128 * Pow128(|s|)) % TWO64
  {
    Pow2Seven(|s|);
    GroupsBound(s);
    var x, p := b % 128, Pow128(|s|);
    var y := if |s| < 9 then x else x % 2;
    assert x * p % TWO64 == y * p by {
      Pow128Small();
      if |s| < 9 { LowGroup(s, b); } else { TopBit(x, p); }
    }
    OrIsAdd(Groups(s), y, 7 * |s|);
  }

  lemma TopBit(x: nat, p: nat)
    requires p == TWO63
    ensures x * p % TWO64 == x % 2 * p
  {
    assert x == x / 2 * 2 + x % 2;
    assert x * p == x % 2 * p + x / 2 * TWO64;
    ModPlus(x % 2 * p, x / 2);
  }

  /** One group more: what is shifted out at the top is exactly what the modulus drops. */
  lemma AddGroup(s: seq<Byte>, b: Byte)
    requires |s| <= 9
    ensures Groups(s + [b]) % TWO64 == Groups(s) + (b % 128 * Pow128(|s|)) % TWO64
    ensures |s| < 9 ==> Groups(s + [b]) == Groups(s) + (b % 128 * Pow128(|s|)) % TWO64
  {
    if |s| < 9 {
      LowGroup(s, b);
    } else {
      HighGroup(s, b);
    }
  }

  /** One turn of the decoding loop. */
  lemma NextGroup(s: seq<Byte>, k: nat)
    requires k < |s| && k <= 9
    ensures var v := Or(Groups(s[..k]), ShiftLeft(s[k] % 128, 7 * k));
      v == Groups(s[..k + 1]) % TWO64 && (k < 9 ==> v == Groups(s[..k + 1]))
  {
    AddGroup(s[..k], s[k]);
    OrGroup(s[..k], s[k]);
    assert s[..k + 1] == s[..k] + [s[k]];
  }

  lemma HighGroup(s: seq<Byte>, b: Byte)
    requires |s| == 9
    ensures Groups(s + [b]) % TWO64 == Groups(s) + (b % 128 * Pow128(|s|)) % TWO64
  {
    GroupsAppend(s, b);
    GroupsBound(s);
    Pow128Small();
    TopGroup(Groups(s), b % 128, Pow128(|s|), Groups(s + [b]));
  }

  lemma LowGroup(s: seq<Byte>, b: Byte)
    requires |s| < 9
    ensures Groups(s + [b]) < TWO64 && b % 128 * Pow128(|s|) < TWO64
    ensures Groups(s + [b]) % TWO64 == Groups(s + [b])
    ensures (b % 128 * Pow128(|s|)) % TWO64 == b % 128 * Pow128(|s|)
    ensures Groups(s + [b]) == Groups(s) + b % 128 * Pow128(|s|)
  {
    GroupsAppend(s, b);
    GroupsBound(s + [b]);
    Pow128Small();
    Pow128Mono(|s| + 1, 9);
    NonNegative(b % 128, Pow128(|s|));
    Below(Groups(s + [b]));
    Below(b % 128 * Pow128(|s|));
  }

  lemma NonNegative(x: nat, y: nat)
    ensures x * y >= 0
  {
  }

  lemma Below(n: nat)
    requires n < TWO64
    ensures n % TWO64 == n
  {
  }

  lemma TopGroup(v: nat, x: nat, p: nat, sum: nat)
    requires p == TWO63 && v < p && sum == v + x * p
    ensures sum % TWO64 == v + (x * p) % TWO64
  {
    assert x == x / 2 * 2 + x % 2;
    assert x * TWO63 == x / 2 * TWO64 + x % 2 * TWO63;
    ModPlus(x % 2 * TWO63, x / 2);
    ModPlus(v + x % 2 * TWO63, x / 2);
  }

  lemma ModPlus(r: nat, q: nat)
    requires r < TWO64
    ensures (r + q * TWO64) % TWO64 == r
  {
  }

  lemma {:induction false} EncodeLength(v: nat, k: nat)
    requires k >= 1 && v < Pow128(k)
    ensures |EncodeVarint(v)| <= k
  {
    if v >= 128 {
      assert k > 1;
      EncodeLength(v / 128, k - 1);
    }
  }

  lemma {:induction false} EncodeGroups(v: nat)
    ensures Groups(EncodeVarint(v)) == v
  {
    if v >= 128 {
      EncodeGroups(v / 128);
      assert EncodeVarint(v)[1..] == EncodeVarint(v / 128);
    } else {
      assert EncodeVarint(v)[1..] == [];
    }
  }

  lemma {:induction false} EncodeContinues(v: nat, rest: seq<Byte>)
    ensures Continued(EncodeVarint(v) + rest) == |EncodeVarint(v)| - 1
  {
    if v >= 128 {
      EncodeContinues(v / 128, rest);
      assert (EncodeVarint(v) + rest)[1..] == EncodeVarint(v / 128) + rest;
    }
  }

  /** Decoding inverts encoding for every 64-bit number, whatever follows it. */
  lemma VarintRoundTrip(v: nat, rest: seq<Byte>)
    requires v < TWO64
    ensures Varint(EncodeVarint(v) + rest) == Ok(v, |EncodeVarint(v)|)
  {
    var e := EncodeVarint(v);
    Pow128Small();
    EncodeLength(v, 10);
    EncodeContinues(v, rest);
    EncodeGroups(v);
    assert (e + rest)[..|e|] == e;
    Below(v);
  }

  /** A read varint is the number its groups spell exactly when the tenth byte, if there is one, brings no
      more than one bit. */
  lemma ExactUnlessTenthByte(s: seq<Byte>)
    requires Varint(s).Ok?
    ensures var used := Varint(s).used;
      Varint(s).value == Groups(s[..used]) <==> used < 10 || s[9] % 128 <= 1
  {
    var used := Varint(s).used;
    var front, b := s[..used - 1], s[used - 1];
    assert s[..used] == front + [b];
    if used < 10 {
      LowGroup(front, b);
    } else {
      GroupsAppend(front, b);
      GroupsBound(front);
      Pow128Small();
      TopOverflows(Groups(front), b % 128, Pow128(9));
    }
  }

  lemma TopOverflows(v: nat, x: nat, p: nat)
    requires p == TWO63 && v < p
    ensures (v + x * p) % TWO64 == v + x * p <==> x <= 1
  {
    if x > 1 { assert x * p >= 2 * p; }
  }

  /** Seven bits in the tenth byte: nine 0xFF and one 0x7F spell 2^70 - 1 and are read as 2^64 - 1. */
  lemma TenthByteDropped() returns (s: seq<Byte>)
    ensures Varint(s) == Ok(TWO64 - 1, 10) && Groups(s) == 64 * TWO64 - 1
  {
    var ones := seq(9, _ => 255);
    s := ones + [127];
    AllOnes(ones);
    GroupsAppend(ones, 127);
    Pow128Small();
    ContinuedAt(s, 9);
    assert s[..10] == s;
    ModPlus(TWO64 - 1, 63);
  }

  lemma {:induction false} AllOnes(s: seq<Byte>)
    requires forall i :: 0 <= i < |s| ==> s[i] == 255
    ensures Groups(s) == Pow128(|s|) - 1
  {
    if s != [] {
      assert forall i :: 0 <= i < |s| - 1 ==> s[1..][i] == s[i + 1];
      AllOnes(s[1..]);
    }
  }

  // Fixed-width little-endian numbers.

  function LittleEndian(s: seq<Byte>): nat {
    if s == [] then 0 else s[0] + 256 * LittleEndian(s[1..])
  }

  function Fixed(s: seq<Byte>, width: nat): (r: Read<nat>)
    ensures r.used <= |s|
  {
    if |s| < width then Err(Truncated, 0) else Ok(LittleEndian(s[..width]), width)
  }

  function EncodeFixed(v: nat, width: nat): (s: seq<Byte>)
    ensures |s| == width
  {
    if width == 0 then [] else [v % 256] + EncodeFixed(v / 256, width - 1)
  }

  function Pow256(k: nat): (p: nat)
    ensures p > 0
  {
    if k == 0 then 1 else 256 * Pow256(k - 1)
  }

  lemma {:induction false} FixedRoundTrip(v: nat, width: nat, rest: seq<Byte>)
    requires v < Pow256(width)
    ensures Fixed(EncodeFixed(v, width) + rest, width) == Ok(v, width)
  {
    var e := EncodeFixed(v, width);
    assert (e + rest)[..width] == e;
    LittleEndianInverse(v, width);
  }

  lemma {:induction false} LittleEndianInverse(v: nat, width: nat)
    requires v < Pow256(width)
    ensures LittleEndian(EncodeFixed(v, width)) == v
  {
    if width > 0 {
      LittleEndianInverse(v / 256, width - 1);
      assert EncodeFixed(v, width)[1..] == EncodeFixed(v / 256, width - 1);
    }
  }

  // Length-delimited bytes, tags and whole fields.

  function Bytes(s: seq<Byte>): (r: Read<seq<Byte>>)
    ensures r.used <= |s|
  {
    match Varint(s)
    case Err(e, n) => Err(e, n)
    case Ok(n, k) => if n > |s| - k then Err(Truncated, k) else Ok(s[k..k + n], k + n)
  }

  datatype Tag = Tag(field: nat, wire: nat)

  function ReadTag(s: seq<Byte>): (r: Read<Tag>)
    ensures r.used <= |s| && (r.Ok? ==> r.used > 0 && r.value.field > 0 && r.value.wire < 8)
  {
    match Varint(s)
    case Err(e, n) => Err(e, n)
    case Ok(v, k) => if v / 8 == 0 then Err(FieldNumberZero, k) else Ok(Tag(v / 8, v % 8), k)
  }

  /** What a field carries. */
  datatype Wire = AsVarint(v: nat) | AsI64(bits64: nat) | AsBytes(bytes: seq<Byte>) | AsI32(bits32: nat)

  function ReadWire(s: seq<Byte>, wire: nat): (r: Read<Wire>)
    ensures r.used <= |s|
  {
    if wire == WIRE_VARINT then
      match Varint(s) case Ok(v, n) => Ok(AsVarint(v), n) case Err(e, n) => Err(e, n)
    else if wire == WIRE_I64 then
      match Fixed(s, 8) case Ok(v, n) => Ok(AsI64(v), n) case Err(e, n) => Err(e, n)
    else if wire == WIRE_BYTES then
      match Bytes(s) case Ok(b, n) => Ok(AsBytes(b), n) case Err(e, n) => Err(e, n)
    else if wire == WIRE_I32 then
      match Fixed(s, 4) case Ok(v, n) => Ok(AsI32(v), n) case Err(e, n) => Err(e, n)
    else if wire == WIRE_SGROUP || wire == WIRE_EGROUP then Err(GroupEncoding, 0)
    else Err(UnknownWireType, 0)
  }

  datatype Field = Field(number: nat, wire: Wire)

  /** One whole field: its tag and what it carries. */
  function ReadField(s: seq<Byte>): (r: Read<Field>)
    ensures r.used <= |s| && (r.Ok? ==> r.used > 0)
  {
    match ReadTag(s)
    case Err(e, n) => Err(e, n)
    case Ok(t, k) =>
      match ReadWire(s[k..], t.wire)
      case Err(e, n) => Err(e, k + n)
      case Ok(w, n) => Ok(Field(t.field, w), k + n)
  }

  /** A field some encoder can write. */
  predicate Encodable(f: Field) {
    && 0 < f.number && f.number * 8 + 7 < TWO64
    && match f.wire
       case AsVarint(v) => v < TWO64
       case AsI64(b) => b < TWO64
       case AsBytes(b) => |b| < TWO64
       case AsI32(b) => b < TWO32
  }

  function WireType(w: Wire): nat {
    match w
    case AsVarint(_) => WIRE_VARINT
    case AsI64(_) => WIRE_I64
    case AsBytes(_) => WIRE_BYTES
    case AsI32(_) => WIRE_I32
  }

  function EncodeWire(w: Wire): seq<Byte> {
    match w
    case AsVarint(v) => EncodeVarint(v)
    case AsI64(b) => EncodeFixed(b, 8)
    case AsBytes(b) => EncodeVarint(|b|) + b
    case AsI32(b) => EncodeFixed(b, 4)
  }

  function EncodeField(f: Field): (s: seq<Byte>)
    ensures |s| >= 1
  {
    EncodeVarint(f.number * 8 + WireType(f.wire)) + EncodeWire(f.wire)
  }

  lemma WireRoundTrip(w: Wire, rest: seq<Byte>)
    requires Encodable(Field(1, w))
    ensures ReadWire(EncodeWire(w) + rest, WireType(w)) == Ok(w, |EncodeWire(w)|)
  {
    match w
    case AsVarint(v) => VarintRoundTrip(v, rest);
    case AsI64(b) =>
      assert Pow256(4) == TWO32;
      assert Pow256(8) == TWO64;
      FixedRoundTrip(b, 8, rest);
    case AsBytes(b) =>
      var n := EncodeVarint(|b|);
      VarintRoundTrip(|b|, b + rest);
      assert n + b + rest == n + (b + rest);
      assert (n + b + rest)[|n|..|n| + |b|] == b;
    case AsI32(b) =>
      assert Pow256(4) == TWO32;
      FixedRoundTrip(b, 4, rest);
  }

  lemma TagRoundTrip(number: nat, wire: nat, rest: seq<Byte>)
    requires 0 < number && number * 8 + 7 < TWO64 && wire < 8
    ensures ReadTag(EncodeVarint(number * 8 + wire) + rest) == Ok(Tag(number, wire), |EncodeVarint(number * 8 + wire)|)
  {
    VarintRoundTrip(number * 8 + wire, rest);
  }

  lemma ReadFieldParts(s: seq<Byte>, k: nat, n: nat, number: nat, w: Wire)
    requires k <= |s| && ReadTag(s) == Ok(Tag(number, WireType(w)), k) && ReadWire(s[k..], WireType(w)) == Ok(w, n)
    ensures ReadField(s) == Ok(Field(number, w), k + n)
  {
  }

  lemma Splice(a: seq<Byte>, b: seq<Byte>, c: seq<Byte>)
    ensures a + b + c == a + (b + c)
    ensures (a + b + c)[|a|..] == b + c
  {
  }

  /** Where the tag of a written field ends, and what follows it. */
  lemma FieldPieces(f: Field, rest: seq<Byte>, s: seq<Byte>) returns (k: nat)
    requires Encodable(f) && s == EncodeField(f) + rest
    ensures k <= |EncodeField(f)| <= |s| && ReadTag(s) == Ok(Tag(f.number, WireType(f.wire)), k)
    ensures ReadWire(s[k..], WireType(f.wire)) == Ok(f.wire, |EncodeField(f)| - k)
  {
    var tag, body := EncodeVarint(f.number * 8 + WireType(f.wire)), EncodeWire(f.wire);
    Splice(tag, body, rest);
    TagRoundTrip(f.number, WireType(f.wire), body + rest);
    WireRoundTrip(f.wire, rest);
    k := |tag|;
  }

  /** A field is read back as it was written, whatever follows it. */
  lemma FieldRoundTrip(f: Field, rest: seq<Byte>)
    requires Encodable(f)
    ensures ReadField(EncodeField(f) + rest) == Ok(f, |EncodeField(f)|)
  {
    var s := EncodeField(f) + rest;
    var k := FieldPieces(f, rest, s);
    ReadFieldParts(s, k, |EncodeField(f)| - k, f.number, f.wire);
  }

  // What is refused.

  /** A varint that breaks off is refused as truncated. */
  lemma {:induction false} VarintCut(v: nat, k: nat)
    requires v < TWO64 && k < |EncodeVarint(v)|
    ensures Varint(EncodeVarint(v)[..k]) == Err(Truncated, k)
  {
    var e := EncodeVarint(v);
    Pow128Small();
    EncodeLength(v, 10);
    EncodeContinues(v, []);
    assert e + [] == e;
    ContinuedAt(e[..k], k);
  }

  lemma {:induction false} WireCut(w: Wire, k: nat)
    requires Encodable(Field(1, w)) && k < |EncodeWire(w)|
    ensures ReadWire(EncodeWire(w)[..k], WireType(w)).Err?
    ensures ReadWire(EncodeWire(w)[..k], WireType(w)).error == Truncated
  {
    match w
    case AsVarint(v) => VarintCut(v, k);
    case AsI64(b) =>
    case AsI32(b) =>
    case AsBytes(b) => BytesCut(b, k);
  }

  lemma {:induction false} BytesCut(b: seq<Byte>, k: nat)
    requires |b| < TWO64 && k < |EncodeVarint(|b|) + b|
    ensures Bytes((EncodeVarint(|b|) + b)[..k]).Err? && Bytes((EncodeVarint(|b|) + b)[..k]).error == Truncated
  {
    var n := EncodeVarint(|b|);
    if k < |n| {
      VarintCut(|b|, k);
      assert (n + b)[..k] == n[..k];
    } else {
      VarintRoundTrip(|b|, b[..k - |n|]);
      assert (n + b)[..k] == n + b[..k - |n|];
    }
  }

  /** A field that breaks off anywhere is refused as truncated. */
  lemma {:induction false} FieldCut(f: Field, k: nat)
    requires Encodable(f) && k < |EncodeField(f)|
    ensures ReadField(EncodeField(f)[..k]).Err? && ReadField(EncodeField(f)[..k]).error == Truncated
  {
    var tag, body := EncodeVarint(f.number * 8 + WireType(f.wire)), EncodeWire(f.wire);
    if k < |tag| {
      VarintCut(f.number * 8 + WireType(f.wire), k);
      assert (tag + body)[..k] == tag[..k];
    } else {
      CutPieces(tag, body, k);
      TagRoundTrip(f.number, WireType(f.wire), body[..k - |tag|]);
      WireCut(f.wire, k - |tag|);
      CutAfterTag(tag, body[..k - |tag|], f.number, WireType(f.wire));
    }
  }

  lemma CutPieces(a: seq<Byte>, b: seq<Byte>, k: nat)
    requires |a| <= k <= |a + b|
    ensures (a + b)[..k] == a + b[..k - |a|]
  {
  }

  lemma CutAfterTag(tag: seq<Byte>, rest: seq<Byte>, number: nat, wire: nat)
    requires ReadTag(tag + rest) == Ok(Tag(number, wire), |tag|)
    requires ReadWire(rest, wire).Err? && ReadWire(rest, wire).error == Truncated
    ensures ReadField(tag + rest).Err? && ReadField(tag + rest).error == Truncated
  {
    assert (tag + rest)[|tag|..] == rest;
  }

  /** A tag of number zero, of a group or of a type the encoding does not have is refused, each as what it is. */
  lemma {:induction false} TagRefused(number: nat, wire: nat, rest: seq<Byte>)
    requires number * 8 + 7 < TWO64 && wire < 8
    requires number == 0 || wire !in {WIRE_VARINT, WIRE_I64, WIRE_BYTES, WIRE_I32}
    ensures var r := ReadField(EncodeVarint(number * 8 + wire) + rest);
      r.Err? && r.error ==
        if number == 0 then FieldNumberZero
        else if wire == WIRE_SGROUP || wire == WIRE_EGROUP then GroupEncoding
        else UnknownWireType
  {
    VarintRoundTrip(number * 8 + wire, rest);
    NumberAndType(number, wire);
  }

  lemma NumberAndType(number: nat, wire: nat)
    requires wire < 8
    ensures (number * 8 + wire) / 8 == number && (number * 8 + wire) % 8 == wire
  {
  }

  /** More than ten bytes in a row that all announce another are refused as an overflow. */
  lemma {:induction false} VarintTooLong(s: seq<Byte>)
    requires |s| > 10 && forall i :: 0 <= i < 10 ==> s[i] >= 128
    ensures Varint(s) == Err(VarintOverflow, 11)
  {
    ContinuedAt(s, 10);
  }

  /** The reader: a cursor over a buffer. */
  class Reader {
    const buf: seq<Byte>
    var pos: nat

    ghost predicate Valid()
      reads this
    {
      pos <= |buf|
    }

    /** What is left to read. */
    ghost function Rest(): seq<Byte>
      requires Valid()
      reads this
    {
      buf[pos..]
    }

    constructor (buf: seq<Byte>)
      ensures Valid() && pos == 0 && this.buf == buf
    {
      this.buf, pos := buf, 0;
    }

    /** Reads a varint, group by group. */
    method ReadVarint() returns (r: Read<nat>)
      requires Valid()
      modifies this`pos
      ensures Valid() && r == Varint(old(Rest())) && pos == old(pos) + r.used
    {
      ghost var start, s := pos, Rest();
      var v, k := 0, 0;
      while true
        invariant Valid() && pos == start + k && k <= 10 && k <= |s|
        invariant forall i :: 0 <= i < k ==> s[i] >= 128
        invariant k <= 9 ==> v == Groups(s[..k])
        decreases |buf| - pos
      {
        ContinuedAt(s, k);
        if pos >= |buf| { return Err(Truncated, k); }
        var b := buf[pos];
        assert b == s[k];
        pos := pos + 1;
        if 7 * k >= 64 { return Err(VarintOverflow, k + 1); }
        NextGroup(s, k);
        v := Or(v, ShiftLeft(b % 128, 7 * k));
        if b < 128 { return Ok(v, k + 1); }
        k := k + 1;
      }
    }

    method ReadFixed(width: nat) returns (r: Read<nat>)
      requires Valid()
      modifies this`pos
      ensures Valid() && r == Fixed(old(Rest()), width) && pos == old(pos) + r.used
    {
      if pos + width > |buf| { return Err(Truncated, 0); }
      assert Rest()[..width] == buf[pos..pos + width];
      r := Ok(LittleEndian(buf[pos..pos + width]), width);
      pos := pos + width;
    }

    method ReadBytes() returns (r: Read<seq<Byte>>)
      requires Valid()
      modifies this`pos
      ensures Valid() && r == Bytes(old(Rest())) && pos == old(pos) + r.used
    {
      var n := ReadVarint();
      if n.Err? { return Err(n.error, n.used); }
      if n.value > |buf| - pos { return Err(Truncated, n.used); }
      assert buf[pos..pos + n.value] == old(Rest())[n.used..n.used + n.value];
      r := Ok(buf[pos..pos + n.value], n.used + n.value);
      pos := pos + n.value;
    }

    method ReadTagHere() returns (r: Read<Tag>)
      requires Valid()
      modifies this`pos
      ensures Valid() && r == ReadTag(old(Rest())) && pos == old(pos) + r.used
    {
      var v := ReadVarint();
      if v.Err? { return Err(v.error, v.used); }
      if v.value / 8 == 0 { return Err(FieldNumberZero, v.used); }
      return Ok(Tag(v.value / 8, v.value % 8), v.used);
    }

    /** Passes over a field whose value is not wanted: it takes as many bytes as reading it would. */
    method Skip(wire: nat) returns (r: Read<()>)
      requires Valid()
      modifies this`pos
      ensures Valid() && pos == old(pos) + r.used
      ensures var w := ReadWire(old(Rest()), wire);
        r == if w.Ok? then Ok((), w.used) else Err(w.error, w.used)
    {
      if wire == WIRE_VARINT {
        var v := ReadVarint();
        return if v.Ok? then Ok((), v.used) else Err(v.error, v.used);
      } else if wire == WIRE_I64 {
        var v := ReadFixed(8);
        return if v.Ok? then Ok((), v.used) else Err(v.error, v.used);
      } else if wire == WIRE_BYTES {
        var b := ReadBytes();
        return if b.Ok? then Ok((), b.used) else Err(b.error, b.used);
      } else if wire == WIRE_I32 {
        var v := ReadFixed(4);
        return if v.Ok? then Ok((), v.used) else Err(v.error, v.used);
      } else if wire == WIRE_SGROUP || wire == WIRE_EGROUP {
        return Err(GroupEncoding, 0);
      } else {
        return Err(UnknownWireType, 0);
      }
    }
  }

  lemma ContinuedAt(s: seq<Byte>, k: nat)
    requires k <= |s| && forall i :: 0 <= i < k ==> s[i] >= 128
    ensures Continued(s) >= k
    ensures k == |s| || s[k] < 128 ==> Continued(s) == k
  {
  }
}

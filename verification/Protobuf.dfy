/**
 ProtobufCodec of internal/protocol/protobuf_codec.go over the schema of pb/envelope.proto, on the
 wire format of the Protocol Buffers Encoding specification (sections "Base 128 Varints", "Signed
 Integers" and "Length-Delimited Records").
 */
module Protobuf {
  import opened Sums
  import opened Utf8
  import Frames

  type byte = Frames.byte

  const TWO_31: int := 0x8000_0000
  const TWO_32: int := 0x1_0000_0000
  const TWO_63: int := 0x8000_0000_0000_0000
  const TWO_64: int := 0x1_0000_0000_0000_0000

  // ----- Base 128 varints -----------------------------------------------------------------------

  /** The values a varint of at most k bytes may have; the tenth byte carries one bit. */
  function Limit(k: nat): nat { if k == 0 then 0 else if k == 1 then 2 else 128 * Limit(k - 1) }

  function Varint(n: nat): (b: seq<byte>)
    ensures b != []
  {
    if n < 128 then [n] else [n % 128 + 128] + Varint(n / 128)
  }

  /** Consumes a varint of at most k bytes. */
  function ReadVarint(b: seq<byte>, k: nat): (r: Option<(nat, seq<byte>)>)
    ensures r.Some? ==> |r.value.1| < |b|
    decreases k
  {
    if k == 0 || b == [] then None
    else if b[0] < 128 then (if k == 1 && b[0] > 1 then None else Some((b[0], b[1..])))
    else match ReadVarint(b[1..], k - 1)
      case None => None
      case Some((v, rest)) => Some((128 * v + b[0] - 128, rest))
  }

  lemma {:induction false} VarintRoundTrip(n: nat, k: nat, rest: seq<byte>)
    requires k >= 1 && n < Limit(k)
    ensures ReadVarint(Varint(n) + rest, k) == Some((n, rest))
    decreases k
  {
    var b := Varint(n) + rest;
    if n < 128 {
      assert b[1..] == rest;
    } else {
      assert k > 1;
      assert b[1..] == Varint(n / 128) + rest;
      VarintRoundTrip(n / 128, k - 1, rest);
    }
  }

  /** What is read fits the width: ten bytes hold 64 bits. */
  lemma {:induction false} VarintBound(b: seq<byte>, k: nat)
    ensures ReadVarint(b, k).Some? ==> ReadVarint(b, k).value.0 < Limit(k)
    decreases k
  {
    if k > 1 && b != [] && b[0] >= 128 {
      VarintBound(b[1..], k - 1);
    } else if k > 1 {
      LimitGrows(k);
    }
  }

  lemma {:induction false} LimitGrows(k: nat)
    requires k > 1
    ensures Limit(k) >= 256
  {
    if k > 2 { LimitGrows(k - 1); }
  }

  /** The example of the specification: 150 is two bytes, low seven bits first. */
  lemma VarintExample()
    ensures Varint(150) == [0x96, 0x01] && Varint(127) == [0x7F] && Varint(128) == [0x80, 0x01]
  {
    assert Varint(1) == [1];
  }

  /** A varint cut short is not a varint. */
  lemma {:induction false} VarintCut(n: nat, k: nat, j: nat)
    requires j < |Varint(n)|
    ensures ReadVarint(Varint(n)[..j], k).None?
    decreases j
  {
    if j > 0 && k > 0 {
      var b := Varint(n)[..j];
      assert b[1..] == Varint(n / 128)[..j - 1];
      VarintCut(n / 128, k - 1, j - 1);
    }
  }

  // ----- The message ----------------------------------------------------------------------------

  /** pb.Envelope. */
  datatype Pb = Pb(version: seq<byte>, typ: int, encoding: int, mid: seq<byte>, correlation: seq<byte>,
                   from: seq<byte>, to: seq<byte>, ts: int, data: seq<byte>)

  const EMPTY: Pb := Pb([], 0, 0, [], [], [], [], 0, [])

  function Int32(v: nat): int { if v % TWO_32 >= TWO_31 then v % TWO_32 - TWO_32 else v % TWO_32 }

  function Int64(v: nat): int { if v % TWO_64 >= TWO_63 then v % TWO_64 - TWO_64 else v % TWO_64 }

  /** The two's complement of a signed value, as put on the wire. */
  function Unsigned(v: int): nat
    requires -TWO_63 <= v < TWO_63
  {
    if v >= 0 then v else v + TWO_64
  }

  predicate IsText(num: nat) { num == 1 || 4 <= num <= 7 }

  /** Stores a varint field; numbers of other kinds are unknown fields and are dropped. */
  function SetVarint(m: Pb, num: nat, v: nat): Pb
  {
    if num == 2 then m.(typ := Int32(v))
    else if num == 3 then m.(encoding := Int32(v))
    else if num == 8 then m.(ts := Int64(v))
    else m
  }

  function SetBytes(m: Pb, num: nat, b: seq<byte>): Pb
  {
    match num
    case 1 => m.(version := b)
    case 4 => m.(mid := b)
    case 5 => m.(correlation := b)
    case 6 => m.(from := b)
    case 7 => m.(to := b)
    case 9 => m.(data := b)
    case _ => m
  }

  /** proto.Unmarshal into m: a later field overwrites an earlier one. */
  function Unmarshal(b: seq<byte>, m: Pb): Option<Pb>
    decreases |b|
  {
    if b == [] then Some(m) else
    match ReadVarint(b, 10)
    case None => None
    case Some((tag, rest)) =>
      var num, kind := tag / 8, tag % 8;
      if num == 0 || num > 0x1FFF_FFFF then None
      else if kind == 0 then
        match ReadVarint(rest, 10)
        case None => None
        case Some((v, more)) => Unmarshal(more, SetVarint(m, num, v))
      else if kind == 2 then
        match ReadVarint(rest, 10)
        case None => None
        case Some((n, more)) =>
          if n > |more| || (IsText(num) && !ValidUtf8(more[..n])) then None
          else Unmarshal(more[n..], SetBytes(m, num, more[..n]))
      else if kind == 1 then (if |rest| < 8 then None else Unmarshal(rest[8..], m))
      else if kind == 5 then (if |rest| < 4 then None else Unmarshal(rest[4..], m))
      else None
  }

  // ----- Fields ---------------------------------------------------------------------------------

  datatype Field = Num(num: nat, v: int) | Bytes(num: nat, b: seq<byte>)

  predicate Default(f: Field) { if f.Num? then f.v == 0 else f.b == [] }

  /** A field of the schema with a value of its type. */
  predicate Sendable(f: Field)
  {
    match f
    case Num(num, v) => num < 16 && num > 0 && -TWO_63 <= v < TWO_63
    case Bytes(num, b) => num < 16 && num > 0 && |b| < TWO_63 && (IsText(num) ==> ValidUtf8(b))
  }

  /** proto3 leaves default values out. */
  function Record(f: Field): seq<byte>
    requires Sendable(f)
  {
    if Default(f) then [] else
    match f
    case Num(num, v) => Varint(8 * num) + Varint(Unsigned(v))
    case Bytes(num, b) => Varint(8 * num + 2) + (Varint(|b|) + b)
  }

  function Store(m: Pb, f: Field): Pb
    requires Sendable(f)
  {
    if Default(f) then m else
    match f
    case Num(num, v) => SetVarint(m, num, Unsigned(v))
    case Bytes(num, b) => SetBytes(m, num, b)
  }

  predicate AllSendable(fs: seq<Field>) { forall i :: 0 <= i < |fs| ==> Sendable(fs[i]) }

  function Records(fs: seq<Field>): seq<byte>
    requires AllSendable(fs)
  {
    if fs == [] then [] else Record(fs[0]) + Records(fs[1..])
  }

  function StoreAll(m: Pb, fs: seq<Field>): Pb
    requires AllSendable(fs)
    decreases fs
  {
    if fs == [] then m else StoreAll(Store(m, fs[0]), fs[1..])
  }

  lemma TenBytes()
    ensures Limit(10) == TWO_64
  {
    assert Limit(2) == 256 && Limit(4) == 256 * 128 * 128;
    assert Limit(6) == 128 * 128 * Limit(4) && Limit(8) == 128 * 128 * Limit(6) && Limit(10) == 128 * 128 * Limit(8);
  }

  /** The tag of a field: its number and wire type. */
  function Tag(f: Field): nat { if f.Num? then 8 * f.num else 8 * f.num + 2 }

  /** What follows the tag. */
  function Body(f: Field): seq<byte>
    requires Sendable(f)
  {
    if f.Num? then Varint(Unsigned(f.v)) else Varint(|f.b|) + f.b
  }

  lemma RecordParts(f: Field)
    requires Sendable(f) && !Default(f)
    ensures Record(f) == Varint(Tag(f)) + Body(f)
  {
  }

  /** Unmarshal behind a tag that has been read. */
  lemma AfterTag(f: Field, b: seq<byte>, rest: seq<byte>, m: Pb)
    requires Sendable(f) && ReadVarint(b, 10) == Some((Tag(f), rest))
    ensures ReadVarint(rest, 10).None? ==> Unmarshal(b, m).None?
    ensures ReadVarint(rest, 10).Some? && f.Num? ==>
      var (v, more) := ReadVarint(rest, 10).value; Unmarshal(b, m) == Unmarshal(more, SetVarint(m, f.num, v))
    ensures ReadVarint(rest, 10).Some? && f.Bytes? ==>
      var (n, more) := ReadVarint(rest, 10).value;
      Unmarshal(b, m) == if n > |more| || (IsText(f.num) && !ValidUtf8(more[..n])) then None
                         else Unmarshal(more[n..], SetBytes(m, f.num, more[..n]))
  {
    hide ReadVarint, ValidUtf8, SetVarint, SetBytes;
    assert Tag(f) / 8 == f.num && Tag(f) % 8 == if f.Num? then 0 else 2;
  }

  lemma ReadBody(f: Field, rest: seq<byte>)
    requires Sendable(f)
    ensures ReadVarint(Body(f) + rest, 10) == Some(if f.Num? then (Unsigned(f.v), rest) else (|f.b|, f.b + rest))
  {
    TenBytes();
    hide Varint, ReadVarint, ValidUtf8, Limit;
    if f.Num? {
      VarintRoundTrip(Unsigned(f.v), 10, rest);
    } else {
      assert Body(f) + rest == Varint(|f.b|) + (f.b + rest);
      VarintRoundTrip(|f.b|, 10, f.b + rest);
    }
  }

  lemma ReadTag(f: Field, rest: seq<byte>)
    requires Sendable(f)
    ensures ReadVarint(Varint(Tag(f)) + rest, 10) == Some((Tag(f), rest))
  {
    TenBytes();
    hide Varint, ReadVarint, ValidUtf8, Limit;
    VarintRoundTrip(Tag(f), 10, rest);
  }

  /** Decoding one record stores its field and goes on with the rest. */
  lemma ReadRecord(f: Field, rest: seq<byte>, m: Pb)
    requires Sendable(f)
    ensures Unmarshal(Record(f) + rest, m) == Unmarshal(rest, Store(m, f))
  {
    if Default(f) {
      assert Record(f) + rest == rest;
      return;
    }
    RecordParts(f);
    hide Varint, ReadVarint, ValidUtf8, Unmarshal, Record, SetVarint, SetBytes, Body, Tag;
    var b, value := Record(f) + rest, Body(f) + rest;
    assert b == Varint(Tag(f)) + value;
    ReadTag(f, value);
    AfterTag(f, b, value, m);
    ReadBody(f, rest);
    if f.Bytes? {
      var payload := f.b + rest;
      assert payload[..|f.b|] == f.b && payload[|f.b|..] == rest;
    }
  }

  /** A record cut short is an error. */
  lemma CutRecord(f: Field, j: nat, m: Pb)
    requires Sendable(f) && 0 < j < |Record(f)|
    ensures Unmarshal(Record(f)[..j], m).None?
  {
    RecordParts(f);
    assert Tag(f) < 128 && |Varint(Tag(f))| == 1;
    hide Varint, ReadVarint, ValidUtf8, Unmarshal, Record, SetVarint, SetBytes, Body, Tag;
    var b, rest := Record(f)[..j], Body(f)[..j - 1];
    assert b == Varint(Tag(f)) + rest;
    ReadTag(f, rest);
    AfterTag(f, b, rest, m);
    CutBody(f, j - 1);
  }

  /** A body cut short is no value, or a length that promises more than is there. */
  lemma CutBody(f: Field, j: nat)
    requires Sendable(f) && j < |Body(f)|
    ensures var r := ReadVarint(Body(f)[..j], 10);
      r.None? || (f.Bytes? && r.value.0 > |r.value.1|)
  {
    TenBytes();
    hide ReadVarint, Varint, Limit;
    var n := if f.Num? then Unsigned(f.v) else |f.b|;
    var v := Varint(n);
    if j < |v| {
      assert Body(f)[..j] == v[..j];
      VarintCut(n, 10, j);
    } else {
      var part := f.b[..j - |v|];
      assert Body(f)[..j] == v + part;
      VarintRoundTrip(n, 10, part);
    }
  }

  lemma {:induction false} ReadRecords(fs: seq<Field>, rest: seq<byte>, m: Pb)
    requires AllSendable(fs)
    ensures Unmarshal(Records(fs) + rest, m) == Unmarshal(rest, StoreAll(m, fs))
    decreases fs
  {
    if fs == [] {
      assert Records(fs) + rest == rest;
    } else {
      hide Unmarshal, Record, Store;
      var more := Records(fs[1..]) + rest;
      assert Records(fs) + rest == Record(fs[0]) + more;
      ReadRecord(fs[0], more, m);
      ReadRecords(fs[1..], rest, Store(m, fs[0]));
    }
  }

  lemma {:induction false} RecordsSplit(fs: seq<Field>, k: nat)
    requires AllSendable(fs) && k <= |fs|
    ensures Records(fs) == Records(fs[..k]) + Records(fs[k..])
  {
    hide Record;
    if k == 0 {
      assert fs[0..] == fs;
    } else {
      RecordsSplit(fs[1..], k - 1);
      assert fs[1..][..k - 1] == fs[..k][1..] && fs[1..][k - 1..] == fs[k..];
    }
  }

  // ----- All nine fields of the schema ----------------------------------------------------------

  /** The fields of a message in the order of their numbers. */
  function AllFields(m: Pb): seq<Field>
  {
    [Bytes(1, m.version), Num(2, m.typ), Num(3, m.encoding), Bytes(4, m.mid), Bytes(5, m.correlation),
     Bytes(6, m.from), Bytes(7, m.to), Num(8, m.ts), Bytes(9, m.data)]
  }

  /** Values a pb.Envelope can have and marshal. */
  predicate WellTyped(m: Pb)
  {
    && ValidUtf8(m.version) && ValidUtf8(m.mid) && ValidUtf8(m.correlation) && ValidUtf8(m.from) && ValidUtf8(m.to)
    && |m.version| < TWO_63 && |m.mid| < TWO_63 && |m.correlation| < TWO_63 && |m.from| < TWO_63
    && |m.to| < TWO_63 && |m.data| < TWO_63
    && -TWO_31 <= m.typ < TWO_31 && -TWO_31 <= m.encoding < TWO_31 && -TWO_63 <= m.ts < TWO_63
  }

  lemma AllFieldsSendable(m: Pb)
    requires WellTyped(m)
    ensures AllSendable(AllFields(m))
  {
    hide ValidUtf8;
  }

  /** The tag byte of each field, from version to data. */
  lemma TagBytes(m: Pb, i: nat)
    requires WellTyped(m) && i < 9 && !Default(AllFields(m)[i])
    ensures Sendable(AllFields(m)[i]) && Record(AllFields(m)[i]) != []
    ensures Record(AllFields(m)[i])[0] == [0x0A, 0x10, 0x18, 0x22, 0x2A, 0x32, 0x3A, 0x40, 0x4A][i]
  {
    AllFieldsSendable(m);
    var f := AllFields(m)[i];
    RecordParts(f);
    assert Varint(Tag(f)) == [Tag(f)];
    hide Record, Varint, Body, ValidUtf8;
  }

  /** A field with its default value is not on the wire. */
  lemma DefaultsOmitted(f: Field)
    requires Sendable(f)
    ensures Record(f) == [] <==> (if f.Num? then f.v == 0 else f.b == [])
  {
    hide ValidUtf8;
  }

  /** Text fields must be UTF-8 encodings; data may be anything. */
  lemma TextChecked(num: nat, b: seq<byte>, rest: seq<byte>, m: Pb)
    requires num in {1, 4, 5, 6, 7, 9} && |b| < TWO_63
    ensures num != 9 && !IsEncoding(b) ==>
      Unmarshal(Varint(8 * num + 2) + (Varint(|b|) + (b + rest)), m).None?
    ensures num == 9 ==>
      Unmarshal(Varint(8 * num + 2) + (Varint(|b|) + (b + rest)), m) == Unmarshal(rest, m.(data := b))
  {
    TenBytes();
    ValidExactly(b);
    var payload := b + rest;
    ReadKey(num, 2, Varint(|b|) + payload);
    VarintRoundTrip(|b|, 10, payload);
    hide Varint, ReadVarint, ValidUtf8, IsEncoding, Limit;
    assert payload[..|b|] == b && payload[|b|..] == rest;
    assert num == 9 ==> SetBytes(m, num, b) == m.(data := b);
    hide SetVarint, SetBytes;
  }

  /** The message with its first k fields, in the order of their numbers. */
  function FirstFields(m: Pb, k: nat): Pb
  {
    Pb(if k > 0 then m.version else [], if k > 1 then m.typ else 0, if k > 2 then m.encoding else 0,
       if k > 3 then m.mid else [], if k > 4 then m.correlation else [], if k > 5 then m.from else [],
       if k > 6 then m.to else [], if k > 7 then m.ts else 0, if k > 8 then m.data else [])
  }

  lemma StoreField(m: Pb, k: nat)
    requires WellTyped(m) && k < 9
    ensures Sendable(AllFields(m)[k]) && Store(FirstFields(m, k), AllFields(m)[k]) == FirstFields(m, k + 1)
  {
    AllFieldsSendable(m);
    SignedRoundTrip(m.typ);
    SignedRoundTrip(m.encoding);
    SignedRoundTrip(m.ts);
    hide ValidUtf8, Int32, Int64, Unsigned;
  }

  lemma {:induction false} StoreFields(m: Pb, k: nat)
    requires WellTyped(m) && k <= 9
    ensures AllSendable(AllFields(m)[k..]) && StoreAll(FirstFields(m, k), AllFields(m)[k..]) == FirstFields(m, 9)
    decreases 9 - k
  {
    AllFieldsSendable(m);
    if k < 9 {
      StoreField(m, k);
      StoreFields(m, k + 1);
      assert AllFields(m)[k..][1..] == AllFields(m)[k + 1..];
      hide Store, Sendable;
    }
  }

  /** Every message, sender and receiver included, comes back from its records; Decode then drops those two. */
  lemma MessageRoundTrip(m: Pb)
    requires WellTyped(m)
    ensures AllSendable(AllFields(m)) && Unmarshal(Records(AllFields(m)), EMPTY) == Some(m)
    ensures Decode(Records(AllFields(m)), |Records(AllFields(m))|) ==
      Some(Envelope(m.version, FromPbType(m.typ), FromPbEncoding(m.encoding), [], m.mid, m.correlation, m.ts, m.data))
  {
    var fs := AllFields(m);
    AllFieldsSendable(m);
    ReadRecords(fs, [], EMPTY);
    StoreFields(m, 0);
    hide Unmarshal, Record, Store, Sendable, WellTyped;
    assert fs[0..] == fs && FirstFields(m, 0) == EMPTY && FirstFields(m, 9) == m;
    assert Records(fs) + [] == Records(fs);
    UnmarshalEmpty(m);
  }

  // ----- Fields the schema does not know --------------------------------------------------------

  const MAX_NUM: int := 0x1FFF_FFFF

  lemma ReadKey(num: nat, kind: nat, rest: seq<byte>)
    requires num <= MAX_NUM && kind < 8
    ensures ReadVarint(Varint(8 * num + kind) + rest, 10) == Some((8 * num + kind, rest))
    ensures (8 * num + kind) / 8 == num && (8 * num + kind) % 8 == kind
  {
    TenBytes();
    hide Varint, ReadVarint, Limit;
    VarintRoundTrip(8 * num + kind, 10, rest);
  }

  /** Unknown fields of the fixed-width wire types are skipped with their 8 or 4 bytes, whatever their
      number; one cut short is an error. */
  lemma FixedWidth(num: nat, wide: bool, rest: seq<byte>, m: Pb)
    requires 0 < num <= MAX_NUM
    ensures var b, k := Varint(8 * num + if wide then 1 else 5) + rest, if wide then 8 else 4;
      Unmarshal(b, m) == if |rest| < k then None else Unmarshal(rest[k..], m)
  {
    ReadKey(num, if wide then 1 else 5, rest);
    hide Varint, ReadVarint, ValidUtf8, SetVarint, SetBytes;
  }

  lemma AfterVarint(b: seq<byte>, tag: nat, rest: seq<byte>, v: nat, more: seq<byte>, m: Pb)
    requires b != [] && ReadVarint(b, 10) == Some((tag, rest)) && ReadVarint(rest, 10) == Some((v, more))
    requires tag % 8 == 0 && 10 <= tag / 8 <= MAX_NUM
    ensures Unmarshal(b, m) == Unmarshal(more, m)
  {
    assert SetVarint(m, tag / 8, v) == m;
    hide ReadVarint, ValidUtf8, SetVarint, SetBytes, IsText;
  }

  /** An unknown varint field is skipped. */
  lemma VarintSkipped(num: nat, v: nat, rest: seq<byte>, m: Pb)
    requires 10 <= num <= MAX_NUM && v < TWO_64
    ensures Unmarshal(Varint(8 * num) + (Varint(v) + rest), m) == Unmarshal(rest, m)
  {
    TenBytes();
    ReadKey(num, 0, Varint(v) + rest);
    VarintRoundTrip(v, 10, rest);
    hide Varint, ReadVarint, Unmarshal, Limit;
    AfterVarint(Varint(8 * num) + (Varint(v) + rest), 8 * num, Varint(v) + rest, v, rest, m);
  }

  /** An unknown length-delimited field is skipped. */
  lemma BytesSkipped(num: nat, b: seq<byte>, rest: seq<byte>, m: Pb)
    requires 10 <= num <= MAX_NUM && |b| < TWO_64
    ensures Unmarshal(Varint(8 * num + 2) + (Varint(|b|) + (b + rest)), m) == Unmarshal(rest, m)
  {
    TenBytes();
    var payload := b + rest;
    ReadKey(num, 2, Varint(|b|) + payload);
    VarintRoundTrip(|b|, 10, payload);
    hide Varint, ReadVarint, ValidUtf8, Limit;
    assert payload[|b|..] == rest && SetBytes(m, num, payload[..|b|]) == m && !IsText(num);
    hide SetVarint, SetBytes, IsText;
  }

  lemma BadTag(b: seq<byte>, tag: nat, rest: seq<byte>, m: Pb)
    requires b != [] && ReadVarint(b, 10) == Some((tag, rest)) && (tag / 8 == 0 || tag % 8 in {4, 6, 7})
    ensures Unmarshal(b, m).None?
  {
    hide ReadVarint, ValidUtf8, SetVarint, SetBytes, IsText;
  }

  /** Field number 0, an end of a group without its start, and wire types 6 and 7 are errors. */
  lemma BadKey(num: nat, kind: nat, rest: seq<byte>, m: Pb)
    requires num <= MAX_NUM && kind < 8 && (num == 0 || kind in {4, 6, 7})
    ensures Unmarshal(Varint(8 * num + kind) + rest, m).None?
  {
    ReadKey(num, kind, rest);
    hide Varint, ReadVarint, Unmarshal;
    BadTag(Varint(8 * num + kind) + rest, 8 * num + kind, rest, m);
  }

  // ----- The codec ------------------------------------------------------------------------------

  /** The message types of the protocol; `Untyped` is the empty string. */
  datatype MessageType =
    Untyped | Nick | Text | Command | FileMeta | FileChunk | Ack | Ping | Pong | Heartbeat | Custom(name: string)

  datatype Encoding = Unencoded | Json | ProtobufData | OtherEncoding(name: string)

  datatype Envelope = Envelope(version: seq<byte>, typ: MessageType, encoding: Encoding, from: seq<byte>,
                               mid: seq<byte>, correlation: seq<byte>, ts: int, data: seq<byte>)

  function ToPbType(t: MessageType): int
  {
    match t
    case Text => 1 case Command => 2 case FileMeta => 3 case FileChunk => 4 case Ack => 5 case Ping => 6 case Pong => 7
    case _ => 0
  }

  function FromPbType(v: int): MessageType
  {
    match v
    case 1 => Text case 2 => Command case 3 => FileMeta case 4 => FileChunk case 5 => Ack case 6 => Ping case 7 => Pong
    case _ => Untyped
  }

  /** The numbers of the schema, both ways: text is 1 and pong is 7, json 1 and protobuf 2. */
  lemma SchemaCodes()
    ensures ToPbType(Text) == 1 && ToPbType(Command) == 2 && ToPbType(FileMeta) == 3 && ToPbType(FileChunk) == 4
    ensures ToPbType(Ack) == 5 && ToPbType(Ping) == 6 && ToPbType(Pong) == 7
    ensures forall t: MessageType :: ToPbType(t) != 0 ==> FromPbType(ToPbType(t)) == t
    ensures forall t: MessageType :: ToPbType(t) == 0 <==> t.Untyped? || t.Nick? || t.Heartbeat? || t.Custom?
    ensures forall v :: (FromPbType(v).Untyped? <==> v < 1 || v > 7) && !FromPbType(v).Custom?
    ensures ToPbEncoding(Json) == 1 && ToPbEncoding(ProtobufData) == 2
    ensures forall e: Encoding :: ToPbEncoding(e) == 0 <==> e.Unencoded? || e.OtherEncoding?
    ensures FromPbEncoding(1) == Json && FromPbEncoding(2) == ProtobufData
    ensures forall v :: FromPbEncoding(v).Unencoded? <==> v < 1 || v > 2
  {
  }

  function ToPbEncoding(e: Encoding): int { match e case Json => 1 case ProtobufData => 2 case _ => 0 }

  function FromPbEncoding(v: int): Encoding { match v case 1 => Json case 2 => ProtobufData case _ => Unencoded }

  /** The fields Encode sets, in field number order; From is not among them. */
  function FieldsOf(e: Envelope): seq<Field>
  {
    [Bytes(1, e.version), Num(2, ToPbType(e.typ)), Num(3, ToPbEncoding(e.encoding)), Bytes(4, e.mid),
     Bytes(5, e.correlation), Num(8, e.ts), Bytes(9, e.data)]
  }

  /** What Go values of the envelope satisfy: a 64-bit timestamp and lengths below 2^63. */
  predicate Representable(e: Envelope)
  {
    -TWO_63 <= e.ts < TWO_63
    && |e.version| < TWO_63 && |e.mid| < TWO_63 && |e.correlation| < TWO_63 && |e.data| < TWO_63
  }

  predicate TextsValid(e: Envelope) { ValidUtf8(e.version) && ValidUtf8(e.mid) && ValidUtf8(e.correlation) }

  lemma FieldsSendable(e: Envelope)
    requires Representable(e) && TextsValid(e)
    ensures AllSendable(FieldsOf(e))
  {
    hide ValidUtf8;
  }

  /** Encode: proto.Marshal refuses strings that are not UTF-8. */
  function Encode(e: Envelope): Option<seq<byte>>
    requires Representable(e)
  {
    if !TextsValid(e) then None else
    FieldsSendable(e);
    Some(Records(FieldsOf(e)))
  }

  /** The message Encode marshals. */
  function ToPb(e: Envelope): Pb
  {
    Pb(e.version, ToPbType(e.typ), ToPbEncoding(e.encoding), e.mid, e.correlation, [], [], e.ts, e.data)
  }

  lemma NoRoute()
    ensures AllSendable([Bytes(6, []), Bytes(7, [])]) && Records([Bytes(6, []), Bytes(7, [])]) == []
  {
    var fs := [Bytes(6, []), Bytes(7, [])];
    assert fs[1..] == [Bytes(7, [])] && fs[1..][1..] == [];
    assert Records(fs[1..]) == [];
  }

  /** Fields that leave no record can be left out. */
  lemma SilentFields(a: seq<Field>, b: seq<Field>, c: seq<Field>)
    requires AllSendable(a) && AllSendable(b) && AllSendable(c) && Records(b) == []
    ensures AllSendable(a + b + c) && AllSendable(a + c) && Records(a + b + c) == Records(a + c)
  {
    hide Record, Sendable;
    RecordsSplit(a + b + c, |a + b|);
    RecordsSplit(a + b, |a|);
    RecordsSplit(a + c, |a|);
    assert (a + b + c)[..|a + b|] == a + b && (a + b + c)[|a + b|..] == c;
    assert (a + b)[..|a|] == a && (a + b)[|a|..] == b && (a + c)[..|a|] == a && (a + c)[|a|..] == c;
    hide Records;
    assert Records(a) + [] == Records(a);
  }

  lemma FieldsAround(e: Envelope)
    ensures var gs := FieldsOf(e);
      && |gs| == 7 && gs[..5] + gs[5..] == gs
      && AllFields(ToPb(e)) == gs[..5] + [Bytes(6, []), Bytes(7, [])] + gs[5..]
  {
    hide ToPbType, ToPbEncoding;
  }

  /** What Encode writes is the message with the codes of type and encoding and without sender and receiver. */
  lemma EncodeIsMessage(e: Envelope)
    requires Representable(e) && TextsValid(e)
    ensures WellTyped(ToPb(e)) && AllSendable(AllFields(ToPb(e))) && Encode(e) == Some(Records(AllFields(ToPb(e))))
  {
    assert WellTyped(ToPb(e)) by {
      hide ValidUtf8;
    }
    FieldsSendable(e);
    NoRoute();
    FieldsAround(e);
    hide ValidUtf8, Records, Sendable, WellTyped, FieldsOf, AllFields, ToPb;
    var gs := FieldsOf(e);
    SilentFields(gs[..5], [Bytes(6, []), Bytes(7, [])], gs[5..]);
  }

  /** Encode succeeds exactly when version, message id and correlation id are UTF-8 encodings of text. */
  lemma EncodesExactly(e: Envelope)
    requires Representable(e)
    ensures Encode(e).Some? <==> IsEncoding(e.version) && IsEncoding(e.mid) && IsEncoding(e.correlation)
  {
    ValidExactly(e.version);
    ValidExactly(e.mid);
    ValidExactly(e.correlation);
    hide ValidUtf8, IsEncoding;
  }

  function FromPb(m: Pb): Envelope
  {
    Envelope(m.version, FromPbType(m.typ), FromPbEncoding(m.encoding), [], m.mid, m.correlation, m.ts, m.data)
  }

  /** Decode when its single read returns the first n bytes of the input, or all of it if it is shorter. */
  function Decode(input: seq<byte>, n: nat): Option<Envelope>
  {
    match Unmarshal(if |input| <= n then input else input[..n], EMPTY)
    case None => None
    case Some(m) => Some(FromPb(m))
  }

  /** What reader.Read reports: an error other than the end of the input, or the number of bytes it
      returned, which may be any number up to the size limit and what there is. */
  datatype ReadResult = ReadFailed | Got(n: nat)

  predicate Possible(input: seq<byte>, maxSize: int, r: ReadResult)
  {
    maxSize >= 0 && r.Got? ==> r.n <= |input| && r.n <= maxSize
  }

  /** How a Decode call ends; it panics when it makes a buffer of a negative size. */
  datatype End = Decoded | Failed | Panicked

  /** An envelope variable that Decode overwrites. */
  class Target {
    var e: Envelope

    constructor (e: Envelope)
      ensures this.e == e
    {
      this.e := e;
    }

    /** ProtobufCodec.Decode: unless it succeeds the target keeps its value. */
    method DecodeInto(input: seq<byte>, maxSize: int, r: ReadResult) returns (end: End)
      requires Possible(input, maxSize, r)
      modifies this
      ensures end.Panicked? <==> maxSize < 0
      ensures end.Decoded? <==> maxSize >= 0 && r.Got? && Decode(input, r.n).Some?
      ensures e == if end.Decoded? then Decode(input, r.n).value else old(e)
    {
      if maxSize < 0 {
        return Panicked;
      }
      if r.ReadFailed? {
        return Failed;
      }
      var buf := new byte[maxSize](i requires 0 <= i => if i < r.n then input[i] else 0);
      assert buf[..r.n] == input[..r.n] && input[..|input|] == input;
      var m := Unmarshal(buf[..r.n], EMPTY);
      if m.None? {
        return Failed;
      }
      e := FromPb(m.value);
      end := Decoded;
    }
  }

  /** The information the codec carries: From is dropped, types and encodings it has no code for
      become empty. */
  function Project(e: Envelope): Envelope
  {
    e.(from := [], typ := FromPbType(ToPbType(e.typ)), encoding := FromPbEncoding(ToPbEncoding(e.encoding)))
  }

  lemma ProjectIdempotent(e: Envelope)
    ensures Project(Project(e)) == Project(e)
  {
  }

  /** Which of the seven fields are among the first k. */
  function Keep(e: Envelope, k: nat): Envelope
  {
    Envelope(if k > 0 then e.version else [], if k > 1 then e.typ else Untyped,
             if k > 2 then e.encoding else Unencoded, [],
             if k > 3 then e.mid else [], if k > 4 then e.correlation else [], if k > 5 then e.ts else 0,
             if k > 6 then e.data else [])
  }

  lemma SignedRoundTrip(v: int)
    requires -TWO_63 <= v < TWO_63
    ensures Int64(Unsigned(v)) == v
    ensures -TWO_31 <= v < TWO_31 ==> Int32(Unsigned(v)) == v
  {
  }

  /** The message after the first k fields of e. */
  function Partial(e: Envelope, k: nat): Pb
  {
    Pb(if k > 0 then e.version else [], if k > 1 then ToPbType(e.typ) else 0,
       if k > 2 then ToPbEncoding(e.encoding) else 0,
       if k > 3 then e.mid else [], if k > 4 then e.correlation else [], [], [], if k > 5 then e.ts else 0,
       if k > 6 then e.data else [])
  }

  lemma PartialStep(e: Envelope, k: nat)
    requires Representable(e) && TextsValid(e) && k < 7
    ensures Sendable(FieldsOf(e)[k]) && Store(Partial(e, k), FieldsOf(e)[k]) == Partial(e, k + 1)
  {
    FieldsSendable(e);
    hide ValidUtf8;
    SignedRoundTrip(e.ts);
    SignedRoundTrip(ToPbType(e.typ));
    SignedRoundTrip(ToPbEncoding(e.encoding));
    hide Int32, Int64, Unsigned, ToPbType, ToPbEncoding;
    if k == 0 {} else if k == 1 {} else if k == 2 {} else if k == 3 {} else if k == 4 {} else if k == 5 {} else {}
  }

  lemma {:induction false} StoreSnoc(m: Pb, fs: seq<Field>, f: Field)
    requires AllSendable(fs) && Sendable(f)
    ensures AllSendable(fs + [f]) && StoreAll(m, fs + [f]) == Store(StoreAll(m, fs), f)
    decreases fs
  {
    hide Store;
    if fs == [] {
      assert fs + [f] == [f] && [f][1..] == [];
    } else {
      assert (fs + [f])[1..] == fs[1..] + [f];
      StoreSnoc(Store(m, fs[0]), fs[1..], f);
    }
  }

  lemma {:induction false} StoredPrefix(e: Envelope, k: nat)
    requires Representable(e) && TextsValid(e) && k <= 7
    ensures AllSendable(FieldsOf(e)[..k]) && StoreAll(EMPTY, FieldsOf(e)[..k]) == Partial(e, k)
  {
    hide Store, Sendable;
    FieldsSendable(e);
    if k > 0 {
      StoredPrefix(e, k - 1);
      PartialStep(e, k - 1);
      StoreSnoc(EMPTY, FieldsOf(e)[..k - 1], FieldsOf(e)[k - 1]);
      assert FieldsOf(e)[..k] == FieldsOf(e)[..k - 1] + [FieldsOf(e)[k - 1]];
    }
  }

  lemma PartialProject(e: Envelope, k: nat)
    ensures FromPb(Partial(e, k)) == Project(Keep(e, k))
    ensures k >= 7 ==> Project(Keep(e, k)) == Project(e)
  {
  }

  /** The length of the first k records of e. */
  function Boundary(e: Envelope, k: nat): nat
    requires Representable(e) && TextsValid(e) && k <= 7
  {
    FieldsSendable(e);
    |Records(FieldsOf(e)[..k])|
  }

  /** A size limit at the end of the k-th field yields just the first k fields. */
  lemma CutAtBoundary(e: Envelope, k: nat)
    requires Representable(e) && TextsValid(e) && k <= 7
    ensures Boundary(e, k) <= |Encode(e).value|
    ensures Decode(Encode(e).value, Boundary(e, k)) == Some(Project(Keep(e, k)))
  {
    hide Unmarshal, Record, Store, FromPb, Project, Keep, Sendable;
    FieldsSendable(e);
    var fs, n := FieldsOf(e), Boundary(e, k);
    var head := Records(fs[..k]);
    RecordsSplit(fs, k);
    assert Records(fs)[..n] == head == head + [];
    assert n == |Records(fs)| ==> Records(fs) == head;
    ReadRecords(fs[..k], [], EMPTY);
    StoredPrefix(e, k);
    UnmarshalEmpty(Partial(e, k));
    PartialProject(e, k);
  }

  lemma UnmarshalEmpty(m: Pb)
    ensures Unmarshal([], m) == Some(m)
  {
  }

  /** Decode after Encode is the projection, for every envelope with valid strings whose encoding fits
      the size limit. */
  lemma DecodeEncode(e: Envelope, maxSize: nat)
    requires Representable(e) && TextsValid(e) && |Encode(e).value| <= maxSize
    ensures Decode(Encode(e).value, maxSize) == Some(Project(e))
  {
    hide Unmarshal, Project, Keep;
    CutAtBoundary(e, 7);
    PartialProject(e, 7);
    assert FieldsOf(e)[..7] == FieldsOf(e);
  }

  /** Exactly the envelopes that come back unchanged: no sender, and a type and encoding with a code. */
  lemma SurvivesExactly(e: Envelope, maxSize: nat)
    requires Representable(e) && TextsValid(e) && |Encode(e).value| <= maxSize
    ensures Decode(Encode(e).value, maxSize) == Some(e) <==>
      && e.from == [] && !e.typ.Nick? && !e.typ.Heartbeat? && !e.typ.Custom? && !e.encoding.OtherEncoding?
  {
    DecodeEncode(e, maxSize);
    ProjectFixes(e);
    hide Decode, Encode, Project, Representable, TextsValid;
  }

  lemma ProjectFixes(e: Envelope)
    ensures Project(e) == e <==>
      && e.from == [] && !e.typ.Nick? && !e.typ.Heartbeat? && !e.typ.Custom? && !e.encoding.OtherEncoding?
  {
  }

  /** Limit 0 decodes to the empty envelope without an error. */
  lemma LimitZero(e: Envelope)
    requires Representable(e) && TextsValid(e)
    ensures Decode(Encode(e).value, 0) == Some(Envelope([], Untyped, Unencoded, [], [], [], 0, []))
  {
    CutAtBoundary(e, 0);
  }

  /** Finds the field a cut falls into: at its start, or inside it. */
  lemma {:induction false} FindField(fs: seq<Field>, n: nat) returns (k: nat)
    requires AllSendable(fs) && n < |Records(fs)|
    ensures k < |fs| && |Records(fs[..k])| <= n < |Records(fs[..k + 1])|
    ensures |Records(fs[..k + 1])| == |Records(fs[..k])| + |Record(fs[k])|
    decreases fs
  {
    hide Record;
    var r := |Record(fs[0])|;
    if n < r {
      k := 0;
      assert fs[..1][1..] == [] && fs[..0] == [];
    } else {
      k := FindField(fs[1..], n - r);
      assert fs[1..][..k] == fs[..k + 1][1..] && fs[1..][..k + 1] == fs[..k + 2][1..];
      k := k + 1;
    }
  }

  /** A smaller limit gives an envelope exactly when it cuts at the end of a field; anywhere else
      Decode reports an error. */
  lemma CutExactly(e: Envelope, n: nat)
    requires Representable(e) && TextsValid(e) && n < |Encode(e).value|
    ensures Decode(Encode(e).value, n).Some? <==> exists k :: 0 <= k <= 7 && n == Boundary(e, k)
  {
    hide Records, Record, Sendable, Unmarshal, Project, Keep;
    FieldsSendable(e);
    var fs := FieldsOf(e);
    var k := FindField(fs, n);
    assert Boundary(e, k) <= n < Boundary(e, k + 1);
    if n == Boundary(e, k) {
      CutAtBoundary(e, k);
    } else {
      BoundaryMonotone(e, k + 1, 7);
      assert fs[..7] == fs;
      CutInside(e, k, n);
    }
  }

  /** Whatever number of bytes of an encoded envelope the single read returns: all of them give the
      projection, fewer give the fields that came through whole if the read stopped at the end of a
      field, and an error otherwise. */
  lemma AnyRead(e: Envelope, n: nat)
    requires Representable(e) && TextsValid(e) && n <= |Encode(e).value|
    ensures n == |Encode(e).value| ==> Decode(Encode(e).value, n) == Some(Project(e))
    ensures forall k :: 0 <= k <= 7 && n == Boundary(e, k) ==> Decode(Encode(e).value, n) == Some(Project(Keep(e, k)))
    ensures (forall k :: 0 <= k <= 7 ==> n != Boundary(e, k)) ==> Decode(Encode(e).value, n).None?
  {
    hide Decode, Project, Keep, Records;
    forall k | 0 <= k <= 7 && n == Boundary(e, k) ensures Decode(Encode(e).value, n) == Some(Project(Keep(e, k))) {
      CutAtBoundary(e, k);
    }
    if n < |Encode(e).value| {
      CutExactly(e, n);
    } else {
      DecodeEncode(e, n);
      assert FieldsOf(e)[..7] == FieldsOf(e) && n == Boundary(e, 7);
    }
  }

  /** Inside a field nothing can be decoded, and no boundary lies there. */
  lemma CutInside(e: Envelope, k: nat, n: nat)
    requires Representable(e) && TextsValid(e) && k < 7
    requires Boundary(e, k) < n < Boundary(e, k + 1) <= |Encode(e).value|
    ensures Decode(Encode(e).value, n).None?
    ensures forall i :: 0 <= i <= 7 ==> n != Boundary(e, i)
  {
    hide Unmarshal, Record, Store, Sendable;
    FieldsSendable(e);
    var fs := FieldsOf(e);
    var head, f := Records(fs[..k]), fs[k];
    RecordsSplit(fs, k);
    RecordsSplit(fs[k..], 1);
    assert fs[k..][..1] == [f] && [f][1..] == [];
    assert Records([f]) == Record(f);
    var j := n - |head|;
    RecordsSplit(fs[..k + 1], k);
    assert fs[..k + 1][..k] == fs[..k] && fs[..k + 1][k..] == [f];
    assert Records(fs)[..n] == head + Record(f)[..j];
    ReadRecords(fs[..k], Record(f)[..j], EMPTY);
    CutRecord(f, j, StoreAll(EMPTY, fs[..k]));
    forall i | 0 <= i <= 7 ensures n != Boundary(e, i) {
      if i <= k { BoundaryMonotone(e, i, k); } else { BoundaryMonotone(e, k + 1, i); }
    }
  }

  lemma BoundaryMonotone(e: Envelope, i: nat, j: nat)
    requires Representable(e) && TextsValid(e) && i <= j <= 7
    ensures Boundary(e, i) <= Boundary(e, j)
  {
    hide Record, Sendable;
    FieldsSendable(e);
    RecordsSplit(FieldsOf(e)[..j], i);
    assert FieldsOf(e)[..j][..i] == FieldsOf(e)[..i];
  }

  /** Two envelopes have the same encoding exactly when they have the same projection. */
  lemma EncodeKernel(a: Envelope, b: Envelope)
    requires Representable(a) && TextsValid(a) && Representable(b) && TextsValid(b)
    ensures Encode(a) == Encode(b) <==> Project(a) == Project(b)
  {
    hide Records, Unmarshal;
    var max := |Encode(a).value| + |Encode(b).value|;
    DecodeEncode(a, max);
    DecodeEncode(b, max);
    if Project(a) == Project(b) {
      assert FieldsOf(a) == FieldsOf(b);
    }
  }
}

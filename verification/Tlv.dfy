/** Attribute values, their byte images, and tag-length-value records. */
module Tlv {
  import opened Common
  import opened LittleEndian

  type Tag = uint32

  const AUTH_ROOT: Tag := 100000
  const AUTH_RESULT_CODE: Tag := 100001
  const AUTH_SIGNATURE: Tag := 100004
  const AUTH_IDENTIFY_MODE: Tag := 100005
  const AUTH_TEMPLATE_ID: Tag := 100006
  const AUTH_TEMPLATE_ID_LIST: Tag := 100007
  const AUTH_REMAIN_COUNT: Tag := 100009
  const AUTH_REMAIN_TIME: Tag := 100010
  const AUTH_SCHEDULE_ID: Tag := 100014
  const AUTH_CALLER_NAME: Tag := 100015
  const AUTH_SCHEDULE_VERSION: Tag := 100016
  const AUTH_LOCK_OUT_TEMPLATE: Tag := 100018
  const AUTH_UNLOCK_TEMPLATE: Tag := 100019
  const AUTH_DATA: Tag := 100020
  const AUTH_SUBTYPE: Tag := 100021
  const AUTH_SCHEDULE_MODE: Tag := 100022
  const AUTH_PROPERTY_MODE: Tag := 100023
  const AUTH_TYPE: Tag := 100024
  const AUTH_CREDENTIAL_ID: Tag := 100025
  const AUTH_CONTROLLER: Tag := 100026
  const AUTH_CALLER_UID: Tag := 100027
  const AUTH_RESULT: Tag := 100028
  const ALGORITHM_INFO: Tag := 100030

  /** NoType is the zero that the table's operator[] stores for a tag it does not list. */
  datatype ValueType = NoType | BoolType | U32Type | U64Type | U32sType | U8sType | U64sType {
    predicate IsScalar() {
      BoolType? || U32Type? || U64Type?
    }

    /** The fixed payload size of a scalar type. */
    function Size(): nat
      requires IsScalar()
    {
      match this
      case BoolType => 1
      case U32Type => 4
      case U64Type => 8
    }
  }

  datatype Value =
    | Bool(b: bool)
    | U32(n: uint32)
    | U64(m: uint64)
    | U32s(ns: seq<uint32>)
    | U64s(ms: seq<uint64>)
    | U8s(bytes: seq<byte>)
  {
    function Type(): ValueType {
      match this
      case Bool(_) => BoolType
      case U32(_) => U32Type
      case U64(_) => U64Type
      case U32s(_) => U32sType
      case U64s(_) => U64sType
      case U8s(_) => U8sType
    }
  }

  function EncodeValue(v: Value): (s: seq<byte>)
    ensures v.Type().IsScalar() ==> |s| == v.Type().Size()
  {
    match v
    case Bool(b) => [if b then 1 else 0]
    case U32(n) => ToBytes(n, 4)
    case U64(m) => ToBytes(m, 8)
    case U32s(ns) => Images32(ns)
    case U64s(ms) => Images64(ms)
    case U8s(bytes) => bytes
  }

  /** The payload length check that depends on the type. */
  predicate LengthFits(ty: ValueType, n: nat) {
    ty.IsScalar() ==> n == ty.Size()
  }

  function DecodeValue(ty: ValueType, s: seq<byte>): (v: Value)
    requires ty != NoType && LengthFits(ty, |s|)
    ensures v.Type() == ty
  {
    match ty
    case BoolType => Bool(s[0] != 0)
    case U32Type => U32(LittleEndian.U32(s))
    case U64Type => U64(LittleEndian.U64(s))
    case U32sType => U32s(Words32(s))
    case U64sType => U64s(Words64(s))
    case U8sType => U8s(s)
  }

  /** Decoding undoes encoding, for every value. */
  lemma DecodeEncode(v: Value)
    ensures DecodeValue(v.Type(), EncodeValue(v)) == v
  {
    match v
    case Bool(_) =>
    case U32(n) => U32Image(n);
    case U64(m) => U64Image(m);
    case U32s(ns) => WordsOfImages32(ns);
    case U64s(ms) => WordsOfImages64(ms);
    case U8s(_) =>
  }

  datatype Record = Record(tag: Tag, payload: seq<byte>)

  function Header(tag: Tag, n: nat): (s: seq<byte>)
    ensures |s| == 8
  {
    ToBytes(tag, 4) + ToBytes(n % TWO_32, 4)
  }

  function EncodeRecord(r: Record): (s: seq<byte>)
    ensures |s| == 8 + |r.payload|
  {
    Header(r.tag, |r.payload|) + r.payload
  }

  function EncodeAll(rs: seq<Record>): (s: seq<byte>) {
    if rs == [] then [] else EncodeRecord(rs[0]) + EncodeAll(rs[1..])
  }

  lemma {:induction false} EncodeAllAppend(rs: seq<Record>, ts: seq<Record>)
    ensures EncodeAll(rs + ts) == EncodeAll(rs) + EncodeAll(ts)
  {
    if rs == [] {
      assert rs + ts == ts;
    } else {
      assert (rs + ts)[1..] == rs[1..] + ts;
      EncodeAllAppend(rs[1..], ts);
    }
  }

  /** Four bytes at begin, or the fallback value when fewer are left. */
  function ReadU32(buffer: seq<byte>, begin: nat): uint32 {
    if begin + 4 > |buffer| then ALGORITHM_INFO else LittleEndian.U32(buffer[begin..begin + 4])
  }

  /** Eight bytes at begin, or zero when fewer are left. */
  function ReadU64(buffer: seq<byte>, begin: nat): uint64 {
    if begin + 8 > |buffer| then 0 else LittleEndian.U64(buffer[begin..begin + 8])
  }

  lemma HeaderRead(pre: seq<byte>, tag: Tag, n: uint32, post: seq<byte>)
    ensures ReadU32(pre + Header(tag, n) + post, |pre|) == tag
    ensures ReadU32(pre + Header(tag, n) + post, |pre| + 4) == n
  {
    hide ToBytes, LittleEndian.U32;
    var s := pre + Header(tag, n) + post;
    assert s[|pre|..|pre| + 4] == ToBytes(tag, 4);
    assert s[|pre| + 4..|pre| + 8] == ToBytes(n, 4);
    U32Image(tag);
    U32Image(n);
  }

  predicate Sized(rs: seq<Record>) {
    forall r <- rs :: |r.payload| < TWO_32
  }

  /** Record sequences whose lengths fit 32 bits form a prefix code. */
  lemma {:induction false} EncodeAllInjective(rs: seq<Record>, ts: seq<Record>)
    requires Sized(rs) && Sized(ts)
    requires EncodeAll(rs) == EncodeAll(ts)
    ensures rs == ts
  {
    hide ToBytes, ReadU32, Header;
    if rs != [] && ts != [] {
      var r, t := rs[0], ts[0];
      var s := EncodeAll(rs);
      assert s == [] + Header(r.tag, |r.payload|) + (r.payload + EncodeAll(rs[1..]));
      assert s == [] + Header(t.tag, |t.payload|) + (t.payload + EncodeAll(ts[1..]));
      HeaderRead([], r.tag, |r.payload|, r.payload + EncodeAll(rs[1..]));
      HeaderRead([], t.tag, |t.payload|, t.payload + EncodeAll(ts[1..]));
      assert r.payload == s[8..8 + |r.payload|] && t.payload == s[8..8 + |t.payload|];
      assert EncodeAll(rs[1..]) == s[8 + |r.payload|..] == EncodeAll(ts[1..]);
      EncodeAllInjective(rs[1..], ts[1..]);
    }
  }
}

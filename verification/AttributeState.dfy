/**
 * The state of an attribute set and the reference definitions of its operations:
 * what Set stores, what Pack writes, and what Unpack reads.
 */
module AttributeState {
  import opened Common
  import opened LittleEndian
  import opened Tlv
  import opened TagSort

  type Table = map<Tag, ValueType>

  const TABLE: Table := map[
    AUTH_RESULT_CODE := U32Type,
    AUTH_SIGNATURE := U8sType,
    AUTH_IDENTIFY_MODE := U32Type,
    AUTH_TEMPLATE_ID := U64Type,
    AUTH_TEMPLATE_ID_LIST := U64sType,
    AUTH_REMAIN_COUNT := U32Type,
    AUTH_REMAIN_TIME := U32Type,
    AUTH_SCHEDULE_ID := U64Type,
    AUTH_CALLER_NAME := U8sType,
    AUTH_SCHEDULE_VERSION := U32Type,
    AUTH_LOCK_OUT_TEMPLATE := U64Type,
    AUTH_UNLOCK_TEMPLATE := U64Type,
    AUTH_SUBTYPE := U64Type,
    AUTH_SCHEDULE_MODE := U32Type,
    AUTH_PROPERTY_MODE := U32Type,
    AUTH_TYPE := U32Type,
    AUTH_CREDENTIAL_ID := U64Type,
    AUTH_CONTROLLER := BoolType,
    AUTH_CALLER_UID := U64Type,
    AUTH_RESULT := U8sType,
    ALGORITHM_INFO := U8sType]

  datatype Attrs = Attrs(
    position: Table,
    bools: map<Tag, bool>,
    u32s: map<Tag, uint32>,
    u64s: map<Tag, uint64>,
    u32Arrays: map<Tag, seq<uint32>>,
    u64Arrays: map<Tag, seq<uint64>>,
    u8Arrays: map<Tag, seq<byte>>,
    exist: seq<Tag>)

  /** A newly constructed object whose table is position. */
  function Fresh(position: Table): Attrs {
    Attrs(position, map[], map[], map[], map[], map[], map[], [])
  }

  /** The answer of the getter for type ty. */
  function Get(st: Attrs, ty: ValueType, tag: Tag): (r: Option<Value>)
    ensures r.Some? ==> r.value.Type() == ty
  {
    match ty
    case NoType => None
    case BoolType => if tag in st.bools then Some(Bool(st.bools[tag])) else None
    case U32Type => if tag in st.u32s then Some(Value.U32(st.u32s[tag])) else None
    case U64Type => if tag in st.u64s then Some(Value.U64(st.u64s[tag])) else None
    case U32sType => if tag in st.u32Arrays then Some(U32s(st.u32Arrays[tag])) else None
    case U64sType => if tag in st.u64Arrays then Some(U64s(st.u64Arrays[tag])) else None
    case U8sType => if tag in st.u8Arrays then Some(U8s(st.u8Arrays[tag])) else None
  }

  /** The bytes that the getter of byte arrays gives for tag, or none. */
  function BytesUnder(st: Attrs, tag: Tag): seq<byte> {
    match Get(st, U8sType, tag)
    case Some(v) => v.bytes
    case None => []
  }

  ghost predicate SameAnswers(a: Attrs, b: Attrs) {
    forall ty, tag :: Get(a, ty, tag) == Get(b, ty, tag)
  }

  /** Overwrites the value of tag in the map of v's type and records the tag once more. */
  function Store(st: Attrs, tag: Tag, v: Value): Attrs {
    var st := st.(exist := st.exist + [tag]);
    match v
    case Bool(b) => st.(bools := st.bools[tag := b])
    case U32(n) => st.(u32s := st.u32s[tag := n])
    case U64(m) => st.(u64s := st.u64s[tag := m])
    case U32s(ns) => st.(u32Arrays := st.u32Arrays[tag := ns])
    case U64s(ms) => st.(u64Arrays := st.u64Arrays[tag := ms])
    case U8s(s) => st.(u8Arrays := st.u8Arrays[tag := s])
  }

  lemma GetStore(st: Attrs, tag: Tag, v: Value, ty: ValueType, t: Tag)
    ensures Get(Store(st, tag, v), ty, t) == if ty == v.Type() && t == tag then Some(v) else Get(st, ty, t)
  {
  }

  /** The table lookup of a setter: operator[] adds a missing tag with type zero. */
  function Touch(st: Attrs, tag: Tag): Attrs {
    if tag in st.position then st else st.(position := st.position[tag := NoType])
  }

  function Set(st: Attrs, tag: Tag, v: Value): (Attrs, int) {
    var st := Touch(st, tag);
    if st.position[tag] != v.Type() then (st, FAIL) else (Store(st, tag, v), SUCCESS)
  }

  function Clear(st: Attrs): Attrs {
    Fresh(st.position).(exist := st.exist)
  }

  // ---------------------------------------------------------------- Pack

  predicate NoScalarUnset(st: Attrs, tag: Tag)
  {
    tag in st.position && st.position[tag].IsScalar() ==> Get(st, st.position[tag], tag).Some?
  }

  /** Every scalar that Pack writes has a stored value. */
  ghost predicate PackDefined(st: Attrs) {
    forall t <- st.exist :: NoScalarUnset(st, t)
  }

  /** The payload written for tag; an array that was never stored is written empty. */
  function Payload(st: Attrs, tag: Tag): (s: seq<byte>)
    requires tag in st.position
    ensures LengthFits(st.position[tag], |s|)
  {
    var ty := st.position[tag];
    match Get(st, ty, tag)
    case Some(v) => EncodeValue(v)
    case None => if ty.IsScalar() then seq(ty.Size(), _ => 0) else []
  }

  function Records(st: Attrs, tags: seq<Tag>): (rs: seq<Record>)
    requires forall t <- tags :: t in st.position
    ensures |rs| == |tags|
    ensures forall i | 0 <= i < |tags| :: rs[i] == Record(tags[i], Payload(st, tags[i]))
  {
    seq(|tags|, i requires 0 <= i < |tags| => Record(tags[i], Payload(st, tags[i])))
  }

  /** What Pack asks of the table: every recorded tag is listed with a type. */
  ghost predicate Packable(st: Attrs) {
    && AUTH_SIGNATURE in st.position && st.position[AUTH_SIGNATURE] == U8sType
    && forall t <- st.exist :: t in st.position && st.position[t] != NoType
  }

  /** The DATA section's tags, in the order written. */
  function SortedFields(st: Attrs): (tags: seq<Tag>)
    ensures forall t :: t in tags <==> t in st.exist && !Skipped(t)
  {
    SortKeeps(st.exist);
    DataTags(SortTags(st.exist))
  }

  function DataRecords(st: Attrs): (rs: seq<Record>)
    requires Packable(st)
  {
    Records(st, SortedFields(st))
  }

  function SignatureRecord(st: Attrs): Record
    requires AUTH_SIGNATURE in st.position
  {
    Record(AUTH_SIGNATURE, Payload(st, AUTH_SIGNATURE))
  }

  /** The records after both headers: sorted data records, then the signature. */
  function TailRecords(st: Attrs): seq<Record>
    requires Packable(st)
  {
    DataRecords(st) + [SignatureRecord(st)]
  }

  function PackBytes(st: Attrs): seq<byte>
    requires Packable(st)
  {
    var data := EncodeAll(DataRecords(st));
    var section := Header(AUTH_DATA, |data|) + data + EncodeRecord(SignatureRecord(st));
    Header(AUTH_ROOT, |section|) + section
  }

  /** The length of the encoding: two headers, the data records and the signature record. */
  function PackSize(st: Attrs): (n: nat)
    requires Packable(st)
    ensures n >= 24
  {
    24 + |EncodeAll(DataRecords(st))| + |SignatureRecord(st).payload|
  }

  lemma PackLength(st: Attrs)
    requires Packable(st)
    ensures |PackBytes(st)| == PackSize(st)
  {
    hide Header, EncodeAll, SortedFields, Payload;
  }

  // -------------------------------------------------------------- Unpack

  datatype Outcome =
    | Accepted   // the object itself is returned
    | Rejected   // nullptr is returned
    | Undefined  // no defined behaviour: an unlisted tag, or a byte array whose length wraps
    | Endless    // the call does not return

  /** The largest buffer for which the 32-bit cursor cannot wrap inside a header. */
  const MAX_BUFFER: int := TWO_32 - 100039

  /** The length check with its 32-bit sum. */
  predicate LengthPass(ty: ValueType, at: nat, n: nat, size: nat) {
    (at + n) % TWO_32 <= size && LengthFits(ty, n)
  }

  function StoreRecord(st: Attrs, tag: Tag, payload: seq<byte>): (after: Attrs)
    requires tag in st.position && st.position[tag] != NoType && LengthFits(st.position[tag], |payload|)
    ensures after.position == st.position
  {
    if st.position[tag] == U8sType && payload == [] then st
    else Store(st, tag, DecodeValue(st.position[tag], payload))
  }

  /** The n / 4 words from at on, each at a 32-bit offset and read with its own bounds check. */
  function WordsAt32(buffer: seq<byte>, at: nat, n: nat): (vs: seq<uint32>)
    ensures |vs| == n / 4
  {
    seq(n / 4, i requires 0 <= i < n / 4 => ReadU32(buffer, (at + 4 * i) % TWO_32))
  }

  function WordsAt64(buffer: seq<byte>, at: nat, n: nat): (vs: seq<uint64>)
    ensures |vs| == n / 8
  {
    seq(n / 8, i requires 0 <= i < n / 8 => ReadU64(buffer, (at + 8 * i) % TWO_32))
  }

  /** Inside the buffer these are the words of the payload. */
  lemma WordsInside32(buffer: seq<byte>, at: nat, n: nat)
    requires at + n <= |buffer| <= MAX_BUFFER
    ensures WordsAt32(buffer, at, n) == Words32(buffer[at..at + n])
  {
    hide LittleEndian.U32;
    forall i | 0 <= i < n / 4 ensures WordsAt32(buffer, at, n)[i] == Words32(buffer[at..at + n])[i] {
      SubSlice(buffer, at, n, 4 * i, 4);
    }
  }

  lemma WordsInside64(buffer: seq<byte>, at: nat, n: nat)
    requires at + n <= |buffer| <= MAX_BUFFER
    ensures WordsAt64(buffer, at, n) == Words64(buffer[at..at + n])
  {
    hide LittleEndian.U64;
    forall i | 0 <= i < n / 8 ensures WordsAt64(buffer, at, n)[i] == Words64(buffer[at..at + n])[i] {
      SubSlice(buffer, at, n, 8 * i, 8);
    }
  }

  /** What one iteration of the parsing loop does: it goes on, or ends the call. */
  datatype Progress = Go(state: Attrs, pos: nat) | Stop(outcome: Outcome)

  /**
   * The record at the cursor is stored and the cursor moves behind it. An array of words may
   * have a length that wraps: it is stored all the same, and the cursor jumps.
   */
  function Move(st: Attrs, buffer: seq<byte>, pos: nat): Progress {
    var tag, n, at := ReadU32(buffer, pos), ReadU32(buffer, pos + 4), pos + 8;
    if tag !in st.position then Stop(Undefined)
    else if !LengthPass(st.position[tag], at, n, |buffer|) then Stop(Rejected)
    else if st.position[tag] == NoType then Go(st, at)
    else if at + n <= |buffer| then Go(StoreRecord(st, tag, buffer[at..at + n]), at + n)
    else
      match st.position[tag]
      case U32sType => Go(Store(st, tag, U32s(WordsAt32(buffer, at, n))), (at + n) % TWO_32)
      case U64sType => Go(Store(st, tag, U64s(WordsAt64(buffer, at, n))), (at + n) % TWO_32)
      case _ => Stop(Undefined)
  }

  /** At most steps iterations of the loop; Endless when they do not end it. */
  function Scan(st: Attrs, buffer: seq<byte>, pos: nat, steps: nat): (Attrs, Outcome)
    decreases steps
  {
    if pos >= |buffer| then (st, Accepted)
    else if steps == 0 then (st, Endless)
    else
      match Move(st, buffer, pos)
      case Stop(outcome) => (st, outcome)
      case Go(state, next) => Scan(state, buffer, next, steps - 1)
  }

  /** As many iterations as the buffer has bytes decide the outcome. */
  function Unpack(st: Attrs, buffer: seq<byte>): (Attrs, Outcome) {
    if buffer == [] then (st, Rejected) else Scan(st, buffer, 16, |buffer|)
  }
}

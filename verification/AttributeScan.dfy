/** Which buffers Unpack accepts. */
module AttributeScan {
  import opened Common
  import opened LittleEndian
  import opened Tlv
  import opened AttributeState
  import opened AttributeIntegrity

  ghost predicate WellFormed(position: Table, r: Record) {
    && r.tag in position && position[r.tag] != NoType
    && LengthFits(position[r.tag], |r.payload|) && |r.payload| < TWO_32
  }

  ghost predicate AllWellFormed(position: Table, rs: seq<Record>) {
    forall i | 0 <= i < |rs| :: WellFormed(position, rs[i])
  }

  ghost function Apply(st: Attrs, rs: seq<Record>): (after: Attrs)
    requires AllWellFormed(st.position, rs)
    ensures after.position == st.position
    decreases |rs|
  {
    if rs == [] then st else Apply(StoreRecord(st, rs[0].tag, rs[0].payload), rs[1..])
  }

  /** One iteration at a complete well-formed record. */
  lemma MoveRecord(st: Attrs, buffer: seq<byte>, pos: nat, r: Record, rest: seq<byte>)
    requires pos <= |buffer| <= MAX_BUFFER && WellFormed(st.position, r)
    requires buffer[pos..] == EncodeRecord(r) + rest
    ensures var next := pos + 8 + |r.payload|;
            && Move(st, buffer, pos) == Go(StoreRecord(st, r.tag, r.payload), next)
            && next <= |buffer| && buffer[next..] == rest
  {
    hide ToBytes, ReadU32, StoreRecord, WordsAt32, WordsAt64;
    var n, at := |r.payload|, pos + 8;
    var post := r.payload + rest;
    assert buffer[pos..] == Header(r.tag, n) + post;
    assert buffer == buffer[..pos] + Header(r.tag, n) + post;
    HeaderRead(buffer[..pos], r.tag, n, post);
    assert buffer[at..] == post;
    assert buffer[at..at + n] == r.payload;
  }

  /** Scanning past well-formed records stores them one by one. */
  lemma {:induction false} ScanPrefix(st: Attrs, buffer: seq<byte>, pos: nat, rs: seq<Record>, rest: seq<byte>,
      steps: nat)
    requires pos <= |buffer| <= MAX_BUFFER
    requires buffer[pos..] == EncodeAll(rs) + rest && AllWellFormed(st.position, rs)
    ensures pos + |EncodeAll(rs)| + |rest| == |buffer|
    ensures Scan(st, buffer, pos, |rs| + steps) == Scan(Apply(st, rs), buffer, pos + |EncodeAll(rs)|, steps)
    decreases |rs|
  {
    hide Move, EncodeRecord, StoreRecord;
    if rs != [] {
      var r := rs[0];
      assert EncodeAll(rs) + rest == EncodeRecord(r) + (EncodeAll(rs[1..]) + rest);
      MoveRecord(st, buffer, pos, r, EncodeAll(rs[1..]) + rest);
      RecordSize(r);
      ScanPrefix(StoreRecord(st, r.tag, r.payload), buffer, pos + 8 + |r.payload|, rs[1..], rest, steps);
    }
  }

  lemma RecordSize(r: Record)
    ensures |EncodeRecord(r)| == 8 + |r.payload|
  {
  }

  /** Reading back a complete record's bytes. */
  lemma RecordAt(buffer: seq<byte>, pos: nat, n: nat)
    requires pos + 8 + n <= |buffer| && n == ReadU32(buffer, pos + 4)
    ensures buffer[pos..pos + 8 + n] == EncodeRecord(Record(ReadU32(buffer, pos), buffer[pos + 8..pos + 8 + n]))
  {
    hide ToBytes, FromBytes;
    var h := buffer[pos..pos + 8];
    ToFromBytes(buffer[pos..pos + 4]);
    ToFromBytes(buffer[pos + 4..pos + 8]);
    assert h == buffer[pos..pos + 4] + buffer[pos + 4..pos + 8];
  }

  lemma ReadDrop(buffer: seq<byte>, pos: nat, k: nat)
    requires pos <= |buffer|
    ensures ReadU32(buffer[pos..], k) == ReadU32(buffer, pos + k)
  {
    hide FromBytes;
    if pos + k + 4 <= |buffer| {
      assert buffer[pos..][k..k + 4] == buffer[pos + k..pos + k + 4];
    }
  }

  /** Beyond the buffer the length reads as 100030, which cannot wrap and does not fit. */
  lemma ShortHeader(buffer: seq<byte>, pos: nat)
    requires pos < |buffer| <= MAX_BUFFER && pos + 8 > |buffer|
    ensures ReadU32(buffer, pos + 4) == ALGORITHM_INFO && pos + 8 + ALGORITHM_INFO < TWO_32
  {
  }

  // ------------------------------------------------- the first malformed record

  /** The bytes do not start with a well-formed record. */
  predicate Malformed(position: Table, tail: seq<byte>) {
    tail != [] &&
    var tag, n := ReadU32(tail, 0), ReadU32(tail, 4);
    !(tag in position && LengthFits(position[tag], n) && 8 + n <= |tail|)
  }

  /** What a malformed record leads to: the end of the call, or a cursor to go on from. */
  datatype Stall = End(outcome: Outcome) | Jump(pos: nat)

  /** Only an array of words whose length wraps lets the parser go on, from an earlier place. */
  function StallAt(position: Table, size: nat, tail: seq<byte>): (stall: Stall)
    requires |tail| <= size
    ensures stall.End? ==> stall.outcome == Rejected || stall.outcome == Undefined
  {
    var tag, n, at := ReadU32(tail, 0), ReadU32(tail, 4), size - |tail| + 8;
    if tag !in position then End(Undefined)
    else if position[tag].IsScalar() || at + n < TWO_32 then End(Rejected)
    else if position[tag].U32sType? || position[tag].U64sType? then Jump(at + n - TWO_32)
    else End(Undefined)
  }

  /** Every buffer is well-formed records followed by nothing or by a malformed one. */
  lemma {:induction false} Split(position: Table, buffer: seq<byte>, pos: nat)
    returns (rs: seq<Record>, tail: seq<byte>)
    requires Typed(position) && pos <= |buffer| <= MAX_BUFFER
    ensures Segment(position, buffer, pos, rs, tail) && (tail == [] || Malformed(position, tail))
    decreases |buffer| - pos
  {
    hide ReadU32, EncodeRecord;
    rs, tail := [], buffer[pos..];
    if tail != [] && !Malformed(position, tail) {
      var n, at := ReadU32(tail, 4), pos + 8;
      ReadDrop(buffer, pos, 0);
      ReadDrop(buffer, pos, 4);
      rs, tail := Split(position, buffer, at + n);
      PrependRecord(position, buffer, pos, rs, tail);
      rs := [Record(ReadU32(buffer, pos), buffer[at..at + n])] + rs;
    }
  }

  /** From pos on, the buffer is the records rs and then tail. */
  ghost predicate Segment(position: Table, buffer: seq<byte>, pos: nat, rs: seq<Record>, tail: seq<byte>) {
    pos <= |buffer| && AllWellFormed(position, rs) && buffer[pos..] == EncodeAll(rs) + tail
  }

  lemma PrependRecord(position: Table, buffer: seq<byte>, pos: nat, rs: seq<Record>, tail: seq<byte>)
    requires pos < |buffer| <= MAX_BUFFER && Typed(position) && !Malformed(position, buffer[pos..])
    requires Segment(position, buffer, pos + 8 + ReadU32(buffer, pos + 4), rs, tail)
    ensures var n := ReadU32(buffer, pos + 4);
            Segment(position, buffer, pos, [Record(ReadU32(buffer, pos), buffer[pos + 8..pos + 8 + n])] + rs, tail)
  {
    hide ReadU32, EncodeRecord;
    var n := ReadU32(buffer, pos + 4);
    ReadDrop(buffer, pos, 0);
    ReadDrop(buffer, pos, 4);
    RecordAt(buffer, pos, n);
    var all := [Record(ReadU32(buffer, pos), buffer[pos + 8..pos + 8 + n])] + rs;
    assert all[1..] == rs;
    assert buffer[pos..] == buffer[pos..pos + 8 + n] + buffer[pos + 8 + n..];
  }

  /** One iteration at a malformed record. */
  lemma MoveAtStall(st: Attrs, buffer: seq<byte>, pos: nat)
    requires Typed(st.position) && pos < |buffer| <= MAX_BUFFER && Malformed(st.position, buffer[pos..])
    ensures match StallAt(st.position, |buffer|, buffer[pos..])
            case End(outcome) => Move(st, buffer, pos) == Stop(outcome)
            case Jump(next) =>
              && next <= |buffer| && next < pos + 8
              && Move(st, buffer, pos).Go? && Move(st, buffer, pos).pos == next
              && Move(st, buffer, pos).state.position == st.position
  {
    hide ReadU32, StoreRecord, WordsAt32, WordsAt64;
    ReadDrop(buffer, pos, 0);
    ReadDrop(buffer, pos, 4);
    if pos + 8 > |buffer| {
      ShortHeader(buffer, pos);
    }
  }

  /** The first malformed record alone decides whether and how the call ends there. */
  lemma ScanStops(st: Attrs, buffer: seq<byte>, pos: nat, rs: seq<Record>, tail: seq<byte>, steps: nat)
    requires Typed(st.position) && |buffer| <= MAX_BUFFER
    requires Segment(st.position, buffer, pos, rs, tail) && Malformed(st.position, tail)
    ensures |tail| <= |buffer|
    ensures match StallAt(st.position, |buffer|, tail)
            case End(outcome) => Scan(st, buffer, pos, |rs| + steps + 1) == (Apply(st, rs), outcome)
            case Jump(next) =>
              && Move(Apply(st, rs), buffer, |buffer| - |tail|).Go?
              && var stored := Move(Apply(st, rs), buffer, |buffer| - |tail|).state;
                 && stored.position == st.position
                 && Scan(st, buffer, pos, |rs| + steps + 1) == Scan(stored, buffer, next, steps)
  {
    hide Move, EncodeAll, Apply, Malformed, StallAt;
    ScanPrefix(st, buffer, pos, rs, tail, steps + 1);
    var at := |buffer| - |tail|;
    NonEmpty(st.position, tail);
    assert buffer[at..] == tail by {
      assert buffer[pos..][|EncodeAll(rs)|..] == tail;
    }
    MoveAtStall(Apply(st, rs), buffer, at);
  }

  lemma NonEmpty(position: Table, tail: seq<byte>)
    requires Malformed(position, tail)
    ensures tail != []
  {
  }
}

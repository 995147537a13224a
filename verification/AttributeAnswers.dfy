/** What the getters answer after a setter, after clear() and after an accepted buffer. */
module AttributeAnswers {
  import opened Common
  import opened Tlv
  import opened AttributeState
  import opened AttributeIntegrity
  import opened AttributeScan
  import AttributeAcceptance

  /** The table gives tag the type ty. */
  predicate Listed(st: Attrs, tag: Tag, ty: ValueType) {
    tag in st.position && st.position[tag] == ty
  }

  /**
   * A setter succeeds exactly for a tag listed with its type; one getter then gives its value
   * and the tag is recorded once more. A refused setter changes no answer. An unlisted tag
   * gains an entry without a type.
   */
  lemma SetEffect(st: Attrs, tag: Tag, v: Value)
    ensures var (after, code) := Set(st, tag, v);
            && code == (if Listed(st, tag, v.Type()) then SUCCESS else FAIL)
            && after.exist == st.exist + (if code == SUCCESS then [tag] else [])
            && (forall ty, t :: Get(after, ty, t) == if code == SUCCESS && ty == v.Type() && t == tag then Some(v)
                                                     else Get(st, ty, t))
            && (forall t: Tag, ty :: Listed(after, t, ty) <==>
                                     Listed(st, t, ty) || (t == tag && tag !in st.position && ty == NoType))
  {
    hide Get, Store;
    var touched := Touch(st, tag);
    assert st.exist + [] == st.exist;
    forall ty, t ensures Get(touched, ty, t) == Get(st, ty, t) {
      TouchKeepsAnswers(st, tag, ty, t);
    }
    forall ty, t ensures Get(Store(touched, tag, v), ty, t) ==
                         if ty == v.Type() && t == tag then Some(v) else Get(st, ty, t) {
      GetStore(touched, tag, v, ty, t);
    }
    StoreKeepsTable(touched, tag, v);
  }

  lemma StoreKeepsTable(st: Attrs, tag: Tag, v: Value)
    ensures Store(st, tag, v).position == st.position && Store(st, tag, v).exist == st.exist + [tag]
  {
  }

  /** clear() forgets every answer, and neither the table nor the recorded tags. */
  lemma ClearEffect(st: Attrs)
    ensures forall ty, t :: Get(Clear(st), ty, t) == None
    ensures Clear(st).position == st.position && Clear(st).exist == st.exist
  {
  }

  /** The tags that each setter of a new object accepts. */
  function TagsFor(ty: ValueType): set<int> {
    match ty
    case BoolType => {100026}
    case U32Type => {100001, 100005, 100009, 100010, 100016, 100022, 100023, 100024}
    case U64Type => {100006, 100014, 100018, 100019, 100021, 100025, 100027}
    case U64sType => {100007}
    case U8sType => {100004, 100015, 100028, 100030}
    case _ => {}
  }

  lemma NewObjectAccepts(tag: Tag, v: Value)
    ensures Set(Fresh(TABLE), tag, v).1 == SUCCESS <==> tag in TagsFor(v.Type())
  {
    hide Set, TagsFor;
    SetEffect(Fresh(TABLE), tag, v);
    ListedInTable(tag, v.Type());
  }

  lemma ListedInTable(tag: Tag, ty: ValueType)
    requires ty != NoType
    ensures Listed(Fresh(TABLE), tag, ty) <==> tag in TagsFor(ty)
  {
    if tag !in TABLE {
      assert tag !in TagsFor(ty);
    }
  }

  // ------------------------------------------------------ accepted buffers

  /** Unpack stores the record's value; an empty byte array is passed over. */
  predicate Counts(position: Table, r: Record) {
    r.tag in position && !(position[r.tag] == U8sType && r.payload == [])
  }

  /** Record i is the last one for its tag. */
  ghost predicate LastFor(position: Table, rs: seq<Record>, i: nat) {
    i < |rs| && Counts(position, rs[i]) && forall j | i < j < |rs| :: Counts(position, rs[j]) ==> rs[j].tag != rs[i].tag
  }

  lemma OneRecordAnswer(st: Attrs, r: Record, ty: ValueType, t: Tag)
    requires WellFormed(st.position, r)
    ensures Get(StoreRecord(st, r.tag, r.payload), ty, t) ==
            if Counts(st.position, r) && r.tag == t && ty == st.position[t]
            then Some(DecodeValue(ty, r.payload)) else Get(st, ty, t)
  {
    hide Get, Store, DecodeValue;
    GetStore(st, r.tag, DecodeValue(st.position[r.tag], r.payload), ty, t);
  }

  lemma {:induction false} UntouchedAnswer(st: Attrs, rs: seq<Record>, ty: ValueType, t: Tag)
    requires AllWellFormed(st.position, rs)
    requires forall i | 0 <= i < |rs| :: Counts(st.position, rs[i]) && rs[i].tag == t ==> ty != st.position[t]
    ensures Get(Apply(st, rs), ty, t) == Get(st, ty, t)
    decreases |rs|
  {
    hide Get, StoreRecord, DecodeValue;
    if rs != [] {
      OneRecordAnswer(st, rs[0], ty, t);
      UntouchedAnswer(StoreRecord(st, rs[0].tag, rs[0].payload), rs[1..], ty, t);
    }
  }

  lemma {:induction false} LastAnswer(st: Attrs, rs: seq<Record>, i: nat)
    requires AllWellFormed(st.position, rs) && LastFor(st.position, rs, i)
    ensures LengthFits(st.position[rs[i].tag], |rs[i].payload|)
    ensures var ty := st.position[rs[i].tag];
            Get(Apply(st, rs), ty, rs[i].tag) == Some(DecodeValue(ty, rs[i].payload))
    decreases |rs|
  {
    hide Get, StoreRecord, DecodeValue;
    var next := StoreRecord(st, rs[0].tag, rs[0].payload);
    if i == 0 {
      OneRecordAnswer(st, rs[0], st.position[rs[0].tag], rs[0].tag);
      UntouchedAnswer(next, rs[1..], st.position[rs[0].tag], rs[0].tag);
    } else {
      forall j | i - 1 < j < |rs[1..]|
        ensures Counts(st.position, rs[1..][j]) ==> rs[1..][j].tag != rs[1..][i - 1].tag
      {
        assert rs[1..][j] == rs[j + 1];
      }
      LastAnswer(next, rs[1..], i - 1);
    }
  }

  /**
   * After a buffer of records was accepted, the getter of the table's type gives, for each tag,
   * the value of its last record; everything else is answered as before.
   */
  lemma AcceptedAnswers(st: Attrs, buffer: seq<byte>, rs: seq<Record>)
    requires 16 < |buffer| <= MAX_BUFFER && AllWellFormed(st.position, rs) && buffer[16..] == EncodeAll(rs)
    ensures Unpack(st, buffer).1 == Accepted
    ensures forall i: nat | LastFor(st.position, rs, i) ::
              var ty := st.position[rs[i].tag];
              && LengthFits(ty, |rs[i].payload|)
              && Get(Unpack(st, buffer).0, ty, rs[i].tag) == Some(DecodeValue(ty, rs[i].payload))
    ensures forall ty, t :: (forall i | 0 <= i < |rs| :: Counts(st.position, rs[i]) && rs[i].tag == t ==>
                                                           ty != st.position[t])
                            ==> Get(Unpack(st, buffer).0, ty, t) == Get(st, ty, t)
  {
    hide Get, Apply, DecodeValue, Unpack, EncodeAll, Counts;
    assert EncodeAll(rs) + [] == EncodeAll(rs);
    AttributeAcceptance.WholeSegment(st, buffer, rs);
    forall i: nat | LastFor(st.position, rs, i)
      ensures var ty := st.position[rs[i].tag];
              && LengthFits(ty, |rs[i].payload|)
              && Get(Apply(st, rs), ty, rs[i].tag) == Some(DecodeValue(ty, rs[i].payload))
    {
      LastAnswer(st, rs, i);
    }
    forall ty, t | forall i | 0 <= i < |rs| :: Counts(st.position, rs[i]) && rs[i].tag == t ==> ty != st.position[t]
      ensures Get(Apply(st, rs), ty, t) == Get(st, ty, t)
    {
      UntouchedAnswer(st, rs, ty, t);
    }
  }

  /**
   * An array of words whose length wraps past 2^32 without exceeding the buffer is stored, word
   * by word as AttributeLayout.WrappedWords says, and the cursor jumps back.
   */
  lemma WrappedArrayAnswer(st: Attrs, buffer: seq<byte>, pos: nat)
    requires pos <= |buffer| <= MAX_BUFFER
    requires var tag, n := ReadU32(buffer, pos), ReadU32(buffer, pos + 4);
             && (Listed(st, tag, U32sType) || Listed(st, tag, U64sType))
             && 0x1_0000_0000 <= pos + 8 + n <= 0x1_0000_0000 + |buffer|
    ensures var tag, n, at := ReadU32(buffer, pos), ReadU32(buffer, pos + 4), pos + 8;
            && Move(st, buffer, pos).Go? && Move(st, buffer, pos).pos == at + n - 0x1_0000_0000
            && forall ty, t :: Get(Move(st, buffer, pos).state, ty, t) ==
                               if t != tag || !Listed(st, tag, ty) then Get(st, ty, t)
                               else if ty == U32sType then Some(U32s(WordsAt32(buffer, at, n)))
                               else Some(U64s(WordsAt64(buffer, at, n)))
  {
    hide Get, Store, ReadU32, ReadU64, StoreRecord, WordsAt32, WordsAt64;
    var tag, n, at := ReadU32(buffer, pos), ReadU32(buffer, pos + 4), pos + 8;
    var v := if Listed(st, tag, U32sType) then U32s(WordsAt32(buffer, at, n)) else U64s(WordsAt64(buffer, at, n));
    assert (at + n) % TWO_32 == at + n - TWO_32;
    forall ty, t ensures Get(Store(st, tag, v), ty, t) ==
                         if ty == v.Type() && t == tag then Some(v) else Get(st, ty, t) {
      GetStore(st, tag, v, ty, t);
    }
  }

  /** Of a record whose tag has an entry without a type, only the header is passed over. */
  lemma UntypedIsPassedOver(st: Attrs, buffer: seq<byte>, pos: nat)
    requires Listed(st, ReadU32(buffer, pos), NoType)
    requires pos + 8 + ReadU32(buffer, pos + 4) <= |buffer| < 0x1_0000_0000
    ensures Move(st, buffer, pos) == Go(st, pos + 8)
  {
    hide ReadU32;
  }
}

/** What encoding and decoding preserve, and what the bytes depend on. */
module AttributeRoundTrip {
  import opened Common
  import opened LittleEndian
  import opened Tlv
  import opened TagSort
  import opened AttributeState
  import opened AttributeIntegrity
  import opened AttributeScan
  import AttributeAcceptance

  /** Unpack keeps every record except an empty byte array. */
  predicate Kept(src: Attrs, t: Tag)
    requires t in src.position
  {
    !(src.position[t] == U8sType && Payload(src, t) == [])
  }

  ghost function KeptTags(src: Attrs, tags: seq<Tag>): (r: seq<Tag>)
    requires forall t <- tags :: t in src.position
    ensures forall t :: t in r <==> t in tags && Kept(src, t)
  {
    if tags == [] then []
    else if Kept(src, tags[0]) then [tags[0]] + KeptTags(src, tags[1..])
    else KeptTags(src, tags[1..])
  }

  /** Tags that Pack may write for src. */
  ghost predicate Writable(base: Table, src: Attrs, tags: seq<Tag>) {
    forall t <- tags :: t in base && (t in src.exist || t == AUTH_SIGNATURE)
  }

  lemma StoredPayload(base: Table, src: Attrs, t: Tag)
    requires Integrity(base, src) && t in base && (t in src.exist || t == AUTH_SIGNATURE) && Kept(src, t)
    ensures Get(src, base[t], t) == Some(DecodeValue(base[t], Payload(src, t)))
  {
    hide DecodeValue, EncodeValue;
    var v := Get(src, base[t], t).value;
    DecodeEncode(v);
  }

  ghost predicate EmptyBytes(st: Attrs, t: Tag) {
    Get(st, U8sType, t) == Some(U8s([]))
  }

  /** For a writable tag, kept means stored and not an empty byte array. */
  lemma KeptMeans(base: Table, src: Attrs, t: Tag)
    requires Integrity(base, src) && t in base && (t in src.exist || t == AUTH_SIGNATURE)
    ensures Kept(src, t) <==> t in src.exist && !EmptyBytes(src, t)
  {
    hide EncodeValue, DecodeValue;
    assert Get(src, base[t], t).Some? <==> t in src.exist;
    if base[t] == U8sType && t in src.exist {
      assert Payload(src, t) == Get(src, U8sType, t).value.bytes by {
        EncodeBytes(Get(src, U8sType, t).value);
      }
    }
  }

  lemma EncodeBytes(v: Value)
    requires v.Type() == U8sType
    ensures EncodeValue(v) == v.bytes
  {
  }

  lemma OnlyTyped(base: Table, src: Attrs, ty: ValueType, t: Tag)
    requires Integrity(base, src) && Get(src, ty, t).Some?
    ensures t in src.exist && t in base && ty == base[t]
  {
  }

  lemma StoreRecords(dst: Attrs, u: Tag, v: Value)
    ensures Store(dst, u, v).exist == dst.exist + [u]
  {
  }

  lemma RecordsTail(src: Attrs, tags: seq<Tag>)
    requires tags != [] && forall t <- tags :: t in src.position
    ensures tags == [tags[0]] + tags[1..]
    ensures Records(src, tags)[0] == Record(tags[0], Payload(src, tags[0]))
    ensures Records(src, tags)[1..] == Records(src, tags[1..])
  {
  }

  lemma DeliverOne(base: Table, src: Attrs, dst: Attrs, u: Tag, ty: ValueType, t: Tag)
    requires Integrity(base, src) && dst.position == base && u in base && (u in src.exist || u == AUTH_SIGNATURE)
    ensures Get(StoreRecord(dst, u, Payload(src, u)), ty, t) ==
            if t == u && ty == base[u] && Kept(src, u) then Get(src, ty, t) else Get(dst, ty, t)
    ensures StoreRecord(dst, u, Payload(src, u)).exist == dst.exist + if Kept(src, u) then [u] else []
  {
    hide DecodeValue, EncodeValue, Get, Integrity, Store, Payload;
    TableOf(base, src);
    if Kept(src, u) {
      var v := DecodeValue(base[u], Payload(src, u));
      StoredPayload(base, src, u);
      GetStore(dst, u, v, ty, t);
      StoreRecords(dst, u, v);
    }
  }

  /** Delivering src's records gives exactly the answers of src for the kept tags. */
  lemma {:induction false} Deliver(base: Table, src: Attrs, dst: Attrs, tags: seq<Tag>, ty: ValueType, t: Tag)
    requires Integrity(base, src) && dst.position == base && Writable(base, src, tags)
    requires AllWellFormed(base, Records(src, tags))
    ensures Get(Apply(dst, Records(src, tags)), ty, t) ==
            if t in tags && ty == base[t] && Kept(src, t) then Get(src, ty, t) else Get(dst, ty, t)
    decreases |tags|
  {
    hide StoreRecord, Get, Payload, Integrity, Kept, Records, KeptTags;
    TableOf(base, src);
    if tags != [] {
      var u := tags[0];
      RecordsTail(src, tags);
      DeliverOne(base, src, dst, u, ty, t);
      Deliver(base, src, StoreRecord(dst, u, Payload(src, u)), tags[1..], ty, t);
    }
  }

  lemma {:induction false} DeliverTags(base: Table, src: Attrs, dst: Attrs, tags: seq<Tag>)
    requires Integrity(base, src) && dst.position == base && Writable(base, src, tags)
    requires AllWellFormed(base, Records(src, tags))
    ensures Packable(src) && forall t <- tags :: t in src.position
    ensures Apply(dst, Records(src, tags)).exist == dst.exist + KeptTags(src, tags)
    decreases |tags|
  {
    hide StoreRecord, Get, Payload, Integrity, Kept, Records;
    TableOf(base, src);
    if tags != [] {
      var u := tags[0];
      RecordsTail(src, tags);
      DeliverOne(base, src, dst, u, BoolType, u);
      DeliverTags(base, src, StoreRecord(dst, u, Payload(src, u)), tags[1..]);
    }
  }

  lemma TailFits(base: Table, src: Attrs)
    requires Integrity(base, src) && PackSize(src) <= MAX_BUFFER
    ensures |PackBytes(src)| == PackSize(src) && PackBytes(src)[16..] == EncodeAll(TailRecords(src))
    ensures AllWellFormed(base, TailRecords(src))
    ensures TailRecords(src) == Records(src, SortedFields(src) + [AUTH_SIGNATURE])
    ensures Writable(base, src, SortedFields(src) + [AUTH_SIGNATURE])
  {
    hide ToBytes, EncodeValue, Get, SortedFields, Payload;
    PackLength(src);
    var data, sig := DataRecords(src), SignatureRecord(src);
    EncodeAllAppend(data, [sig]);
    assert EncodeAll([sig]) == EncodeRecord(sig) + EncodeAll([]);
    forall r <- TailRecords(src) ensures WellFormed(base, r) {
      PayloadWithin(TailRecords(src), r);
    }
  }

  lemma {:induction false} PayloadWithin(rs: seq<Record>, r: Record)
    requires r in rs
    ensures |r.payload| <= |EncodeAll(rs)|
  {
    hide Header;
    if r != rs[0] {
      PayloadWithin(rs[1..], r);
    }
  }

  /** The answer delivered for any type and tag, in terms of src alone. */
  lemma HopAnswer(base: Table, src: Attrs, tags: seq<Tag>, ty: ValueType, t: Tag)
    requires Integrity(base, src) && tags == SortedFields(src) + [AUTH_SIGNATURE] && Writable(base, src, tags)
    ensures Packable(src)
    ensures (if t in tags && ty == base[t] && Kept(src, t) then Get(src, ty, t) else Get(Fresh(base), ty, t)) ==
            if ty == U8sType && EmptyBytes(src, t) then None else Get(src, ty, t)
  {
    hide Integrity, SortedFields, Kept;
    TableOf(base, src);
    if t in tags {
      KeptMeans(base, src, t);
    }
    if Get(src, ty, t).Some? {
      OnlyTyped(base, src, ty, t);
      assert t in tags;
    }
    if EmptyBytes(src, t) {
      OnlyTyped(base, src, U8sType, t);
    }
  }

  ghost function Hop(base: Table, src: Attrs): Attrs
    requires Packable(src)
  {
    Unpack(Fresh(base), PackBytes(src)).0
  }

  /**
   * Decoding an encoding into a fresh object always succeeds, and the getters then answer
   * as before, except that an empty byte array is gone.
   */
  lemma RoundTrip(base: Table, src: Attrs)
    requires Integrity(base, src) && PackSize(src) <= MAX_BUFFER
    ensures Unpack(Fresh(base), PackBytes(src)).1 == Accepted
    ensures Integrity(base, Hop(base, src)) && Hop(base, src).position == base
    ensures forall ty, t ::
              Get(Hop(base, src), ty, t) == if ty == U8sType && EmptyBytes(src, t) then None else Get(src, ty, t)
    ensures Hop(base, src).exist == KeptTags(src, SortedFields(src) + [AUTH_SIGNATURE])
  {
    hide ReadU32, LengthPass, StoreRecord, Get, Store, DecodeValue, EncodeValue, Integrity, PackBytes, PackSize;
    hide EncodeAll, Apply, SortedFields, KeptTags, Payload, Records, TailRecords, Scan, Move;
    TableOf(base, src);
    var bytes, tags := PackBytes(src), SortedFields(src) + [AUTH_SIGNATURE];
    TailFits(base, src);
    assert bytes[16..] == EncodeAll(TailRecords(src)) + [];
    AttributeAcceptance.WholeSegment(Fresh(base), bytes, TailRecords(src));
    FreshIntegrity(base);
    ScanIntegrity(base, Fresh(base), bytes, 16, |bytes|);
    forall ty, t ensures Get(Hop(base, src), ty, t)
                         == if ty == U8sType && EmptyBytes(src, t) then None else Get(src, ty, t) {
      Deliver(base, src, Fresh(base), tags, ty, t);
      HopAnswer(base, src, tags, ty, t);
    }
    DeliverTags(base, src, Fresh(base), tags);
  }

  /** Every getter answers as before if and only if no empty byte array is stored. */
  lemma RoundTripIsExact(base: Table, src: Attrs)
    requires Integrity(base, src) && PackSize(src) <= MAX_BUFFER
    ensures SameAnswers(src, Hop(base, src)) <==> forall t :: !EmptyBytes(src, t)
  {
    RoundTrip(base, src);
    if t :| EmptyBytes(src, t) {
      assert Get(Hop(base, src), U8sType, t) != Get(src, U8sType, t);
    }
  }

  /** A caller name of no bytes is set, encoded, accepted, and then unknown to the copy. */
  lemma EmptyCallerNameIsLost()
    ensures var (src, code) := Set(Fresh(TABLE), AUTH_CALLER_NAME, U8s([]));
            && code == SUCCESS && Packable(src)
            && Unpack(Fresh(TABLE), PackBytes(src)).1 == Accepted
            && Get(src, U8sType, AUTH_CALLER_NAME) == Some(U8s([]))
            && Get(Hop(TABLE, src), U8sType, AUTH_CALLER_NAME) == None
            && !SameAnswers(src, Hop(TABLE, src))
  {
    hide PackBytes, PackSize, Integrity, Hop, Unpack;
    ConstructorTableIsProper();
    FreshIntegrity(TABLE);
    SetIntegrity(TABLE, Fresh(TABLE), AUTH_CALLER_NAME, U8s([]));
    var src := Set(Fresh(TABLE), AUTH_CALLER_NAME, U8s([])).0;
    TableOf(TABLE, src);
    OneTagSize(src, AUTH_CALLER_NAME);
    RoundTrip(TABLE, src);
    assert EmptyBytes(src, AUTH_CALLER_NAME);
    RoundTripIsExact(TABLE, src);
  }

  /** The size of an encoding with one data tag. */
  lemma OneTagSize(src: Attrs, t: Tag)
    requires Packable(src) && src.exist == [t] && !Skipped(t)
    ensures PackSize(src) == 32 + |Payload(src, t)| + |Payload(src, AUTH_SIGNATURE)|
  {
    hide SortedFields, EncodeRecord, Payload, ToBytes;
    OneTagFields(src, t);
    var r := Record(t, Payload(src, t));
    assert Records(src, [t]) == [r];
    assert [r][1..] == [];
    assert EncodeAll([r]) == EncodeRecord(r) + [];
  }

  lemma OneTagFields(src: Attrs, t: Tag)
    requires src.exist == [t] && !Skipped(t)
    ensures SortedFields(src) == [t]
  {
    assert [t][1..] == [];
    assert SortTags([t]) == [t];
    assert DataTags([]) == [];
    assert DataTags([t]) == [t] + [];
  }

  /** A new object after any calls of setters and Unpack, accepted or not. */
  ghost function Built(ops: seq<Op>): (st: Attrs)
    requires NoClear(ops)
    ensures Integrity(TABLE, st) && Packable(st)
  {
    ConstructorTableIsProper();
    FreshIntegrity(TABLE);
    IntegrityOfRuns(TABLE, Fresh(TABLE), ops);
    PackIsAlwaysDefined(ops);
    AttributeIntegrity.Run(Fresh(TABLE), ops)
  }

  /**
   * Whatever was called on the original, its bytes are accepted by a fresh object, whose
   * getters then all agree with the original's if and only if it holds no empty byte array.
   */
  lemma EveryObjectRoundTrips(ops: seq<Op>)
    requires NoClear(ops) && PackSize(Built(ops)) <= MAX_BUFFER
    ensures var (copy, outcome) := Unpack(Fresh(TABLE), PackBytes(Built(ops)));
            && outcome == Accepted
            && (SameAnswers(Built(ops), copy) <==> forall t :: !EmptyBytes(Built(ops), t))
  {
    hide Built, PackBytes, PackSize, Integrity, Get, Packable;
    RoundTrip(TABLE, Built(ops));
    RoundTripIsExact(TABLE, Built(ops));
  }

  // -------------------------------------------------------- canonical form

  lemma SameRecords(a: Attrs, b: Attrs, tags: seq<Tag>)
    requires forall t <- tags :: t in a.position && t in b.position && Payload(a, t) == Payload(b, t)
    ensures Records(a, tags) == Records(b, tags)
  {
  }

  lemma {:induction false} KeptIsAscending(src: Attrs, tags: seq<Tag>)
    requires Ascending(tags) && forall t <- tags :: t in src.position && !Skipped(t)
    ensures Ascending(KeptTags(src, tags)) && DataTags(KeptTags(src, tags)) == KeptTags(src, tags)
  {
    if tags != [] {
      KeptIsAscending(src, tags[1..]);
      if Kept(src, tags[0]) {
        assert KeptTags(src, tags)[1..] == KeptTags(src, tags[1..]);
      }
    }
  }

  lemma {:induction false} KeptAppend(src: Attrs, s: seq<Tag>, r: seq<Tag>)
    requires forall t <- s + r :: t in src.position
    ensures (forall t <- s :: t in src.position) && (forall t <- r :: t in src.position)
    ensures KeptTags(src, s + r) == KeptTags(src, s) + KeptTags(src, r)
  {
    forall t <- s ensures t in src.position { assert t in s + r; }
    forall t <- r ensures t in src.position { assert t in s + r; }
    if s == [] {
      assert s + r == r;
    } else {
      assert (s + r)[1..] == s[1..] + r;
      KeptAppend(src, s[1..], r);
    }
  }

  /** Sorting kept data tags followed by a signature leaves the kept tags as they are. */
  lemma FieldsOfKept(kept: seq<Tag>, last: seq<Tag>)
    requires Ascending(kept) && DataTags(kept) == kept && DataTags(last) == []
    ensures DataTags(SortTags(kept + last)) == kept
  {
    hide DataTags, SortTags, Ascending;
    DataTagsAppend(kept, last);
    SortedDataTags(kept + last);
    SortAscending(kept);
    assert kept + [] == kept;
    AscendingUnique(SortTags(kept), kept);
  }

  lemma KeptSignature(src: Attrs)
    requires AUTH_SIGNATURE in src.position
    ensures DataTags(KeptTags(src, [AUTH_SIGNATURE])) == []
  {
    hide Payload;
  }

  /** The decoded object writes the kept data tags, in the same order. */
  lemma FieldsAfterHop(base: Table, src: Attrs)
    requires Integrity(base, src) && PackSize(src) <= MAX_BUFFER
    ensures SortedFields(Hop(base, src)) == KeptTags(src, SortedFields(src))
  {
    hide PackBytes, PackSize, EncodeAll, Get, Payload, Integrity, Hop, Records, SortTags, Ascending;
    TableOf(base, src);
    RoundTrip(base, src);
    var fields := SortedFields(src);
    SortAscending(src.exist);
    DataTagsAscending(SortTags(src.exist));
    KeptIsAscending(src, fields);
    KeptAppend(src, fields, [AUTH_SIGNATURE]);
    KeptSignature(src);
    hide KeptTags, Kept, DataTags, Skipped;
    FieldsOfKept(KeptTags(src, fields), KeptTags(src, [AUTH_SIGNATURE]));
  }

  /** Dropping records shortens the encoding, strictly unless nothing is dropped. */
  lemma {:induction false} KeptShorter(src: Attrs, tags: seq<Tag>)
    requires forall t <- tags :: t in src.position
    ensures |EncodeAll(Records(src, KeptTags(src, tags)))| <= |EncodeAll(Records(src, tags))|
    ensures KeptTags(src, tags) == tags <==> forall t <- tags :: Kept(src, t)
    ensures KeptTags(src, tags) != tags ==>
              |EncodeAll(Records(src, KeptTags(src, tags)))| < |EncodeAll(Records(src, tags))|
  {
    hide EncodeRecord, Payload, Records;
    if tags != [] {
      var kept := KeptTags(src, tags);
      KeptShorter(src, tags[1..]);
      RecordsTail(src, tags);
      if Kept(src, tags[0]) {
        assert kept[1..] == KeptTags(src, tags[1..]);
        RecordsTail(src, kept);
      }
    }
  }

  /** The decoded object holds the same payload for every tag that Pack writes, if it is kept or the signature. */
  lemma PayloadAfterHop(base: Table, src: Attrs, t: Tag)
    requires Integrity(base, src) && PackSize(src) <= MAX_BUFFER && t in base
    ensures Hop(base, src).position == base
    ensures Kept(src, t) || t == AUTH_SIGNATURE ==> Payload(Hop(base, src), t) == Payload(src, t)
  {
    hide Hop, PackSize, KeptTags, SortedFields;
    RoundTrip(base, src);
    TableOf(base, src);
    hide Integrity;
  }

  /** What Pack writes after a hop: the same records without the empty byte arrays. */
  lemma RecordsAfterHop(base: Table, src: Attrs)
    requires Integrity(base, src) && PackSize(src) <= MAX_BUFFER
    ensures Packable(Hop(base, src))
    ensures DataRecords(Hop(base, src)) == Records(src, KeptTags(src, SortedFields(src)))
    ensures SignatureRecord(Hop(base, src)) == SignatureRecord(src)
    ensures PackSize(Hop(base, src)) <= PackSize(src)
  {
    hide KeptTags, EncodeRecord, EncodeValue, Integrity, Hop, Payload, Get, SortedFields, Kept;
    TableOf(base, src);
    RoundTrip(base, src);
    TableOf(base, Hop(base, src));
    FieldsAfterHop(base, src);
    var kept := KeptTags(src, SortedFields(src));
    forall t <- kept + [AUTH_SIGNATURE] ensures t in base && Payload(Hop(base, src), t) == Payload(src, t) {
      PayloadAfterHop(base, src, t);
    }
    forall t <- kept ensures Payload(Hop(base, src), t) == Payload(src, t) {
      assert t in kept + [AUTH_SIGNATURE];
    }
    SameRecords(Hop(base, src), src, kept);
    KeptShorter(src, SortedFields(src));
  }

  /** Every data tag is kept exactly when only the signature may be empty. */
  lemma AllKept(base: Table, src: Attrs)
    requires Integrity(base, src)
    ensures (forall t <- SortedFields(src) :: t in src.position && Kept(src, t)) <==>
            forall t :: EmptyBytes(src, t) ==> t == AUTH_SIGNATURE
  {
    hide EncodeValue, SortedFields, DecodeValue, Kept, Integrity, Get;
    TableOf(base, src);
    forall t <- SortedFields(src) ensures t in src.position && (!Kept(src, t) <==> EmptyBytes(src, t)) {
      KeptMeans(base, src, t);
    }
    if t :| EmptyBytes(src, t) && t != AUTH_SIGNATURE {
      OnlyTyped(base, src, U8sType, t);
      assert t in SortedFields(src);
    }
  }

  /**
   * Encoding the decoded object reproduces the bytes if and only if no byte array other
   * than the signature is empty.
   */
  lemma RepackIsIdentity(base: Table, src: Attrs)
    requires Integrity(base, src) && PackSize(src) <= MAX_BUFFER
    ensures Packable(Hop(base, src))
    ensures PackBytes(Hop(base, src)) == PackBytes(src) <==>
            forall t :: EmptyBytes(src, t) ==> t == AUTH_SIGNATURE
  {
    hide KeptTags, Integrity, EncodeRecord, EncodeValue, EncodeAll, Payload, Get, Hop, SortedFields;
    TableOf(base, src);
    RecordsAfterHop(base, src);
    AllKept(base, src);
    KeptShorter(src, SortedFields(src));
    PackLength(src);
    PackLength(Hop(base, src));
  }

  ghost function Hops(base: Table, src: Attrs, n: nat): Attrs
    requires Integrity(base, src) && PackSize(src) <= MAX_BUFFER
    decreases n
  {
    if n == 0 then src
    else
      RoundTrip(base, src);
      RecordsAfterHop(base, src);
      Hops(base, Hop(base, src), n - 1)
  }

  ghost predicate NoEmptyBytes(st: Attrs) {
    forall t :: !EmptyBytes(st, t)
  }

  lemma OneStableHop(base: Table, src: Attrs)
    requires Integrity(base, src) && PackSize(src) <= MAX_BUFFER && NoEmptyBytes(src)
    ensures Integrity(base, Hop(base, src)) && SameAnswers(src, Hop(base, src)) && NoEmptyBytes(Hop(base, src))
    ensures Packable(Hop(base, src)) && PackBytes(Hop(base, src)) == PackBytes(src)
    ensures PackSize(Hop(base, src)) == PackSize(src)
  {
    hide Get, PackBytes, PackSize, Integrity, Hop;
    TableOf(base, src);
    RoundTripIsExact(base, src);
    RepackIsIdentity(base, src);
    RoundTrip(base, src);
    PackLength(src);
    PackLength(Hop(base, src));
  }

  /** Without empty byte arrays, any number of hops changes neither the bytes nor any answer. */
  lemma {:induction false} HopsAreStable(base: Table, src: Attrs, n: nat)
    requires Integrity(base, src) && PackSize(src) <= MAX_BUFFER && NoEmptyBytes(src)
    ensures SameAnswers(src, Hops(base, src, n))
    ensures Packable(Hops(base, src, n)) && PackBytes(Hops(base, src, n)) == PackBytes(src)
    decreases n
  {
    hide Get, PackBytes, PackSize, Integrity, Hop, NoEmptyBytes;
    TableOf(base, src);
    if n > 0 {
      OneStableHop(base, src);
      HopsAreStable(base, Hop(base, src), n - 1);
    }
  }

  lemma HopIsClean(base: Table, src: Attrs)
    requires Integrity(base, src) && PackSize(src) <= MAX_BUFFER
    ensures Integrity(base, Hop(base, src)) && NoEmptyBytes(Hop(base, src))
    ensures Packable(Hop(base, src)) && PackSize(Hop(base, src)) <= MAX_BUFFER
  {
    hide Get, Hop, PackBytes, PackSize, Integrity;
    RoundTrip(base, src);
    RecordsAfterHop(base, src);
  }

  /** With them, everything is settled after the first hop. */
  lemma HopsSettle(base: Table, src: Attrs, n: nat)
    requires Integrity(base, src) && PackSize(src) <= MAX_BUFFER
    ensures SameAnswers(Hop(base, src), Hops(base, src, n + 1))
    ensures Packable(Hop(base, src)) && Packable(Hops(base, src, n + 1))
    ensures PackBytes(Hops(base, src, n + 1)) == PackBytes(Hop(base, src))
  {
    hide PackBytes, PackSize, Integrity, Hop, SameAnswers, NoEmptyBytes, Packable;
    TableOf(base, src);
    HopIsClean(base, src);
    HopsAreStable(base, Hop(base, src), n);
    assert Hops(base, src, n + 1) == Hops(base, Hop(base, src), n);
  }

  ghost function SignatureBytes(st: Attrs): seq<byte>
    requires AUTH_SIGNATURE in st.position
  {
    Payload(st, AUTH_SIGNATURE)
  }

  lemma SamePayloadSameAnswer(base: Table, a: Attrs, b: Attrs, t: Tag)
    requires Integrity(base, a) && Integrity(base, b) && t in a.exist && t in b.exist
    ensures Payload(a, t) == Payload(b, t) <==> Get(a, base[t], t) == Get(b, base[t], t)
  {
    DecodeEncode(Get(a, base[t], t).value);
    DecodeEncode(Get(b, base[t], t).value);
  }

  lemma TailsDetermined(base: Table, a: Attrs, b: Attrs)
    requires Integrity(base, a) && Integrity(base, b)
    requires PackSize(a) <= MAX_BUFFER && PackBytes(a) == PackBytes(b)
    ensures SortedFields(a) == SortedFields(b) && SignatureBytes(a) == SignatureBytes(b)
    ensures forall t <- SortedFields(a) :: Get(a, base[t], t) == Get(b, base[t], t)
  {
    hide ToBytes, EncodeValue, Get, SortedFields, EncodeAll, PackBytes, PackSize, Payload;
    PackLength(a);
    PackLength(b);
    TailFits(base, a);
    TailFits(base, b);
    EncodeAllInjective(TailRecords(a), TailRecords(b));
    var as', bs := SortedFields(a), SortedFields(b);
    var rs := TailRecords(a);
    forall i | 0 <= i < |as'| ensures as'[i] == bs[i] && Payload(a, as'[i]) == Payload(b, as'[i]) {
      assert rs[i] == Record(as'[i], Payload(a, as'[i])) == Record(bs[i], Payload(b, bs[i]));
    }
    assert as' == bs;
    assert rs[|rs| - 1] == SignatureRecord(a) == SignatureRecord(b);
    forall t <- as' ensures Get(a, base[t], t) == Get(b, base[t], t) {
      var i :| 0 <= i < |as'| && as'[i] == t;
      assert t in bs;
      SamePayloadSameAnswer(base, a, b, t);
    }
  }

  /** Same occurrences, same values, same signature. */
  ghost predicate SameContent(base: Table, a: Attrs, b: Attrs)
    requires Integrity(base, a) && Integrity(base, b)
  {
    && multiset(DataTags(a.exist)) == multiset(DataTags(b.exist))
    && (forall t <- DataTags(a.exist) :: Get(a, base[t], t) == Get(b, base[t], t))
    && SignatureBytes(a) == SignatureBytes(b)
  }

  lemma SameFields(a: Attrs, b: Attrs)
    ensures multiset(DataTags(a.exist)) == multiset(DataTags(b.exist)) <==> SortedFields(a) == SortedFields(b)
  {
    hide Ascending;
    SortedDataTags(a.exist);
    SortedDataTags(b.exist);
    SortAscending(DataTags(a.exist));
    SortAscending(DataTags(b.exist));
    if multiset(DataTags(a.exist)) == multiset(DataTags(b.exist)) {
      AscendingUnique(SortedFields(a), SortedFields(b));
    }
  }

  lemma ContentDetermines(base: Table, a: Attrs, b: Attrs)
    requires Integrity(base, a) && Integrity(base, b) && SameContent(base, a, b)
    ensures Packable(a) && Packable(b) && PackBytes(a) == PackBytes(b)
  {
    hide PackBytes, PackSize, Payload, Get, SortedFields, Integrity, Skipped;
    TableOf(base, a);
    TableOf(base, b);
    SameFields(a, b);
    forall t <- SortedFields(a) ensures t in a.position && t in b.position && Payload(a, t) == Payload(b, t) {
      assert t in DataTags(a.exist) && t in SortedFields(b);
      SamePayloadSameAnswer(base, a, b, t);
    }
    SameRecords(a, b, SortedFields(a));
    SamePieces(a, b);
  }

  lemma SamePieces(a: Attrs, b: Attrs)
    requires Packable(a) && Packable(b)
    requires DataRecords(a) == DataRecords(b) && SignatureRecord(a) == SignatureRecord(b)
    ensures PackBytes(a) == PackBytes(b)
  {
    hide DataRecords, EncodeAll, EncodeRecord, SignatureRecord;
  }

  /**
   * The bytes depend on nothing but the occurrences of the data tags, their final values
   * and the signature bytes, and they determine all three.
   */
  lemma CanonicalForm(base: Table, a: Attrs, b: Attrs)
    requires Integrity(base, a) && Integrity(base, b)
    requires PackSize(a) <= MAX_BUFFER && PackSize(b) <= MAX_BUFFER
    ensures PackBytes(a) == PackBytes(b) <==> SameContent(base, a, b)
  {
    hide PackBytes, PackSize, SortedFields, Get, Payload, Integrity;
    TableOf(base, a);
    TableOf(base, b);
    SameFields(a, b);
    if PackBytes(a) == PackBytes(b) {
      TailsDetermined(base, a, b);
    }
    if SameContent(base, a, b) {
      ContentDetermines(base, a, b);
    }
  }

  /** Read back from the bytes: ROOT's length covers all but itself, DATA's the data records. */
  lemma HeaderLengths(base: Table, st: Attrs)
    requires Integrity(base, st) && PackSize(st) <= MAX_BUFFER
    ensures ReadU32(PackBytes(st), 0) == AUTH_ROOT && ReadU32(PackBytes(st), 4) == |PackBytes(st)| - 8
    ensures ReadU32(PackBytes(st), 8) == AUTH_DATA
    ensures ReadU32(PackBytes(st), 12) == |EncodeAll(DataRecords(st))|
  {
    hide ToBytes, ReadU32, EncodeAll, SortedFields, EncodeValue, Payload;
    var data := EncodeAll(DataRecords(st));
    var section := Header(AUTH_DATA, |data|) + data + EncodeRecord(SignatureRecord(st));
    var bytes := PackBytes(st);
    var root := Header(AUTH_ROOT, |section|);
    assert bytes == [] + root + section;
    HeaderRead([], AUTH_ROOT, |section|, section);
    assert bytes == root + Header(AUTH_DATA, |data|) + (data + EncodeRecord(SignatureRecord(st)));
    HeaderRead(root, AUTH_DATA, |data|, data + EncodeRecord(SignatureRecord(st)));
  }
}

/** Which byte stands where in an encoding, and which bytes a decoded value comes from. */
module AttributeLayout {
  import opened Common
  import opened LittleEndian
  import opened Tlv
  import opened TagSort
  import opened AttributeState
  import opened AttributeIntegrity
  import AttributeRoundTrip

  /** The four low bytes of n, least significant first. */
  predicate Word32At(s: seq<byte>, at: nat, n: nat) {
    && at + 4 <= |s|
    && s[at] == n % 0x100 && s[at + 1] == n / 0x100 % 0x100
    && s[at + 2] == n / 0x1_0000 % 0x100 && s[at + 3] == n / 0x100_0000 % 0x100
  }

  predicate Word64At(s: seq<byte>, at: nat, n: nat) {
    Word32At(s, at, n % 0x1_0000_0000) && Word32At(s, at + 4, n / 0x1_0000_0000)
  }

  function Length(v: Value): nat {
    match v
    case Bool(_) => 1
    case U32(_) => 4
    case U64(_) => 8
    case U32s(ns) => 4 * |ns|
    case U64s(ms) => 8 * |ms|
    case U8s(bytes) => |bytes|
  }

  predicate ValueAt(s: seq<byte>, at: nat, v: Value) {
    at + Length(v) <= |s| &&
    match v
    case Bool(b) => s[at] == if b then 1 else 0
    case U32(n) => Word32At(s, at, n)
    case U64(m) => Word64At(s, at, m)
    case U32s(ns) => forall i | 0 <= i < |ns| :: Word32At(s, at + 4 * i, ns[i])
    case U64s(ms) => forall i | 0 <= i < |ms| :: Word64At(s, at + 8 * i, ms[i])
    case U8s(bytes) => s[at..at + |bytes|] == bytes
  }

  predicate RecordAt(s: seq<byte>, at: nat, tag: Tag, v: Value) {
    Word32At(s, at, tag) && Word32At(s, at + 4, Length(v)) && ValueAt(s, at + 8, v)
  }

  // ---------------------------------------------------------------- words

  lemma Shift32(s: seq<byte>, t: seq<byte>, at: nat, to: nat, n: nat)
    requires Word32At(s, at, n) && to + 4 <= |t| && s[at..at + 4] == t[to..to + 4]
    ensures Word32At(t, to, n)
  {
    var a, b := s[at..at + 4], t[to..to + 4];
    assert a[0] == b[0] && a[1] == b[1] && a[2] == b[2] && a[3] == b[3];
  }

  lemma Shift64(s: seq<byte>, t: seq<byte>, at: nat, to: nat, n: nat)
    requires Word64At(s, at, n) && to + 8 <= |t| && s[at..at + 8] == t[to..to + 8]
    ensures Word64At(t, to, n)
  {
    SubSlice(s, at, 8, 0, 4);
    SubSlice(t, to, 8, 0, 4);
    SubSlice(s, at, 8, 4, 4);
    SubSlice(t, to, 8, 4, 4);
    Shift32(s, t, at, to, n % 0x1_0000_0000);
    Shift32(s, t, at + 4, to + 4, n / 0x1_0000_0000);
  }

  lemma Powers()
    ensures Pow256(0) == 1 && Pow256(1) == 0x100 && Pow256(2) == 0x1_0000 && Pow256(3) == 0x100_0000
    ensures Pow256(4) == 0x1_0000_0000 && Pow256(5) == 0x100_0000_0000
    ensures Pow256(6) == 0x1_0000_0000_0000 && Pow256(7) == 0x100_0000_0000_0000
  {
    assert Pow256(2) == 256 * Pow256(1);
    assert Pow256(3) == 256 * Pow256(2);
    assert Pow256(4) == 256 * Pow256(3);
    assert Pow256(5) == 256 * Pow256(4);
    assert Pow256(6) == 256 * Pow256(5);
    assert Pow256(7) == 256 * Pow256(6);
  }

  lemma Image32(n: nat)
    ensures Word32At(ToBytes(n, 4), 0, n)
  {
    hide ToBytes, Pow256;
    Powers();
    DigitOf(n, 4, 0);
    DigitOf(n, 4, 1);
    DigitOf(n, 4, 2);
    DigitOf(n, 4, 3);
  }

  /** A word of eight bytes is its low half followed by its high half. */
  lemma Halves(n: nat)
    requires n < 0x1_0000_0000_0000_0000
    ensures ToBytes(n, 8) == ToBytes(n % 0x1_0000_0000, 4) + ToBytes(n / 0x1_0000_0000, 4)
  {
    hide ToBytes, Weighted;
    Widths();
    var low, high := ToBytes(n % 0x1_0000_0000, 4), ToBytes(n / 0x1_0000_0000, 4);
    FromToBytes(n % 0x1_0000_0000, 4);
    FromToBytes(n / 0x1_0000_0000, 4);
    FourBytes(low, high);
    FourBytes(low, []);
    assert low + [] == low;
    ToFromBytes(low + high);
  }

  lemma Image64(n: nat)
    requires n < 0x1_0000_0000_0000_0000
    ensures Word64At(ToBytes(n, 8), 0, n)
  {
    hide ToBytes, Word32At;
    var low, high := ToBytes(n % 0x1_0000_0000, 4), ToBytes(n / 0x1_0000_0000, 4);
    Halves(n);
    Image32(n % 0x1_0000_0000);
    Image32(n / 0x1_0000_0000);
    assert (low + high)[0..4] == low[0..4] && (low + high)[4..8] == high[0..4];
    Shift32(low, low + high, 0, 0, n % 0x1_0000_0000);
    Shift32(high, low + high, 0, 4, n / 0x1_0000_0000);
  }

  /** A number is read from four bytes exactly when they are its bytes in this order. */
  lemma ReadsWord32(s: seq<byte>, n: uint32)
    requires |s| == 4
    ensures LittleEndian.U32(s) == n <==> Word32At(s, 0, n)
  {
    hide FromBytes, ToBytes;
    Image32(n);
    U32Image(n);
    ToFromBytes(s);
    if Word32At(s, 0, n) {
      assert s == ToBytes(n, 4);
    }
  }

  lemma ReadsWord64(s: seq<byte>, n: uint64)
    requires |s| == 8
    ensures LittleEndian.U64(s) == n <==> Word64At(s, 0, n)
  {
    hide FromBytes, ToBytes;
    Image64(n);
    U64Image(n);
    ToFromBytes(s);
    if Word64At(s, 0, n) {
      assert s == ToBytes(n, 8);
    }
  }

  // --------------------------------------------------------------- values

  lemma ShiftValue(s: seq<byte>, t: seq<byte>, to: nat, v: Value)
    requires ValueAt(s, 0, v) && |s| == Length(v) && to + |s| <= |t| && t[to..to + |s|] == s
    ensures ValueAt(t, to, v)
  {
    hide Word32At, Word64At;
    match v
    case Bool(_) => assert t[to] == t[to..to + 1][0];
    case U32(n) => Shift32(s, t, 0, to, n);
    case U64(m) => Shift64(s, t, 0, to, m);
    case U32s(ns) =>
      forall i | 0 <= i < |ns| ensures Word32At(t, to + 4 * i, ns[i]) {
        SubSlice(t, to, |s|, 4 * i, 4);
        Shift32(s, t, 4 * i, to + 4 * i, ns[i]);
      }
    case U64s(ms) =>
      forall i | 0 <= i < |ms| ensures Word64At(t, to + 8 * i, ms[i]) {
        SubSlice(t, to, |s|, 8 * i, 8);
        Shift64(s, t, 8 * i, to + 8 * i, ms[i]);
      }
    case U8s(_) =>
  }

  /** The payload of a value: its words in order, each least significant byte first. */
  lemma EncodedValue(v: Value)
    ensures |EncodeValue(v)| == Length(v) && ValueAt(EncodeValue(v), 0, v)
  {
    hide Word32At, Word64At, ToBytes, Images32, Images64;
    match v
    case Bool(_) =>
    case U32(n) => Image32(n);
    case U64(m) => Image64(m);
    case U32s(ns) =>
      forall i | 0 <= i < |ns| ensures Word32At(EncodeValue(v), 4 * i, ns[i]) {
        ImageAt32(ns, i);
        Image32(ns[i]);
        Shift32(ToBytes(ns[i], 4), EncodeValue(v), 0, 4 * i, ns[i]);
      }
    case U64s(ms) =>
      forall i | 0 <= i < |ms| ensures Word64At(EncodeValue(v), 8 * i, ms[i]) {
        ImageAt64(ms, i);
        Image64(ms[i]);
        Shift64(ToBytes(ms[i], 8), EncodeValue(v), 0, 8 * i, ms[i]);
      }
    case U8s(_) =>
  }

  /**
   * A payload is decoded as the value whose bytes it begins with; all whole words are taken,
   * and any byte but zero is true.
   */
  lemma DecodedValue(ty: ValueType, s: seq<byte>)
    requires ty != NoType && LengthFits(ty, |s|)
    ensures DecodeValue(ty, s).Type() == ty
    ensures ty == BoolType ==> DecodeValue(ty, s) == Bool(s[0] != 0)
    ensures ty == U8sType ==> DecodeValue(ty, s) == U8s(s)
    ensures ty != BoolType ==>
              var v := DecodeValue(ty, s);
              ValueAt(s, 0, v) && Length(v) <= |s| < Length(v) + WordSize(ty)
  {
    hide Word32At, Word64At, LittleEndian.U32, LittleEndian.U64;
    match ty
    case BoolType =>
    case U8sType =>
    case U32Type => ReadsWord32(s, LittleEndian.U32(s));
    case U64Type => ReadsWord64(s, LittleEndian.U64(s));
    case U32sType =>
      forall i | 0 <= i < |Words32(s)| ensures Word32At(s, 4 * i, Words32(s)[i]) {
        ReadsWord32(s[4 * i..4 * i + 4], Words32(s)[i]);
        Shift32(s[4 * i..4 * i + 4], s, 0, 4 * i, Words32(s)[i]);
      }
    case U64sType =>
      forall i | 0 <= i < |Words64(s)| ensures Word64At(s, 8 * i, Words64(s)[i]) {
        ReadsWord64(s[8 * i..8 * i + 8], Words64(s)[i]);
        Shift64(s[8 * i..8 * i + 8], s, 0, 8 * i, Words64(s)[i]);
      }
  }

  function WordSize(ty: ValueType): nat {
    if ty == U32Type || ty == U32sType then 4 else 8
  }

  /** The bounds-checked readers: the bytes at the place, or 100030 and 0 when too few are left. */
  lemma BoundedReads(buffer: seq<byte>, at: nat)
    ensures if at + 4 <= |buffer| then Word32At(buffer, at, ReadU32(buffer, at)) else ReadU32(buffer, at) == 100030
    ensures if at + 8 <= |buffer| then Word64At(buffer, at, ReadU64(buffer, at)) else ReadU64(buffer, at) == 0
  {
    hide Word32At, Word64At, LittleEndian.U32, LittleEndian.U64;
    if at + 4 <= |buffer| {
      ReadsWord32(buffer[at..at + 4], ReadU32(buffer, at));
      Shift32(buffer[at..at + 4], buffer, 0, at, ReadU32(buffer, at));
    }
    if at + 8 <= |buffer| {
      ReadsWord64(buffer[at..at + 8], ReadU64(buffer, at));
      Shift64(buffer[at..at + 8], buffer, 0, at, ReadU64(buffer, at));
    }
  }

  /** A wrapped array of words holds, word by word, what is read at its 32-bit offsets. */
  lemma WrappedWords(buffer: seq<byte>, at: nat, n: nat, i: nat)
    ensures |WordsAt32(buffer, at, n)| == n / 4 && |WordsAt64(buffer, at, n)| == n / 8
    ensures i < n / 4 ==>
              var place, word := (at + 4 * i) % 0x1_0000_0000, WordsAt32(buffer, at, n)[i];
              if place + 4 <= |buffer| then Word32At(buffer, place, word) else word == 100030
    ensures i < n / 8 ==>
              var place, word := (at + 8 * i) % 0x1_0000_0000, WordsAt64(buffer, at, n)[i];
              if place + 8 <= |buffer| then Word64At(buffer, place, word) else word == 0
  {
    hide Word32At, Word64At, ReadU32, ReadU64;
    BoundedReads(buffer, (at + 4 * i) % 0x1_0000_0000);
    BoundedReads(buffer, (at + 8 * i) % 0x1_0000_0000);
  }

  // -------------------------------------------------------------- records

  lemma EncodedRecord(pre: seq<byte>, r: Record, post: seq<byte>, v: Value)
    requires r.payload == EncodeValue(v) && |r.payload| < TWO_32
    ensures RecordAt(pre + EncodeRecord(r) + post, |pre|, r.tag, v)
    ensures |EncodeRecord(r)| == 8 + Length(v)
  {
    hide Word32At, ValueAt, ToBytes, EncodeValue;
    var t := pre + EncodeRecord(r) + post;
    EncodedValue(v);
    assert t[|pre|..|pre| + 4] == ToBytes(r.tag, 4)[0..4];
    assert t[|pre| + 4..|pre| + 8] == ToBytes(|r.payload|, 4)[0..4];
    assert t[|pre| + 8..|pre| + 8 + |r.payload|] == r.payload;
    Image32(r.tag);
    Image32(|r.payload|);
    Shift32(ToBytes(r.tag, 4), t, 0, |pre|, r.tag);
    Shift32(ToBytes(|r.payload|, 4), t, 0, |pre| + 4, |r.payload|);
    ShiftValue(r.payload, t, |pre| + 8, v);
  }

  /** Where record i begins: behind sixteen bytes of headers and the records before it. */
  function Start(vs: seq<Value>, i: nat): (at: nat)
    requires i <= |vs|
    ensures at >= 16
  {
    if i == 0 then 16 else Start(vs, i - 1) + 8 + Length(vs[i - 1])
  }

  /** The i records before record i, record i, and the rest. */
  lemma SplitAt(rs: seq<Record>, i: nat)
    requires i < |rs|
    ensures EncodeAll(rs) == EncodeAll(rs[..i]) + EncodeRecord(rs[i]) + EncodeAll(rs[i + 1..])
  {
    hide EncodeRecord;
    assert rs == rs[..i] + rs[i..] && rs[i..][1..] == rs[i + 1..];
    EncodeAllAppend(rs[..i], rs[i..]);
  }

  lemma {:induction false} StartOf(rs: seq<Record>, vs: seq<Value>, i: nat)
    requires |rs| == |vs| && i <= |rs| && forall k | 0 <= k < |rs| :: rs[k].payload == EncodeValue(vs[k])
    ensures Start(vs, i) == 16 + |EncodeAll(rs[..i])|
  {
    hide EncodeValue, Length;
    if i > 0 {
      StartOf(rs, vs, i - 1);
      EncodedValue(vs[i - 1]);
      assert rs[..i][..i - 1] == rs[..i - 1] && rs[..i][i..] == [];
      SplitAt(rs[..i], i - 1);
    }
  }

  lemma {:induction false} PairwiseAscending(s: seq<Tag>, i: nat, j: nat)
    requires Ascending(s) && i < j < |s|
    ensures s[i] <= s[j]
  {
    if i == 0 {
      HeadLeastAll(s);
      assert s[j] in s;
    } else {
      PairwiseAscending(s[1..], i - 1, j - 1);
    }
  }

  /** The data tags are the recorded ones but three, with their repetitions, in ascending order. */
  lemma DataTagsInOrder(st: Attrs)
    ensures forall i, j | 0 <= i < j < |SortedFields(st)| :: SortedFields(st)[i] <= SortedFields(st)[j]
    ensures forall t: Tag :: multiset(SortedFields(st))[t] ==
                             if t == 100000 || t == 100004 || t == 100020 then 0 else multiset(st.exist)[t]
  {
    hide Ascending, SortTags, DataTags;
    var tags := SortedFields(st);
    SortAscending(st.exist);
    DataTagsAscending(SortTags(st.exist));
    forall i, j | 0 <= i < j < |tags| ensures tags[i] <= tags[j] {
      PairwiseAscending(tags, i, j);
    }
    forall t: Tag ensures multiset(tags)[t] ==
                          if t == 100000 || t == 100004 || t == 100020 then 0 else multiset(st.exist)[t] {
      DataTagsCount(SortTags(st.exist), t);
    }
  }

  lemma HeadersOf(pre: seq<byte>, tag: Tag, n: uint32, post: seq<byte>)
    ensures Word32At(pre + Header(tag, n) + post, |pre|, tag)
    ensures Word32At(pre + Header(tag, n) + post, |pre| + 4, n)
  {
    hide Word32At, ToBytes;
    var t := pre + Header(tag, n) + post;
    Image32(tag);
    Image32(n);
    assert t[|pre|..|pre| + 4] == ToBytes(tag, 4)[0..4];
    assert t[|pre| + 4..|pre| + 8] == ToBytes(n, 4)[0..4];
    Shift32(ToBytes(tag, 4), t, 0, |pre|, tag);
    Shift32(ToBytes(n, 4), t, 0, |pre| + 4, n);
  }

  lemma BothHeaders(base: Table, st: Attrs)
    requires Integrity(base, st) && PackSize(st) <= MAX_BUFFER
    ensures var s := PackBytes(st);
            && |s| == PackSize(st) && Word32At(s, 0, AUTH_ROOT) && Word32At(s, 4, |s| - 8)
            && Word32At(s, 8, AUTH_DATA) && Word32At(s, 12, |EncodeAll(DataRecords(st))|)
  {
    hide ToBytes, Word32At, EncodeAll, SortedFields, EncodeValue, Payload;
    var data, sig := EncodeAll(DataRecords(st)), EncodeRecord(SignatureRecord(st));
    var section := Header(AUTH_DATA, |data|) + data + sig;
    var root := Header(AUTH_ROOT, |section|);
    assert PackBytes(st) == [] + root + section;
    HeadersOf([], AUTH_ROOT, |section|, section);
    assert PackBytes(st) == root + Header(AUTH_DATA, |data|) + (data + sig);
    HeadersOf(root, AUTH_DATA, |data|, data + sig);
  }

  lemma SignaturePayload(st: Attrs)
    requires Packable(st)
    ensures var bytes := BytesUnder(st, AUTH_SIGNATURE);
            SignatureRecord(st).payload == EncodeValue(U8s(bytes)) == bytes
  {
  }

  /** The values written for the data tags. */
  lemma TailValues(base: Table, st: Attrs) returns (vs: seq<Value>)
    requires Integrity(base, st)
    ensures Packable(st) && |vs| == |SortedFields(st)|
    ensures forall i | 0 <= i < |vs| ::
              SortedFields(st)[i] in base && Get(st, base[SortedFields(st)[i]], SortedFields(st)[i]) == Some(vs[i])
    ensures forall i | 0 <= i < |vs| :: DataRecords(st)[i].payload == EncodeValue(vs[i])
  {
    hide SortedFields, EncodeValue;
    var tags := SortedFields(st);
    forall i | 0 <= i < |tags| ensures tags[i] in base && Get(st, base[tags[i]], tags[i]).Some? {
      assert tags[i] in tags;
    }
    vs := seq(|tags|, i requires 0 <= i < |tags| => Get(st, base[tags[i]], tags[i]).value);
  }

  lemma {:induction false} StartOfPrefix(vs: seq<Value>, more: seq<Value>, i: nat)
    requires i <= |vs|
    ensures Start(vs + more, i) == Start(vs, i)
  {
    hide Length;
    if i > 0 {
      StartOfPrefix(vs, more, i - 1);
    }
  }

  /** One record of a sequence behind sixteen bytes. */
  lemma RecordOf(s: seq<byte>, rs: seq<Record>, vs: seq<Value>, i: nat)
    requires i < |rs| == |vs| && forall k | 0 <= k < |rs| :: rs[k].payload == EncodeValue(vs[k])
    requires |s| >= 16 && s[16..] == EncodeAll(rs) && |rs[i].payload| < TWO_32
    ensures RecordAt(s, Start(vs, i), rs[i].tag, vs[i])
  {
    hide EncodeValue, EncodeRecord, EncodeAll, RecordAt, Start;
    SplitAt(rs, i);
    StartOf(rs, vs, i);
    var pre := s[..16] + EncodeAll(rs[..i]);
    assert s == s[..16] + s[16..];
    assert s == pre + EncodeRecord(rs[i]) + EncodeAll(rs[i + 1..]);
    EncodedRecord(pre, rs[i], EncodeAll(rs[i + 1..]), vs[i]);
  }

  /** The ROOT header, the DATA header, the data records in order, and the signature record. */
  ghost predicate LaidOut(s: seq<byte>, tags: seq<Tag>, vs: seq<Value>, signature: seq<byte>)
    requires |tags| == |vs|
  {
    var last := Start(vs, |vs|);
    && |s| == last + 8 + |signature|
    && Word32At(s, 0, 100000) && Word32At(s, 4, |s| - 8)
    && Word32At(s, 8, 100020) && Word32At(s, 12, last - 16)
    && (forall i | 0 <= i < |tags| :: RecordAt(s, Start(vs, i), tags[i], vs[i]))
    && RecordAt(s, last, 100004, U8s(signature))
  }

  /**
   * The bytes of an encoding hold the stored values of the recorded data tags, repetitions
   * included, in ascending tag order.
   */
  lemma PackLayout(base: Table, st: Attrs) returns (tags: seq<Tag>, vs: seq<Value>)
    requires Integrity(base, st) && PackSize(st) <= MAX_BUFFER
    ensures |tags| == |vs| && forall i, j | 0 <= i < j < |tags| :: tags[i] <= tags[j]
    ensures forall t: Tag :: multiset(tags)[t] ==
                             if t == 100000 || t == 100004 || t == 100020 then 0 else multiset(st.exist)[t]
    ensures forall i | 0 <= i < |tags| :: tags[i] in base && Get(st, base[tags[i]], tags[i]) == Some(vs[i])
    ensures LaidOut(PackBytes(st), tags, vs, BytesUnder(st, AUTH_SIGNATURE))
  {
    hide SortedFields, EncodeValue, EncodeRecord, EncodeAll, RecordAt, Word32At, PackBytes, Get, Payload;
    hide Integrity, BytesUnder, Start, Length;
    tags := SortedFields(st);
    vs := TailValues(base, st);
    DataTagsInOrder(st);
    BothHeaders(base, st);
    AttributeRoundTrip.TailFits(base, st);
    SignaturePayload(st);
    var s, rs, all := PackBytes(st), TailRecords(st), vs + [U8s(BytesUnder(st, AUTH_SIGNATURE))];
    forall i | 0 <= i < |rs|
      ensures RecordAt(s, Start(all, i), rs[i].tag, all[i])
    {
      assert rs[i] in rs;
      RecordOf(s, rs, all, i);
    }
    forall i | 0 <= i <= |vs| ensures Start(all, i) == Start(vs, i) {
      StartOfPrefix(vs, [U8s(BytesUnder(st, AUTH_SIGNATURE))], i);
    }
    StartOf(rs, all, |vs|);
    assert rs[..|vs|] == DataRecords(st);
    forall i | 0 <= i < |tags| ensures RecordAt(s, Start(vs, i), tags[i], vs[i]) {
      assert rs[i].tag == tags[i] && all[i] == vs[i];
    }
    assert rs[|vs|] == SignatureRecord(st);
  }

  /** The image of an authentication type of one and nothing else. */
  const TYPE_ONE: seq<byte> :=
    [0xA0, 0x86, 0x01, 0x00] + [28, 0, 0, 0] + [0xB4, 0x86, 0x01, 0x00] + [12, 0, 0, 0]
    + [0xB8, 0x86, 0x01, 0x00] + [4, 0, 0, 0] + [1, 0, 0, 0] + [0xA4, 0x86, 0x01, 0x00] + [0, 0, 0, 0]

  lemma TypeOneIsWrittenAs()
    ensures var st := Set(Fresh(TABLE), AUTH_TYPE, Value.U32(1)).0;
            Packable(st) && PackBytes(st) == TYPE_ONE
  {
    hide PackBytes, PackSize, Integrity, LaidOut, Set, Fresh, Packable;
    var st := TypeOne();
    TableOf(TABLE, st);
    var tags, vs := PackLayout(TABLE, st);
    hide Get;
    assert multiset(tags) == multiset([AUTH_TYPE]);
    OnlyElement(tags, AUTH_TYPE);
    assert TABLE[tags[0]] == U32Type && Get(st, TABLE[tags[0]], tags[0]) == Some(vs[0]);
    assert vs == [Value.U32(1)];
    OneWord(PackBytes(st));
  }

  lemma TypeOne() returns (st: Attrs)
    ensures st == Set(Fresh(TABLE), AUTH_TYPE, Value.U32(1)).0
    ensures Integrity(TABLE, st) && PackSize(st) <= MAX_BUFFER
    ensures st.exist == [AUTH_TYPE] && Get(st, U32Type, AUTH_TYPE) == Some(Value.U32(1))
    ensures BytesUnder(st, AUTH_SIGNATURE) == []
  {
    hide Integrity, PackSize;
    st := Set(Fresh(TABLE), AUTH_TYPE, Value.U32(1)).0;
    ConstructorTableIsProper();
    FreshIntegrity(TABLE);
    SetIntegrity(TABLE, Fresh(TABLE), AUTH_TYPE, Value.U32(1));
    TableOf(TABLE, st);
    assert Payload(st, AUTH_TYPE) == EncodeValue(Value.U32(1));
    AttributeRoundTrip.OneTagSize(st, AUTH_TYPE);
  }

  lemma OnlyElement(tags: seq<Tag>, t: Tag)
    requires multiset(tags) == multiset([t])
    ensures tags == [t]
  {
    assert |tags| == |multiset(tags)| == 1;
    assert tags[0] in multiset(tags);
  }

  lemma FourBytesAt(s: seq<byte>, at: nat, n: nat, word: seq<byte>)
    requires Word32At(s, at, n) && |word| == 4 && Word32At(word, 0, n)
    ensures s[at..at + 4] == word
  {
  }

  lemma Numerals()
    ensures Word32At([0xA0, 0x86, 0x01, 0x00], 0, 100000) && Word32At([0xB4, 0x86, 0x01, 0x00], 0, 100020)
    ensures Word32At([0xB8, 0x86, 0x01, 0x00], 0, 100024) && Word32At([0xA4, 0x86, 0x01, 0x00], 0, 100004)
    ensures Word32At([28, 0, 0, 0], 0, 28) && Word32At([12, 0, 0, 0], 0, 12) && Word32At([4, 0, 0, 0], 0, 4)
    ensures Word32At([1, 0, 0, 0], 0, 1) && Word32At([0, 0, 0, 0], 0, 0)
  {
  }

  lemma NineWords(s: seq<byte>)
    requires |s| == 36
    ensures s == s[0..4] + s[4..8] + s[8..12] + s[12..16] + s[16..20] + s[20..24] + s[24..28] + s[28..32] + s[32..36]
  {
  }

  lemma OneWord(s: seq<byte>)
    requires LaidOut(s, [AUTH_TYPE], [Value.U32(1)], [])
    ensures s == TYPE_ONE
  {
    hide Word32At;
    var vs: seq<Value> := [Value.U32(1)];
    assert Start(vs, 1) == Start(vs, 0) + 12 == 28;
    assert RecordAt(s, Start(vs, 0), AUTH_TYPE, vs[0]);
    Numerals();
    FourBytesAt(s, 0, 100000, [0xA0, 0x86, 0x01, 0x00]);
    FourBytesAt(s, 4, 28, [28, 0, 0, 0]);
    FourBytesAt(s, 8, 100020, [0xB4, 0x86, 0x01, 0x00]);
    FourBytesAt(s, 12, 12, [12, 0, 0, 0]);
    FourBytesAt(s, 16, 100024, [0xB8, 0x86, 0x01, 0x00]);
    FourBytesAt(s, 20, 4, [4, 0, 0, 0]);
    FourBytesAt(s, 24, 1, [1, 0, 0, 0]);
    FourBytesAt(s, 28, 100004, [0xA4, 0x86, 0x01, 0x00]);
    FourBytesAt(s, 32, 0, [0, 0, 0, 0]);
    NineWords(s);
  }
}

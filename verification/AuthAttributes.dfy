/** The attribute set as the object that is updated in place. */
module AuthAttributes {
  import opened Common
  import opened LittleEndian
  import opened Tlv
  import opened TagSort
  import opened AttributeState

  class AuthAttributes {
    var boolValueMap: map<Tag, bool>
    var uint32ValueMap: map<Tag, uint32>
    var uint64ValueMap: map<Tag, uint64>
    var uint32ArrayValueMap: map<Tag, seq<uint32>>
    var uint64ArrayValueMap: map<Tag, seq<uint64>>
    var uint8ArrayValueMap: map<Tag, seq<byte>>
    var position: Table
    var existAttributes: seq<Tag>

    ghost function State(): Attrs
      reads this
    {
      Attrs(position, boolValueMap, uint32ValueMap, uint64ValueMap,
            uint32ArrayValueMap, uint64ArrayValueMap, uint8ArrayValueMap, existAttributes)
    }

    constructor ()
      ensures State() == Fresh(TABLE)
    {
      boolValueMap, uint32ValueMap, uint64ValueMap := map[], map[], map[];
      uint32ArrayValueMap, uint64ArrayValueMap, uint8ArrayValueMap := map[], map[], map[];
      position, existAttributes := TABLE, [];
    }

    method ClearValues()
      modifies this
      ensures State() == Clear(old(State()))
    {
      boolValueMap, uint32ValueMap, uint64ValueMap := map[], map[], map[];
      uint32ArrayValueMap, uint64ArrayValueMap, uint8ArrayValueMap := map[], map[], map[];
    }

    /** The table lookup of every setter. */
    method LookUp(tag: Tag) returns (ty: ValueType)
      modifies this`position
      ensures State() == Touch(old(State()), tag) && tag in position && ty == position[tag]
    {
      if tag !in position {
        position := position[tag := NoType];
      }
      ty := position[tag];
    }

    method SetBoolValue(tag: Tag, value: bool) returns (code: int)
      modifies this
      ensures (State(), code) == Set(old(State()), tag, Bool(value))
    {
      var ty := LookUp(tag);
      if ty != BoolType {
        return FAIL;
      }
      boolValueMap := boolValueMap[tag := value];
      existAttributes := existAttributes + [tag];
      return SUCCESS;
    }

    method SetUint32Value(tag: Tag, value: uint32) returns (code: int)
      modifies this
      ensures (State(), code) == Set(old(State()), tag, Value.U32(value))
    {
      var ty := LookUp(tag);
      if ty != U32Type {
        return FAIL;
      }
      uint32ValueMap := uint32ValueMap[tag := value];
      existAttributes := existAttributes + [tag];
      return SUCCESS;
    }

    method SetUint64Value(tag: Tag, value: uint64) returns (code: int)
      modifies this
      ensures (State(), code) == Set(old(State()), tag, Value.U64(value))
    {
      var ty := LookUp(tag);
      if ty != U64Type {
        return FAIL;
      }
      uint64ValueMap := uint64ValueMap[tag := value];
      existAttributes := existAttributes + [tag];
      return SUCCESS;
    }

    method SetUint32ArrayValue(tag: Tag, value: seq<uint32>) returns (code: int)
      modifies this
      ensures (State(), code) == Set(old(State()), tag, U32s(value))
    {
      var ty := LookUp(tag);
      if ty != U32sType {
        return FAIL;
      }
      uint32ArrayValueMap := uint32ArrayValueMap[tag := value];
      existAttributes := existAttributes + [tag];
      return SUCCESS;
    }

    method SetUint64ArrayValue(tag: Tag, value: seq<uint64>) returns (code: int)
      modifies this
      ensures (State(), code) == Set(old(State()), tag, U64s(value))
    {
      var ty := LookUp(tag);
      if ty != U64sType {
        return FAIL;
      }
      uint64ArrayValueMap := uint64ArrayValueMap[tag := value];
      existAttributes := existAttributes + [tag];
      return SUCCESS;
    }

    method SetUint8ArrayValue(tag: Tag, value: seq<byte>) returns (code: int)
      modifies this
      ensures (State(), code) == Set(old(State()), tag, U8s(value))
    {
      var ty := LookUp(tag);
      if ty != U8sType {
        return FAIL;
      }
      uint8ArrayValueMap := uint8ArrayValueMap[tag := value];
      existAttributes := existAttributes + [tag];
      return SUCCESS;
    }

    // ------------------------------------------------------------- encode

    method Write32Array(values: seq<uint32>, buffer: seq<byte>) returns (r: seq<byte>)
      ensures r == buffer + Images32(values)
    {
      r := buffer;
      for num := 0 to |values|
        invariant r == buffer + Images32(values[..num])
      {
        r := r + ToBytes(values[num], 4);
        assert values[..num + 1][..num] == values[..num];
      }
      assert values[..|values|] == values;
    }

    method Write64Array(values: seq<uint64>, buffer: seq<byte>) returns (r: seq<byte>)
      ensures r == buffer + Images64(values)
    {
      r := buffer;
      for num := 0 to |values|
        invariant r == buffer + Images64(values[..num])
      {
        r := r + ToBytes(values[num], 8);
        assert values[..num + 1][..num] == values[..num];
      }
      assert values[..|values|] == values;
    }

    /**
     * Appends length and payload of tag. A scalar that was never stored leaves the local
     * variable unset, so any value may be written for it.
     */
    method PackToBuffer(tag: Tag, buffer: seq<byte>) returns (r: seq<byte>)
      requires tag in position
      ensures NoScalarUnset(State(), tag) && position[tag] != NoType ==>
                r == buffer + ToBytes(|Payload(State(), tag)| % TWO_32, 4) + Payload(State(), tag)
      ensures position[tag] != NoType ==> |r| == |buffer| + 4 + |Payload(State(), tag)|
    {
      hide ToBytes, Images32, Images64;
      match position[tag] {
        case BoolType =>
          var value: bool := *;
          if tag in boolValueMap {
            value := boolValueMap[tag];
          }
          r := buffer + ToBytes(1, 4) + EncodeValue(Bool(value));
        case U32Type =>
          var value: uint32 := *;
          if tag in uint32ValueMap {
            value := uint32ValueMap[tag];
          }
          r := buffer + ToBytes(4, 4) + EncodeValue(Value.U32(value));
        case U64Type =>
          var value: uint64 := *;
          if tag in uint64ValueMap {
            value := uint64ValueMap[tag];
          }
          r := buffer + ToBytes(8, 4) + EncodeValue(Value.U64(value));
        case U32sType =>
          var values: seq<uint32> := if tag in uint32ArrayValueMap then uint32ArrayValueMap[tag] else [];
          r := buffer + ToBytes((4 * |values|) % TWO_32, 4);
          r := Write32Array(values, r);
        case U64sType =>
          var values: seq<uint64> := if tag in uint64ArrayValueMap then uint64ArrayValueMap[tag] else [];
          r := buffer + ToBytes((8 * |values|) % TWO_32, 4);
          r := Write64Array(values, r);
        case U8sType =>
          if tag !in uint8ArrayValueMap {
            r := buffer + ToBytes(0, 4);
          } else {
            var values := uint8ArrayValueMap[tag];
            r := buffer + ToBytes(|values| % TWO_32, 4) + values;
          }
        case NoType =>
          r := buffer;
      }
    }

    /** The records of the sorted tags, without the headers. */
    method PackSection() returns (buffer: seq<byte>)
      requires Packable(State())
      ensures |buffer| == |Section(State(), existAttributes)|
      ensures PackDefined(State()) ==> buffer == Section(State(), existAttributes)
    {
      hide ToBytes, Payload, Section, DataTags;
      buffer := [];
      SectionStart(State());
      for i := 0 to |existAttributes|
        invariant |buffer| == |Section(State(), existAttributes[..i])|
        invariant PackDefined(State()) ==> buffer == Section(State(), existAttributes[..i])
      {
        var tag := existAttributes[i];
        SectionStep(State(), existAttributes, i);
        if !Skipped(tag) {
          buffer := buffer + ToBytes(tag, 4);
          buffer := PackToBuffer(tag, buffer);
        }
      }
      assert existAttributes[..|existAttributes|] == existAttributes;
    }

    /** Writes the whole set; the recorded tags are left sorted. */
    method Pack() returns (buffer: seq<byte>)
      requires Packable(State())
      modifies this`existAttributes
      ensures State() == old(State()).(exist := SortTags(old(existAttributes)))
      ensures |buffer| == |PackBytes(old(State()))|
      ensures PackDefined(old(State())) ==> buffer == PackBytes(old(State()))
    {
      hide ToBytes, Payload, SortTags, EncodeAll, DataTags, Get, Section;
      ghost var st := State();
      existAttributes := SortTags(existAttributes);
      SectionOfSorted(st, State());
      buffer := PackSection();
      ghost var data := buffer;
      buffer := ToBytes(AUTH_DATA, 4) + (ToBytes(|buffer| % TWO_32, 4) + buffer);
      assert buffer == Header(AUTH_DATA, |data|) + data;
      ghost var before := buffer;
      buffer := buffer + ToBytes(AUTH_SIGNATURE, 4);
      buffer := PackToBuffer(AUTH_SIGNATURE, buffer);
      assert buffer == before + EncodeRecord(SignatureRecord(st));
      ghost var section := buffer;
      buffer := ToBytes(AUTH_ROOT, 4) + (ToBytes(|buffer| % TWO_32, 4) + buffer);
      assert buffer == Header(AUTH_ROOT, |section|) + section;
    }

    // ------------------------------------------------------------- decode

    method GetUint32ArrayFromUint8(data: seq<byte>, begin: nat, len: nat) returns (tmp: seq<uint32>)
      ensures tmp == WordsAt32(data, begin, len)
    {
      hide ReadU32;
      tmp := [];
      for i := 0 to len / 4
        invariant |tmp| == i
        invariant forall k | 0 <= k < i :: tmp[k] == WordsAt32(data, begin, len)[k]
      {
        tmp := tmp + [ReadU32(data, (begin + i * 4) % TWO_32)];
      }
    }

    method GetUint64FromUint8(data: seq<byte>, begin: nat) returns (value: uint64)
      ensures value == ReadU64(data, begin)
    {
      if begin >= |data| || |data| - begin < 8 {
        return 0;
      }
      var tmp: seq<byte> := [];
      for i := 0 to 8
        invariant tmp == data[begin..begin + i]
      {
        tmp := tmp + [data[begin + i]];
      }
      return LittleEndian.U64(tmp);
    }

    method GetUint64ArrayFromUint8(data: seq<byte>, begin: nat, len: nat) returns (tmp: seq<uint64>)
      ensures tmp == WordsAt64(data, begin, len)
    {
      hide ReadU64;
      tmp := [];
      for i := 0 to len / 8
        invariant |tmp| == i
        invariant forall k | 0 <= k < i :: tmp[k] == WordsAt64(data, begin, len)[k]
      {
        var word := GetUint64FromUint8(data, (begin + i * 8) % TWO_32);
        tmp := tmp + [word];
      }
    }

    /** Stores one record through the setter of its type; only arrays of words may reach past the buffer. */
    method UnpackValue(buffer: seq<byte>, tag: Tag, at: nat, n: nat)
      requires tag in position && position[tag] != NoType && LengthFits(position[tag], n)
      requires |buffer| <= MAX_BUFFER && (at + n <= |buffer| || position[tag].U32sType? || position[tag].U64sType?)
      modifies this
      ensures State() == Stored(old(State()), buffer, tag, at, n)
    {
      hide FromBytes, WordsAt32, WordsAt64, Words32, Words64;
      var code;
      if at + n <= |buffer| {
        WordsInside32(buffer, at, n);
        WordsInside64(buffer, at, n);
      }
      match position[tag] {
        case BoolType =>
          code := SetBoolValue(tag, buffer[at] != 0);
        case U32Type =>
          code := SetUint32Value(tag, ReadU32(buffer, at));
        case U64Type =>
          var word := GetUint64FromUint8(buffer, at);
          code := SetUint64Value(tag, word);
        case U32sType =>
          var words := GetUint32ArrayFromUint8(buffer, at, n);
          code := SetUint32ArrayValue(tag, words);
        case U64sType =>
          var words := GetUint64ArrayFromUint8(buffer, at, n);
          code := SetUint64ArrayValue(tag, words);
        case U8sType =>
          if n != 0 {
            code := SetUint8ArrayValue(tag, buffer[at..at + n]);
          }
      }
    }

    /** Reads a buffer on which the call returns; Rejected stands for the null result. */
    method UnpackBuffer(buffer: seq<byte>) returns (outcome: Outcome)
      requires |buffer| <= MAX_BUFFER && Unpack(State(), buffer).1 != Endless
      modifies this
      ensures (State(), outcome) == Unpack(old(State()), buffer)
    {
      hide ReadU32, StoreRecord, Stored;
      if buffer == [] {
        return Rejected;
      }
      var pos: nat := 16;
      ghost var left: nat := |buffer|;
      while pos < |buffer|
        invariant pos < TWO_32
        invariant Scan(State(), buffer, pos, left) == Unpack(old(State()), buffer)
        decreases left
      {
        MoveStored(State(), buffer, pos);
        left := left - 1;
        var tag, n := ReadU32(buffer, pos), ReadU32(buffer, pos + 4);
        pos := pos + 8;
        if tag !in position {
          return Undefined;
        }
        if (pos + n) % TWO_32 > |buffer| || !LengthFits(position[tag], n) {
          return Rejected;
        }
        if position[tag] != NoType {
          if position[tag] == U8sType && pos + n > |buffer| {
            return Undefined;
          }
          UnpackValue(buffer, tag, pos, n);
          pos := (pos + n) % TWO_32;
        }
      }
      return Accepted;
    }

    // ------------------------------------------------------------ getters

    method GetBoolValue(tag: Tag) returns (code: int, value: bool)
      ensures code == if Get(State(), BoolType, tag).Some? then SUCCESS else FAIL
      ensures code == SUCCESS ==> Get(State(), BoolType, tag) == Some(Bool(value))
    {
      if tag !in boolValueMap {
        return FAIL, false;
      }
      return SUCCESS, boolValueMap[tag];
    }

    method GetUint32Value(tag: Tag) returns (code: int, value: uint32)
      ensures code == if Get(State(), U32Type, tag).Some? then SUCCESS else FAIL
      ensures code == SUCCESS ==> Get(State(), U32Type, tag) == Some(Value.U32(value))
    {
      if tag !in uint32ValueMap {
        return FAIL, 0;
      }
      return SUCCESS, uint32ValueMap[tag];
    }

    method GetUint64Value(tag: Tag) returns (code: int, value: uint64)
      ensures code == if Get(State(), U64Type, tag).Some? then SUCCESS else FAIL
      ensures code == SUCCESS ==> Get(State(), U64Type, tag) == Some(Value.U64(value))
    {
      if tag !in uint64ValueMap {
        return FAIL, 0;
      }
      return SUCCESS, uint64ValueMap[tag];
    }

    method GetUint32ArrayValue(tag: Tag) returns (code: int, value: seq<uint32>)
      ensures code == if Get(State(), U32sType, tag).Some? then SUCCESS else FAIL
      ensures code == SUCCESS ==> Get(State(), U32sType, tag) == Some(U32s(value))
    {
      if tag !in uint32ArrayValueMap {
        return FAIL, [];
      }
      return SUCCESS, uint32ArrayValueMap[tag];
    }

    method GetUint64ArrayValue(tag: Tag) returns (code: int, value: seq<uint64>)
      ensures code == if Get(State(), U64sType, tag).Some? then SUCCESS else FAIL
      ensures code == SUCCESS ==> Get(State(), U64sType, tag) == Some(U64s(value))
    {
      if tag !in uint64ArrayValueMap {
        return FAIL, [];
      }
      return SUCCESS, uint64ArrayValueMap[tag];
    }

    method GetUint8ArrayValue(tag: Tag) returns (code: int, value: seq<byte>)
      ensures code == if Get(State(), U8sType, tag).Some? then SUCCESS else FAIL
      ensures code == SUCCESS ==> Get(State(), U8sType, tag) == Some(U8s(value))
    {
      if tag !in uint8ArrayValueMap {
        return FAIL, [];
      }
      return SUCCESS, uint8ArrayValueMap[tag];
    }
  }

  /** The object after the record of length n at at was stored. */
  ghost function Stored(st: Attrs, buffer: seq<byte>, tag: Tag, at: nat, n: nat): Attrs
    requires tag in st.position && st.position[tag] != NoType && LengthFits(st.position[tag], n)
    requires at + n <= |buffer| || st.position[tag].U32sType? || st.position[tag].U64sType?
  {
    if at + n <= |buffer| then StoreRecord(st, tag, buffer[at..at + n])
    else if st.position[tag].U32sType? then Store(st, tag, U32s(WordsAt32(buffer, at, n)))
    else Store(st, tag, U64s(WordsAt64(buffer, at, n)))
  }

  /** An iteration that goes on stores the record and adds its length in 32 bits. */
  lemma MoveStored(st: Attrs, buffer: seq<byte>, pos: nat)
    requires pos < |buffer| <= MAX_BUFFER
    ensures var tag, n, at := ReadU32(buffer, pos), ReadU32(buffer, pos + 4), pos + 8;
            && at < TWO_32
            && (tag in st.position && LengthPass(st.position[tag], at, n, |buffer|) && st.position[tag] != NoType ==>
                  if st.position[tag] == U8sType && at + n > |buffer| then Move(st, buffer, pos) == Stop(Undefined)
                  else
                    && (at + n <= |buffer| || st.position[tag].U32sType? || st.position[tag].U64sType?)
                    && Move(st, buffer, pos) == Go(Stored(st, buffer, tag, at, n), (at + n) % TWO_32))
  {
    hide ReadU32, StoreRecord, Store, WordsAt32, WordsAt64;
  }

  ghost function Section(st: Attrs, tags: seq<Tag>): seq<byte>
    requires forall t <- tags :: t in st.position
  {
    EncodeAll(Records(st, DataTags(tags)))
  }

  lemma SectionStart(st: Attrs)
    requires Packable(st)
    ensures Section(st, st.exist[..0]) == []
  {
  }

  /** Sorting in place changes no payload and does not make Pack less defined. */
  lemma SectionOfSorted(st: Attrs, sorted: Attrs)
    requires Packable(st) && sorted == st.(exist := SortTags(st.exist))
    ensures Packable(sorted) && (PackDefined(sorted) <==> PackDefined(st))
    ensures Section(sorted, sorted.exist) == EncodeAll(DataRecords(st))
    ensures SignatureRecord(sorted) == SignatureRecord(st)
    ensures NoScalarUnset(sorted, AUTH_SIGNATURE)
  {
    hide SortTags, EncodeValue;
    SortKeeps(st.exist);
    forall t ensures NoScalarUnset(sorted, t) <==> NoScalarUnset(st, t) { }
    forall t | t in st.position ensures Payload(sorted, t) == Payload(st, t) { }
    assert Records(sorted, SortedFields(st)) == Records(st, SortedFields(st));
  }

  /** The next recorded tag adds its record, or nothing if it is skipped. */
  lemma SectionStep(st: Attrs, tags: seq<Tag>, i: nat)
    requires i < |tags| && forall t <- tags :: t in st.position
    ensures Section(st, tags[..i + 1]) ==
            Section(st, tags[..i]) + if Skipped(tags[i]) then []
                                     else EncodeRecord(Record(tags[i], Payload(st, tags[i])))
  {
    hide EncodeRecord, Payload;
    var t := tags[i];
    assert tags[..i + 1] == tags[..i] + [t];
    DataTagsAppend(tags[..i], [t]);
    if Skipped(t) {
      assert DataTags([t]) == [];
      assert DataTags(tags[..i]) + [] == DataTags(tags[..i]);
    } else {
      assert DataTags([t]) == [t];
      var r := Record(t, Payload(st, t));
      assert Records(st, DataTags(tags[..i + 1])) == Records(st, DataTags(tags[..i])) + [r];
      EncodeAllAppend(Records(st, DataTags(tags[..i])), [r]);
      assert EncodeAll([r]) == EncodeRecord(r) + EncodeAll([]);
    }
  }
}

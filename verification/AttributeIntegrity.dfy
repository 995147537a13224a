/** What every attribute set satisfies after any run of setters and Unpack. */
module AttributeIntegrity {
  import opened Common
  import opened Tlv
  import opened AttributeState

  // --------------------------------------------------- encoder integrity

  /** All the laws need of the constructor's table. */
  ghost predicate Proper(base: Table) {
    && AUTH_SIGNATURE in base && base[AUTH_SIGNATURE] == U8sType
    && AUTH_ROOT !in base && AUTH_DATA !in base
    && Typed(base)
  }

  ghost predicate Typed(position: Table) {
    forall t <- position :: position[t] != NoType
  }

  lemma ConstructorTableIsProper()
    ensures Proper(TABLE)
  {
    hide Typed;
    ConstructorTableIsTyped();
  }

  lemma ConstructorTableIsTyped()
    ensures Typed(TABLE)
  {
  }

  lemma FreshIntegrity(base: Table)
    requires Proper(base)
    ensures Integrity(base, Fresh(base))
  {
  }

  /** The table base, perhaps with entries of type zero added by failed setters. */
  ghost predicate TableIntact(base: Table, position: Table) {
    && (forall t <- base :: t in position)
    && (forall t <- position :: position[t] == if t in base then base[t] else NoType)
  }

  /**
   * A value lives only in the map its table type names, and the recorded tags are
   * exactly the tags with a stored value.
   */
  ghost predicate Integrity(base: Table, st: Attrs) {
    && Proper(base)
    && TableIntact(base, st.position)
    && (forall ty, t :: Get(st, ty, t).Some? ==> t in base && base[t] == ty)
    && (forall t :: t in st.exist <==> t in base && Get(st, base[t], t).Some?)
  }

  datatype Op = SetOp(tag: Tag, v: Value) | UnpackOp(buffer: seq<byte>) | ClearOp

  function Perform(st: Attrs, op: Op): Attrs {
    match op
    case SetOp(tag, v) => Set(st, tag, v).0
    case UnpackOp(buffer) => Unpack(st, buffer).0
    case ClearOp => Clear(st)
  }

  ghost predicate NoClear(ops: seq<Op>) {
    forall i | 0 <= i < |ops| :: !ops[i].ClearOp?
  }

  function Run(st: Attrs, ops: seq<Op>): Attrs
    decreases |ops|
  {
    if ops == [] then st else Run(Perform(st, ops[0]), ops[1..])
  }

  lemma StoreIntegrity(base: Table, st: Attrs, tag: Tag, v: Value)
    requires Integrity(base, st) && tag in base && base[tag] == v.Type()
    ensures Integrity(base, Store(st, tag, v))
  {
    var after := Store(st, tag, v);
    forall ty, t ensures Get(after, ty, t) == if ty == v.Type() && t == tag then Some(v) else Get(st, ty, t) {
      GetStore(st, tag, v, ty, t);
    }
  }

  lemma StoreRecordIntegrity(base: Table, st: Attrs, tag: Tag, payload: seq<byte>)
    requires Integrity(base, st)
    requires tag in st.position && st.position[tag] != NoType && LengthFits(st.position[tag], |payload|)
    ensures Integrity(base, StoreRecord(st, tag, payload))
  {
    hide Store, Get, DecodeValue;
    StoreIntegrity(base, st, tag, DecodeValue(st.position[tag], payload));
  }

  lemma MoveIntegrity(base: Table, st: Attrs, buffer: seq<byte>, pos: nat)
    requires Integrity(base, st) && Move(st, buffer, pos).Go?
    ensures Integrity(base, Move(st, buffer, pos).state)
  {
    hide Store, Get, DecodeValue, ReadU32, WordsAt32, WordsAt64;
    var tag, n, at := ReadU32(buffer, pos), ReadU32(buffer, pos + 4), pos + 8;
    if st.position[tag] != NoType {
      if at + n <= |buffer| {
        StoreRecordIntegrity(base, st, tag, buffer[at..at + n]);
      } else if st.position[tag] == U32sType {
        StoreIntegrity(base, st, tag, U32s(WordsAt32(buffer, at, n)));
      } else {
        StoreIntegrity(base, st, tag, U64s(WordsAt64(buffer, at, n)));
      }
    }
  }

  lemma {:induction false} ScanIntegrity(base: Table, st: Attrs, buffer: seq<byte>, pos: nat, steps: nat)
    requires Integrity(base, st)
    ensures Integrity(base, Scan(st, buffer, pos, steps).0)
    decreases steps
  {
    hide Move, Integrity;
    if pos < |buffer| && steps > 0 && Move(st, buffer, pos).Go? {
      MoveIntegrity(base, st, buffer, pos);
      ScanIntegrity(base, Move(st, buffer, pos).state, buffer, Move(st, buffer, pos).pos, steps - 1);
    }
  }

  lemma SameValuesIntegrity(base: Table, st: Attrs, after: Attrs)
    requires Integrity(base, st) && after.exist == st.exist && TableIntact(base, after.position)
    requires forall ty, t :: Get(after, ty, t) == Get(st, ty, t)
    ensures Integrity(base, after)
  {
    hide Get;
  }

  lemma TouchKeepsTable(base: Table, st: Attrs, tag: Tag)
    requires TableIntact(base, st.position)
    ensures TableIntact(base, Touch(st, tag).position) && Touch(st, tag).exist == st.exist
  {
  }

  lemma TouchKeepsAnswers(st: Attrs, tag: Tag, ty: ValueType, t: Tag)
    ensures Get(Touch(st, tag), ty, t) == Get(st, ty, t)
  {
  }

  lemma TouchIntegrity(base: Table, st: Attrs, tag: Tag)
    requires Integrity(base, st)
    ensures Integrity(base, Touch(st, tag))
  {
    hide Touch, Get;
    var touched := Touch(st, tag);
    TouchKeepsTable(base, st, tag);
    forall ty, t ensures Get(touched, ty, t) == Get(st, ty, t) {
      TouchKeepsAnswers(st, tag, ty, t);
    }
    SameValuesIntegrity(base, st, touched);
  }

  lemma SetIntegrity(base: Table, st: Attrs, tag: Tag, v: Value)
    requires Integrity(base, st)
    ensures Integrity(base, Set(st, tag, v).0)
  {
    hide Get, Store;
    var touched := Touch(st, tag);
    TouchIntegrity(base, st, tag);
    if touched.position[tag] == v.Type() {
      StoreIntegrity(base, touched, tag, v);
    }
  }

  /** Setters and Unpack, accepted or not, keep integrity. */
  lemma {:induction false} IntegrityOfRuns(base: Table, st: Attrs, ops: seq<Op>)
    requires Integrity(base, st) && NoClear(ops)
    ensures Integrity(base, Run(st, ops))
    decreases |ops|
  {
    hide Integrity, Scan, Set;
    if ops != [] {
      match ops[0] {
        case SetOp(tag, v) => SetIntegrity(base, st, tag, v);
        case UnpackOp(buffer) => ScanIntegrity(base, st, buffer, 16, |buffer|);
      }
      IntegrityOfRuns(base, Perform(st, ops[0]), ops[1..]);
    }
  }

  /** The part of integrity that concerns the table. */
  lemma TableOf(base: Table, st: Attrs)
    requires Integrity(base, st)
    ensures Proper(base) && Packable(st)
    ensures forall t <- base :: t in st.position && st.position[t] == base[t]
    ensures forall t <- st.exist :: t in base
  {
  }

  /** Hence Pack never writes a scalar that was not stored, whatever was called before. */
  lemma PackIsAlwaysDefined(ops: seq<Op>)
    requires NoClear(ops)
    ensures Packable(Run(Fresh(TABLE), ops)) && PackDefined(Run(Fresh(TABLE), ops))
  {
    ConstructorTableIsProper();
    FreshIntegrity(TABLE);
    IntegrityOfRuns(TABLE, Fresh(TABLE), ops);
    IntegrityPacks(TABLE, Run(Fresh(TABLE), ops));
  }

  lemma IntegrityPacks(base: Table, st: Attrs)
    requires Integrity(base, st)
    ensures Packable(st) && PackDefined(st)
  {
  }

  /**
   * clear() keeps the recorded tags, so afterwards Pack reads an unset scalar exactly
   * when some recorded tag is a scalar.
   */
  lemma ClearLeavesScalarsUnset(base: Table, st: Attrs)
    requires Integrity(base, st)
    ensures PackDefined(Clear(st)) <==> forall t <- st.exist :: !base[t].IsScalar()
  {
    var after := Clear(st);
    forall t <- st.exist ensures NoScalarUnset(after, t) <==> !base[t].IsScalar() {
      assert Get(after, base[t], t) == None;
    }
  }

  // ---------------------------------------------------- runs with clear()

  /** The object with tags recorded before its own, as clear() leaves them behind. */
  function WithPrior(st: Attrs, prior: seq<Tag>): Attrs {
    st.(exist := prior + st.exist)
  }

  lemma StorePrior(st: Attrs, prior: seq<Tag>, tag: Tag, v: Value)
    ensures Store(WithPrior(st, prior), tag, v) == WithPrior(Store(st, tag, v), prior)
  {
    assert prior + st.exist + [tag] == prior + (st.exist + [tag]);
  }

  /** Setting and parsing never look at the recorded tags. */
  lemma SetPrior(st: Attrs, prior: seq<Tag>, tag: Tag, v: Value)
    ensures Set(WithPrior(st, prior), tag, v).0 == WithPrior(Set(st, tag, v).0, prior)
  {
    hide Store, Touch, WithPrior;
    TouchPrior(st, prior, tag);
    StorePrior(Touch(st, tag), prior, tag, v);
  }

  lemma TouchPrior(st: Attrs, prior: seq<Tag>, tag: Tag)
    ensures Touch(WithPrior(st, prior), tag) == WithPrior(Touch(st, tag), prior)
    ensures Touch(WithPrior(st, prior), tag).position == Touch(st, tag).position
  {
  }

  lemma MovePrior(st: Attrs, prior: seq<Tag>, buffer: seq<byte>, pos: nat)
    ensures Move(WithPrior(st, prior), buffer, pos) ==
            match Move(st, buffer, pos)
            case Go(after, next) => Go(WithPrior(after, prior), next)
            case Stop(outcome) => Stop(outcome)
  {
    hide Store, DecodeValue, ReadU32, WordsAt32, WordsAt64;
    var tag, n, at := ReadU32(buffer, pos), ReadU32(buffer, pos + 4), pos + 8;
    forall v: Value ensures Store(WithPrior(st, prior), tag, v) == WithPrior(Store(st, tag, v), prior) {
      StorePrior(st, prior, tag, v);
    }
  }

  lemma {:induction false} ScanPrior(st: Attrs, prior: seq<Tag>, buffer: seq<byte>, pos: nat, steps: nat)
    ensures Scan(WithPrior(st, prior), buffer, pos, steps) ==
            (WithPrior(Scan(st, buffer, pos, steps).0, prior), Scan(st, buffer, pos, steps).1)
    decreases steps
  {
    hide Move;
    if pos < |buffer| && steps > 0 {
      MovePrior(st, prior, buffer, pos);
      if Move(st, buffer, pos).Go? {
        hide WithPrior;
        ScanPrior(Move(st, buffer, pos).state, prior, buffer, Move(st, buffer, pos).pos, steps - 1);
      }
    }
  }

  lemma {:induction false} RunPrior(st: Attrs, prior: seq<Tag>, ops: seq<Op>)
    requires NoClear(ops)
    ensures Run(WithPrior(st, prior), ops) == WithPrior(Run(st, ops), prior)
    decreases |ops|
  {
    hide Set, Scan, WithPrior;
    if ops != [] {
      match ops[0] {
        case SetOp(tag, v) => SetPrior(st, prior, tag, v);
        case UnpackOp(buffer) => ScanPrior(st, prior, buffer, 16, |buffer|);
      }
      RunPrior(Perform(st, ops[0]), prior, ops[1..]);
    }
  }

  /** An object with integrity, behind tags that the table lists. */
  ghost predicate Layered(base: Table, st: Attrs, core: Attrs, prior: seq<Tag>) {
    st == WithPrior(core, prior) && Integrity(base, core) && forall t <- prior :: t in base
  }

  lemma ClearLayer(base: Table, st: Attrs, core: Attrs, prior: seq<Tag>)
    requires Layered(base, st, core, prior)
    ensures Layered(base, Clear(st), Fresh(st.position), st.exist)
  {
  }

  /** In every run, also with clear(), the object is one with integrity behind left-over tags. */
  lemma {:induction false} LayersOfRuns(base: Table, st: Attrs, core: Attrs, prior: seq<Tag>, ops: seq<Op>)
    returns (core': Attrs, prior': seq<Tag>)
    requires Layered(base, st, core, prior)
    ensures Layered(base, Run(st, ops), core', prior')
    decreases |ops|
  {
    hide Set, Unpack, Clear, Integrity;
    if ops == [] {
      core', prior' := core, prior;
    } else if ops[0].ClearOp? {
      ClearLayer(base, st, core, prior);
      core', prior' := LayersOfRuns(base, Clear(st), Fresh(st.position), st.exist, ops[1..]);
    } else {
      var one := [ops[0]];
      assert one[1..] == [];
      RunPrior(core, prior, one);
      IntegrityOfRuns(base, core, one);
      core', prior' := LayersOfRuns(base, Perform(st, ops[0]), Perform(core, ops[0]), prior, ops[1..]);
    }
  }

  lemma {:induction false} RunAppend(st: Attrs, before: seq<Op>, after: seq<Op>)
    ensures Run(st, before + after) == Run(Run(st, before), after)
    decreases |before|
  {
    hide Perform;
    if before == [] {
      assert before + after == after;
    } else {
      assert (before + after)[1..] == before[1..] + after;
      RunAppend(Perform(st, before[0]), before[1..], after);
    }
  }

  /** Of left-over and own tags, only a left-over scalar that was not set again is unset. */
  lemma LayersDefined(base: Table, core: Attrs, prior: seq<Tag>)
    requires Integrity(base, core) && forall t <- prior :: t in base
    ensures PackDefined(WithPrior(core, prior)) <==>
            forall t <- prior :: base[t].IsScalar() ==> t in core.exist
  {
    hide Get;
    var st := WithPrior(core, prior);
    forall ty, t ensures Get(st, ty, t) == Get(core, ty, t) {
      PriorIsNoAnswer(core, prior, ty, t);
    }
    forall t <- prior ensures NoScalarUnset(st, t) <==> (base[t].IsScalar() ==> t in core.exist) { }
    assert forall t :: t in st.exist <==> t in prior || t in core.exist;
    forall t <- core.exist ensures NoScalarUnset(st, t) { }
  }

  lemma PriorIsNoAnswer(core: Attrs, prior: seq<Tag>, ty: ValueType, t: Tag)
    ensures Get(WithPrior(core, prior), ty, t) == Get(core, ty, t)
  {
  }

  /**
   * Pack after the last clear() reads no unset scalar if and only if every scalar recorded
   * before it was set again since.
   */
  lemma PackAfterClear(before: seq<Op>, after: seq<Op>)
    requires NoClear(after)
    ensures var st := Run(Fresh(TABLE), before);
            && (forall t <- st.exist :: t in TABLE)
            && (PackDefined(Run(Fresh(TABLE), before + ([ClearOp] + after))) <==>
                forall t <- st.exist :: TABLE[t].IsScalar() ==> t in Run(Fresh(st.position), after).exist)
  {
    hide PackDefined, Integrity, Unpack, Set, Clear, Fresh;
    ConstructorTableIsProper();
    FreshIntegrity(TABLE);
    var st := Run(Fresh(TABLE), before);
    FreshLayer();
    var core, prior := LayersOfRuns(TABLE, Fresh(TABLE), Fresh(TABLE), [], before);
    ClearLayer(TABLE, st, core, prior);
    RunAppend(Fresh(TABLE), before, [ClearOp] + after);
    assert ([ClearOp] + after)[1..] == after;
    RunPrior(Fresh(st.position), st.exist, after);
    IntegrityOfRuns(TABLE, Fresh(st.position), after);
    LayersDefined(TABLE, Run(Fresh(st.position), after), st.exist);
  }

  /** An authentication type set and then cleared is written unset, until it is set again. */
  lemma ClearedTypeIsUnset(v: uint32, w: uint32)
    ensures !PackDefined(Run(Fresh(TABLE), [SetOp(AUTH_TYPE, Value.U32(v))] + ([ClearOp] + [])))
    ensures PackDefined(Run(Fresh(TABLE), [SetOp(AUTH_TYPE, Value.U32(v))]
                                          + ([ClearOp] + [SetOp(AUTH_TYPE, Value.U32(w))])))
  {
    hide PackDefined;
    var set', again := [SetOp(AUTH_TYPE, Value.U32(v))], [SetOp(AUTH_TYPE, Value.U32(w))];
    PackAfterClear(set', []);
    PackAfterClear(set', again);
    OneSet(Fresh(TABLE), v);
    var st := Run(Fresh(TABLE), set');
    OneSet(Fresh(st.position), w);
    hide Fresh;
    assert AUTH_TYPE in st.exist;
  }

  lemma OneSet(st: Attrs, v: uint32)
    requires st.exist == [] && AUTH_TYPE in st.position && st.position[AUTH_TYPE] == U32Type
    ensures var after := Run(st, [SetOp(AUTH_TYPE, Value.U32(v))]);
            after.exist == [AUTH_TYPE] && after.position == st.position
  {
    var ops := [SetOp(AUTH_TYPE, Value.U32(v))];
    assert ops[1..] == [];
    assert st.exist + [AUTH_TYPE] == [AUTH_TYPE];
  }

  lemma FreshLayer()
    ensures Layered(TABLE, Fresh(TABLE), Fresh(TABLE), [])
  {
    ConstructorTableIsProper();
    FreshIntegrity(TABLE);
    assert [] + Fresh(TABLE).exist == Fresh(TABLE).exist;
  }
}

/** When the parser returns at all, and exactly which buffers it accepts. */
module AttributeAcceptance {
  import opened Common
  import opened LittleEndian
  import opened Tlv
  import opened AttributeState
  import opened AttributeIntegrity
  import opened AttributeScan

  // ------------------------------------------------------- termination

  /** More iterations change nothing once the call has ended. */
  lemma {:induction false} MoreSteps(st: Attrs, buffer: seq<byte>, pos: nat, steps: nat, more: nat)
    requires steps <= more && Scan(st, buffer, pos, steps).1 != Endless
    ensures Scan(st, buffer, pos, more) == Scan(st, buffer, pos, steps)
    decreases steps
  {
    hide Move;
    if pos < |buffer| && Move(st, buffer, pos).Go? {
      MoreSteps(Move(st, buffer, pos).state, buffer, Move(st, buffer, pos).pos, steps - 1, more - 1);
    }
  }

  /** The cursor depends on the table and the bytes, not on what was stored. */
  lemma MoveIgnoresValues(a: Attrs, b: Attrs, buffer: seq<byte>, pos: nat)
    requires a.position == b.position
    ensures match Move(a, buffer, pos)
            case Go(after, next) =>
              && after.position == a.position
              && Move(b, buffer, pos).Go? && Move(b, buffer, pos).pos == next
              && Move(b, buffer, pos).state.position == a.position
            case Stop(outcome) => Move(b, buffer, pos) == Stop(outcome) && outcome != Endless
  {
    hide ReadU32, StoreRecord, WordsAt32, WordsAt64;
  }

  lemma {:induction false} FateIgnoresValues(a: Attrs, b: Attrs, buffer: seq<byte>, pos: nat, steps: nat)
    requires a.position == b.position
    ensures Scan(a, buffer, pos, steps).1 == Scan(b, buffer, pos, steps).1
    decreases steps
  {
    hide Move;
    if pos < |buffer| && steps > 0 {
      MoveIgnoresValues(a, b, buffer, pos);
      if Move(a, buffer, pos).Go? {
        FateIgnoresValues(Move(a, buffer, pos).state, Move(b, buffer, pos).state, buffer, Move(a, buffer, pos).pos,
                          steps - 1);
      }
    }
  }

  lemma Unfold(st: Attrs, buffer: seq<byte>, pos: nat, steps: nat)
    ensures pos >= |buffer| ==> Scan(st, buffer, pos, steps).1 == Accepted
    ensures pos < |buffer| && steps > 0 ==>
              match Move(st, buffer, pos)
              case Go(after, next) => Scan(st, buffer, pos, steps) == Scan(after, buffer, next, steps - 1)
              case Stop(outcome) => Scan(st, buffer, pos, steps).1 == outcome
  {
    hide Move;
  }

  /** A call that needs exactly steps iterations visits as many different cursors. */
  lemma {:induction false} Visited(st: Attrs, buffer: seq<byte>, pos: nat, steps: nat) returns (cursors: set<nat>)
    requires Scan(st, buffer, pos, steps).1 != Endless
    requires steps > 0 ==> Scan(st, buffer, pos, steps - 1).1 == Endless
    ensures |cursors| == steps
    ensures forall p <- cursors :: p < |buffer| && Scan(st, buffer, p, steps).1 != Endless
    decreases steps
  {
    hide Move, Scan;
    cursors := {};
    if steps > 0 {
      Unfold(st, buffer, pos, steps);
      Unfold(st, buffer, pos, steps - 1);
      MoveIgnoresValues(st, st, buffer, pos);
      if Move(st, buffer, pos).Stop? {
        cursors := {pos};
      } else {
        var after, next := Move(st, buffer, pos).state, Move(st, buffer, pos).pos;
        var others := Visited(after, buffer, next, steps - 1);
        forall p <- others
          ensures Scan(st, buffer, p, steps - 1).1 != Endless && Scan(st, buffer, p, steps).1 != Endless
        {
          FateIgnoresValues(st, after, buffer, p, steps - 1);
          MoreSteps(st, buffer, p, steps - 1, steps);
        }
        cursors := others + {pos};
      }
    }
  }

  lemma {:induction false} Bounded(s: set<nat>, n: nat)
    requires forall p <- s :: p < n
    ensures |s| <= n
  {
    if n == 0 {
      assert s == {};
    } else {
      Bounded(s - {n - 1}, n - 1);
    }
  }

  lemma {:induction false} Shortest(st: Attrs, buffer: seq<byte>, pos: nat, steps: nat) returns (least: nat)
    requires Scan(st, buffer, pos, steps).1 != Endless
    ensures least <= steps && Scan(st, buffer, pos, least).1 != Endless
    ensures least > 0 ==> Scan(st, buffer, pos, least - 1).1 == Endless
    decreases steps
  {
    hide Scan;
    least := steps;
    if steps > 0 && Scan(st, buffer, pos, steps - 1).1 != Endless {
      least := Shortest(st, buffer, pos, steps - 1);
    }
  }

  /** If any number of iterations ends the call, as many as the buffer has bytes do. */
  lemma DecidedWithinLength(st: Attrs, buffer: seq<byte>, pos: nat, steps: nat)
    requires Scan(st, buffer, pos, steps).1 != Endless
    ensures Scan(st, buffer, pos, |buffer|) == Scan(st, buffer, pos, steps)
  {
    hide Scan;
    var least := Shortest(st, buffer, pos, steps);
    var cursors := Visited(st, buffer, pos, least);
    Bounded(cursors, |buffer|);
    MoreSteps(st, buffer, pos, least, steps);
    MoreSteps(st, buffer, pos, least, |buffer|);
  }

  /** So Unpack is Endless exactly when no number of iterations ends the loop. */
  lemma EndlessMeansForever(st: Attrs, buffer: seq<byte>)
    ensures Unpack(st, buffer).1 == Endless <==>
            buffer != [] && forall steps: nat :: Scan(st, buffer, 16, steps).1 == Endless
  {
    hide Scan;
    if buffer != [] {
      assert Unpack(st, buffer) == Scan(st, buffer, 16, |buffer|);
      forall steps: nat | Scan(st, buffer, 16, steps).1 != Endless
        ensures Scan(st, buffer, 16, |buffer|).1 != Endless
      {
        DecidedWithinLength(st, buffer, 16, steps);
      }
    }
  }

  // ---------------------------------------------------------- outcomes

  /**
   * From pos on, the buffer is well-formed records up to its end, which is acceptance, or up to
   * a malformed record that ends the call with outcome, or up to an array of words whose wrapped
   * length leads to a place from which outcome is reached with fewer jumps.
   */
  ghost predicate Leads(position: Table, buffer: seq<byte>, pos: nat, jumps: nat, outcome: Outcome)
    decreases jumps
  {
    exists rs, tail ::
      Segment(position, buffer, pos, rs, tail) && Concludes(position, buffer, tail, jumps, outcome)
  }

  ghost predicate Concludes(position: Table, buffer: seq<byte>, tail: seq<byte>, jumps: nat, outcome: Outcome)
    decreases jumps, 0
  {
    if tail == [] then outcome == Accepted
    else
      && Malformed(position, tail) && |tail| <= |buffer|
      && match StallAt(position, |buffer|, tail)
         case End(end) => outcome == end
         case Jump(next) => jumps > 0 && Leads(position, buffer, next, jumps - 1, outcome)
  }

  lemma {:induction false} ScanSound(st: Attrs, buffer: seq<byte>, pos: nat, steps: nat) returns (jumps: nat)
    requires Typed(st.position) && pos <= |buffer| <= MAX_BUFFER
    requires Scan(st, buffer, pos, steps).1 != Endless
    ensures Leads(st.position, buffer, pos, jumps, Scan(st, buffer, pos, steps).1)
    decreases steps
  {
    hide Move, Malformed, StallAt, EncodeAll;
    var rest, outcome := buffer[pos..], Scan(st, buffer, pos, steps).1;
    if pos == |buffer| {
      EndSegment(st.position, buffer);
      assert Concludes(st.position, buffer, [], 0, outcome);
      jumps := 0;
    } else if Malformed(st.position, rest) {
      MoveAtStall(st, buffer, pos);
      EmptySegment(st.position, buffer, pos);
      match StallAt(st.position, |buffer|, rest) {
        case End(_) => jumps := 0;
        case Jump(next) =>
          var fewer := ScanSound(Move(st, buffer, pos).state, buffer, next, steps - 1);
          jumps := fewer + 1;
      }
      assert Concludes(st.position, buffer, rest, jumps, outcome);
    } else {
      MoveAtRecord(st, buffer, pos);
      jumps := ScanSound(Move(st, buffer, pos).state, buffer, Move(st, buffer, pos).pos, steps - 1);
      var rs, tail :| Segment(st.position, buffer, Move(st, buffer, pos).pos, rs, tail)
                      && Concludes(st.position, buffer, tail, jumps, outcome);
      PrependRecord(st.position, buffer, pos, rs, tail);
    }
  }

  lemma EndSegment(position: Table, buffer: seq<byte>)
    ensures Segment(position, buffer, |buffer|, [], [])
  {
  }

  lemma EmptySegment(position: Table, buffer: seq<byte>, pos: nat)
    requires pos <= |buffer|
    ensures Segment(position, buffer, pos, [], buffer[pos..])
  {
    assert [] + buffer[pos..] == buffer[pos..];
  }

  /** One iteration at a well-formed record, wherever it stands. */
  lemma MoveAtRecord(st: Attrs, buffer: seq<byte>, pos: nat)
    requires Typed(st.position) && pos < |buffer| <= MAX_BUFFER && !Malformed(st.position, buffer[pos..])
    ensures Move(st, buffer, pos).Go? && Move(st, buffer, pos).pos == pos + 8 + ReadU32(buffer, pos + 4) <= |buffer|
    ensures Move(st, buffer, pos).state.position == st.position
  {
    hide ReadU32, StoreRecord, WordsAt32, WordsAt64;
    ReadDrop(buffer, pos, 0);
    ReadDrop(buffer, pos, 4);
  }

  lemma {:induction false} ScanComplete(st: Attrs, buffer: seq<byte>, pos: nat, jumps: nat, outcome: Outcome)
    returns (steps: nat)
    requires Typed(st.position) && |buffer| <= MAX_BUFFER && Leads(st.position, buffer, pos, jumps, outcome)
    ensures Scan(st, buffer, pos, steps).1 == outcome != Endless
    decreases jumps
  {
    hide Move, Malformed, StallAt, EncodeAll;
    var rs, tail :| Segment(st.position, buffer, pos, rs, tail)
                    && Concludes(st.position, buffer, tail, jumps, outcome);
    if tail == [] {
      ScanPrefix(st, buffer, pos, rs, tail, 0);
      steps := |rs|;
    } else {
      hide Scan;
      match StallAt(st.position, |buffer|, tail) {
        case End(_) =>
          ScanStops(st, buffer, pos, rs, tail, 0);
          steps := |rs| + 0 + 1;
        case Jump(next) =>
          var later := ScanComplete(st, buffer, next, jumps - 1, outcome);
          ScanStops(st, buffer, pos, rs, tail, later);
          FateIgnoresValues(st, Move(Apply(st, rs), buffer, |buffer| - |tail|).state, buffer, next, later);
          steps := |rs| + later + 1;
      }
    }
  }

  /**
   * Beyond sixteen bytes, a call that returns has exactly the outcome to which the bytes lead
   * from byte 16 on, with some number of jumps.
   */
  lemma ExactOutcome(st: Attrs, buffer: seq<byte>, outcome: Outcome)
    requires Typed(st.position) && 16 < |buffer| <= MAX_BUFFER && outcome != Endless
    ensures Unpack(st, buffer).1 == outcome <==>
            exists jumps: nat :: Leads(st.position, buffer, 16, jumps, outcome)
  {
    hide Scan, Leads;
    if Unpack(st, buffer).1 == outcome {
      var jumps := ScanSound(st, buffer, 16, |buffer|);
    }
    if jumps: nat :| Leads(st.position, buffer, 16, jumps, outcome) {
      var steps := ScanComplete(st, buffer, 16, jumps, outcome);
      DecidedWithinLength(st, buffer, 16, steps);
    }
  }

  /**
   * Unpack returns the object exactly for headers-only buffers and for buffers that lead to
   * their end from byte 16 on, with some number of jumps.
   */
  lemma ExactAcceptance(st: Attrs, buffer: seq<byte>)
    requires Typed(st.position) && |buffer| <= MAX_BUFFER
    ensures Unpack(st, buffer).1 == Accepted <==>
            buffer != [] && (|buffer| <= 16 || exists jumps: nat :: Leads(st.position, buffer, 16, jumps, Accepted))
  {
    hide Scan, Leads;
    if |buffer| > 16 {
      ExactOutcome(st, buffer, Accepted);
    } else {
      ShortBuffer(st, buffer);
    }
  }

  /** Unpack returns nullptr exactly for the empty buffer and for buffers that lead to a refused record. */
  lemma ExactRejection(st: Attrs, buffer: seq<byte>)
    requires Typed(st.position) && |buffer| <= MAX_BUFFER
    ensures Unpack(st, buffer).1 == Rejected <==>
            buffer == [] || (|buffer| > 16 && exists jumps: nat :: Leads(st.position, buffer, 16, jumps, Rejected))
  {
    hide Scan, Leads;
    if |buffer| > 16 {
      ExactOutcome(st, buffer, Rejected);
    } else {
      ShortBuffer(st, buffer);
    }
  }

  /**
   * The behaviour is undefined exactly for buffers that lead to a record with an unlisted tag, or
   * to a byte array whose length wraps.
   */
  lemma ExactUndefined(st: Attrs, buffer: seq<byte>)
    requires Typed(st.position) && |buffer| <= MAX_BUFFER
    ensures Unpack(st, buffer).1 == Undefined <==>
            |buffer| > 16 && exists jumps: nat :: Leads(st.position, buffer, 16, jumps, Undefined)
  {
    hide Scan, Leads;
    if |buffer| > 16 {
      ExactOutcome(st, buffer, Undefined);
    } else {
      ShortBuffer(st, buffer);
    }
  }

  /** The first malformed record from byte 16 on, if any, is not an array of words that wraps. */
  ghost predicate NoWrap(position: Table, buffer: seq<byte>) {
    forall rs, tail ::
      Segment(position, buffer, 16, rs, tail) && Malformed(position, tail) && |tail| <= |buffer| ==>
        StallAt(position, |buffer|, tail).End?
  }

  /** Without such an array the call returns, and it accepts exactly the record concatenations. */
  lemma PlainAcceptance(st: Attrs, buffer: seq<byte>)
    requires Typed(st.position) && |buffer| <= MAX_BUFFER && NoWrap(st.position, buffer)
    ensures Unpack(st, buffer).1 != Endless
    ensures Unpack(st, buffer).1 == Accepted <==>
            buffer != [] && (|buffer| <= 16
                             || exists rs :: AllWellFormed(st.position, rs) && buffer[16..] == EncodeAll(rs))
  {
    hide EncodeAll, Malformed, StallAt, Apply, Scan;
    if |buffer| > 16 {
      var rs, tail := Split(st.position, buffer, 16);
      if tail == [] {
        WholeSegment(st, buffer, rs);
      } else {
        ScanStops(st, buffer, 16, rs, tail, 0);
        MoveIsDecided(st, buffer, rs, tail);
        if other :| AllWellFormed(st.position, other) && buffer[16..] == EncodeAll(other) {
          WholeSegment(st, buffer, other);
        }
      }
    } else {
      ShortBuffer(st, buffer);
    }
  }

  lemma ShortBuffer(st: Attrs, buffer: seq<byte>)
    requires |buffer| <= 16
    ensures Unpack(st, buffer).1 == if buffer == [] then Rejected else Accepted
  {
  }

  lemma WholeSegment(st: Attrs, buffer: seq<byte>, rs: seq<Record>)
    requires |buffer| <= MAX_BUFFER && 16 < |buffer|
    requires AllWellFormed(st.position, rs) && buffer[16..] == EncodeAll(rs) + []
    ensures Unpack(st, buffer) == (Apply(st, rs), Accepted) && buffer[16..] == EncodeAll(rs)
  {
    hide EncodeAll, Move, Apply;
    ScanPrefix(st, buffer, 16, rs, [], 0);
    DecidedWithinLength(st, buffer, 16, |rs|);
  }

  /** Ending at the first malformed record is not accepting. */
  lemma MoveIsDecided(st: Attrs, buffer: seq<byte>, rs: seq<Record>, tail: seq<byte>)
    requires Typed(st.position) && 16 < |buffer| <= MAX_BUFFER && |tail| <= |buffer|
    requires StallAt(st.position, |buffer|, tail).End? && AllWellFormed(st.position, rs)
    requires Scan(st, buffer, 16, |rs| + 0 + 1) == (Apply(st, rs), StallAt(st.position, |buffer|, tail).outcome)
    ensures Unpack(st, buffer).1 == StallAt(st.position, |buffer|, tail).outcome
    ensures Unpack(st, buffer).1 == Rejected || Unpack(st, buffer).1 == Undefined
  {
    hide Scan, Apply;
    DecidedWithinLength(st, buffer, 16, |rs| + 1);
  }

  /**
   * A header cut short after well-formed records is never accepted: the fallback length
   * 100030 fails the length check. With fewer than four bytes left the outcome is always nullptr.
   */
  lemma TruncatedHeader(st: Attrs, buffer: seq<byte>, rs: seq<Record>, rest: seq<byte>)
    requires 16 <= |buffer| <= MAX_BUFFER && AllWellFormed(st.position, rs)
    requires buffer[16..] == EncodeAll(rs) + rest && 0 < |rest| < 8
    ensures Unpack(st, buffer).1 ==
            if |rest| < 4 && ALGORITHM_INFO !in st.position then Undefined
            else if |rest| >= 4 && LittleEndian.U32(rest[..4]) !in st.position then Undefined
            else Rejected
  {
    hide LittleEndian.U32, FromBytes, EncodeAll, Move, Apply;
    ScanPrefix(st, buffer, 16, rs, rest, 1);
    var pos := 16 + |EncodeAll(rs)|;
    assert buffer[pos..] == rest by {
      assert buffer[16..][|EncodeAll(rs)|..] == rest;
    }
    MoveAtShortHeader(Apply(st, rs), buffer, pos);
    DecidedWithinLength(st, buffer, 16, |rs| + 1);
  }

  lemma MoveAtShortHeader(st: Attrs, buffer: seq<byte>, pos: nat)
    requires pos < |buffer| <= MAX_BUFFER && pos + 8 > |buffer|
    ensures Move(st, buffer, pos) ==
            Stop(if |buffer| - pos < 4 && ALGORITHM_INFO !in st.position then Undefined
                 else if |buffer| - pos >= 4 && LittleEndian.U32(buffer[pos..][..4]) !in st.position then Undefined
                 else Rejected)
  {
    hide LittleEndian.U32, StoreRecord, WordsAt32, WordsAt64;
    ShortHeader(buffer, pos);
    if |buffer| - pos >= 4 {
      assert buffer[pos..][..4] == buffer[pos..pos + 4];
    }
  }

  // ------------------------------------------------- arrays that wrap

  /** The header of a template list whose length sends the cursor back by size bytes. */
  function WrappingHeader(size: nat): (s: seq<byte>)
    requires 0 < size <= 16
    ensures |s| == 8
  {
    Header(AUTH_TEMPLATE_ID_LIST, TWO_32 - size)
  }

  /**
   * After any sixteen bytes, a template list of length 2^32 - 8 takes the cursor from 16 back
   * to 16: the call never returns.
   */
  lemma TemplateListLoopsForever(prefix: seq<byte>, st: Attrs)
    requires |prefix| == 16 && st.position == TABLE
    ensures var buffer := prefix + WrappingHeader(8);
            && Move(st, buffer, 16).Go? && Move(st, buffer, 16).pos == 16
            && (forall steps: nat :: Scan(st, buffer, 16, steps).1 == Endless)
            && Unpack(st, buffer).1 == Endless
  {
    var buffer := prefix + WrappingHeader(8);
    WrappingMove(prefix, st);
    forall steps: nat ensures Scan(st, buffer, 16, steps).1 == Endless {
      StaysAtSixteen(prefix, st, steps);
    }
  }

  lemma WrappingMove(prefix: seq<byte>, st: Attrs)
    requires |prefix| == 16 && st.position == TABLE
    ensures var move := Move(st, prefix + WrappingHeader(8), 16);
            move.Go? && move.pos == 16 && move.state.position == TABLE
  {
    hide ToBytes, ReadU32, WordsAt64;
    HeaderRead(prefix, AUTH_TEMPLATE_ID_LIST, TWO_32 - 8, []);
    assert prefix + WrappingHeader(8) == prefix + Header(AUTH_TEMPLATE_ID_LIST, TWO_32 - 8) + [];
  }

  lemma {:induction false} StaysAtSixteen(prefix: seq<byte>, st: Attrs, steps: nat)
    requires |prefix| == 16 && st.position == TABLE
    ensures Scan(st, prefix + WrappingHeader(8), 16, steps).1 == Endless
    decreases steps
  {
    hide Move;
    if steps > 0 {
      WrappingMove(prefix, st);
      StaysAtSixteen(prefix, Move(st, prefix + WrappingHeader(8), 16).state, steps - 1);
    }
  }

  /** Bytes 16 to 40: a result of eight bytes that are themselves its header, then a wrapping list. */
  function Ouroboros(prefix: seq<byte>): (s: seq<byte>)
    requires |prefix| == 16
    ensures |s| == 40
  {
    prefix + Header(AUTH_RESULT, 8) + Header(AUTH_RESULT, 8) + WrappingHeader(16)
  }

  lemma OuroborosHeaders(prefix: seq<byte>)
    requires |prefix| == 16
    ensures var s := Ouroboros(prefix);
            && ReadU32(s, 16) == AUTH_RESULT && ReadU32(s, 20) == 8
            && ReadU32(s, 24) == AUTH_RESULT && ReadU32(s, 28) == 8
            && ReadU32(s, 32) == AUTH_TEMPLATE_ID_LIST && ReadU32(s, 36) == TWO_32 - 16
  {
    hide ToBytes, ReadU32;
    var h, w := Header(AUTH_RESULT, 8), WrappingHeader(16);
    var s := Ouroboros(prefix);
    assert s == prefix + h + (h + w);
    HeaderRead(prefix, AUTH_RESULT, 8, h + w);
    assert s == (prefix + h) + h + w;
    HeaderRead(prefix + h, AUTH_RESULT, 8, w);
    assert s == (prefix + h + h) + w + [];
    HeaderRead(prefix + h + h, AUTH_TEMPLATE_ID_LIST, TWO_32 - 16, []);
  }

  lemma OuroborosMoves(prefix: seq<byte>, st: Attrs, pos: nat)
    requires |prefix| == 16 && st.position == TABLE && (pos == 16 || pos == 24 || pos == 32)
    ensures var move := Move(st, Ouroboros(prefix), pos);
            && move.Go? && move.state.position == TABLE
            && move.pos == if pos == 16 then 32 else if pos == 24 then 40 else 24
  {
    hide ReadU32, WordsAt64, Ouroboros, DecodeValue;
    OuroborosHeaders(prefix);
  }

  /** A buffer that is accepted though it is not a concatenation of well-formed records. */
  lemma WrappedListIsAccepted(prefix: seq<byte>)
    requires |prefix| == 16
    ensures Unpack(Fresh(TABLE), Ouroboros(prefix)).1 == Accepted
    ensures !exists rs :: AllWellFormed(TABLE, rs) && Ouroboros(prefix)[16..] == EncodeAll(rs)
  {
    hide Move, Ouroboros, EncodeAll, Apply;
    var s, st := Ouroboros(prefix), Fresh(TABLE);
    OuroborosMoves(prefix, st, 16);
    var one := Move(st, s, 16).state;
    OuroborosMoves(prefix, one, 32);
    var two := Move(one, s, 32).state;
    OuroborosMoves(prefix, two, 24);
    assert Scan(two, s, 24, 1).1 == Accepted;
    assert Scan(one, s, 32, 2).1 == Accepted;
    DecidedWithinLength(st, s, 16, 3);
    forall rs | AllWellFormed(TABLE, rs) ensures s[16..] != EncodeAll(rs) {
      OuroborosIsMalformed(prefix, rs);
    }
  }

  lemma OuroborosIsMalformed(prefix: seq<byte>, rs: seq<Record>)
    requires |prefix| == 16 && AllWellFormed(TABLE, rs)
    ensures Ouroboros(prefix)[16..] != EncodeAll(rs)
  {
    hide ReadU32, Ouroboros, Header;
    OuroborosHeaders(prefix);
    var s := Ouroboros(prefix);
    if s[16..] == EncodeAll(rs) {
      FirstLength(s, 16, rs);
      FirstLength(s, 32, rs[1..]);
      assert false;
    }
  }

  lemma FirstLength(s: seq<byte>, pos: nat, rs: seq<Record>)
    requires pos < |s| && rs != [] && |rs[0].payload| < TWO_32 && s[pos..] == EncodeAll(rs)
    ensures ReadU32(s, pos + 4) == |rs[0].payload|
    ensures pos + 8 + |rs[0].payload| <= |s| && s[pos + 8 + |rs[0].payload|..] == EncodeAll(rs[1..])
  {
    hide ToBytes, ReadU32;
    var r := rs[0];
    var post := r.payload + EncodeAll(rs[1..]);
    assert s[pos..] == Header(r.tag, |r.payload|) + post;
    assert s == s[..pos] + Header(r.tag, |r.payload|) + post;
    HeaderRead(s[..pos], r.tag, |r.payload|, post);
  }
}

/** Exactly which buffers keep the parser from returning. */
module AttributeTermination {
  import opened Common
  import opened Tlv
  import opened AttributeState
  import opened AttributeIntegrity
  import opened AttributeScan
  import opened AttributeAcceptance

  /** Well-formed records from pos on are followed by an array of words that sends the cursor to next. */
  ghost predicate Jumps(position: Table, buffer: seq<byte>, pos: nat, next: nat) {
    exists rs, tail ::
      && Segment(position, buffer, pos, rs, tail) && Malformed(position, tail) && |tail| <= |buffer|
      && StallAt(position, |buffer|, tail) == Jump(next)
  }

  /** Places reached one from the other by a jump. */
  ghost predicate Trail(position: Table, buffer: seq<byte>, ps: seq<nat>) {
    forall i | 0 <= i < |ps| - 1 :: Jumps(position, buffer, ps[i], ps[i + 1])
  }

  /** Jumps lead from byte 16 to a place where the cursor was before. */
  ghost predicate Revisits(position: Table, buffer: seq<byte>) {
    exists ps: seq<nat>, m: nat ::
      m < |ps| - 1 && ps[0] == 16 && Trail(position, buffer, ps) && ps[|ps| - 1] == ps[m]
  }

  /** No number of iterations ends the loop from pos on. */
  ghost predicate Forever(st: Attrs, buffer: seq<byte>, pos: nat) {
    forall steps: nat :: Scan(st, buffer, pos, steps).1 == Endless
  }

  // ------------------------------------------------ a repeated place

  lemma JumpStartsInside(position: Table, buffer: seq<byte>, pos: nat, next: nat)
    requires Jumps(position, buffer, pos, next)
    ensures pos < |buffer|
  {
    hide EncodeAll, StallAt;
    var rs, tail :| Segment(position, buffer, pos, rs, tail) && Malformed(position, tail) && |tail| <= |buffer|
                    && StallAt(position, |buffer|, tail) == Jump(next);
    NonEmpty(position, tail);
    hide Malformed;
    assert |buffer[pos..]| > 0;
  }

  /** A scan that is endless in fewer steps from the target of a jump is endless from its start. */
  lemma JumpKeepsEndless(st: Attrs, buffer: seq<byte>, pos: nat, next: nat, steps: nat)
    requires Typed(st.position) && |buffer| <= MAX_BUFFER && Jumps(st.position, buffer, pos, next)
    requires next < |buffer| && forall k: nat | k < steps :: Scan(st, buffer, next, k).1 == Endless
    ensures Scan(st, buffer, pos, steps).1 == Endless
  {
    hide Malformed, StallAt, EncodeAll, Move, Scan;
    var rs, tail :| Segment(st.position, buffer, pos, rs, tail) && Malformed(st.position, tail)
                    && |tail| <= |buffer| && StallAt(st.position, |buffer|, tail) == Jump(next);
    var later := if steps > |rs| then steps - |rs| - 1 else 0;
    ScanStops(st, buffer, pos, rs, tail, later);
    var stored := Move(Apply(st, rs), buffer, |buffer| - |tail|).state;
    FateIgnoresValues(st, stored, buffer, next, later);
    NoStepsLeft(stored, buffer, next);
    if Scan(st, buffer, pos, steps).1 != Endless {
      MoreSteps(st, buffer, pos, steps, |rs| + later + 1);
      assert false;
    }
  }

  lemma NoStepsLeft(st: Attrs, buffer: seq<byte>, pos: nat)
    requires pos < |buffer|
    ensures Scan(st, buffer, pos, 0).1 == Endless
  {
  }

  /** Once jumps come back to a place of the trail, no place of the trail lets the scan end. */
  lemma {:induction false} CycleIsEndless(st: Attrs, buffer: seq<byte>, ps: seq<nat>, m: nat, i: nat, steps: nat)
    requires Typed(st.position) && |buffer| <= MAX_BUFFER && Trail(st.position, buffer, ps)
    requires i < |ps| - 1 && m < |ps| - 1 && ps[|ps| - 1] == ps[m]
    ensures Scan(st, buffer, ps[i], steps).1 == Endless
    decreases steps
  {
    hide Scan, Jumps;
    var j := if i + 1 == |ps| - 1 then m else i + 1;
    assert ps[j] == ps[i + 1] && Jumps(st.position, buffer, ps[j], ps[j + 1]);
    JumpStartsInside(st.position, buffer, ps[j], ps[j + 1]);
    var next := ps[i + 1];
    forall k: nat | k < steps ensures Scan(st, buffer, next, k).1 == Endless {
      CycleIsEndless(st, buffer, ps, m, j, k);
    }
    JumpKeepsEndless(st, buffer, ps[i], next, steps);
  }

  // --------------------------------------------------- an endless scan

  /** An endless scan comes to a jump, and stays endless from its target. */
  lemma NextJump(st: Attrs, buffer: seq<byte>, pos: nat) returns (next: nat)
    requires Typed(st.position) && pos <= |buffer| <= MAX_BUFFER && Forever(st, buffer, pos)
    ensures Jumps(st.position, buffer, pos, next) && next <= |buffer| && Forever(st, buffer, next)
  {
    hide Malformed, StallAt, EncodeAll, Move, Scan;
    var rs, tail := Split(st.position, buffer, pos);
    if tail == [] {
      ScanPrefix(st, buffer, pos, rs, tail, 0);
      AtTheEnd(Apply(st, rs), buffer);
      assert false;
    }
    ScanStops(st, buffer, pos, rs, tail, 0);
    assert StallAt(st.position, |buffer|, tail).Jump? by {
      assert Scan(st, buffer, pos, |rs| + 0 + 1).1 == Endless;
    }
    next := StallAt(st.position, |buffer|, tail).pos;
    TargetInside(st, buffer, pos, rs, tail);
    forall steps: nat ensures Scan(st, buffer, next, steps).1 == Endless {
      ScanStops(st, buffer, pos, rs, tail, steps);
      FateIgnoresValues(st, Move(Apply(st, rs), buffer, |buffer| - |tail|).state, buffer, next, steps);
      assert Scan(st, buffer, pos, |rs| + steps + 1).1 == Endless;
    }
  }

  lemma AtTheEnd(st: Attrs, buffer: seq<byte>)
    ensures Scan(st, buffer, |buffer|, 0).1 == Accepted
  {
  }

  lemma TargetInside(st: Attrs, buffer: seq<byte>, pos: nat, rs: seq<Record>, tail: seq<byte>)
    requires Typed(st.position) && |buffer| <= MAX_BUFFER && Segment(st.position, buffer, pos, rs, tail)
    requires Malformed(st.position, tail) && |tail| <= |buffer| && StallAt(st.position, |buffer|, tail).Jump?
    ensures StallAt(st.position, |buffer|, tail).pos <= |buffer|
  {
    hide EncodeAll, Move;
    NonEmpty(st.position, tail);
    assert buffer[|buffer| - |tail|..] == tail by {
      assert buffer[pos..][|EncodeAll(rs)|..] == tail;
    }
    hide Malformed, StallAt;
    MoveAtStall(st, buffer, |buffer| - |tail|);
  }

  /** An endless scan goes through as many jumps as one likes. */
  lemma {:induction false} LongTrail(st: Attrs, buffer: seq<byte>, pos: nat, n: nat) returns (ps: seq<nat>)
    requires Typed(st.position) && pos <= |buffer| <= MAX_BUFFER && Forever(st, buffer, pos)
    ensures |ps| == n + 1 && ps[0] == pos && Trail(st.position, buffer, ps)
    ensures forall i | 0 <= i < |ps| :: ps[i] < |buffer|
    decreases n
  {
    hide Jumps, Forever;
    EndlessIsInside(st, buffer, pos);
    ps := [pos];
    if n > 0 {
      var next := NextJump(st, buffer, pos);
      var rest := LongTrail(st, buffer, next, n - 1);
      ps := [pos] + rest;
      forall i | 0 <= i < |ps| - 1 ensures Jumps(st.position, buffer, ps[i], ps[i + 1]) {
        if i > 0 {
          assert ps[i] == rest[i - 1] && ps[i + 1] == rest[i - 1 + 1];
        }
      }
    }
  }

  lemma EndlessIsInside(st: Attrs, buffer: seq<byte>, pos: nat)
    requires Forever(st, buffer, pos)
    ensures pos < |buffer|
  {
    assert Scan(st, buffer, pos, 0).1 == Endless;
  }

  // -------------------------------------------------------- pigeonhole

  ghost function Places(ps: seq<nat>): set<nat> {
    set p <- ps
  }

  lemma {:induction false} DistinctPlaces(ps: seq<nat>)
    requires forall i, j | 0 <= i < j < |ps| :: ps[i] != ps[j]
    ensures |Places(ps)| == |ps|
  {
    if ps != [] {
      DistinctPlaces(ps[1..]);
      assert ps == [ps[0]] + ps[1..];
      assert Places(ps) == {ps[0]} + Places(ps[1..]);
    }
  }

  lemma SomePlaceTwice(ps: seq<nat>, n: nat) returns (m: nat, k: nat)
    requires |ps| > n && forall i | 0 <= i < |ps| :: ps[i] < n
    ensures m < k < |ps| && ps[m] == ps[k]
  {
    if forall i, j | 0 <= i < j < |ps| :: ps[i] != ps[j] {
      DistinctPlaces(ps);
      Bounded(Places(ps), n);
      assert false;
    }
    m, k :| 0 <= m < k < |ps| && ps[m] == ps[k];
  }

  /**
   * Unpack fails to return exactly for buffers in which jumps over wrapped arrays of words lead
   * from byte 16 back to a place where the cursor was before.
   */
  lemma ReturnsUnlessRevisiting(st: Attrs, buffer: seq<byte>)
    requires Typed(st.position) && |buffer| <= MAX_BUFFER
    ensures Unpack(st, buffer).1 == Endless <==> buffer != [] && Revisits(st.position, buffer)
  {
    hide Scan, Unpack, Jumps;
    EndlessMeansForever(st, buffer);
    if Unpack(st, buffer).1 == Endless {
      var start: nat := 16;
      forall steps: nat ensures Scan(st, buffer, start, steps).1 == Endless {
        assert Scan(st, buffer, 16, steps).1 == Endless;
      }
      assert Forever(st, buffer, start);
      EndlessIsInside(st, buffer, 16);
      var ps := LongTrail(st, buffer, 16, |buffer|);
      var m, k := SomePlaceTwice(ps, |buffer|);
      var cycle := ps[..k + 1];
      assert Trail(st.position, buffer, cycle) && cycle[|cycle| - 1] == cycle[m];
    }
    if Revisits(st.position, buffer) {
      var ps: seq<nat>, m: nat :| m < |ps| - 1 && ps[0] == 16 && Trail(st.position, buffer, ps)
                                  && ps[|ps| - 1] == ps[m];
      forall steps: nat ensures Scan(st, buffer, 16, steps).1 == Endless {
        CycleIsEndless(st, buffer, ps, m, 0, steps);
      }
      if buffer == [] {
        JumpStartsInside(st.position, buffer, ps[0], ps[1]);
      }
    }
  }
}

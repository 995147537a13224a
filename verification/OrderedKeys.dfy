/** Iteration over the keys of an ordered map. */
module OrderedKeys {
  import opened Common

  ghost predicate IsLeast(k: uint64, s: set<uint64>) {
    k in s && forall x <- s :: k <= x
  }

  lemma {:induction false} FindLeast(s: set<uint64>) returns (k: uint64)
    requires s != {}
    ensures IsLeast(k, s)
    decreases |s|
  {
    var y :| y in s;
    if s - {y} == {} {
      k := y;
      assert s == {y};
    } else {
      var least := FindLeast(s - {y});
      k := if least <= y then least else y;
      forall x <- s ensures k <= x {
        assert x == y || x in s - {y};
      }
    }
  }

  ghost function Least(s: set<uint64>): (k: uint64)
    requires s != {}
    ensures IsLeast(k, s)
  {
    assert exists k :: IsLeast(k, s) by {
      var k := FindLeast(s);
    }
    var k :| IsLeast(k, s);
    k
  }

  /** The iteration order of an ordered map. */
  ghost function Ascending(s: set<uint64>): (keys: seq<uint64>)
    ensures forall k :: k in keys <==> k in s
    decreases |s|
  {
    if s == {} then []
    else
      var k := Least(s);
      [k] + Ascending(s - {k})
  }

  ghost predicate Strict(keys: seq<uint64>) {
    forall i, j | 0 <= i < j < |keys| :: keys[i] < keys[j]
  }

  lemma {:induction false} AscendingStrict(s: set<uint64>)
    ensures Strict(Ascending(s))
    decreases |s|
  {
    if s != {} {
      AscendingStrict(s - {Least(s)});
      var rest := Ascending(s - {Least(s)});
      forall i | 0 <= i < |rest| ensures Least(s) < rest[i] {
        assert rest[i] in rest;
      }
    }
  }
}

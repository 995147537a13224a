/** The configuration of drivers and the executor identifiers that are global across them. */
module DriverManager {
  import opened Common

  type int32 = x: int | -0x8000_0000 <= x < 0x8000_0000

  /** A driver's identifier and its object, none when that is null. */
  datatype HdiConfig = HdiConfig(id: uint16, driver: Option<nat>)

  ghost predicate DistinctIds(config: map<string, HdiConfig>) {
    forall a, b :: a in config && b in config && a != b ==> config[a].id != config[b].id
  }

  /** Walks the configuration, collecting the identifiers seen. */
  method HdiConfigIsValid(config: map<string, HdiConfig>) returns (ok: bool)
    ensures ok <==> DistinctIds(config) && forall name <- config :: config[name].driver.Some?
  {
    var idSet: set<uint16> := {};
    var todo := config.Keys;
    while todo != {}
      invariant todo <= config.Keys
      invariant forall name <- config :: name !in todo ==> config[name].id in idSet && config[name].driver.Some?
      invariant forall id <- idSet :: exists name :: name in config && name !in todo && config[name].id == id
      invariant forall a, b :: a in config && b in config && a !in todo && b !in todo && a != b ==>
                  config[a].id != config[b].id
      decreases |todo|
    {
      var name :| name in todo;
      var id := config[name].id;
      if id in idSet {
        return false;
      }
      if config[name].driver.None? {
        return false;
      }
      idSet := idSet + {id};
      todo := todo - {name};
    }
    return true;
  }

  class DriverManager {
    var started: bool
    var hdiName2Config: map<string, HdiConfig>
    var serviceName2Driver: map<string, HdiConfig>  // a driver object holds its configuration

    constructor ()
      ensures !started && hdiName2Config == map[] && serviceName2Driver == map[]
    {
      started, hdiName2Config, serviceName2Driver := false, map[], map[];
    }

    /** Starts once, with a valid configuration; any other call changes nothing. */
    method Start(config: map<string, HdiConfig>) returns (code: int)
      modifies this
      ensures code == SUCCESS <==>
                DistinctIds(config) && (forall name <- config :: config[name].driver.Some?) && !old(started)
      ensures code == SUCCESS ==> started && hdiName2Config == config && serviceName2Driver == config
      ensures code != SUCCESS ==> unchanged(this) && code == FAIL
    {
      hide DistinctIds;
      var valid := HdiConfigIsValid(config);
      if !valid {
        return FAIL;
      }
      if started {
        return FAIL;
      }
      started := true;
      hdiName2Config := config;
      serviceName2Driver := map[];
      var todo := config.Keys;
      while todo != {}
        invariant todo <= config.Keys && started && hdiName2Config == config
        invariant serviceName2Driver == map name | name in config && name !in todo :: config[name]
        decreases |todo|
      {
        var name :| name in todo;
        serviceName2Driver := serviceName2Driver[name := config[name]];
        todo := todo - {name};
      }
      return SUCCESS;
    }
  }

  // ------------------------------------------------- executor identifiers

  /** Bit i of n. */
  predicate Bit(n: nat, i: nat) {
    if i == 0 then n % 2 == 1 else Bit(n / 2, i - 1)
  }

  function BitOr(a: nat, b: nat): nat {
    if a == 0 && b == 0 then 0
    else 2 * BitOr(a / 2, b / 2) + if Bit(a, 0) || Bit(b, 0) then 1 else 0
  }

  /** Every bit of the or is the or of the bits. */
  lemma {:induction false} BitsOfOr(a: nat, b: nat, i: nat)
    ensures Bit(BitOr(a, b), i) <==> Bit(a, i) || Bit(b, i)
    decreases i
  {
    if i > 0 {
      BitsOfOr(a / 2, b / 2, i - 1);
      assert BitOr(a, b) / 2 == BitOr(a / 2, b / 2);
    }
  }

  function ShiftLeft(n: nat, k: nat): nat {
    if k == 0 then n else 2 * ShiftLeft(n, k - 1)
  }

  lemma {:induction false} OrWithZero(a: nat)
    ensures BitOr(a, 0) == a
  {
    if a > 0 {
      OrWithZero(a / 2);
    }
  }

  /** A number that fits below the shifted one shares no bit with it: the or is the sum. */
  lemma {:induction false} OrIsSum(upper: nat, lower: nat, k: nat)
    requires lower < ShiftLeft(1, k)
    ensures BitOr(ShiftLeft(upper, k), lower) == ShiftLeft(upper, k) + lower
    decreases k
  {
    if k == 0 {
      OrWithZero(upper);
    } else {
      var half := ShiftLeft(upper, k - 1);
      OrIsSum(upper, lower / 2, k - 1);
      assert (2 * half) / 2 == half && !Bit(2 * half, 0);
      assert 2 * (lower / 2) + lower % 2 == lower;
    }
  }

  lemma {:induction false} ShiftIsProduct(n: nat, k: nat)
    ensures ShiftLeft(n, k) == n * ShiftLeft(1, k)
  {
    if k > 0 {
      ShiftIsProduct(n, k - 1);
    }
  }

  lemma Sixteen()
    ensures ShiftLeft(1, 16) == 0x1_0000
  {
    assert ShiftLeft(1, 4) == 16;
    assert ShiftLeft(1, 8) == 16 * ShiftLeft(1, 4);
    assert ShiftLeft(1, 12) == 16 * ShiftLeft(1, 8);
    assert ShiftLeft(1, 16) == 16 * ShiftLeft(1, 12);
  }

  lemma CombineIsSum(upper: uint16, lower: uint16)
    ensures BitOr(ShiftLeft(upper, 16), lower) == upper * 0x1_0000 + lower
  {
    hide BitOr, ShiftLeft;
    Sixteen();
    ShiftIsProduct(upper, 16);
    OrIsSum(upper, lower, 16);
  }

  function CombineShortToInt(upper: uint16, lower: uint16): uint32 {
    CombineIsSum(upper, lower);
    BitOr(ShiftLeft(upper, 16), lower)
  }

  /** Conversion to the unsigned sixteen-bit type keeps the low half of the two's complement. */
  function LowHalf(executorId: int32): uint16 {
    executorId % 0x1_0000
  }

  function ToInt32(x: uint32): int32 {
    if x < 0x8000_0000 then x else x - 0x1_0000_0000
  }

  /** The identifier an executor is registered under. */
  function GlobalId(hdiId: uint16, executorId: int32): int32 {
    ToInt32(CombineShortToInt(hdiId, LowHalf(executorId)))
  }

  /** The driver's number fills the upper half of the identifier, the executor's low half the lower. */
  lemma GlobalIdHalves(h: uint16, e: int32)
    ensures GlobalId(h, e) / 0x1_0000 == (if h < 0x8000 then h else h - 0x1_0000)
    ensures GlobalId(h, e) % 0x1_0000 == e % 0x1_0000
  {
    hide BitOr, ShiftLeft;
    CombineIsSum(h, LowHalf(e));
  }

  /** Two registrations share an identifier exactly for one driver and equal low halves. */
  lemma SharedGlobalId(h: uint16, e: int32, k: uint16, f: int32)
    ensures GlobalId(h, e) == GlobalId(k, f) <==> h == k && (e - f) % 0x1_0000 == 0
  {
    hide BitOr, ShiftLeft;
    CombineIsSum(h, LowHalf(e));
    CombineIsSum(k, LowHalf(f));
  }

  /**
   * Executors of different drivers never share an identifier, whatever numbers the drivers
   * give them, exactly when the configured driver identifiers are distinct.
   */
  lemma DriversNeverShareExecutors(config: map<string, HdiConfig>)
    ensures DistinctIds(config) <==>
            forall a, b, e: int32, f: int32 :: a in config && b in config && a != b ==>
              GlobalId(config[a].id, e) != GlobalId(config[b].id, f)
  {
    hide GlobalId;
    if DistinctIds(config) {
      forall a, b, e: int32, f: int32 | a in config && b in config && a != b
        ensures GlobalId(config[a].id, e) != GlobalId(config[b].id, f)
      {
        SharedGlobalId(config[a].id, e, config[b].id, f);
      }
    } else {
      var a, b :| a in config && b in config && a != b && config[a].id == config[b].id;
      assert GlobalId(config[a].id, 0) == GlobalId(config[b].id, 0);
    }
  }
}

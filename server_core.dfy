/** The enum validators the scanner generates for interface `intf_A` of the
    `small_test` protocol: `intf_A_foo_is_valid` checks a value against the
    enumerated constants of `foo`, `intf_A_bar_is_valid` checks a bitfield
    against the flags of `bar`; both admit only what exists at the given
    interface version.  Values and versions are C `uint32_t`: `Uint32` where
    they are only compared, `bv32` where `~` and `&` act on their bits. */
module ServerCore {

  newtype Uint32 = x: int | 0 <= x < 0x1_0000_0000

  /** `enum intf_A_foo`, with the C enumerators' `int` values. */
  const FooFirst: int := 0
  const FooSecond: int := 1
  const FooThird: int := 2
  const FooNegative: int := -1
  const FooDeprecated: int := 3

  /** The `*_SINCE_VERSION` macros of `foo`. */
  const FooThirdSinceVersion: Uint32 := 2
  const FooNegativeSinceVersion: Uint32 := 2
  const FooDeprecatedSinceVersion: Uint32 := 2

  /** `enum intf_A_bar`, a set of flags. */
  const BarFirst: bv32 := 0x01
  const BarSecond: bv32 := 0x02
  const BarThird: bv32 := 0x04

  /** The `*_SINCE_VERSION` macro of `bar`. */
  const BarThirdSinceVersion: Uint32 := 2

  /** The version an entry without a `@since` tag exists from: the first
      version of the interface. */
  const FirstVersion: Uint32 := 1

  /** The C conversion `(uint32_t)x` of an `int`: reduction modulo 2^32. */
  function ToU32(x: int): (r: Uint32)
    requires -0x8000_0000 <= x < 0x8000_0000
    ensures 0 <= x ==> r as int == x
    ensures x < 0 ==> r as int == x + 0x1_0000_0000
  {
    (x % 0x1_0000_0000) as Uint32
  }

  /** `intf_A_foo_is_valid`: the `switch` over the enumerators, each case
      returning whether `version` has reached the entry's version. */
  function FooIsValid(value: Uint32, version: Uint32): (r: bool)
    ensures r ==> version >= FirstVersion
  {
    if value == ToU32(FooFirst) then version >= 1
    else if value == ToU32(FooSecond) then version >= 1
    else if value == ToU32(FooThird) then version >= 2
    else if value == ToU32(FooNegative) then version >= 2
    else if value == ToU32(FooDeprecated) then version >= 2
    else false
  }

  /** The enumerators of `foo`, each with the version it exists from, as
      the protocol description declares them. */
  function FooMembers(): (ms: seq<(int, Uint32)>)
    ensures |ms| == 5
    ensures forall k :: 0 <= k < |ms| ==> -0x8000_0000 <= ms[k].0 < 0x8000_0000
  {
    [(FooFirst, FirstVersion), (FooSecond, FirstVersion), (FooThird, FooThirdSinceVersion),
     (FooNegative, FooNegativeSinceVersion), (FooDeprecated, FooDeprecatedSinceVersion)]
  }

  /** A `foo` value is valid exactly when it is one of the enumerators,
      converted to `uint32_t`, and the version has reached that
      enumerator's version. */
  lemma FooValidIffMember(value: Uint32, version: Uint32)
    ensures FooIsValid(value, version) <==>
      exists k :: 0 <= k < |FooMembers()| && ToU32(FooMembers()[k].0) == value && version >= FooMembers()[k].1
  {
    var ms := FooMembers();
    if FooIsValid(value, version) {
      var k := if value == 0 then 0 else if value == 1 then 1 else if value == 2 then 2
        else if value == 0xFFFF_FFFF then 3 else 4;
      assert ToU32(ms[k].0) == value && version >= ms[k].1;
    }
  }

  /** The entry thresholds: `FIRST` and `SECOND` from version 1, the others
      from their `*_SINCE_VERSION`; `NEGATIVE` is the value 0xFFFFFFFF. */
  lemma FooThresholds(version: Uint32)
    ensures FooIsValid(0, version) <==> version >= FirstVersion
    ensures FooIsValid(1, version) <==> version >= FirstVersion
    ensures FooIsValid(2, version) <==> version >= FooThirdSinceVersion
    ensures FooIsValid(0xFFFF_FFFF, version) <==> version >= FooNegativeSinceVersion
    ensures FooIsValid(3, version) <==> version >= FooDeprecatedSinceVersion
    ensures forall v: Uint32 :: 4 <= v < 0xFFFF_FFFF ==> !FooIsValid(v, version)
  {
  }

  /** A `foo` value valid at one version stays valid at every later one. */
  lemma FooMonotone(value: Uint32, older: Uint32, newer: Uint32)
    requires older <= newer && FooIsValid(value, older)
    ensures FooIsValid(value, newer)
  {
  }

  /** The flags of `bar`, each with the version it exists from. */
  function BarMembers(): (ms: seq<(bv32, Uint32)>)
    ensures |ms| == 3
  {
    [(BarFirst, FirstVersion), (BarSecond, FirstVersion), (BarThird, BarThirdSinceVersion)]
  }

  /** The union of the flags of `ms` that exist at `version`. */
  function Allowed(ms: seq<(bv32, Uint32)>, version: Uint32): bv32 {
    if ms == [] then 0
    else (if version >= ms[0].1 then ms[0].0 else 0) | Allowed(ms[1..], version)
  }

  /** The mask of `bar` flags defined at `version`. */
  function BarMask(version: Uint32): bv32 {
    Allowed(BarMembers(), version)
  }

  /** A `bar` value is valid when it has no bit outside the defined flags. */
  predicate BarValid(value: bv32, version: Uint32) {
    value & !BarMask(version) == 0
  }

  /** The masks: nothing below version 1, `FIRST | SECOND` at version 1,
      all three flags from version 2 on. */
  lemma {:induction false} BarMaskValues(version: Uint32)
    ensures version < 1 ==> BarMask(version) == 0
    ensures version == 1 ==> BarMask(version) == 0x03
    ensures version >= 2 ==> BarMask(version) == 0x07
  {
    var ms := BarMembers();
    assert ms[1..][1..][1..] == [];
    assert Allowed(ms[1..][1..][1..], version) == 0;
    assert Allowed(ms[1..][1..], version) == if version >= 2 then 0x04 else 0;
    assert Allowed(ms[1..], version) == (if version >= 1 then 0x02 else 0) | (if version >= 2 then 0x04 else 0);
  }

  /** `intf_A_bar_is_valid`: the mask `valid` is built up flag by flag as
      the version allows, then `value` must have no bit outside it. */
  method BarIsValid(value: bv32, version: Uint32) returns (ok: bool)
    ensures ok <==> BarValid(value, version)
  {
    var valid: bv32 := 0;
    if version >= 1 {
      valid := valid | BarFirst;
    }
    if version >= 1 {
      valid := valid | BarSecond;
    }
    assert valid == if version >= 1 then 0x03 else 0;
    if version >= 2 {
      valid := valid | BarThird;
    }
    assert valid == if version >= 2 then 0x07 else if version >= 1 then 0x03 else 0;
    assert valid == BarMask(version) by {
      BarMaskValues(version);
    }
    ok := value & !valid == 0;
    TestAgainstMask(value, valid, version);
  }

  lemma TestAgainstMask(value: bv32, mask: bv32, version: Uint32)
    requires mask == BarMask(version)
    ensures (value & !mask == 0) <==> BarValid(value, version)
  {
  }

  /** 0, the empty set of flags, is valid at every version. */
  lemma BarZeroValid(version: Uint32)
    ensures BarValid(0, version)
  {
  }

  /** A value with `THIRD` set is invalid before `THIRD`'s version. */
  lemma BarThirdNeedsVersion(value: bv32, version: Uint32)
    requires value & BarThird != 0 && version < BarThirdSinceVersion
    ensures !BarValid(value, version)
  {
    BarMaskValues(version);
  }

  /** A `bar` value valid at one version stays valid at every later one. */
  lemma BarMonotone(value: bv32, older: Uint32, newer: Uint32)
    requires older <= newer && BarValid(value, older)
    ensures BarValid(value, newer)
  {
    BarMaskValues(older);
    BarMaskValues(newer);
  }

  /** Each flag is valid on its own exactly from its version on. */
  lemma BarThresholds(version: Uint32)
    ensures BarValid(BarFirst, version) <==> version >= FirstVersion
    ensures BarValid(BarSecond, version) <==> version >= FirstVersion
    ensures BarValid(BarThird, version) <==> version >= BarThirdSinceVersion
    ensures BarValid(BarFirst | BarSecond | BarThird, version) <==> version >= BarThirdSinceVersion
  {
    BarMaskValues(version);
  }
}

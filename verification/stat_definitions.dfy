/** Statistics and achievements as the worker reports them: permission
    flags, the protected-value rule, and the modified test. */
module StatDefinitions {
  import opened Common
  import opened Float
  import Bits

  // ---------------------------------------------------------------------
  // Flags

  /** A set of stat flags, as a 32-bit mask. */
  datatype StatFlags = StatFlags(bits: u32) {
    /** Every flag of `other` is set here. */
    predicate Contains(other: StatFlags) {
      Bits.BitAnd(bits, other.bits) == other.bits
    }

    predicate IsEmpty() {
      bits == 0
    }

    /** The union of two flag sets (`|` and `|=`). */
    function Or(other: StatFlags): StatFlags {
      Bits.Pow2Values();
      Bits.Bounded(bits, other.bits, 32);
      StatFlags(Bits.BitOr(bits, other.bits))
    }
  }

  const NONE: StatFlags := StatFlags(0)
  const INCREMENT_ONLY: StatFlags := StatFlags(1)
  const PROTECTED: StatFlags := StatFlags(2)
  const UNKNOWN_PERMISSION: StatFlags := StatFlags(4)

  /** Every set contains the empty set and itself, and only the empty set
      is empty. */
  lemma ContainsNone(a: StatFlags)
    ensures a.Contains(NONE) && a.Contains(a)
    ensures a.IsEmpty() <==> a == NONE
  {
    Bits.OrIdempotent(a.bits);
    Bits.AndIffOr(a.bits, a.bits);
  }

  /** Containment is antisymmetric. */
  lemma ContainsAntisymmetric(a: StatFlags, b: StatFlags)
    requires a.Contains(b) && b.Contains(a)
    ensures a == b
  {
    Bits.AndCommutes(a.bits, b.bits);
  }

  /** `a` contains `b` exactly when adding `b` to `a` changes nothing. */
  lemma ContainsIffOrAbsorbs(a: StatFlags, b: StatFlags)
    ensures a.Contains(b) <==> a.Or(b) == a
  {
    Bits.AndIffOr(a.bits, b.bits);
  }

  /** Union is commutative, associative and idempotent, has the empty set
      as unit, and contains both sides. */
  lemma OrLaws(a: StatFlags, b: StatFlags, c: StatFlags)
    ensures a.Or(b) == b.Or(a)
    ensures a.Or(b).Or(c) == a.Or(b.Or(c))
    ensures a.Or(a) == a && a.Or(NONE) == a
    ensures a.Or(b).Contains(a) && a.Or(b).Contains(b)
  {
    Bits.OrCommutes(a.bits, b.bits);
    Bits.OrAssociates(a.bits, b.bits, c.bits);
    Bits.OrIdempotent(a.bits);
    Bits.OrCovers(a.bits, b.bits);
    Bits.OrCovers(b.bits, a.bits);
  }

  // ---------------------------------------------------------------------
  // Permissions

  /** The permission's 32-bit two's-complement pattern. */
  function PermissionBits(permission: i32): u32 {
    ReinterpretU32(permission)
  }

  /** `permission & 2 != 0`: the value is protected and may not be changed. */
  predicate IsProtected(permission: i32) {
    Bits.BitAnd(PermissionBits(permission), 2) != 0
  }

  /** `permission & !2 != 0`: some bit other than bit 1 is set. */
  predicate HasUnknownPermission(permission: i32) {
    Bits.BitAnd(PermissionBits(permission), 0xFFFF_FFFD) != 0
  }

  /** Protection is bit 1 of the pattern. */
  lemma ProtectedIsBitOne(permission: i32)
    ensures IsProtected(permission) <==> (PermissionBits(permission) / 2) % 2 == 1
  {
    var u := PermissionBits(permission);
    Bits.Step(u, 2);
    Bits.Step(u / 2, 1);
  }

  /** An unknown permission is any value but 0 and 2. */
  lemma UnknownPermissionValues(permission: i32)
    ensures HasUnknownPermission(permission) <==> permission != 0 && permission != 2
  {
    var u := PermissionBits(permission);
    ClearBitOne(u);
    assert u == 0 <==> permission == 0;
    assert u == 2 <==> permission == 2;
  }

  /** `u & !2` on 32 bits keeps bit 0 and everything from bit 2 up. */
  lemma ClearBitOne(u: nat)
    requires u < 0x1_0000_0000
    ensures Bits.BitAnd(u, 0xFFFF_FFFD) == u % 2 + 4 * (u / 4)
  {
    Bits.Step(u, 0xFFFF_FFFD);
    Bits.Step(u / 2, 0x7FFF_FFFE);
    Bits.Pow2Values();
    assert u / 2 / 2 == u / 4;
    Bits.AndOnes(u / 4, 30);
  }

  /** The flags shown for a stat, shared by both kinds of stat. */
  function ExtraFlags(isIncrementOnly: bool, permission: i32): StatFlags {
    var flags := if isIncrementOnly then NONE.Or(INCREMENT_ONLY) else NONE;
    var flags := if IsProtected(permission) then flags.Or(PROTECTED) else flags;
    if HasUnknownPermission(permission) then flags.Or(UNKNOWN_PERMISSION) else flags
  }

  /** The mask `ExtraFlags` builds: one bit per condition, nothing else. */
  lemma ExtraFlagsBits(isIncrementOnly: bool, permission: i32)
    ensures ExtraFlags(isIncrementOnly, permission).bits ==
      (if isIncrementOnly then 1 else 0) +
      (if IsProtected(permission) then 2 else 0) +
      (if HasUnknownPermission(permission) then 4 else 0)
  {
  }

  /** The three flags of `ExtraFlags` each mean exactly one thing, and no
      bit above them is ever set. */
  lemma ExtraFlagsMeaning(isIncrementOnly: bool, permission: i32)
    ensures ExtraFlags(isIncrementOnly, permission).Contains(INCREMENT_ONLY) <==> isIncrementOnly
    ensures ExtraFlags(isIncrementOnly, permission).Contains(PROTECTED) <==> IsProtected(permission)
    ensures ExtraFlags(isIncrementOnly, permission).Contains(UNKNOWN_PERMISSION) <==> HasUnknownPermission(permission)
    ensures ExtraFlags(isIncrementOnly, permission).bits < 8
  {
    ExtraFlagsBits(isIncrementOnly, permission);
  }

  // ---------------------------------------------------------------------
  // Stats

  /** The error for an attempt to change a protected value. */
  datatype StatIsProtectedError = StatIsProtectedError(message: string)

  function ProtectedError(): StatIsProtectedError {
    StatIsProtectedError("Stat is protected")
  }

  datatype IntStatInfo = IntStatInfo(
    id: string,
    appId: u32,
    displayName: string,
    isIncrementOnly: bool,
    permission: i32,
    originalValue: i32,
    intValue: i32)
  {
    /** Changes the value, unless the stat is protected and the value would
        actually change; on error the stat keeps its value. */
    function SetValue(value: i32): (r: Result<IntStatInfo, StatIsProtectedError>)
      ensures r.Err? <==> IsProtected(permission) && value != intValue
      ensures r.Err? ==> r.error == ProtectedError()
      ensures r.Ok? ==> r.value.intValue == value && r.value.(intValue := intValue) == this
    {
      if IsProtected(permission) && intValue != value then Err(ProtectedError())
      else Ok(this.(intValue := value))
    }

    predicate IsModified() {
      intValue != originalValue
    }

    function Extra(): StatFlags {
      ExtraFlags(isIncrementOnly, permission)
    }
  }

  /** Setting a value makes the stat modified exactly when the new value
      differs from the original; setting the current value always succeeds
      and changes nothing; setting the same value twice is setting it once. */
  lemma IntSetValueLaws(s: IntStatInfo, v: i32)
    ensures s.SetValue(v).Ok? ==> (s.SetValue(v).value.IsModified() <==> v != s.originalValue)
    ensures s.SetValue(s.intValue) == Ok(s)
    ensures s.SetValue(v).Ok? ==> s.SetValue(v).value.SetValue(v) == s.SetValue(v)
    ensures !IsProtected(s.permission) ==> s.SetValue(v).Ok?
  {
  }

  datatype FloatStatInfo = FloatStatInfo(
    id: string,
    appId: u32,
    displayName: string,
    isIncrementOnly: bool,
    permission: i32,
    originalValue: F32,
    floatValue: F32)
  {
    /** As for integers, with the float `==` (a NaN differs from every
        value, so a protected NaN can never be set). */
    function SetValue(value: F32): (r: Result<FloatStatInfo, StatIsProtectedError>)
      ensures r.Err? <==> IsProtected(permission) && !Float.Eq(floatValue, value)
      ensures r.Err? ==> r.error == ProtectedError()
      ensures r.Ok? ==> r.value.floatValue == value && r.value.(floatValue := floatValue) == this
    {
      if IsProtected(permission) && !Float.Eq(floatValue, value) then Err(ProtectedError())
      else Ok(this.(floatValue := value))
    }

    predicate IsModified() {
      !Float.Eq(floatValue, originalValue)
    }

    function Extra(): StatFlags {
      ExtraFlags(isIncrementOnly, permission)
    }
  }

  /** A float stat holding NaN always counts as modified, and a protected
      one rejects every new value, NaN included. */
  lemma FloatNaNLaws(s: FloatStatInfo, v: F32)
    requires s.floatValue.IsNaN()
    ensures s.IsModified()
    ensures IsProtected(s.permission) ==> s.SetValue(v).Err?
  {
  }

  /** A stat of either kind. */
  datatype StatInfo =
    | FloatStat(floatInfo: FloatStatInfo)
    | IntegerStat(intInfo: IntStatInfo)
  {
    function Id(): string
    {
      match this
      case FloatStat(f) => f.id
      case IntegerStat(i) => i.id
    }

    function DisplayName(): string
    {
      match this
      case FloatStat(f) => f.displayName
      case IntegerStat(i) => i.displayName
    }

    function Permission(): i32
    {
      match this
      case FloatStat(f) => f.permission
      case IntegerStat(i) => i.permission
    }

    predicate IsModified()
    {
      match this
      case FloatStat(f) => f.IsModified()
      case IntegerStat(i) => i.IsModified()
    }

    /** The flags of the wrapped stat, which depend only on its
        increment-only setting and its permission. */
    function Extra(): (r: StatFlags)
      ensures r.Contains(PROTECTED) <==> IsProtected(Permission())
      ensures r.Contains(UNKNOWN_PERMISSION) <==> Permission() != 0 && Permission() != 2
      ensures r.Contains(INCREMENT_ONLY) <==>
        (if FloatStat? then floatInfo.isIncrementOnly else intInfo.isIncrementOnly)
    {
      match this
      case FloatStat(f) =>
        ExtraFlagsMeaning(f.isIncrementOnly, f.permission);
        UnknownPermissionValues(f.permission);
        f.Extra()
      case IntegerStat(i) =>
        ExtraFlagsMeaning(i.isIncrementOnly, i.permission);
        UnknownPermissionValues(i.permission);
        i.Extra()
    }
  }

  /** Setting the value of the stat a `StatInfo` wraps keeps what the list
      of stats shows about it (id, name, permission and flags), and the
      stat then reads as modified exactly when the new value differs from
      the original one. */
  lemma SetWrappedValue(s: StatInfo, iv: i32, fv: F32)
    ensures s.IntegerStat? && s.intInfo.SetValue(iv).Ok? ==>
      var t := IntegerStat(s.intInfo.SetValue(iv).value);
      && t.Id() == s.Id() && t.DisplayName() == s.DisplayName()
      && t.Permission() == s.Permission() && t.Extra() == s.Extra()
      && (t.IsModified() <==> iv != s.intInfo.originalValue)
    ensures s.FloatStat? && s.floatInfo.SetValue(fv).Ok? ==>
      var t := FloatStat(s.floatInfo.SetValue(fv).value);
      && t.Id() == s.Id() && t.DisplayName() == s.DisplayName()
      && t.Permission() == s.Permission() && t.Extra() == s.Extra()
      && (t.IsModified() <==> !Float.Eq(fv, s.floatInfo.originalValue))
  {
  }

  /** A point in time, as whole seconds and nanoseconds since the epoch. */
  datatype SystemTime = SystemTime(seconds: int, nanos: nat)

  datatype AchievementInfo = AchievementInfo(
    id: string,
    isAchieved: bool,
    unlockTime: Option<SystemTime>,
    permission: i32,
    iconNormal: string,
    iconLocked: string,
    name: string,
    description: string,
    globalAchievedPercent: Option<F32>)
}

/**
  Package, core and thread IDs of a logical CPU (`cpu_ident_id` and its two variants).
 */
module Topology {
  import opened Bits
  import opened Options
  import opened RawData

  const MAX_INTELFN11_LEVEL := 4
  const LEVEL_SMT := 1
  const LEVEL_CORE := 2

  /** The IDs as 32-bit signed integers; -1 stands for undetermined. */
  datatype Ids = Ids(apicId: int, packageId: int, coreId: int, smtId: int)

  const NO_IDS := Ids(-1, -1, -1, -1)

  predicate IsIntelOrAmd(leaf0: Regs) {
    || (leaf0.ebx == 0x756e6547 && leaf0.edx == 0x49656e69 && leaf0.ecx == 0x6c65746e)
    || (leaf0.ebx == 0x68747541 && leaf0.edx == 0x69746e65 && leaf0.ecx == 0x444d4163)
  }

  /** Leaf 0Bh is usable. */
  predicate ApicIdSupported(raw: Raw)
    requires raw.WellFormed()
  {
    var basic := raw.leaves[BASIC_CPUID];
    IsIntelOrAmd(basic[0]) && basic[0].eax >= 11 && Field(basic[11].ebx, 15, 0) != 0
  }

  /** Subleaf `i` of leaf 0Bh describes a level. */
  predicate Enumerated(raw: Raw, i: nat)
    requires raw.WellFormed()
  {
    i < MAX_INTELFN11_LEVEL && raw.leaves[INTEL_FN11][i].eax != 0 && raw.leaves[INTEL_FN11][i].ebx != 0
  }

  /** The number of leading enumerated subleaves. */
  function Levels(raw: Raw, from: nat := 0): (n: nat)
    requires raw.WellFormed() && from <= MAX_INTELFN11_LEVEL
    ensures from <= n <= MAX_INTELFN11_LEVEL
    ensures forall i: nat | from <= i < n :: Enumerated(raw, i)
    ensures !Enumerated(raw, n)
    decreases MAX_INTELFN11_LEVEL - from
  {
    if Enumerated(raw, from) then Levels(raw, from + 1) else from
  }

  function Shift(raw: Raw, i: nat): (s: nat)
    requires raw.WellFormed() && i < MAX_INTELFN11_LEVEL
    ensures s < 32
  {
    assert Pow2(5) == 32;
    Field(raw.leaves[INTEL_FN11][i].eax, 4, 0)
  }

  function LevelType(raw: Raw, i: nat): nat
    requires raw.WellFormed() && i < MAX_INTELFN11_LEVEL
  {
    Field(raw.leaves[INTEL_FN11][i].ecx, 15, 8)
  }

  function ApicId(raw: Raw, i: nat): uint32
    requires raw.WellFormed() && i < MAX_INTELFN11_LEVEL
  {
    raw.leaves[INTEL_FN11][i].edx
  }

  /** `~((-1) << shift)` on 32 bits. */
  function LowMask(shift: nat): (m: uint32)
    requires shift < 32
    ensures m == Pow2(shift) - 1
  {
    Pow2Monotone(shift, 32); Pow2Constants();
    Pow2(shift) - 1
  }

  /** `(-1) << shift` on 32 bits. */
  function HighMask(shift: nat): (m: uint32)
    requires shift < 32
    ensures m == UINT32_RANGE - Pow2(shift)
  {
    Pow2Monotone(shift, 32); Pow2Constants();
    UINT32_RANGE - Pow2(shift)
  }

  function CoreMask(coreShift: nat, smtMask: uint32): (m: uint32)
    requires coreShift < 32
  {
    Pow2Constants(); XorBound(LowMask(coreShift), smtMask, 32);
    Xor(LowMask(coreShift), smtMask)
  }

  /** An ID masked on 32 bits and stored as `int32_t`. */
  function Masked(id: uint32, mask: uint32): int {
    AndBound(id, mask);
    Int32(And(id, mask))
  }

  /** The variables of the second loop of `cpu_ident_id_x86`. */
  datatype LevelScan = LevelScan(levelType: nat, smtMask: uint32, ids: Ids)

  function ScanLevel(scan: LevelScan, raw: Raw, i: nat, coreShift: nat): LevelScan
    requires raw.WellFormed() && i < MAX_INTELFN11_LEVEL && coreShift < 32
  {
    var levelType, apicId := LevelType(raw, i), ApicId(raw, i);
    var ids := scan.ids.(apicId := Int32(apicId));
    if levelType == LEVEL_SMT then
      var mask := LowMask(Shift(raw, i));
      LevelScan(levelType, mask, ids.(smtId := Masked(apicId, mask)))
    else if levelType == LEVEL_CORE then
      LevelScan(levelType, scan.smtMask, ids.(coreId := Masked(apicId, CoreMask(coreShift, scan.smtMask))))
    else
      LevelScan(levelType, scan.smtMask, ids)
  }

  function ScanLevels(raw: Raw, n: nat, coreShift: nat): LevelScan
    requires raw.WellFormed() && n <= MAX_INTELFN11_LEVEL && coreShift < 32
  {
    if n == 0 then LevelScan(0, 0, NO_IDS) else ScanLevel(ScanLevels(raw, n - 1, coreShift), raw, n - 1, coreShift)
  }

  /** The shift of the last enumerated level. */
  function CoreShift(raw: Raw): (s: nat)
    requires raw.WellFormed()
    ensures s < 32
  {
    var n := Levels(raw); if n == 0 then 0 else Shift(raw, n - 1)
  }

  function IdsX86(raw: Raw): Option<Ids>
    requires raw.WellFormed()
  {
    if !ApicIdSupported(raw) then None
    else
      var n := Levels(raw);
      var scan := ScanLevels(raw, n, CoreShift(raw));
      if n == 0 || scan.levelType == 0 then None
      else Some(scan.ids.(packageId := Masked(ApicId(raw, n - 1), HighMask(CoreShift(raw)))))
  }

  /** The first loop of `cpu_ident_id_x86`. */
  method FindCoreShift(raw: Raw) returns (coreShift: nat)
    requires raw.WellFormed()
    ensures coreShift == CoreShift(raw)
  {
    var subleaf := 0;
    coreShift := 0;
    while Enumerated(raw, subleaf)
      invariant subleaf <= MAX_INTELFN11_LEVEL && Levels(raw, subleaf) == Levels(raw)
      invariant coreShift == if subleaf == 0 then 0 else Shift(raw, subleaf - 1)
      decreases MAX_INTELFN11_LEVEL - subleaf
    {
      coreShift := Shift(raw, subleaf);
      subleaf := subleaf + 1;
    }
  }

  /** `cpu_ident_id_x86` */
  method IdentIdX86(raw: Raw) returns (ids: Option<Ids>)
    requires raw.WellFormed()
    ensures ids == IdsX86(raw)
  {
    if !ApicIdSupported(raw) { return None; }
    var coreShift := FindCoreShift(raw);
    var subleaf := 0;
    var levelType, smtMask, t := 0, 0, NO_IDS;
    while Enumerated(raw, subleaf)
      invariant subleaf <= MAX_INTELFN11_LEVEL && Levels(raw, subleaf) == Levels(raw)
      invariant LevelScan(levelType, smtMask, t) == ScanLevels(raw, subleaf, coreShift)
      invariant t.apicId == (if subleaf == 0 then -1 else Int32(ApicId(raw, subleaf - 1)))
      invariant subleaf == 0 ==> levelType == 0
      decreases MAX_INTELFN11_LEVEL - subleaf
    {
      levelType := LevelType(raw, subleaf);
      t := t.(apicId := Int32(ApicId(raw, subleaf)));
      assert Unsigned32(t.apicId) == ApicId(raw, subleaf);
      if levelType == LEVEL_SMT {
        smtMask := LowMask(Shift(raw, subleaf));
        t := t.(smtId := Masked(Unsigned32(t.apicId), smtMask));
      } else if levelType == LEVEL_CORE {
        var coreMask := CoreMask(coreShift, smtMask);
        t := t.(coreId := Masked(Unsigned32(t.apicId), coreMask));
      }
      subleaf := subleaf + 1;
    }
    t := t.(packageId := Masked(Unsigned32(t.apicId), HighMask(coreShift)));
    ids := if levelType > 0 then Some(t) else None;
  }

  /** `cpu_ident_id_arm` */
  function IdsArm(raw: Raw): Option<Ids>
    requires raw.WellFormed()
  {
    var mpidr := raw.arm[ARM_MPIDR][0];
    if mpidr == 0 then None
    else if Field(mpidr, 30, 30) == 1 then Some(Ids(-1, -1, 0, -1))
    else if Field(mpidr, 24, 24) == 1 then Some(Ids(-1, Field(mpidr, 23, 16), Field(mpidr, 15, 8), Field(mpidr, 7, 0)))
    else Some(Ids(-1, Field(mpidr, 15, 8), Field(mpidr, 7, 0), -1))
  }

  /** `cpu_ident_id` */
  function IdentId(raw: Raw): Option<Ids>
    requires raw.WellFormed()
  {
    match ArchitectureOf(raw)
    case X86 => IdsX86(raw)
    case Arm => IdsArm(raw)
    case Unknown => None
  }

  // ----- the decomposition of an APIC ID

  /** The last level of a type among the first `n`, or -1. */
  function LastLevel(raw: Raw, n: nat, levelType: nat): (i: int)
    requires raw.WellFormed() && n <= MAX_INTELFN11_LEVEL
    ensures -1 <= i < n
  {
    if n == 0 then -1 else if LevelType(raw, n - 1) == levelType then n - 1 else LastLevel(raw, n - 1, levelType)
  }

  /** The SMT mask in force after `n` levels. */
  function SmtMaskAt(raw: Raw, n: nat): uint32
    requires raw.WellFormed() && n <= MAX_INTELFN11_LEVEL
  {
    var a := LastLevel(raw, n, LEVEL_SMT);
    if a < 0 then 0 else LowMask(Shift(raw, a))
  }

  /** What the loop has stored: each ID comes from the last level of its type. */
  lemma {:induction false} ScanResult(raw: Raw, n: nat, coreShift: nat)
    requires raw.WellFormed() && n <= MAX_INTELFN11_LEVEL && coreShift < 32
    ensures var scan := ScanLevels(raw, n, coreShift);
            var a, b := LastLevel(raw, n, LEVEL_SMT), LastLevel(raw, n, LEVEL_CORE);
            && scan.smtMask == SmtMaskAt(raw, n)
            && scan.ids.smtId == (if a < 0 then -1 else Masked(ApicId(raw, a), LowMask(Shift(raw, a))))
            && scan.ids.coreId == (if b < 0 then -1
                                   else Masked(ApicId(raw, b), CoreMask(coreShift, SmtMaskAt(raw, b))))
  {
    if n > 0 {
      ScanResult(raw, n - 1, coreShift);
    }
  }

  /** Leaf 0Bh enumerates a level for the cores. */
  predicate HasCoreLevel(raw: Raw)
    requires raw.WellFormed()
  {
    exists i: nat :: i < Levels(raw) && LevelType(raw, i) == LEVEL_CORE
  }

  lemma {:induction false} LastLevelIff(raw: Raw, n: nat, levelType: nat)
    requires raw.WellFormed() && n <= MAX_INTELFN11_LEVEL
    ensures LastLevel(raw, n, levelType) >= 0 <==> exists i: nat :: i < n && LevelType(raw, i) == levelType
  {
    if n > 0 {
      LastLevelIff(raw, n - 1, levelType);
      if LevelType(raw, n - 1) != levelType && exists i: nat :: i < n && LevelType(raw, i) == levelType {
        var i: nat :| i < n && LevelType(raw, i) == levelType;
        assert i < n - 1;
      }
    }
  }

  /** A record has IDs exactly when leaf 0Bh is usable and its last enumerated level has a type. */
  lemma {:induction false} HasIdsX86Iff(raw: Raw)
    requires raw.WellFormed()
    ensures IdsX86(raw).Some? <==>
      ApicIdSupported(raw) && Levels(raw) > 0 && LevelType(raw, Levels(raw) - 1) != 0
    ensures IdsX86(raw).Some? ==> IdsX86(raw).value.apicId == Int32(ApicId(raw, Levels(raw) - 1))
  {
  }

  /** The core ID is determined, and then not negative, exactly when a core level is enumerated. */
  lemma {:induction false} CoreIdIff(raw: Raw)
    requires raw.WellFormed() && IdsX86(raw).Some?
    ensures IdsX86(raw).value.coreId >= 0 <==> HasCoreLevel(raw)
    ensures !HasCoreLevel(raw) ==> IdsX86(raw).value.coreId == -1
  {
    var n, c := Levels(raw), CoreShift(raw);
    var b := LastLevel(raw, n, LEVEL_CORE);
    ScanResult(raw, n, c);
    LastLevelIff(raw, n, LEVEL_CORE);
    if b >= 0 {
      CoreMaskSmall(raw, b, c);
      MaskedSmall(ApicId(raw, b), CoreMask(c, SmtMaskAt(raw, b)));
    }
  }

  lemma {:induction false} CoreMaskSmall(raw: Raw, n: nat, c: nat)
    requires raw.WellFormed() && n <= MAX_INTELFN11_LEVEL && c < 32
    ensures CoreMask(c, SmtMaskAt(raw, n)) < 0x8000_0000
  {
    LowMaskSmall(c);
    var a := LastLevel(raw, n, LEVEL_SMT);
    if a >= 0 {
      LowMaskSmall(Shift(raw, a));
    }
    Pow2Constants();
    XorBound(LowMask(c), SmtMaskAt(raw, n), 31);
  }

  lemma {:induction false} LowMaskSmall(shift: nat)
    requires shift < 32
    ensures LowMask(shift) < 0x8000_0000
  {
    Pow2Constants();
    Pow2Monotone(shift, 31);
  }

  lemma {:induction false} MaskedSmall(id: uint32, mask: uint32)
    requires mask < 0x8000_0000
    ensures Masked(id, mask) >= 0
  {
    AndBound(id, mask);
  }

  /** All enumerated subleaves report one APIC ID, as leaf 0Bh is specified to do. */
  predicate OneApicId(raw: Raw)
    requires raw.WellFormed()
  {
    forall i: nat | i < Levels(raw) :: ApicId(raw, i) == ApicId(raw, 0)
  }

  /** The last core level comes after the last SMT level. */
  predicate SmtBeforeCore(raw: Raw)
    requires raw.WellFormed()
  {
    0 <= LastLevel(raw, Levels(raw), LEVEL_SMT) < LastLevel(raw, Levels(raw), LEVEL_CORE)
  }

  function SmtShift(raw: Raw): (s: nat)
    requires raw.WellFormed() && SmtBeforeCore(raw)
    ensures s < 32
  {
    Shift(raw, LastLevel(raw, Levels(raw), LEVEL_SMT))
  }

  lemma {:induction false} LastLevelBefore(raw: Raw, m: nat, n: nat, levelType: nat)
    requires raw.WellFormed() && m <= n <= MAX_INTELFN11_LEVEL
    requires LastLevel(raw, n, levelType) < m
    ensures LastLevel(raw, m, levelType) == LastLevel(raw, n, levelType)
  {
    if m < n {
      LastLevelBefore(raw, m, n - 1, levelType);
    }
  }

  function SmtPart(x: uint32, s: nat): uint32
    requires s < 32
  {
    AndBound(x, LowMask(s));
    And(x, LowMask(s))
  }

  function CorePart(x: uint32, s: nat, c: nat): uint32
    requires s < 32 && c < 32
  {
    AndBound(x, CoreMask(c, LowMask(s)));
    And(x, CoreMask(c, LowMask(s)))
  }

  function PackagePart(x: uint32, c: nat): uint32
    requires c < 32
  {
    AndBound(x, HighMask(c));
    And(x, HighMask(c))
  }

  /** With an SMT level before the core level the three IDs are three parts of the APIC ID. */
  lemma {:induction false} IdsAreParts(raw: Raw)
    requires raw.WellFormed() && ApicIdSupported(raw) && OneApicId(raw) && SmtBeforeCore(raw)
    ensures var x, s, c := ApicId(raw, 0), SmtShift(raw), CoreShift(raw);
            IdsX86(raw).Some? && ScanLevels(raw, Levels(raw), c).levelType > 0 ==>
              && IdsX86(raw).value.smtId == Int32(SmtPart(x, s))
              && IdsX86(raw).value.coreId == Int32(CorePart(x, s, c))
              && IdsX86(raw).value.packageId == Int32(PackagePart(x, c))
  {
    var n := Levels(raw);
    var b := LastLevel(raw, n, LEVEL_CORE);
    ScanResult(raw, n, CoreShift(raw));
    LastLevelBefore(raw, b, n, LEVEL_SMT);
  }

  /** Parts in closed form, when the SMT shift does not exceed the final one. */
  lemma {:induction false} PartsArithmetic(x: uint32, s: nat, c: nat)
    requires s <= c < 32
    ensures SmtPart(x, s) == x % Pow2(s)
    ensures CorePart(x, s, c) == x % Pow2(c) - x % Pow2(s)
    ensures PackagePart(x, c) == x - x % Pow2(c)
  {
    AndLowMask(x, s);
    PackagePartArithmetic(x, c);
    CorePartArithmetic(x, s, c);
  }

  lemma {:induction false} PackagePartArithmetic(x: uint32, c: nat)
    requires c < 32
    ensures PackagePart(x, c) == x - x % Pow2(c)
  {
    AndBlockMask32(x, c);
  }

  lemma {:induction false} CorePartArithmetic(x: uint32, s: nat, c: nat)
    requires s <= c < 32
    ensures CorePart(x, s, c) == x % Pow2(c) - x % Pow2(s)
  {
    CoreMaskIsBlock(s, c);
    AndMiddleMask(x, s, c);
  }

  predicate PartsAddUp(x: uint32, s: nat, c: nat)
    requires s < 32 && c < 32
  {
    SmtPart(x, s) + CorePart(x, s, c) + PackagePart(x, c) == x
  }

  /** The parts add up to every APIC ID exactly when the SMT shift is at most the final one. */
  lemma {:induction false} PartsAddUpIff(s: nat, c: nat)
    requires s < 32 && c < 32
    ensures (forall x: uint32 :: PartsAddUp(x, s, c)) <==> s <= c
  {
    if s <= c {
      forall x: uint32
        ensures PartsAddUp(x, s, c)
      {
        PartsArithmetic(x, s, c);
      }
    } else {
      PartsDoNotAddUp(s, c);
    }
  }

  lemma {:induction false} SmtPartOfSmall(x: uint32, s: nat)
    requires s < 32 && x < Pow2(s)
    ensures SmtPart(x, s) == x
  {
    AndLowMask(x, s);
    SmallRemainders(x, Pow2(s));
  }

  lemma {:induction false} PackagePartOfPower(x: uint32, c: nat)
    requires c < 32 && x == Pow2(c)
    ensures PackagePart(x, c) == x
  {
    PackagePartArithmetic(x, c);
    SmallRemainders(0, x);
  }

  /** With a larger SMT shift the lowest package bit is counted twice. */
  lemma {:induction false} PartsDoNotAddUp(s: nat, c: nat)
    requires c < s < 32
    ensures exists x: uint32 :: !PartsAddUp(x, s, c)
  {
    Pow2Constants();
    Pow2Monotone(c, 31);
    Pow2Monotone(c + 1, s);
    var x: uint32 := Pow2(c);
    SmtPartOfSmall(x, s);
    PackagePartOfPower(x, c);
    assert !PartsAddUp(x, s, c);
  }

  lemma {:induction false} AndLowMask(x: nat, k: nat)
    ensures And(x, Pow2(k) - 1) == x % Pow2(k)
  {
    LowIsRemainder(x, k);
    AndIsLow(x, k);
  }

  lemma {:induction false} AndIsLow(x: nat, k: nat)
    ensures And(x, Pow2(k) - 1) == Low(x, k)
    decreases k
  {
    if k == 0 {
      AndZero(x);
    } else {
      AndSplit(x, Pow2(k) - 1, 1, Pow2(k - 1) - 1);
      AndIsLow(x / 2, k - 1);
    }
  }

  lemma {:induction false} AndMiddleMask(x: nat, s: nat, c: nat)
    requires s <= c
    ensures Pow2(s) <= Pow2(c)
    ensures And(x, Pow2(c) - Pow2(s)) == x % Pow2(c) - x % Pow2(s)
  {
    LowIsRemainder(x, c);
    LowIsRemainder(x, s);
    Pow2Monotone(s, c);
    AndIsMiddle(x, s, c);
  }

  lemma {:induction false} AndIsMiddle(x: nat, s: nat, c: nat)
    requires s <= c && Pow2(s) <= Pow2(c)
    ensures And(x, Pow2(c) - Pow2(s)) == Low(x, c) - Low(x, s)
    decreases c
  {
    if s == 0 {
      AndIsLow(x, c);
    } else {
      AndSplit(x, Pow2(c) - Pow2(s), 0, Pow2(c - 1) - Pow2(s - 1));
      AndIsMiddle(x / 2, s - 1, c - 1);
    }
  }

  lemma {:induction false} CoreMaskIsBlock(s: nat, c: nat)
    requires s <= c < 32
    ensures Pow2(s) <= Pow2(c) && CoreMask(c, LowMask(s)) == Pow2(c) - Pow2(s)
  {
    Pow2Monotone(s, c);
    forall i: nat
      ensures Bit(Xor(LowMask(c), LowMask(s)), i) <==> Bit(Pow2(c) - Pow2(s), i)
    {
      CoreMaskBit(s, c, i);
    }
    SameBits(Xor(LowMask(c), LowMask(s)), Pow2(c) - Pow2(s));
  }

  lemma {:induction false} CoreMaskBit(s: nat, c: nat, i: nat)
    requires s <= c < 32
    ensures Pow2(s) <= Pow2(c)
    ensures Bit(Xor(LowMask(c), LowMask(s)), i) <==> Bit(Pow2(c) - Pow2(s), i)
  {
    BitXor(LowMask(c), LowMask(s), i);
    BitBlockMask(0, c, i);
    BitBlockMask(0, s, i);
    BitBlockMask(s, c, i);
  }

  predicate MasksDisjoint(s: nat, c: nat)
    requires s < 32 && c < 32
  {
    && And(LowMask(s), CoreMask(c, LowMask(s))) == 0
    && And(LowMask(s), HighMask(c)) == 0
    && And(CoreMask(c, LowMask(s)), HighMask(c)) == 0
  }

  lemma {:induction false} NoCommonBits(s: nat, c: nat, i: nat)
    requires s <= c < 32
    ensures !Bit(And(LowMask(s), CoreMask(c, LowMask(s))), i)
    ensures !Bit(And(LowMask(s), HighMask(c)), i)
    ensures !Bit(And(CoreMask(c, LowMask(s)), HighMask(c)), i)
  {
    CoreMaskIsBlock(s, c);
    MaskBits(s, c, i);
    BitBlockMask(s, c, i);
  }

  /** The masks of the three IDs have no bit in common exactly when the SMT shift is at most the final one. */
  lemma {:induction false} MasksDisjointIff(s: nat, c: nat)
    requires s < 32 && c < 32
    ensures MasksDisjoint(s, c) <==> s <= c
  {
    if s <= c {
      forall i: nat {
        NoCommonBits(s, c, i);
      }
      NoBits(And(LowMask(s), CoreMask(c, LowMask(s))));
      NoBits(And(LowMask(s), HighMask(c)));
      NoBits(And(CoreMask(c, LowMask(s)), HighMask(c)));
    } else {
      MaskBits(s, c, c);
      BitZero(c);
    }
  }

  lemma {:induction false} NoBits(x: nat)
    requires forall i: nat :: !Bit(x, i)
    ensures x == 0
  {
    forall i: nat ensures !Bit(0, i) { BitZero(i); }
    SameBits(x, 0);
  }

  lemma {:induction false} MaskBits(s: nat, c: nat, i: nat)
    requires s < 32 && c < 32
    ensures Bit(LowMask(s), i) <==> i < s
    ensures Bit(HighMask(c), i) <==> c <= i < 32
    ensures Bit(And(LowMask(s), HighMask(c)), i) <==> c <= i < s
    ensures Bit(And(LowMask(s), CoreMask(c, LowMask(s))), i) <==> i < s && Bit(CoreMask(c, LowMask(s)), i)
    ensures Bit(And(CoreMask(c, LowMask(s)), HighMask(c)), i) <==> Bit(CoreMask(c, LowMask(s)), i) && c <= i < 32
  {
    BitBlockMask(0, s, i);
    BitBlockMask32(c, i);
    BitAnd(LowMask(s), HighMask(c), i);
    BitAnd(LowMask(s), CoreMask(c, LowMask(s)), i);
    BitAnd(CoreMask(c, LowMask(s)), HighMask(c), i);
  }

  /** The three IDs add up to the APIC ID. */
  lemma {:induction false} ApicDecomposition(raw: Raw)
    requires raw.WellFormed() && ApicIdSupported(raw) && OneApicId(raw) && SmtBeforeCore(raw)
    requires IdsX86(raw).Some? && SmtShift(raw) <= CoreShift(raw)
    ensures var ids := IdsX86(raw).value;
            && IsInt32(ids.smtId) && IsInt32(ids.coreId) && IsInt32(ids.packageId)
            && MasksDisjoint(SmtShift(raw), CoreShift(raw))
            && Unsigned32(ids.smtId) + Unsigned32(ids.coreId) + Unsigned32(ids.packageId) == ApicId(raw, 0)
            && Unsigned32(ids.apicId) == ApicId(raw, 0)
  {
    var x, s, c := ApicId(raw, 0), SmtShift(raw), CoreShift(raw);
    IdsAreParts(raw);
    PartsArithmetic(x, s, c);
    MasksDisjointIff(s, c);
  }

  predicate IsInt32(x: int) { -0x8000_0000 <= x < 0x8000_0000 }

  /** Distinct APIC IDs of one machine give distinct triples. */
  lemma {:induction false} TriplesDistinct(r1: Raw, r2: Raw)
    requires r1.WellFormed() && ApicIdSupported(r1) && OneApicId(r1) && SmtBeforeCore(r1)
    requires r2.WellFormed() && ApicIdSupported(r2) && OneApicId(r2) && SmtBeforeCore(r2)
    requires IdsX86(r1).Some? && SmtShift(r1) <= CoreShift(r1)
    requires IdsX86(r2).Some? && SmtShift(r2) <= CoreShift(r2)
    ensures var a, b := IdsX86(r1).value, IdsX86(r2).value;
            var sameTriple := a.smtId == b.smtId && a.coreId == b.coreId && a.packageId == b.packageId;
            && (sameTriple ==> ApicId(r1, 0) == ApicId(r2, 0))
            && (SmtShift(r1) == SmtShift(r2) && CoreShift(r1) == CoreShift(r2) ==>
                (sameTriple <==> ApicId(r1, 0) == ApicId(r2, 0)))
  {
    ApicDecomposition(r1);
    ApicDecomposition(r2);
    IdsAreParts(r1);
    IdsAreParts(r2);
  }
}

/**
  The IDs of a logical CPU by plain arithmetic on its registers, and who shares a type because of them.
 */
module RegisterIds {
  import opened Bits
  import opened Options
  import opened RawData
  import opened Topology
  import opened Enumeration
  import opened Grouping
  import opened IdentifyAll

  // ----- fields

  lemma {:induction false} ByteFields(x: nat)
    ensures Field(x, 7, 0) == x % 256
    ensures Field(x, 15, 8) == x / 256 % 256
    ensures Field(x, 23, 16) == x / 65536 % 256
  {
    Pow2Values();
  }

  lemma {:induction false} OtherFields(x: nat)
    ensures Field(x, 4, 0) == x % 32
    ensures Field(x, 15, 0) == x % 65536
    ensures Field(x, 24, 24) == x / 0x100_0000 % 2
    ensures Field(x, 30, 30) == x / 0x4000_0000 % 2
  {
    Pow2Values();
  }

  // ----- ARM

  /** No leaf 0 of CPUID, but a main ID register. */
  predicate IsArmRecord(raw: Raw)
    requires raw.WellFormed()
  {
    raw.leaves[BASIC_CPUID][0] == Regs(0, 0, 0, 0) && raw.arm[ARM_MIDR][0] != 0
  }

  /**
    An ARM record has IDs if its affinity register is not 0. A uniprocessor has core 0 and no package; with
    threads, the three low bytes are thread, core and package; else the two low bytes are core and package.
   */
  lemma {:induction false} ArmIds(raw: Raw, m: uint64)
    requires raw.WellFormed() && IsArmRecord(raw) && m == raw.arm[ARM_MPIDR][0]
    ensures IdentId(raw) ==
      if m == 0 then None
      else if m / 0x4000_0000 % 2 == 1 then Some(Ids(-1, -1, 0, -1))
      else if m / 0x100_0000 % 2 == 1 then Some(Ids(-1, m / 65536 % 256, m / 256 % 256, m % 256))
      else Some(Ids(-1, m / 256 % 256, m % 256, -1))
  {
    ByteFields(m);
    OtherFields(m);
  }

  /** The package in an affinity register. */
  function ArmPackage(m: uint64): int {
    if m / 0x4000_0000 % 2 == 1 then -1
    else if m / 0x100_0000 % 2 == 1 then m / 65536 % 256
    else m / 256 % 256
  }

  lemma {:induction false} ArmProbe(raws: seq<Raw>, purposeOf: Raw -> int, identify: Raw -> Identity, i: nat)
    requires AllWellFormed(raws) && i < |raws| && IsArmRecord(raws[i]) && raws[i].arm[ARM_MPIDR][0] != 0
    ensures var p := Probes(raws, purposeOf, identify)[i];
            && p.purpose == purposeOf(raws[i])
            && p.ids.Some? && p.ids.value.packageId == ArmPackage(raws[i].arm[ARM_MPIDR][0])
  {
    ArmIds(raws[i], raws[i].arm[ARM_MPIDR][0]);
  }

  /** Two ARM CPUs share a type exactly when they have one purpose and one package byte. */
  lemma {:induction false} ArmSameTypeIff(
      raws: seq<Raw>, purposeOf: Raw -> int, identify: Raw -> Identity, a: nat, b: nat)
    requires AllWellFormed(raws) && a <= b < |raws|
    requires forall i | 0 <= i <= b :: IsArmRecord(raws[i]) && raws[i].arm[ARM_MPIDR][0] != 0
    requires ProbesWellFormed(Probes(raws, purposeOf, identify)) && AllAgree(Probes(raws, purposeOf, identify))
    requires Run(Probes(raws, purposeOf, identify), true).Running?
    ensures SameType(Run(Probes(raws, purposeOf, identify), true).state.types, a, b) <==>
      && purposeOf(raws[a]) == purposeOf(raws[b])
      && ArmPackage(raws[a].arm[ARM_MPIDR][0]) == ArmPackage(raws[b].arm[ARM_MPIDR][0])
  {
    var probes := Probes(raws, purposeOf, identify);
    forall i | 0 <= i <= b
      ensures probes[i].ids.Some?
    {
      ArmProbe(raws, purposeOf, identify, i);
    }
    ArmProbe(raws, purposeOf, identify, a);
    ArmProbe(raws, purposeOf, identify, b);
    SameTypeIff(probes, a, b);
  }

  // ----- x86

  function ByteChar(v: uint32, shift: nat): char
    requires shift > 0
  {
    (v / shift % 256) as char
  }

  function WordText(v: uint32): string {
    [ByteChar(v, 1), ByteChar(v, 256), ByteChar(v, 65536), ByteChar(v, 0x100_0000)]
  }

  /** The vendor string: the bytes of EBX, EDX and ECX of leaf 0, the lowest first. */
  function VendorText(leaf0: Regs): string { WordText(leaf0.ebx) + WordText(leaf0.edx) + WordText(leaf0.ecx) }

  lemma {:induction false} SameWord(v: uint32, w: uint32)
    ensures WordText(v) == WordText(w) <==> v == w
  {
    if WordText(v) == WordText(w) {
      BytesOf(v);
      BytesOf(w);
      assert forall i | 0 <= i < 4 :: WordText(v)[i] == WordText(w)[i];
    }
  }

  lemma {:induction false} BytesOf(v: uint32)
    ensures v == WordText(v)[0] as int + 256 * WordText(v)[1] as int + 65536 * WordText(v)[2] as int
                 + 0x100_0000 * WordText(v)[3] as int
  {
    var b, c, d := v / 256, v / 65536, v / 0x100_0000;
    assert v == 256 * b + v % 256 && b == 256 * c + b % 256 && c == 256 * d + c % 256 && d == d % 256;
  }

  lemma {:induction false} SameTexts(a: Regs, b: string, c: string, d: string)
    requires |b| == |c| == |d| == 4
    ensures VendorText(a) == b + c + d <==>
      WordText(a.ebx) == b && WordText(a.edx) == c && WordText(a.ecx) == d
  {
    var t := VendorText(a);
    assert t[..4] == WordText(a.ebx) && t[4..8] == WordText(a.edx) && t[8..] == WordText(a.ecx);
    var u := b + c + d;
    assert u[..4] == b && u[4..8] == c && u[8..] == d;
  }

  /** The extended topology is read for these two vendors only. */
  lemma {:induction false} VendorIff(leaf0: Regs)
    ensures IsIntelOrAmd(leaf0) <==> VendorText(leaf0) == "GenuineIntel" || VendorText(leaf0) == "AuthenticAMD"
  {
    IntelText();
    AmdText();
    SameTexts(leaf0, "Genu", "ineI", "ntel");
    SameTexts(leaf0, "Auth", "enti", "cAMD");
    SameWord(leaf0.ebx, 0x756e6547);
    SameWord(leaf0.edx, 0x49656e69);
    SameWord(leaf0.ecx, 0x6c65746e);
    SameWord(leaf0.ebx, 0x68747541);
    SameWord(leaf0.edx, 0x69746e65);
    SameWord(leaf0.ecx, 0x444d4163);
  }

  lemma {:induction false} IntelText()
    ensures WordText(0x756e6547) == "Genu" && WordText(0x49656e69) == "ineI" && WordText(0x6c65746e) == "ntel"
    ensures "Genu" + "ineI" + "ntel" == "GenuineIntel"
  {
  }

  lemma {:induction false} AmdText()
    ensures WordText(0x68747541) == "Auth" && WordText(0x69746e65) == "enti" && WordText(0x444d4163) == "cAMD"
    ensures "Auth" + "enti" + "cAMD" == "AuthenticAMD"
  {
  }

  /** Subleaf `i` of leaf 0Bh. */
  function Subleaf(raw: Raw, i: nat): Regs
    requires raw.WellFormed() && i < 4
  {
    raw.leaves[INTEL_FN11][i]
  }

  /** Leaf 0Bh enumerates `n` levels, at most four. */
  predicate HasLevels(raw: Raw, n: nat)
    requires raw.WellFormed()
  {
    && n <= 4
    && (forall i: nat | i < n :: Subleaf(raw, i).eax != 0 && Subleaf(raw, i).ebx != 0)
    && (n < 4 ==> Subleaf(raw, n).eax == 0 || Subleaf(raw, n).ebx == 0)
  }

  lemma {:induction false} LevelsAre(raw: Raw, n: nat)
    requires raw.WellFormed()
    ensures HasLevels(raw, n) <==> n == Levels(raw)
  {
    assert forall i: nat | i < 4 :: Enumerated(raw, i) <==> Subleaf(raw, i).eax != 0 && Subleaf(raw, i).ebx != 0;
    assert HasLevels(raw, n) ==> n <= 4 && (forall i: nat | i < n :: Enumerated(raw, i)) && !Enumerated(raw, n);
  }

  /** A record of one of the two vendors with leaf 0Bh and logical CPUs at its first level. */
  predicate HasLeaf11(raw: Raw)
    requires raw.WellFormed()
  {
    var basic := raw.leaves[BASIC_CPUID];
    && (VendorText(basic[0]) == "GenuineIntel" || VendorText(basic[0]) == "AuthenticAMD")
    && basic[0].eax >= 11 && basic[11].ebx % 65536 != 0
  }

  lemma {:induction false} Leaf11Iff(raw: Raw)
    requires raw.WellFormed()
    ensures ApicIdSupported(raw) <==> HasLeaf11(raw)
  {
    VendorIff(raw.leaves[BASIC_CPUID][0]);
    OtherFields(raw.leaves[BASIC_CPUID][11].ebx);
  }

  /** An x86 record has IDs exactly with a usable leaf 0Bh whose last enumerated level has a type. */
  lemma {:induction false} X86HasIdsIff(raw: Raw)
    requires raw.WellFormed() && raw.leaves[BASIC_CPUID][0] != Regs(0, 0, 0, 0)
    ensures IdentId(raw).Some? <==>
      HasLeaf11(raw) && exists n: nat :: 0 < n <= 4 && HasLevels(raw, n) && Subleaf(raw, n - 1).ecx / 256 % 256 != 0
  {
    var n := Levels(raw);
    HasIdsX86Iff(raw);
    Leaf11Iff(raw);
    forall m: nat
      ensures HasLevels(raw, m) <==> m == n
    {
      LevelsAre(raw, m);
    }
    if n > 0 {
      ByteFields(Subleaf(raw, n - 1).ecx);
      assert HasLevels(raw, n);
    }
  }

  /** The two levels of current processors: threads at subleaf 0 and cores at subleaf 1, with one APIC ID. */
  predicate HasTwoLevels(raw: Raw)
    requires raw.WellFormed()
  {
    && HasLevels(raw, 2)
    && Subleaf(raw, 0).ecx / 256 % 256 == 1 && Subleaf(raw, 1).ecx / 256 % 256 == 2
    && Subleaf(raw, 0).edx == Subleaf(raw, 1).edx
  }

  lemma {:induction false} TwoLevelsAre(raw: Raw)
    requires raw.WellFormed() && HasTwoLevels(raw)
    ensures Levels(raw) == 2 && LevelType(raw, 0) == 1 && LevelType(raw, 1) == 2
    ensures Shift(raw, 0) == Subleaf(raw, 0).eax % 32 && CoreShift(raw) == Subleaf(raw, 1).eax % 32
    ensures SmtBeforeCore(raw) && SmtShift(raw) == Shift(raw, 0) && OneApicId(raw)
  {
    LevelsAre(raw, 2);
    ByteFields(Subleaf(raw, 0).ecx);
    ByteFields(Subleaf(raw, 1).ecx);
    OtherFields(Subleaf(raw, 0).eax);
    OtherFields(Subleaf(raw, 1).eax);
    assert LastLevel(raw, 2, LEVEL_CORE) == 1;
    assert LastLevel(raw, 1, LEVEL_SMT) == 0;
  }

  /** Then the IDs of x86 records are remainders of the APIC ID by the two shifts. */
  lemma {:induction false} TwoLevelIds(raw: Raw, x: uint32, s: nat, c: nat)
    requires raw.WellFormed() && HasLeaf11(raw) && HasTwoLevels(raw)
    requires x == Subleaf(raw, 0).edx && s == Subleaf(raw, 0).eax % 32 && c == Subleaf(raw, 1).eax % 32 && s <= c
    ensures IdentId(raw).Some?
    ensures var ids := IdentId(raw).value;
            && IsInt32(ids.apicId) && IsInt32(ids.packageId) && IsInt32(ids.coreId) && IsInt32(ids.smtId)
            && Unsigned32(ids.apicId) == x
            && Unsigned32(ids.packageId) == x - x % Pow2(c)
            && Unsigned32(ids.coreId) == x % Pow2(c) - x % Pow2(s)
            && Unsigned32(ids.smtId) == x % Pow2(s)
  {
    TwoLevelsAre(raw);
    Leaf11Iff(raw);
    VendorIff(raw.leaves[BASIC_CPUID][0]);
    HasIdsX86Iff(raw);
    IdsAreParts(raw);
    PartsArithmetic(x, s, c);
  }
}

/**
  The raw dump of one logical CPU (`cpu_raw_data_t`): eight tables of CPUID leaves and
  sixteen groups of ARM registers, in the order the structure declares them.
 */
module RawData {
  import opened Bits

  datatype Regs = Regs(eax: uint32, ebx: uint32, ecx: uint32, edx: uint32)

  const BASIC_CPUID := 0
  const EXT_CPUID := 1
  const INTEL_FN4 := 2
  const INTEL_FN11 := 3
  const INTEL_FN12H := 4
  const INTEL_FN14H := 5
  const AMD_FN8000001DH := 6
  const AMD_FN80000026H := 7
  const NUM_TABLES := 8

  const ARM_MIDR := 0
  const ARM_MPIDR := 1
  const ARM_REVIDR := 2
  const ARM_ID_AFR := 3
  const ARM_ID_DFR := 4
  const ARM_ID_ISAR := 5
  const ARM_ID_MMFR := 6
  const ARM_ID_PFR := 7
  const ARM_ID_AA64AFR := 8
  const ARM_ID_AA64DFR := 9
  const ARM_ID_AA64FPFR := 10
  const ARM_ID_AA64ISAR := 11
  const ARM_ID_AA64MMFR := 12
  const ARM_ID_AA64PFR := 13
  const ARM_ID_AA64SMFR := 14
  const ARM_ID_AA64ZFR := 15
  const NUM_ARM_GROUPS := 16

  /** The number of rows of a leaf table. */
  function Rows(table: int): nat
    requires 0 <= table < NUM_TABLES
  {
    if table <= 1 then 32 else if table == 2 then 8 else 4
  }

  /** The number of registers of an ARM group. */
  function Registers(group: int): nat
    requires 0 <= group < NUM_ARM_GROUPS
  {
    if group == 4 || group == 8 then 2
    else if group == 5 then 7
    else if group == 6 then 6
    else if group == 7 || group == 9 || group == 13 then 3
    else if group == 11 then 4
    else if group == 12 then 5
    else 1
  }

  /** AArch32 registers have 32 bits, the others 64. */
  predicate IsAArch32(group: int) { 3 <= group < 8 }

  function RegisterRange(group: int): nat {
    if IsAArch32(group) then UINT32_RANGE else UINT64_RANGE
  }

  predicate GroupFits(registers: seq<uint64>, group: int)
    requires 0 <= group < NUM_ARM_GROUPS
  {
    |registers| == Registers(group) && forall i | 0 <= i < |registers| :: registers[i] < RegisterRange(group)
  }

  datatype Raw = Raw(leaves: seq<seq<Regs>>, arm: seq<seq<uint64>>) {
    predicate WellFormed() {
      && |leaves| == NUM_TABLES
      && (forall t | 0 <= t < NUM_TABLES :: |leaves[t]| == Rows(t))
      && |arm| == NUM_ARM_GROUPS
      && (forall g | 0 <= g < NUM_ARM_GROUPS :: GroupFits(arm[g], g))
    }
  }

  predicate AllWellFormed(raws: seq<Raw>) { forall i | 0 <= i < |raws| :: raws[i].WellFormed() }

  function ZeroLeaves(): (z: seq<seq<Regs>>)
    ensures |z| == NUM_TABLES && forall t | 0 <= t < NUM_TABLES :: z[t] == seq(Rows(t), _ => Regs(0, 0, 0, 0))
  {
    seq(NUM_TABLES, t requires 0 <= t < NUM_TABLES => seq(Rows(t), _ => Regs(0, 0, 0, 0)))
  }

  function ZeroArm(): (z: seq<seq<uint64>>)
    ensures |z| == NUM_ARM_GROUPS && forall g | 0 <= g < NUM_ARM_GROUPS :: z[g] == seq(Registers(g), _ => 0)
  {
    seq(NUM_ARM_GROUPS, g requires 0 <= g < NUM_ARM_GROUPS => seq(Registers(g), _ => 0))
  }

  /** `raw_data_t_constructor` */
  function ZeroRaw(): (z: Raw)
    ensures z.WellFormed()
  {
    Raw(ZeroLeaves(), ZeroArm())
  }

  datatype Architecture = X86 | Arm | Unknown

  /** `cpuid_architecture_identify` */
  function ArchitectureOf(raw: Raw): Architecture
    requires raw.WellFormed()
  {
    if raw.leaves[BASIC_CPUID][0] != Regs(0, 0, 0, 0) then X86
    else if raw.arm[ARM_MIDR][0] != 0 then Arm
    else Unknown
  }
}

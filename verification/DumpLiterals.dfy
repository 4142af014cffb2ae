/**
  The raw dump as literal text: which lines are written where, and what each line means to the reader.
 */
module DumpLiterals {
  import opened Bits
  import opened Text
  import opened Scanning
  import opened RawData
  import opened DumpFormat
  import opened Aida64
  import opened Dump
  import opened RoundTrip
  import opened Aida64Reading

  // ----- reading leaf tables and registers

  /** The index and the four registers of a row, as they stand behind the name of its table. */
  function Cells(i: nat, r: Regs): string {
    "[" + Decimal(i) + "]=" + Hex(r.eax, 8, false) + " " + Hex(r.ebx, 8, false)
    + " " + Hex(r.ecx, 8, false) + " " + Hex(r.edx, 8, false)
  }

  lemma {:induction false} RegsTextIs(r: Regs)
    ensures RegsText(r) == Hex(r.eax, 8, false) + " " + Hex(r.ebx, 8, false)
                           + " " + Hex(r.ecx, 8, false) + " " + Hex(r.edx, 8, false)
  {
    var a, b, c, d := Hex(r.eax, 8, false), Hex(r.ebx, 8, false), Hex(r.ecx, 8, false), Hex(r.edx, 8, false);
    assert SpacedHex32(r.edx, "") == " " + d;
    assert SpacedHex32(r.ecx, " " + d) == " " + c + " " + d;
    assert SpacedHex32(r.ebx, " " + c + " " + d) == " " + b + " " + c + " " + d;
  }

  lemma {:induction false} RowTextIs(name: string, i: nat, r: Regs)
    ensures RowText(name + "[", i, r) == name + Cells(i, r)
  {
    RegsTextIs(r);
    var t := RegsText(r);
    assert Cells(i, r) == "[" + Decimal(i) + "]=" + t;
    assert IndexedRegsText(i, r) == Decimal(i) + "]=" + t;
  }

  /** Each leaf table is read from the lines with its name, up to the number of its rows. */
  lemma {:induction false} TableLineMeans(i: nat, r: Regs)
    requires i < 0x8000_0000
    ensures DataOf("basic_cpuid" + Cells(i, r)) == if i < 32 then Row(BASIC_CPUID, i, r) else NotUnderstood
    ensures DataOf("ext_cpuid" + Cells(i, r)) == if i < 32 then Row(EXT_CPUID, i, r) else NotUnderstood
    ensures DataOf("intel_fn4" + Cells(i, r)) == if i < 8 then Row(INTEL_FN4, i, r) else NotUnderstood
    ensures DataOf("intel_fn11" + Cells(i, r)) == if i < 4 then Row(INTEL_FN11, i, r) else NotUnderstood
    ensures DataOf("intel_fn12h" + Cells(i, r)) == if i < 4 then Row(INTEL_FN12H, i, r) else NotUnderstood
    ensures DataOf("intel_fn14h" + Cells(i, r)) == if i < 4 then Row(INTEL_FN14H, i, r) else NotUnderstood
    ensures DataOf("amd_fn8000001dh" + Cells(i, r)) == if i < 4 then Row(AMD_FN8000001DH, i, r) else NotUnderstood
    ensures DataOf("amd_fn80000026h" + Cells(i, r)) == if i < 4 then Row(AMD_FN80000026H, i, r) else NotUnderstood
  {
    NamedTableMeans("basic_cpuid", BASIC_CPUID, 32, i, r);
    NamedTableMeans("ext_cpuid", EXT_CPUID, 32, i, r);
    NamedTableMeans("intel_fn4", INTEL_FN4, 8, i, r);
    NamedTableMeans("intel_fn11", INTEL_FN11, 4, i, r);
    NamedTableMeans("intel_fn12h", INTEL_FN12H, 4, i, r);
    NamedTableMeans("intel_fn14h", INTEL_FN14H, 4, i, r);
    NamedTableMeans("amd_fn8000001dh", AMD_FN8000001DH, 4, i, r);
    NamedTableMeans("amd_fn80000026h", AMD_FN80000026H, 4, i, r);
  }

  lemma {:induction false} NamedTableMeans(name: string, table: int, rows: nat, i: nat, r: Regs)
    requires 0 <= table < 8 && name == TableNames()[table] && rows == Rows(table) && i < 0x8000_0000
    ensures DataOf(name + Cells(i, r)) == if i < rows then Row(table, i, r) else NotUnderstood
  {
    RowTextIs(name, i, r);
    RowLineData(table, i, r);
  }

  /** The index and the value of a register of 32 or 64 bits, as they stand behind the name of its group. */
  function Cell32(i: nat, v: uint64): string { Decimal(i) + "=" + Hex(v, 8, false) }
  function Cell64(i: nat, v: uint64): string { Decimal(i) + "=" + Hex(v, 16, false) }

  /** A register line that begins with the prefix of a group. */
  lemma {:induction false} RegisterMeans(prefix: string, group: int, i: nat, v: uint64)
    requires IsRegisterLine(group, i, v) && prefix == GroupPrefix(group)
    ensures group < 3 ==> DataOf(prefix + Hex(v, 16, false)) == Register(group, i, v)
    ensures 3 <= group < 8 ==> DataOf(prefix + Cell32(i, v)) == Register(group, i, v)
    ensures 8 <= group ==> DataOf(prefix + Cell64(i, v)) == Register(group, i, v)
  {
    RegisterLineData(group, i, v);
    RegisterTextIs(prefix, group, i, v);
  }

  lemma {:induction false} RegisterTextIs(prefix: string, group: int, i: nat, v: uint64)
    requires 0 <= group < NUM_ARM_GROUPS && prefix == GroupPrefix(group)
    ensures RegisterLine(group, i, v) == prefix +
      if group < 3 then Hex(v, 16, false) else if group < 8 then Cell32(i, v) else Cell64(i, v)
  {
    var value := Hex(v, RegisterWidth(group), false);
    assert value + "" == value;
    assert Decimal(i) + ("=" + value) == Decimal(i) + "=" + value;
  }

  /** Each single ARM register is read from the line with its name. */
  lemma {:induction false} SingleRegisterMeans(v: uint64)
    ensures DataOf("arm_midr=" + Hex(v, 16, false)) == Register(ARM_MIDR, 0, v)
    ensures DataOf("arm_mpidr=" + Hex(v, 16, false)) == Register(ARM_MPIDR, 0, v)
    ensures DataOf("arm_revidr=" + Hex(v, 16, false)) == Register(ARM_REVIDR, 0, v)
  {
    RegisterMeans("arm_midr=", ARM_MIDR, 0, v);
    RegisterMeans("arm_mpidr=", ARM_MPIDR, 0, v);
    RegisterMeans("arm_revidr=", ARM_REVIDR, 0, v);
  }

  /** Each group of AArch32 registers is read from the lines with its name. */
  lemma {:induction false} Register32Means(i: nat, v: uint32)
    requires i < 0x8000_0000
    ensures DataOf("arm_id_afr" + Cell32(i, v)) == Register(ARM_ID_AFR, i, v)
    ensures DataOf("arm_id_dfr" + Cell32(i, v)) == Register(ARM_ID_DFR, i, v)
    ensures DataOf("arm_id_isar" + Cell32(i, v)) == Register(ARM_ID_ISAR, i, v)
    ensures DataOf("arm_id_mmfr" + Cell32(i, v)) == Register(ARM_ID_MMFR, i, v)
    ensures DataOf("arm_id_pfr" + Cell32(i, v)) == Register(ARM_ID_PFR, i, v)
  {
    RegisterMeans("arm_id_afr", ARM_ID_AFR, i, v);
    RegisterMeans("arm_id_dfr", ARM_ID_DFR, i, v);
    RegisterMeans("arm_id_isar", ARM_ID_ISAR, i, v);
    RegisterMeans("arm_id_mmfr", ARM_ID_MMFR, i, v);
    RegisterMeans("arm_id_pfr", ARM_ID_PFR, i, v);
  }

  /** Each group of AArch64 registers is read from the lines with its name. */
  lemma {:induction false} Register64Means(i: nat, v: uint64)
    requires i < 0x8000_0000
    ensures DataOf("arm_id_aa64afr" + Cell64(i, v)) == Register(ARM_ID_AA64AFR, i, v)
    ensures DataOf("arm_id_aa64dfr" + Cell64(i, v)) == Register(ARM_ID_AA64DFR, i, v)
    ensures DataOf("arm_id_aa64fpfr" + Cell64(i, v)) == Register(ARM_ID_AA64FPFR, i, v)
    ensures DataOf("arm_id_aa64isar" + Cell64(i, v)) == Register(ARM_ID_AA64ISAR, i, v)
    ensures DataOf("arm_id_aa64mmfr" + Cell64(i, v)) == Register(ARM_ID_AA64MMFR, i, v)
    ensures DataOf("arm_id_aa64pfr" + Cell64(i, v)) == Register(ARM_ID_AA64PFR, i, v)
    ensures DataOf("arm_id_aa64smfr" + Cell64(i, v)) == Register(ARM_ID_AA64SMFR, i, v)
    ensures DataOf("arm_id_aa64zfr" + Cell64(i, v)) == Register(ARM_ID_AA64ZFR, i, v)
  {
    RegisterMeans("arm_id_aa64afr", ARM_ID_AA64AFR, i, v);
    RegisterMeans("arm_id_aa64dfr", ARM_ID_AA64DFR, i, v);
    RegisterMeans("arm_id_aa64fpfr", ARM_ID_AA64FPFR, i, v);
    RegisterMeans("arm_id_aa64isar", ARM_ID_AA64ISAR, i, v);
    RegisterMeans("arm_id_aa64mmfr", ARM_ID_AA64MMFR, i, v);
    RegisterMeans("arm_id_aa64pfr", ARM_ID_AA64PFR, i, v);
    RegisterMeans("arm_id_aa64smfr", ARM_ID_AA64SMFR, i, v);
    RegisterMeans("arm_id_aa64zfr", ARM_ID_AA64ZFR, i, v);
  }

  // ----- reading the other lines

  /** A CPU header makes its record current and zeroed records up to it; number 65535 has no record. */
  lemma {:induction false} AnyHeaderParsed(p: Parser, cpu: uint16)
    requires p.WellFormed() && p.dialect.Native? && |p.raws| < 65536
    ensures var r := ParseLine(p, "_________________ Logical CPU #" + Decimal(cpu) + " _________________", true);
            if cpu < |p.raws| then r == Reading(Parser(false, p.raws, true, cpu, Native))
            else if cpu == 65535 then r == Undefined
            else r == Reading(Parser(false, p.raws + seq(cpu + 1 - |p.raws|, _ => ZeroRaw()), true, cpu, Native))
  {
    var line := "_________________ Logical CPU #" + Decimal(cpu) + " _________________";
    assert line == HeaderLine(cpu);
    HeaderLineKind(cpu);
    HeaderScanned(cpu);
    CpuSelected(p, line, cpu);
  }

  lemma {:induction false} CpuSelected(p: Parser, line: string, cpu: uint16)
    requires p.WellFormed() && |p.raws| < 65536 && ScanHeader(line).Match? && ScanHeader(line).value == cpu
    ensures var r := ParseNative(p, line, true);
            if cpu < |p.raws| then r == Reading(Parser(false, p.raws, true, cpu, Native))
            else if cpu == 65535 then r == Undefined
            else r == Reading(Parser(false, p.raws + seq(cpu + 1 - |p.raws|, _ => ZeroRaw()), true, cpu, Native))
  {
    GrownTo(p.raws, cpu);
  }

  lemma {:induction false} GrownTo(raws: seq<Raw>, cpu: uint16)
    requires AllWellFormed(raws) && |raws| < 65536
    ensures Grow(raws, cpu + 1) ==
      if cpu < |raws| || cpu == 65535 then raws else raws + seq(cpu + 1 - |raws|, _ => ZeroRaw())
  {
    if cpu == |raws| - 1 {
      assert raws + Zeros(0) == raws;
    }
  }

  /** The single entry point ignores CPU headers. */
  lemma {:induction false} HeaderMeansNothing(p: Parser, cpu: uint16)
    requires p.WellFormed() && p.dialect.Native?
    ensures ParseLine(p, "_________________ Logical CPU #" + Decimal(cpu) + " _________________", false) == Reading(p)
  {
    assert "_________________ Logical CPU #" + Decimal(cpu) + " _________________" == HeaderLine(cpu);
    HeaderIgnored(p, cpu);
  }

  /** The version, if the header has not ended, is read into room for seven characters. */
  lemma {:induction false} VersionMeans(p: Parser, version: string, useArray: bool)
    requires p.WellFormed() && p.isHeader && p.dialect.Native? && version != "" && IsPlain(version)
    ensures ParseLine(p, "version=" + version, useArray) == if |version| <= 7 then Reading(p) else Undefined
  {
    assert VersionLine(version) == "version=" + version && VersionLine(version)[0] == 'v';
    VersionScanned(version);
  }

  /** A dump ends at a line of eighty dashes and nowhere else. */
  lemma {:induction false} EndsIff(p: Parser, line: string, useArray: bool)
    requires p.WellFormed()
    ensures ParseLine(p, line, useArray).Ended? <==> line == seq(80, _ => '-')
  {
    assert IsTestSeparator(line) <==> line == seq(80, _ => '-');
  }

  /** The lines that tell a dump of AIDA64. */
  lemma {:induction false} MarkerIff(line: string)
    ensures IsAida64Marker(line) <==>
      || line == "------[ Versions ]------"
      || line == "------[ Logical CPU #0 ]------"
      || line == "------[ CPUID Registers / Logical CPU #0 ]------"
      || line == "CPUID Registers (CPU #1):"
      || Contains(line, "CPU#000 AffMask: 0x")
  {
    VersionsMarkerIs();
    SectionMarkerIs();
    RegistersMarkerIs();
    NumberedMarkerIs();
    MaskMarkerIs();
    MarkersAre(line, "------[ Versions ]------", "------[ Logical CPU #0 ]------",
      "------[ CPUID Registers / Logical CPU #0 ]------", "CPUID Registers (CPU #1):", "CPU#000 AffMask: 0x");
  }

  lemma {:induction false} MarkersAre(
      line: string, versions: string, section: string, registers: string, numbered: string, mask: string)
    requires versions == VERSIONS_MARKER && section == CPU_HEADER + ("0" + SECTION_END)
    requires registers == REGISTERS_HEADER + ("0" + SECTION_END) && numbered == NUMBERED_HEADER + ("1" + "):")
    requires mask == MASK_MARKER
    ensures IsAida64Marker(line) <==>
      line == versions || line == section || line == registers || line == numbered || Contains(line, mask)
  {
  }

  lemma {:induction false} SectionMarkerIs()
    ensures CPU_HEADER + ("0" + SECTION_END) == "------[ Logical CPU #0 ]------"
  {
  }

  lemma {:induction false} RegistersMarkerIs()
    ensures REGISTERS_HEADER + ("0" + SECTION_END) == "------[ CPUID Registers / Logical CPU #0 ]------"
  {
    RegistersPrefixIs();
    assert "0" + SECTION_END == "0 ]------";
  }

  lemma {:induction false} NumberedMarkerIs()
    ensures NUMBERED_HEADER + ("1" + "):") == "CPUID Registers (CPU #1):"
  {
  }

  lemma {:induction false} VersionsMarkerIs()
    ensures VERSIONS_MARKER == "------[ Versions ]------"
  {
  }

  lemma {:induction false} MaskMarkerIs()
    ensures MASK_MARKER == "CPU#000 AffMask: 0x"
  {
  }

  /** The four headers of logical CPUs in a dump of AIDA64. */
  lemma {:induction false} HeaderTextIs(digits: string, tail: string)
    ensures HeaderText(CpuHeader(SectionForm, digits, tail)) == "------[ Logical CPU #" + digits + tail
    ensures HeaderText(CpuHeader(RegistersForm, digits, tail))
      == "------[ CPUID Registers / Logical CPU #" + digits + tail
    ensures HeaderText(CpuHeader(NumberedForm, digits, tail)) == "CPUID Registers (CPU #" + digits + tail
    ensures HeaderText(CpuHeader(MaskForm, digits, tail)) == "CPU#" + digits + tail
  {
    SectionPrefixIs();
    RegistersPrefixIs();
    NumberedPrefixIs();
    assert forall prefix: string :: prefix + (digits + tail) == prefix + digits + tail;
  }

  lemma {:induction false} SectionPrefixIs()
    ensures CPU_HEADER == "------[ Logical CPU #"
  {
  }

  lemma {:induction false} RegistersPrefixIs()
    ensures REGISTERS_HEADER == "------[ CPUID Registers / Logical CPU #"
  {
  }

  lemma {:induction false} NumberedPrefixIs()
    ensures NUMBERED_HEADER == "CPUID Registers (CPU #"
  {
  }

  // ----- leaves of AIDA64

  /** The four registers of a leaf, with digits in either case. */
  function Dashed(r: Regs, upper: bool): string {
    Hex(r.eax, 8, upper) + "-" + Hex(r.ebx, 8, upper) + "-" + Hex(r.ecx, 8, upper) + "-" + Hex(r.edx, 8, upper)
  }

  lemma {:induction false} DashedIs(r: Regs, upper: bool, rest: string)
    ensures LeafRegsText(r, upper, rest) == Dashed(r, upper) + rest
  {
    var a, b, c, d := Hex(r.eax, 8, upper), Hex(r.ebx, 8, upper), Hex(r.ecx, 8, upper), Hex(r.edx, 8, upper);
    assert DashedText(r.edx, upper, rest) == "-" + d + rest;
    assert DashedText(r.ecx, upper, "-" + d + rest) == "-" + c + "-" + d + rest;
    assert DashedText(r.ebx, upper, "-" + c + "-" + d + rest) == "-" + b + "-" + c + "-" + d + rest;
  }

  lemma {:induction false} LeafLineIs(l: Leaf, separator: string, upper: bool)
    requires IsPrintable(l)
    ensures LeafLine(l, separator, upper)
      == "CPUID " + Hex(l.leaf, 8, upper) + separator + Dashed(l.regs, upper) + SubleafText(l)
  {
    DashedIs(l.regs, upper, SubleafText(l));
    var n, t, s := Hex(l.leaf, 8, upper), Dashed(l.regs, upper), SubleafText(l);
    assert n + (separator + (t + s)) == n + separator + t + s;
  }

  /** The row of a leaf that has one: the leaves 0h to 1Fh and 80000000h to 8000001Fh. */
  function OwnRow(leaf: uint32, r: Regs): seq<Data> {
    if leaf < 32 then [Row(BASIC_CPUID, leaf, r)]
    else if 0x8000_0000 <= leaf < 0x8000_0020 then [Row(EXT_CPUID, leaf - 0x8000_0000, r)]
    else []
  }

  /** What a line of a leaf without a subleaf assigns. */
  lemma {:induction false} LeafLineMeans(leaf: uint32, r: Regs, separator: string, upper: bool)
    requires separator == ": " || separator == "  \t "
    ensures LeafLineItems("CPUID " + Hex(leaf, 8, upper) + separator + Dashed(r, upper)) == OwnRow(leaf, r)
  {
    var l := Plain(leaf, r);
    LeafLineIs(l, separator, upper);
    LeafLineRead(l, separator, upper);
    var line := "CPUID " + Hex(leaf, 8, upper) + separator + Dashed(r, upper);
    assert line + "" == line;
  }

  /** What a line of a subleaf assigns: 08 and 09 are taken for 0, and six leaves have a table of their own. */
  lemma {:induction false} SubleafLineMeans(leaf: uint32, r: Regs, n: nat, separator: string, upper: bool)
    requires (separator == ": " || separator == "  \t ") && n < 100
    ensures var subleaf := " [SL " + [HexDigit(n / 10, false), HexDigit(n % 10, false)] + "]";
            var items := LeafLineItems("CPUID " + Hex(leaf, 8, upper) + separator + Dashed(r, upper) + subleaf);
            var i := if n == 8 || n == 9 then 0 else n;
            var own := if i == 0 then OwnRow(leaf, r) else [];
            && (leaf == 0x4 ==> items == own + [Row(INTEL_FN4, i, r)])
            && (leaf == 0xB ==> items == own + [Row(INTEL_FN11, i, r)])
            && (leaf == 0x12 ==> items == own + [Row(INTEL_FN12H, i, r)])
            && (leaf == 0x14 ==> items == own + [Row(INTEL_FN14H, i, r)])
            && (leaf == 0x8000_001D ==> items == own + [Row(AMD_FN8000001DH, i, r)])
            && (leaf == 0x8000_0026 ==> items == own + [Row(AMD_FN80000026H, i, r)])
            && (leaf !in {0x4, 0xB, 0x12, 0x14, 0x8000_001D, 0x8000_0026} ==> items == own)
  {
    var l := WithSubleaf(leaf, r, n);
    LeafLineIs(l, separator, upper);
    LeafLineRead(l, separator, upper);
    assert SubleafText(l) == " [SL " + [HexDigit(n / 10, false), HexDigit(n % 10, false)] + "]";
  }

  // ----- writing

  lemma {:induction false} DataLineAt(items: seq<Data>, k: nat)
    ensures |DataLines(items)| == |items|
    ensures k < |items| ==> DataLines(items)[k] == DataLine(items[k])
    decreases |items|
  {
    if items != [] {
      DataLineAt(items[1..], if k > 0 then k - 1 else k);
    }
  }

  lemma {:induction false} RowItemAt(raw: Raw, table: int, from: nat, i: nat)
    requires raw.WellFormed() && 0 <= table < NUM_TABLES && from <= i <= Rows(table)
    ensures |RowItems(raw, table, from)| == Rows(table) - from
    ensures i < Rows(table) ==> RowItems(raw, table, from)[i - from] == Row(table, i, raw.leaves[table][i])
    decreases Rows(table) - from
  {
    if from < Rows(table) {
      RowItemAt(raw, table, from + 1, if from < i then i else from + 1);
    }
  }

  lemma {:induction false} RegisterItemAt(raw: Raw, group: int, from: nat, i: nat)
    requires raw.WellFormed() && 0 <= group < NUM_ARM_GROUPS && from <= i <= Registers(group)
    ensures |RegisterItems(raw, group, from)| == Registers(group) - from
    ensures i < Registers(group) ==>
      RegisterItems(raw, group, from)[i - from] == Register(group, i, raw.arm[group][i])
    decreases Registers(group) - from
  {
    if from < Registers(group) {
      RegisterItemAt(raw, group, from + 1, if from < i then i else from + 1);
    }
  }

  /** The number of the first line of a leaf table among those of a record. */
  function TableStart(table: nat): nat
    requires table <= NUM_TABLES
  {
    if table == 0 then 0 else TableStart(table - 1) + Rows(table - 1)
  }

  lemma {:induction false} DropMore<T>(all: seq<T>, at: nat, own: seq<T>, later: seq<T>)
    requires at <= |all| && all[at..] == own + later
    ensures at + |own| <= |all| && all[at + |own|..] == later
  {
    assert all[at + |own|..] == all[at..][|own|..];
  }

  lemma {:induction false} ItemBehind<T>(all: seq<T>, at: nat, own: seq<T>, later: seq<T>, i: nat)
    requires at <= |all| && all[at..] == own + later && i < |own|
    ensures at + i < |all| && all[at + i] == own[i]
  {
    assert all[at + i] == all[at..][i];
  }

  lemma {:induction false} TableItemsFrom(raw: Raw, table: nat)
    requires raw.WellFormed() && table <= NUM_TABLES
    ensures var items := TableItems(raw, 0);
            TableStart(table) <= |items| && items[TableStart(table)..] == TableItems(raw, table)
  {
    if table > 0 {
      TableItemsFrom(raw, table - 1);
      RowItemAt(raw, table - 1, 0, 0);
      DropMore(TableItems(raw, 0), TableStart(table - 1), RowItems(raw, table - 1, 0), TableItems(raw, table));
    }
  }

  lemma {:induction false} TableItemAt(raw: Raw, table: nat, i: nat)
    requires raw.WellFormed() && table < NUM_TABLES && i < Rows(table)
    ensures var items := TableItems(raw, 0);
            TableStart(table) + i < |items| && items[TableStart(table) + i] == Row(table, i, raw.leaves[table][i])
  {
    TableItemsFrom(raw, table);
    RowItemAt(raw, table, 0, i);
    ItemBehind(TableItems(raw, 0), TableStart(table), RowItems(raw, table, 0), TableItems(raw, table + 1), i);
  }

  /** The number of the first line of a register group among those of a record. */
  function GroupStart(group: nat): nat
    requires group <= NUM_ARM_GROUPS
  {
    if group == 0 then 0 else GroupStart(group - 1) + Registers(group - 1)
  }

  lemma {:induction false} GroupItemsFrom(raw: Raw, group: nat)
    requires raw.WellFormed() && group <= NUM_ARM_GROUPS
    ensures var items := GroupItems(raw, 0);
            GroupStart(group) <= |items| && items[GroupStart(group)..] == GroupItems(raw, group)
  {
    if group > 0 {
      GroupItemsFrom(raw, group - 1);
      RegisterItemAt(raw, group - 1, 0, 0);
      DropMore(GroupItems(raw, 0), GroupStart(group - 1), RegisterItems(raw, group - 1, 0), GroupItems(raw, group));
    }
  }

  lemma {:induction false} GroupItemAt(raw: Raw, group: nat, i: nat)
    requires raw.WellFormed() && group < NUM_ARM_GROUPS && i < Registers(group)
    ensures var items := GroupItems(raw, 0);
            GroupStart(group) + i < |items| && items[GroupStart(group) + i] == Register(group, i, raw.arm[group][i])
  {
    GroupItemsFrom(raw, group);
    RegisterItemAt(raw, group, 0, i);
    ItemBehind(GroupItems(raw, 0), GroupStart(group), RegisterItems(raw, group, 0), GroupItems(raw, group + 1), i);
  }

  // ----- what the lines of a dump show

  /** From some line on, the rows of a table by its name. */
  ghost predicate ShowsRows(lines: seq<string>, start: nat, name: string, rows: seq<Regs>) {
    start + |rows| <= |lines| && forall i | 0 <= i < |rows| :: lines[start + i] == name + Cells(i, rows[i])
  }

  /** From some line on, the registers of an AArch32 or AArch64 group by its name. */
  ghost predicate Shows32(lines: seq<string>, start: nat, name: string, registers: seq<uint64>) {
    && start + |registers| <= |lines|
    && forall i | 0 <= i < |registers| :: lines[start + i] == name + Cell32(i, registers[i])
  }

  ghost predicate Shows64(lines: seq<string>, start: nat, name: string, registers: seq<uint64>) {
    && start + |registers| <= |lines|
    && forall i | 0 <= i < |registers| :: lines[start + i] == name + Cell64(i, registers[i])
  }

  /** All leaf tables of a record. */
  ghost predicate ShowsLeaves(lines: seq<string>, raw: Raw)
    requires raw.WellFormed()
  {
    && |lines| == 92
    && ShowsRows(lines, 0, "basic_cpuid", raw.leaves[BASIC_CPUID])
    && ShowsRows(lines, 32, "ext_cpuid", raw.leaves[EXT_CPUID])
    && ShowsRows(lines, 64, "intel_fn4", raw.leaves[INTEL_FN4])
    && ShowsRows(lines, 72, "intel_fn11", raw.leaves[INTEL_FN11])
    && ShowsRows(lines, 76, "intel_fn12h", raw.leaves[INTEL_FN12H])
    && ShowsRows(lines, 80, "intel_fn14h", raw.leaves[INTEL_FN14H])
    && ShowsRows(lines, 84, "amd_fn8000001dh", raw.leaves[AMD_FN8000001DH])
    && ShowsRows(lines, 88, "amd_fn80000026h", raw.leaves[AMD_FN80000026H])
  }

  /** All ARM registers of a record. */
  ghost predicate ShowsRegisters(lines: seq<string>, raw: Raw)
    requires raw.WellFormed()
  {
    && |lines| == 42
    && lines[0] == "arm_midr=" + Hex(raw.arm[ARM_MIDR][0], 16, false)
    && lines[1] == "arm_mpidr=" + Hex(raw.arm[ARM_MPIDR][0], 16, false)
    && lines[2] == "arm_revidr=" + Hex(raw.arm[ARM_REVIDR][0], 16, false)
    && Shows32(lines, 3, "arm_id_afr", raw.arm[ARM_ID_AFR])
    && Shows32(lines, 4, "arm_id_dfr", raw.arm[ARM_ID_DFR])
    && Shows32(lines, 6, "arm_id_isar", raw.arm[ARM_ID_ISAR])
    && Shows32(lines, 13, "arm_id_mmfr", raw.arm[ARM_ID_MMFR])
    && Shows32(lines, 19, "arm_id_pfr", raw.arm[ARM_ID_PFR])
    && Shows64(lines, 22, "arm_id_aa64afr", raw.arm[ARM_ID_AA64AFR])
    && Shows64(lines, 24, "arm_id_aa64dfr", raw.arm[ARM_ID_AA64DFR])
    && Shows64(lines, 27, "arm_id_aa64fpfr", raw.arm[ARM_ID_AA64FPFR])
    && Shows64(lines, 28, "arm_id_aa64isar", raw.arm[ARM_ID_AA64ISAR])
    && Shows64(lines, 32, "arm_id_aa64mmfr", raw.arm[ARM_ID_AA64MMFR])
    && Shows64(lines, 37, "arm_id_aa64pfr", raw.arm[ARM_ID_AA64PFR])
    && Shows64(lines, 40, "arm_id_aa64smfr", raw.arm[ARM_ID_AA64SMFR])
    && Shows64(lines, 41, "arm_id_aa64zfr", raw.arm[ARM_ID_AA64ZFR])
  }

  lemma {:induction false} TableLineAt(raw: Raw, table: nat, i: nat)
    requires raw.WellFormed() && table < NUM_TABLES && i < Rows(table)
    ensures var lines := DataLines(TableItems(raw, 0));
            && TableStart(table) + i < |lines|
            && lines[TableStart(table) + i] == TableNames()[table] + Cells(i, raw.leaves[table][i])
  {
    TableItemAt(raw, table, i);
    DataLineAt(TableItems(raw, 0), TableStart(table) + i);
    RowTextIs(TableNames()[table], i, raw.leaves[table][i]);
  }

  lemma {:induction false} TableShown(raw: Raw, table: nat, last: nat)
    requires raw.WellFormed() && table < NUM_TABLES && last == Rows(table) - 1
    ensures ShowsRows(DataLines(TableItems(raw, 0)), TableStart(table), TableNames()[table], raw.leaves[table])
  {
    forall i: nat | i < Rows(table)
      ensures var lines := DataLines(TableItems(raw, 0));
              && TableStart(table) + i < |lines|
              && lines[TableStart(table) + i] == TableNames()[table] + Cells(i, raw.leaves[table][i])
    {
      TableLineAt(raw, table, i);
    }
    TableLineAt(raw, table, last);
  }

  lemma {:induction false} TableStarts()
    ensures TableStart(0) == 0 && TableStart(1) == 32 && TableStart(2) == 64 && TableStart(3) == 72
    ensures TableStart(4) == 76 && TableStart(5) == 80 && TableStart(6) == 84 && TableStart(7) == 88
    ensures TableStart(8) == 92
  {
  }

  lemma {:induction false} LeavesShown(raw: Raw)
    requires raw.WellFormed()
    ensures ShowsLeaves(DataLines(TableItems(raw, 0)), raw)
  {
    TableStarts();
    TableItemsFrom(raw, NUM_TABLES);
    DataLineAt(TableItems(raw, 0), 0);
    forall table: nat | table < NUM_TABLES
      ensures ShowsRows(DataLines(TableItems(raw, 0)), TableStart(table), TableNames()[table], raw.leaves[table])
    {
      TableShown(raw, table, Rows(table) - 1);
    }
  }

  lemma {:induction false} GroupLineAt(raw: Raw, group: nat, i: nat)
    requires raw.WellFormed() && group < NUM_ARM_GROUPS && i < Registers(group)
    ensures var lines := DataLines(GroupItems(raw, 0));
            && GroupStart(group) + i < |lines|
            && lines[GroupStart(group) + i] == RegisterLine(group, i, raw.arm[group][i])
  {
    var items := GroupItems(raw, 0);
    GroupItemAt(raw, group, i);
    assert items[GroupStart(group) + i] == Register(group, i, raw.arm[group][i]);
    DataLineAt(items, GroupStart(group) + i);
  }

  lemma {:induction false} GroupShown(raw: Raw, group: nat, name: string, start: nat, registers: nat)
    requires raw.WellFormed() && 3 <= group < NUM_ARM_GROUPS && name == GroupPrefix(group)
    requires start == GroupStart(group) && registers == Registers(group)
    ensures if group < 8 then Shows32(DataLines(GroupItems(raw, 0)), start, name, raw.arm[group])
            else Shows64(DataLines(GroupItems(raw, 0)), start, name, raw.arm[group])
  {
    var lines := DataLines(GroupItems(raw, 0));
    forall i: nat | i < registers
      ensures start + i < |lines|
      ensures lines[start + i] == name +
        if group < 8 then Cell32(i, raw.arm[group][i]) else Cell64(i, raw.arm[group][i])
    {
      GroupLineAt(raw, group, i);
      RegisterTextIs(name, group, i, raw.arm[group][i]);
    }
    GroupLineAt(raw, group, registers - 1);
  }

  lemma {:induction false} GroupStarts()
    ensures GroupStart(0) == 0 && GroupStart(1) == 1 && GroupStart(2) == 2 && GroupStart(3) == 3
    ensures GroupStart(4) == 4 && GroupStart(5) == 6 && GroupStart(6) == 13 && GroupStart(7) == 19
    ensures GroupStart(8) == 22 && GroupStart(9) == 24 && GroupStart(10) == 27 && GroupStart(11) == 28
    ensures GroupStart(12) == 32 && GroupStart(13) == 37 && GroupStart(14) == 40 && GroupStart(15) == 41
    ensures GroupStart(16) == 42
  {
  }

  lemma {:induction false} SingleShown(raw: Raw, group: nat, prefix: string)
    requires raw.WellFormed() && group < 3 && prefix == GroupPrefix(group) && GroupStart(group) == group
    ensures var lines := DataLines(GroupItems(raw, 0));
            group < |lines| && lines[group] == prefix + Hex(raw.arm[group][0], 16, false)
  {
    GroupLineAt(raw, group, 0);
    RegisterTextIs(prefix, group, 0, raw.arm[group][0]);
  }

  lemma {:induction false} SinglesShown(raw: Raw)
    requires raw.WellFormed()
    ensures var lines := DataLines(GroupItems(raw, 0));
            && |lines| >= 3
            && lines[0] == "arm_midr=" + Hex(raw.arm[ARM_MIDR][0], 16, false)
            && lines[1] == "arm_mpidr=" + Hex(raw.arm[ARM_MPIDR][0], 16, false)
            && lines[2] == "arm_revidr=" + Hex(raw.arm[ARM_REVIDR][0], 16, false)
  {
    GroupStarts();
    SingleShown(raw, ARM_MIDR, "arm_midr=");
    SingleShown(raw, ARM_MPIDR, "arm_mpidr=");
    SingleShown(raw, ARM_REVIDR, "arm_revidr=");
  }

  lemma {:induction false} Groups32Shown(raw: Raw)
    requires raw.WellFormed()
    ensures Shows32(DataLines(GroupItems(raw, 0)), 3, "arm_id_afr", raw.arm[ARM_ID_AFR])
    ensures Shows32(DataLines(GroupItems(raw, 0)), 4, "arm_id_dfr", raw.arm[ARM_ID_DFR])
    ensures Shows32(DataLines(GroupItems(raw, 0)), 6, "arm_id_isar", raw.arm[ARM_ID_ISAR])
    ensures Shows32(DataLines(GroupItems(raw, 0)), 13, "arm_id_mmfr", raw.arm[ARM_ID_MMFR])
    ensures Shows32(DataLines(GroupItems(raw, 0)), 19, "arm_id_pfr", raw.arm[ARM_ID_PFR])
  {
    GroupStarts();
    GroupShown(raw, ARM_ID_AFR, "arm_id_afr", 3, 1);
    GroupShown(raw, ARM_ID_DFR, "arm_id_dfr", 4, 2);
    GroupShown(raw, ARM_ID_ISAR, "arm_id_isar", 6, 7);
    GroupShown(raw, ARM_ID_MMFR, "arm_id_mmfr", 13, 6);
    GroupShown(raw, ARM_ID_PFR, "arm_id_pfr", 19, 3);
  }

  lemma {:induction false} Groups64Shown(raw: Raw)
    requires raw.WellFormed()
    ensures Shows64(DataLines(GroupItems(raw, 0)), 22, "arm_id_aa64afr", raw.arm[ARM_ID_AA64AFR])
    ensures Shows64(DataLines(GroupItems(raw, 0)), 24, "arm_id_aa64dfr", raw.arm[ARM_ID_AA64DFR])
    ensures Shows64(DataLines(GroupItems(raw, 0)), 27, "arm_id_aa64fpfr", raw.arm[ARM_ID_AA64FPFR])
    ensures Shows64(DataLines(GroupItems(raw, 0)), 28, "arm_id_aa64isar", raw.arm[ARM_ID_AA64ISAR])
    ensures Shows64(DataLines(GroupItems(raw, 0)), 32, "arm_id_aa64mmfr", raw.arm[ARM_ID_AA64MMFR])
    ensures Shows64(DataLines(GroupItems(raw, 0)), 37, "arm_id_aa64pfr", raw.arm[ARM_ID_AA64PFR])
    ensures Shows64(DataLines(GroupItems(raw, 0)), 40, "arm_id_aa64smfr", raw.arm[ARM_ID_AA64SMFR])
    ensures Shows64(DataLines(GroupItems(raw, 0)), 41, "arm_id_aa64zfr", raw.arm[ARM_ID_AA64ZFR])
  {
    GroupStarts();
    GroupShown(raw, ARM_ID_AA64AFR, "arm_id_aa64afr", 22, 2);
    GroupShown(raw, ARM_ID_AA64DFR, "arm_id_aa64dfr", 24, 3);
    GroupShown(raw, ARM_ID_AA64FPFR, "arm_id_aa64fpfr", 27, 1);
    GroupShown(raw, ARM_ID_AA64ISAR, "arm_id_aa64isar", 28, 4);
    GroupShown(raw, ARM_ID_AA64MMFR, "arm_id_aa64mmfr", 32, 5);
    GroupShown(raw, ARM_ID_AA64PFR, "arm_id_aa64pfr", 37, 3);
    GroupShown(raw, ARM_ID_AA64SMFR, "arm_id_aa64smfr", 40, 1);
    GroupShown(raw, ARM_ID_AA64ZFR, "arm_id_aa64zfr", 41, 1);
  }

  lemma {:induction false} RegistersShown(raw: Raw)
    requires raw.WellFormed()
    ensures ShowsRegisters(DataLines(GroupItems(raw, 0)), raw)
  {
    GroupStarts();
    GroupItemsFrom(raw, NUM_ARM_GROUPS);
    DataLineAt(GroupItems(raw, 0), 0);
    SinglesShown(raw);
    Groups32Shown(raw);
    Groups64Shown(raw);
  }

  /** The data lines of a record, in a dump that begins with some record. */
  ghost predicate ShowsData(lines: seq<string>, raw: Raw, first: Raw)
    requires raw.WellFormed() && first.WellFormed()
  {
    if first.leaves[BASIC_CPUID][0] != Regs(0, 0, 0, 0) then ShowsLeaves(lines, raw)
    else if first.arm[ARM_MIDR][0] != 0 then ShowsRegisters(lines, raw)
    else lines == []
  }

  lemma {:induction false} DataShown(raw: Raw, first: Raw)
    requires raw.WellFormed() && first.WellFormed()
    ensures ShowsData(DataLines(DataItems(raw, ArchitectureOf(first))), raw, first)
  {
    LeavesShown(raw);
    RegistersShown(raw);
  }

  /** The lines written for one record. */
  lemma {:induction false} SingleDumpShows(raw: Raw, version: string)
    requires raw.WellFormed()
    ensures var lines := DumpOfSingle(raw, version);
            |lines| > 0 && lines[0] == "version=" + version && ShowsData(lines[1..], raw, raw)
  {
    DataShown(raw, raw);
    assert DumpOfSingle(raw, version)[1..] == DataLines(DataItems(raw, ArchitectureOf(raw)));
  }

  /** The number of lines of each record: those of its data, an empty line and a header. */
  ghost function BlockSize(first: Raw): nat
    requires first.WellFormed()
  {
    if first.leaves[BASIC_CPUID][0] != Regs(0, 0, 0, 0) then 94
    else if first.arm[ARM_MIDR][0] != 0 then 44
    else 2
  }

  /** An empty line, a header, and the data lines of a record. */
  ghost predicate ShowsCpu(block: seq<string>, raw: Raw, cpu: nat, first: Raw)
    requires raw.WellFormed() && first.WellFormed()
  {
    && |block| == BlockSize(first)
    && block[0] == ""
    && block[1] == "_________________ Logical CPU #" + Decimal(cpu) + " _________________"
    && ShowsData(block[2..], raw, first)
  }

  lemma {:induction false} PartsOf(header: string, data: seq<string>)
    ensures var block := [""] + ([header] + data);
            |block| == |data| + 2 && block[0] == "" && block[1] == header && block[2..] == data
  {
  }

  lemma {:induction false} HeaderIs(cpu: nat)
    ensures HeaderLine(cpu) == "_________________ Logical CPU #" + Decimal(cpu) + " _________________"
  {
  }

  lemma {:induction false} BlockIs(raw: Raw, cpu: nat, first: Raw)
    requires raw.WellFormed() && first.WellFormed()
    ensures ShowsCpu(CpuLines(raw, cpu, ArchitectureOf(first)), raw, cpu, first)
  {
    DataShown(raw, first);
    PartsOf(HeaderLine(cpu), DataLines(DataItems(raw, ArchitectureOf(first))));
    HeaderIs(cpu);
  }

  lemma {:induction false} ArrayLinesLength(raws: seq<Raw>, first: Raw, n: nat, size: nat)
    requires AllWellFormed(raws) && first.WellFormed() && n <= |raws| && size == BlockSize(first)
    ensures |ArrayLines(raws, n, ArchitectureOf(first))| == size * n
    decreases n
  {
    if n > 0 {
      ArrayLinesLength(raws, first, n - 1, size);
      BlockIs(raws[n - 1], n - 1, first);
      assert size * n == size * (n - 1) + size;
    }
  }

  ghost predicate HasBlock(lines: seq<string>, at: nat, block: seq<string>) {
    at + |block| <= |lines| && lines[at..at + |block|] == block
  }

  lemma {:induction false} BlockAdded(lines: seq<string>, block: seq<string>)
    ensures HasBlock(lines + block, |lines|, block)
  {
  }

  lemma {:induction false} BlockStays(lines: seq<string>, at: nat, block: seq<string>, more: seq<string>)
    requires HasBlock(lines, at, block)
    ensures HasBlock(lines + more, at, block)
    ensures HasBlock(more + lines, |more| + at, block)
  {
  }

  lemma {:induction false} NextBlock(raws: seq<Raw>, n: nat, architecture: Architecture)
    requires AllWellFormed(raws) && n < |raws|
    ensures ArrayLines(raws, n + 1, architecture)
      == ArrayLines(raws, n, architecture) + CpuLines(raws[n], n, architecture)
  {
  }

  lemma {:induction false} BlockAt(raws: seq<Raw>, n: nat, cpu: nat, architecture: Architecture)
    requires AllWellFormed(raws) && cpu < n <= |raws|
    ensures HasBlock(ArrayLines(raws, n, architecture), |ArrayLines(raws, cpu, architecture)|,
                     CpuLines(raws[cpu], cpu, architecture))
    decreases n
  {
    NextBlock(raws, n - 1, architecture);
    if cpu == n - 1 {
      BlockAdded(ArrayLines(raws, cpu, architecture), CpuLines(raws[cpu], cpu, architecture));
    } else {
      BlockAt(raws, n - 1, cpu, architecture);
      BlockStays(ArrayLines(raws, n - 1, architecture), |ArrayLines(raws, cpu, architecture)|,
        CpuLines(raws[cpu], cpu, architecture), CpuLines(raws[n - 1], n - 1, architecture));
    }
  }

  lemma {:induction false} ArrayDumpLength(raws: seq<Raw>, version: string, size: nat)
    requires AllWellFormed(raws) && raws != [] && size == BlockSize(raws[0])
    ensures |DumpOfArray(raws, version)| == 1 + size * |raws|
  {
    ArrayLinesLength(raws, raws[0], |raws|, size);
  }

  lemma {:induction false} BlockBehind(first: string, lines: seq<string>, at: nat, block: seq<string>)
    requires HasBlock(lines, at, block)
    ensures HasBlock([first] + lines, 1 + at, block)
  {
    BlockStays(lines, at, block, [first]);
  }

  /** The lines written for an array: after the version, a block of equal size for each record. */
  lemma {:induction false} ArrayDumpShows(raws: seq<Raw>, version: string, cpu: nat, at: nat, size: nat)
    requires AllWellFormed(raws) && cpu < |raws| && size == BlockSize(raws[0]) && at == size * cpu
    ensures var lines := DumpOfArray(raws, version);
            && |lines| == 1 + size * |raws| && 1 + at + size <= |lines|
            && lines[0] == "version=" + version
            && ShowsCpu(lines[1 + at..1 + at + size], raws[cpu], cpu, raws[0])
  {
    var architecture := ArchitectureOf(raws[0]);
    var all, block := ArrayLines(raws, |raws|, architecture), CpuLines(raws[cpu], cpu, architecture);
    ArrayDumpLength(raws, version, size);
    ArrayLinesLength(raws, raws[0], cpu, size);
    BlockAt(raws, |raws|, cpu, architecture);
    BlockBehind(VersionLine(version), all, at, block);
    BlockIs(raws[cpu], cpu, raws[0]);
    assert DumpOfArray(raws, version) == [VersionLine(version)] + all;
  }
}

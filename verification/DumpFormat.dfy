/**
  The line formats of the raw dump: one `printf` and one `sscanf` format per leaf table, per group
  of ARM registers, and for the header of a logical CPU.
 */
module DumpFormat {
  import opened Bits
  import opened Text
  import opened Scanning
  import opened RawData

  function TableNames(): (names: seq<string>)
    ensures |names| == NUM_TABLES
  {
    ["basic_cpuid", "ext_cpuid", "intel_fn4", "intel_fn11", "intel_fn12h", "intel_fn14h",
     "amd_fn8000001dh", "amd_fn80000026h"]
  }

  function GroupNames(): (names: seq<string>)
    ensures |names| == NUM_ARM_GROUPS
  {
    ["arm_midr", "arm_mpidr", "arm_revidr",
     "arm_id_afr", "arm_id_dfr", "arm_id_isar", "arm_id_mmfr", "arm_id_pfr",
     "arm_id_aa64afr", "arm_id_aa64dfr", "arm_id_aa64fpfr", "arm_id_aa64isar",
     "arm_id_aa64mmfr", "arm_id_aa64pfr", "arm_id_aa64smfr", "arm_id_aa64zfr"]
  }

  /** MIDR, MPIDR and REVIDR are single registers without an index. */
  predicate IsScalar(group: int) { group < 3 }

  /** The literal text a format begins with. */
  function TablePrefix(table: int): string
    requires 0 <= table < NUM_TABLES
  {
    TableNames()[table] + "["
  }

  function GroupPrefix(group: int): string
    requires 0 <= group < NUM_ARM_GROUPS
  {
    if IsScalar(group) then GroupNames()[group] + "=" else GroupNames()[group]
  }

  const VERSION_PREFIX := "version="
  const HEADER_PREFIX := "_________________ Logical CPU #"
  const HEADER_SUFFIX := " _________________"

  // ----- printing

  function Hex32(v: uint32): string { Hex(v, 8, false) }

  function SpacedHex32(v: uint32, rest: string): string { " " + (Hex32(v) + rest) }

  /** "%08x %08x %08x %08x" */
  function RegsText(r: Regs): string {
    Hex32(r.eax) + SpacedHex32(r.ebx, SpacedHex32(r.ecx, SpacedHex32(r.edx, "")))
  }

  /** "%d]=%08x %08x %08x %08x" */
  function IndexedRegsText(i: nat, r: Regs): string { Decimal(i) + ("]=" + RegsText(r)) }

  function RowText(prefix: string, i: nat, r: Regs): string { prefix + IndexedRegsText(i, r) }

  function RowLine(table: int, i: nat, r: Regs): string
    requires 0 <= table < NUM_TABLES
  {
    RowText(TablePrefix(table), i, r)
  }

  function RegisterWidth(group: int): nat { if IsAArch32(group) then 8 else 16 }

  /** A prefix followed by "%016lx" for a single register, else by "%d=%08x" or "%d=%016lx". */
  function RegisterText(prefix: string, scalar: bool, i: nat, v: uint64, width: nat): string {
    if scalar then prefix + (Hex(v, width, false) + "")
    else prefix + (Decimal(i) + ("=" + (Hex(v, width, false) + "")))
  }

  function RegisterLine(group: int, i: nat, v: uint64): string
    requires 0 <= group < NUM_ARM_GROUPS
  {
    RegisterText(GroupPrefix(group), IsScalar(group), i, v, RegisterWidth(group))
  }

  function HeaderLine(cpu: nat): string {
    HEADER_PREFIX + (Decimal(cpu) + HEADER_SUFFIX)
  }

  function VersionLine(version: string): string { VERSION_PREFIX + version }

  // ----- scanning

  /** "%x%x%x%x" */
  function RegsFormat(): Format { Unsigned(16, Unsigned(16, Unsigned(16, Unsigned(16, End)))) }

  /** "%d]=%x%x%x%x" */
  function RowTail(): Format { Signed(Literal("]=", RegsFormat())) }

  function RowFormat(table: int): Format
    requires 0 <= table < NUM_TABLES
  {
    Literal(TablePrefix(table), RowTail())
  }

  /** "name=%x" for a single register, else "name%d=%x". */
  function RegisterFormat(group: int): Format
    requires 0 <= group < NUM_ARM_GROUPS
  {
    Literal(GroupPrefix(group), RegisterTail(IsScalar(group)))
  }

  function RegisterTail(scalar: bool): Format {
    if scalar then Unsigned(16, End) else Signed(Literal("=", Unsigned(16, End)))
  }

  /** The last literal follows the only conversion, so it need not match. */
  function HeaderFormat(): Format { Literal(HEADER_PREFIX, Unsigned(10, End)) }

  function StoredInt(long: int): int { Int32(long % UINT32_RANGE) }
  function StoredUInt32(long: int): uint32 { long % UINT32_RANGE }

  /** Five values assigned: the index and four registers. */
  function StoreRow(r: Scanned<Values>): Scanned<(int, Regs)> {
    match r
    case Match(Cons(i, Cons(a, Cons(b, Cons(c, Cons(d, None))))), rest) =>
      Match((StoredInt(i), Regs(StoredUInt32(a), StoredUInt32(b), StoredUInt32(c), StoredUInt32(d))), rest)
    case _ => NoMatch
  }

  /** A register, and its index unless it is a single one. */
  function StoreRegister(group: int, r: Scanned<Values>): (s: Scanned<(int, nat)>)
    ensures s.Match? ==> s.value.1 < RegisterRange(group)
  {
    match r
    case Match(Cons(v, None), rest) => if IsScalar(group) then Match((0, v % RegisterRange(group)), rest) else NoMatch
    case Match(Cons(i, Cons(v, None)), rest) =>
      if IsScalar(group) then NoMatch else Match((StoredInt(i), v % RegisterRange(group)), rest)
    case _ => NoMatch
  }

  function StoreCpu(r: Scanned<Values>): Scanned<uint16> {
    match r
    case Match(Cons(cpu, None), rest) => Match(cpu % UINT16_RANGE, rest)
    case _ => NoMatch
  }

  function ScanRow(line: string, table: int): Scanned<(int, Regs)>
    requires 0 <= table < NUM_TABLES
  {
    StoreRow(Scan(line, RowFormat(table)))
  }

  function ScanRegister(line: string, group: int): Scanned<(int, nat)>
    requires 0 <= group < NUM_ARM_GROUPS
  {
    StoreRegister(group, Scan(line, RegisterFormat(group)))
  }

  function ScanHeader(line: string): Scanned<uint16> { StoreCpu(Scan(line, HeaderFormat())) }

  function ScanVersion(line: string): Scanned<string> {
    var (_, s1) :- ScanLiteral(line, VERSION_PREFIX);
    ScanWord(s1)
  }

  /** What a data line assigns. */
  datatype Data = Row(table: int, i: int, regs: Regs) | Register(group: int, i: int, value: nat) | NotUnderstood

  /** The chain of leaf-table formats, in source order; an index out of range falls through. */
  function RowOf(line: string, table: int): (d: Data)
    requires 0 <= table <= NUM_TABLES
    ensures d.Row? ==> 0 <= d.table < NUM_TABLES && 0 <= d.i < Rows(d.table)
    ensures !d.Register?
    decreases |line|, NUM_TABLES - table
  {
    if table == NUM_TABLES then NotUnderstood
    else
      match ScanRow(line, table)
      case Match((i, regs), _) => if 0 <= i < Rows(table) then Row(table, i, regs) else RowOf(line, table + 1)
      case NoMatch => RowOf(line, table + 1)
  }

  /** The chain of register formats; the index is not checked. */
  function RegisterOf(line: string, group: int): (d: Data)
    requires 0 <= group <= NUM_ARM_GROUPS
    ensures d.Register? ==> 0 <= d.group < NUM_ARM_GROUPS && d.value < RegisterRange(d.group)
    ensures !d.Row?
    decreases |line|, NUM_ARM_GROUPS - group
  {
    if group == NUM_ARM_GROUPS then NotUnderstood
    else
      match ScanRegister(line, group)
      case Match((i, v), _) => Register(group, i, v)
      case NoMatch => RegisterOf(line, group + 1)
  }

  function DataOf(line: string): (d: Data)
    ensures d.Row? ==> 0 <= d.table < NUM_TABLES && 0 <= d.i < Rows(d.table)
    ensures d.Register? ==> 0 <= d.group < NUM_ARM_GROUPS && d.value < RegisterRange(d.group)
  {
    var d := RowOf(line, 0);
    if d.Row? then d else RegisterOf(line, 0)
  }

  // ----- a line is read back by its own format

  lemma {:induction false} Pow16Constants()
    ensures Pow16(8) == UINT32_RANGE && Pow16(16) == UINT64_RANGE
  {
  }

  lemma {:induction false} RegsScanned(r: Regs)
    ensures Scan(RegsText(r), RegsFormat()) == Match(Cons(r.eax, Cons(r.ebx, Cons(r.ecx, Cons(r.edx, None)))), "")
  {
    var f1 := Unsigned(16, End);
    var f2 := Unsigned(16, f1);
    var f3 := Unsigned(16, f2);
    var s4 := SpacedHex32(r.edx, "");
    var s3 := SpacedHex32(r.ecx, s4);
    var s2 := SpacedHex32(r.ebx, s3);
    Pow16Constants();
    HexScanned(r.eax, 8, s2, f3);
    HexScanned(r.ebx, 8, s3, f2);
    HexScanned(r.ecx, 8, s4, f1);
    HexScanned(r.edx, 8, "", End);
  }

  lemma {:induction false} RowTailScanned(i: nat, r: Regs)
    requires i < 0x8000_0000
    ensures Scan(IndexedRegsText(i, r), RowTail())
      == Match(Cons(i, Cons(r.eax, Cons(r.ebx, Cons(r.ecx, Cons(r.edx, None))))), "")
  {
    IndexScanned(i, "]=" + RegsText(r), Literal("]=", RegsFormat()));
    LiteralScanned("]=", RegsText(r), RegsFormat());
    RegsScanned(r);
  }

  lemma {:induction false} RowValues(table: int, i: nat, r: Regs)
    requires 0 <= table < NUM_TABLES && i < 0x8000_0000
    ensures Scan(RowLine(table, i, r), RowFormat(table))
      == Match(Cons(i, Cons(r.eax, Cons(r.ebx, Cons(r.ecx, Cons(r.edx, None))))), "")
  {
    TablePrefixesArePlain();
    LiteralScanned(TablePrefix(table), IndexedRegsText(i, r), RowTail());
    RowTailScanned(i, r);
  }

  lemma {:induction false} RowStored(i: nat, r: Regs)
    requires i < 0x8000_0000
    ensures StoreRow(Match(Cons(i, Cons(r.eax, Cons(r.ebx, Cons(r.ecx, Cons(r.edx, None))))), "")) == Match((i, r), "")
  {
  }

  lemma {:induction false} RowScanned(table: int, i: nat, r: Regs)
    requires 0 <= table < NUM_TABLES && i < 0x8000_0000
    ensures ScanRow(RowLine(table, i, r), table) == Match((i, r), "")
  {
    RowValues(table, i, r);
    RowStored(i, r);
  }

  /** A value of the width of a register; single registers have no index, the others any that fits an int. */
  predicate IsRegisterLine(group: int, i: nat, v: uint64) {
    && 0 <= group < NUM_ARM_GROUPS && v < RegisterRange(group)
    && if IsScalar(group) then i == 0 else i < 0x8000_0000
  }

  /** What follows the literal text of a register line. */
  function RegisterRest(group: int, i: nat, v: uint64): string {
    var value := Hex(v, RegisterWidth(group), false) + "";
    if IsScalar(group) then value else Decimal(i) + ("=" + value)
  }

  lemma {:induction false} RegisterTailScanned(group: int, i: nat, v: uint64)
    requires IsRegisterLine(group, i, v)
    ensures Scan(RegisterRest(group, i, v), RegisterTail(IsScalar(group)))
      == Match(if IsScalar(group) then Cons(v, None) else Cons(i, Cons(v, None)), "")
  {
    var width := RegisterWidth(group);
    var value := Hex(v, width, false) + "";
    Pow16Constants();
    HexScanned(v, width, "", End);
    if !IsScalar(group) {
      IndexScanned(i, "=" + value, Literal("=", Unsigned(16, End)));
      LiteralScanned("=", value, Unsigned(16, End));
    }
  }

  lemma {:induction false} RegisterValues(group: int, i: nat, v: uint64)
    requires IsRegisterLine(group, i, v)
    ensures Scan(RegisterLine(group, i, v), RegisterFormat(group))
      == Match(if IsScalar(group) then Cons(v, None) else Cons(i, Cons(v, None)), "")
  {
    GroupPrefixesArePlain(group);
    LiteralScanned(GroupPrefix(group), RegisterRest(group, i, v), RegisterTail(IsScalar(group)));
    RegisterTailScanned(group, i, v);
  }

  lemma {:induction false} RegisterStored(group: int, i: nat, v: uint64)
    requires IsRegisterLine(group, i, v)
    ensures StoreRegister(group, Match(if IsScalar(group) then Cons(v, None) else Cons(i, Cons(v, None)), ""))
      == Match((i, v), "")
  {
  }

  lemma {:induction false} RegisterScanned(group: int, i: nat, v: uint64)
    requires IsRegisterLine(group, i, v)
    ensures ScanRegister(RegisterLine(group, i, v), group) == Match((i, v), "")
  {
    RegisterValues(group, i, v);
    RegisterStored(group, i, v);
  }

  lemma {:induction false} HeaderValues(cpu: uint16)
    ensures Scan(HeaderLine(cpu), HeaderFormat()) == Match(Cons(cpu, None), HEADER_SUFFIX)
  {
    HeaderLiteral(Decimal(cpu) + HEADER_SUFFIX);
    CpuNumberScanned(cpu, HEADER_SUFFIX, End);
  }

  lemma {:induction false} CpuStored(cpu: uint16, rest: string)
    ensures StoreCpu(Match(Cons(cpu, None), rest)) == Match(cpu, rest)
  {
  }

  lemma {:induction false} HeaderScanned(cpu: uint16)
    ensures ScanHeader(HeaderLine(cpu)) == Match(cpu, HEADER_SUFFIX)
  {
    HeaderValues(cpu);
    CpuStored(cpu, HEADER_SUFFIX);
  }

  /** The spaces of the header format match the spaces printed. */
  lemma {:induction false} HeaderLiteral(rest: string)
    ensures ScanLiteral(HEADER_PREFIX + rest, HEADER_PREFIX) == Match((), rest)
  {
    LiteralMatchesItself(HEADER_PREFIX, rest);
  }

  // ----- no other format reads it

  /** A position at which the literal texts of two leaf tables differ. */
  function TableMark(a: int, b: int): nat
    requires 0 <= a < b < NUM_TABLES
  {
    if a == 2 && b <= 5 then 8
    else if 3 <= a && b <= 5 then 9
    else if a == 6 then 12
    else 0
  }

  /** A position at which the literal texts of two register groups differ. */
  function GroupMark(a: int, b: int): nat
    requires 0 <= a < b < NUM_ARM_GROUPS
  {
    if b < 2 then 5
    else if a < 3 then 4
    else if b < 8 then 7
    else if a == 3 then 8
    else if a < 8 then 7
    else 11
  }

  lemma {:induction false} TablePrefixesArePlain()
    ensures forall t | 0 <= t < NUM_TABLES :: IsPlain(TablePrefix(t))
  {
  }

  lemma {:induction false} GroupPrefixesArePlain(group: int)
    requires 0 <= group < NUM_ARM_GROUPS
    ensures IsPlain(GroupPrefix(group))
  {
    var name := GroupNames()[group];
    assert forall i | 0 <= i < |name| :: !IsSpace(name[i]);
  }

  /** Text that begins with a longer literal is not read by a format whose literal differs within it. */
  lemma {:induction false} OtherLiteralFails(own: string, rest: string, other: string, k: nat)
    requires k < |own| && k < |other| && own[k] != other[k] && IsPlain(other)
    ensures forall next :: Scan(own + rest, Literal(other, next)) == NoMatch
  {
    assert forall i | 0 <= i <= k :: other[i] in other;
    LiteralFails(own + rest, other, k);
  }

  lemma {:induction false} OtherTextFails(own: string, rest: string, other: string, k: nat, next: Format)
    requires k < |own| && k < |other| && own[k] != other[k] && IsPlain(other)
    ensures Scan(own + rest, Literal(other, next)) == NoMatch
  {
    OtherLiteralFails(own, rest, other, k);
  }

  /** No other leaf-table format reads a line of a leaf table. */
  lemma {:induction false} OtherTableFails(table: int, other: int, i: nat, r: Regs)
    requires 0 <= table < NUM_TABLES && 0 <= other < NUM_TABLES && other != table
    ensures ScanRow(RowLine(table, i, r), other) == NoMatch
  {
    TablePrefixesArePlain();
    var k := if other < table then TableMark(other, table) else TableMark(table, other);
    OtherTextFails(TablePrefix(table), IndexedRegsText(i, r), TablePrefix(other), k, RowTail());
  }

  lemma {:induction false} RowLineIsRow(table: int, i: nat, r: Regs, from: nat)
    requires 0 <= table < NUM_TABLES && from <= NUM_TABLES && i < 0x8000_0000
    ensures RowOf(RowLine(table, i, r), from)
      == if from <= table && i < Rows(table) then Row(table, i, r) else NotUnderstood
    decreases NUM_TABLES - from
  {
    if from < NUM_TABLES {
      RowLineIsRow(table, i, r, from + 1);
      if from == table {
        RowScanned(table, i, r);
      } else {
        OtherTableFails(table, from, i, r);
      }
    }
  }

  lemma {:induction false} NoGroupReadsRow(table: int, i: nat, r: Regs, group: int)
    requires 0 <= table < NUM_TABLES && 0 <= group < NUM_ARM_GROUPS
    ensures ScanRegister(RowLine(table, i, r), group) == NoMatch
  {
    GroupPrefixesArePlain(group);
    PrefixesPart(table, group);
    var k := if table < 6 then 0 else 1;
    OtherTextFails(TablePrefix(table), IndexedRegsText(i, r), GroupPrefix(group), k, RegisterTail(IsScalar(group)));
  }

  lemma {:induction false} PrefixesPart(table: int, group: int)
    requires 0 <= table < NUM_TABLES && 0 <= group < NUM_ARM_GROUPS
    ensures var a, b, k := TablePrefix(table), GroupPrefix(group), if table < 6 then 0 else 1;
            k < |a| && k < |b| && a[k] != b[k]
  {
  }

  /** No register format reads a line of a leaf table. */
  lemma {:induction false} RowLineIsNoRegister(table: int, i: nat, r: Regs, from: nat)
    requires 0 <= table < NUM_TABLES && from <= NUM_ARM_GROUPS
    ensures RegisterOf(RowLine(table, i, r), from) == NotUnderstood
    decreases NUM_ARM_GROUPS - from
  {
    if from < NUM_ARM_GROUPS {
      NoGroupReadsRow(table, i, r, from);
      RowLineIsNoRegister(table, i, r, from + 1);
    }
  }

  /** A line of a leaf table is understood as the row it was printed from, if the table has that row. */
  lemma {:induction false} RowLineData(table: int, i: nat, r: Regs)
    requires 0 <= table < NUM_TABLES && i < 0x8000_0000
    ensures DataOf(RowLine(table, i, r)) == if i < Rows(table) then Row(table, i, r) else NotUnderstood
  {
    RowLineIsRow(table, i, r, 0);
    RowLineIsNoRegister(table, i, r, 0);
  }

  /** No leaf-table format reads a register line. */
  lemma {:induction false} RegisterLineIsNoRow(group: int, i: nat, v: uint64, from: nat)
    requires 0 <= group < NUM_ARM_GROUPS && from <= NUM_TABLES
    ensures RowOf(RegisterLine(group, i, v), from) == NotUnderstood
    decreases NUM_TABLES - from
  {
    TablePrefixesArePlain();
    if from < NUM_TABLES {
      var k := if from < 6 then 0 else 1;
      OtherLiteralFails(GroupPrefix(group), RegisterRest(group, i, v), TablePrefix(from), k);
      RegisterLineIsNoRow(group, i, v, from + 1);
    }
  }

  lemma {:induction false} GroupsDiffer(a: int, b: int)
    requires 0 <= a < b < NUM_ARM_GROUPS
    ensures var k := GroupMark(a, b);
            k < |GroupPrefix(a)| && k < |GroupPrefix(b)| && GroupPrefix(a)[k] != GroupPrefix(b)[k]
  {
  }

  lemma {:induction false} OtherGroupFails(group: int, other: int, i: nat, v: uint64)
    requires 0 <= other < group < NUM_ARM_GROUPS
    ensures ScanRegister(RegisterLine(group, i, v), other) == NoMatch
  {
    GroupPrefixesArePlain(other);
    GroupsDiffer(other, group);
    var next := RegisterTail(IsScalar(other));
    OtherTextFails(GroupPrefix(group), RegisterRest(group, i, v), GroupPrefix(other), GroupMark(other, group), next);
  }

  lemma {:induction false} RegisterLineIsRegister(group: int, i: nat, v: uint64, from: nat)
    requires IsRegisterLine(group, i, v) && from <= group
    ensures RegisterOf(RegisterLine(group, i, v), from) == Register(group, i, v)
    decreases group - from
  {
    if from == group {
      RegisterScanned(group, i, v);
    } else {
      OtherGroupFails(group, from, i, v);
      RegisterLineIsRegister(group, i, v, from + 1);
    }
  }

  /** A register line is understood as the register it was printed from. */
  lemma {:induction false} RegisterLineData(group: int, i: nat, v: uint64)
    requires IsRegisterLine(group, i, v)
    ensures DataOf(RegisterLine(group, i, v)) == Register(group, i, v)
  {
    RegisterLineIsNoRow(group, i, v, 0);
    RegisterLineIsRegister(group, i, v, 0);
  }
}

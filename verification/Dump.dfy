/**
  The raw dump as text: what `cpuid_serialize_raw_data_internal` writes, and the line-by-line state
  machine of `cpuid_deserialize_raw_data_internal`.
 */
module Dump {
  import opened Bits
  import opened Text
  import opened RawData
  import opened DumpFormat
  import opened Aida64

  // ----- writing

  /** The data a record shows, in the order of its lines. */
  function RowItems(raw: Raw, table: int, i: nat): seq<Data>
    requires raw.WellFormed() && 0 <= table < NUM_TABLES && i <= Rows(table)
    decreases |raw.leaves[table]| - i
  {
    if i == Rows(table) then [] else [Row(table, i, raw.leaves[table][i])] + RowItems(raw, table, i + 1)
  }

  function TableItems(raw: Raw, table: int): seq<Data>
    requires raw.WellFormed() && 0 <= table <= NUM_TABLES
    decreases |raw.leaves| - table
  {
    if table == NUM_TABLES then [] else RowItems(raw, table, 0) + TableItems(raw, table + 1)
  }

  function RegisterItems(raw: Raw, group: int, i: nat): seq<Data>
    requires raw.WellFormed() && 0 <= group < NUM_ARM_GROUPS && i <= Registers(group)
    decreases |raw.arm[group]| - i
  {
    if i == Registers(group) then []
    else [Register(group, i, raw.arm[group][i])] + RegisterItems(raw, group, i + 1)
  }

  function GroupItems(raw: Raw, group: int): seq<Data>
    requires raw.WellFormed() && 0 <= group <= NUM_ARM_GROUPS
    decreases |raw.arm| - group
  {
    if group == NUM_ARM_GROUPS then [] else RegisterItems(raw, group, 0) + GroupItems(raw, group + 1)
  }

  /** All data of one record; the architecture is that of the first record of the dump. */
  function DataItems(raw: Raw, architecture: Architecture): seq<Data>
    requires raw.WellFormed()
  {
    match architecture
    case X86 => TableItems(raw, 0)
    case Arm => GroupItems(raw, 0)
    case Unknown => []
  }

  /** The line of one row or register. */
  function DataLine(d: Data): string {
    match d
    case Row(table, i, regs) => if 0 <= table < NUM_TABLES && i >= 0 then RowLine(table, i, regs) else ""
    case Register(group, i, value) =>
      if 0 <= group < NUM_ARM_GROUPS && i >= 0 && 0 <= value < UINT64_RANGE then RegisterLine(group, i, value) else ""
    case NotUnderstood => ""
  }

  function DataLines(items: seq<Data>): seq<string>
    decreases |items|
  {
    if items == [] then [] else [DataLine(items[0])] + DataLines(items[1..])
  }

  /** An empty line, the header of the logical CPU, and its data. */
  function CpuLines(raw: Raw, cpu: nat, architecture: Architecture): seq<string>
    requires raw.WellFormed()
  {
    [""] + ([HeaderLine(cpu)] + DataLines(DataItems(raw, architecture)))
  }

  function ArrayLines(raws: seq<Raw>, n: nat, architecture: Architecture): seq<string>
    requires AllWellFormed(raws) && n <= |raws|
  {
    if n == 0 then [] else ArrayLines(raws, n - 1, architecture) + CpuLines(raws[n - 1], n - 1, architecture)
  }

  /** All lines written for an array of records. */
  function DumpOfArray(raws: seq<Raw>, version: string): seq<string>
    requires AllWellFormed(raws) && raws != []
  {
    [VersionLine(version)] + ArrayLines(raws, |raws|, ArchitectureOf(raws[0]))
  }

  /** All lines written for a single record. */
  function DumpOfSingle(raw: Raw, version: string): seq<string>
    requires raw.WellFormed()
  {
    [VersionLine(version)] + DataLines(DataItems(raw, ArchitectureOf(raw)))
  }

  /** The file contents: every line ends with a newline. */
  function Join(lines: seq<string>): string {
    if lines == [] then "" else lines[0] + "\n" + Join(lines[1..])
  }

  // ----- reading lines: fgets into a buffer of 100 characters

  const LINE_ROOM := 99

  /** How many characters `fgets` takes: up to a newline, and at most 99. */
  function TakeLine(text: string, room: nat): (n: nat)
    ensures n <= |text| && n <= room && (text != "" && room > 0 ==> n > 0)
    decreases |text|, room
  {
    if text == "" || room == 0 then 0
    else if text[0] == '\n' then 1
    else 1 + TakeLine(text[1..], room - 1)
  }

  /** The string in the buffer after the newline is cut off. */
  function CutLine(buffer: string): (line: string)
    ensures |line| <= |buffer|
  {
    if buffer == "" || buffer[0] == '\n' || buffer[0] == NUL then "" else [buffer[0]] + CutLine(buffer[1..])
  }

  function Lines(text: string): seq<string>
    decreases |text|
  {
    if text == "" then []
    else
      var n := TakeLine(text, LINE_ROOM);
      [CutLine(text[..n])] + Lines(text[n..])
  }

  // ----- parsing

  /** The dialect of the dump; AIDA64 may number the logical CPUs from an offset. */
  datatype Dialect = Native | Aida64(offset: uint16)

  /**
    The variables of the parser. The single entry point works on one record (`raws` has length 1 and
    the cursor stays 0); the array entry point starts with no record and no cursor (-1).
   */
  datatype Parser = Parser(isHeader: bool, raws: seq<Raw>, withAffinity: bool, cursor: int, dialect: Dialect) {
    predicate WellFormed() { AllWellFormed(raws) && -1 <= cursor }
  }

  /**
    A parse goes on, has met the end marker, or has left what the C code defines: a write through no
    record or past the end of an array.
   */
  datatype Parsing = Reading(parser: Parser) | Ended(parser: Parser) | Undefined

  /** A line of eighty dashes ends the dump and begins the expected test results. */
  predicate IsTestSeparator(line: string) {
    |line| == 80 && forall i | 0 <= i < |line| :: line[i] == '-'
  }

  predicate IsAida64Marker(line: string) {
    || line == VERSIONS_MARKER
    || line == CPU_HEADER + ("0" + SECTION_END)
    || line == REGISTERS_HEADER + ("0" + SECTION_END)
    || line == NUMBERED_HEADER + ("1" + "):")
    || Contains(line, MASK_MARKER)
  }

  function Zeros(n: nat): (raws: seq<Raw>)
    ensures |raws| == n && AllWellFormed(raws) && forall i | 0 <= i < n :: raws[i] == ZeroRaw()
  {
    seq(n, _ => ZeroRaw())
  }

  /** `cpuid_grow_raw_data_array`; its argument is a 16-bit number. */
  function Grow(raws: seq<Raw>, n: int): (raws': seq<Raw>)
    requires AllWellFormed(raws) && n >= 0
    ensures AllWellFormed(raws')
  {
    var n16 := n % UINT16_RANGE;
    if n16 == 0 || n16 < |raws| then raws else raws + Zeros(n16 - |raws|)
  }

  /** A row or register the record has. */
  predicate Fits(d: Data) {
    match d
    case Row(table, i, _) => 0 <= table < NUM_TABLES && 0 <= i < Rows(table)
    case Register(group, i, value) =>
      0 <= group < NUM_ARM_GROUPS && 0 <= i < Registers(group) && 0 <= value < RegisterRange(group)
    case NotUnderstood => false
  }

  function Store(raw: Raw, d: Data): (raw': Raw)
    requires raw.WellFormed() && Fits(d)
    ensures raw'.WellFormed()
  {
    match d
    case Row(table, i, regs) => raw.(leaves := raw.leaves[table := raw.leaves[table][i := regs]])
    case Register(group, i, value) =>
      var registers: seq<uint64> := raw.arm[group][i := value];
      raw.(arm := raw.arm[group := registers])
  }

  /** Assigns a row or register of the record under the cursor. */
  function Assign(p: Parser, d: Data): (r: Parsing)
    requires p.WellFormed()
    ensures r.Reading? ==> r.parser.WellFormed()
    ensures !r.Ended?
  {
    if d.NotUnderstood? then Reading(p)
    else if 0 <= p.cursor < |p.raws| && Fits(d) then
      Reading(p.(raws := p.raws[p.cursor := Store(p.raws[p.cursor], d)]))
    else Undefined
  }

  /** The native branch: a CPU header (array entry only) or a data line. */
  function ParseNative(p: Parser, line: string, useArray: bool): (r: Parsing)
    requires p.WellFormed()
    ensures r.Reading? ==> r.parser.WellFormed()
    ensures !r.Ended?
  {
    if useArray && ScanHeader(line).Match? then
      var cpu := ScanHeader(line).value;
      var raws := Grow(p.raws, cpu + 1);
      if cpu < |raws| then Reading(Parser(false, raws, true, cpu, Native)) else Undefined
    else Assign(p, DataOf(line))
  }

  /** Assigns rows in turn. */
  function AssignAll(p: Parser, items: seq<Data>): (r: Parsing)
    requires p.WellFormed()
    ensures r.Reading? ==> r.parser.WellFormed()
    ensures !r.Ended?
    decreases |items|
  {
    if items == [] then Reading(p)
    else
      var r := Assign(p, items[0]);
      if r.Reading? then AssignAll(r.parser, items[1..]) else r
  }

  /** The AIDA64 branch: the first CPU header (array entry only) sets the offset of the CPU numbers. */
  function ParseAida64(p: Parser, line: string, useArray: bool): (r: Parsing)
    requires p.WellFormed() && p.dialect.Aida64?
    ensures r.Reading? ==> r.parser.WellFormed()
    ensures !r.Ended?
  {
    if useArray && ScanAnyCpu(line).Match? then
      var number := ScanAnyCpu(line).value;
      var offset: uint16 := if p.raws == [] && number >= 1 then number else p.dialect.offset;
      var cpu := (number - offset) % UINT16_RANGE;
      var raws := Grow(p.raws, cpu + 1);
      if cpu < |raws| then Reading(Parser(false, raws, true, cpu, Aida64(offset))) else Undefined
    else AssignAll(p, LeafLineItems(line))
  }

  /** A row before any CPU header: the dump has one record. */
  function FirstRecord(p: Parser, useArray: bool): (p': Parser)
    requires p.WellFormed()
    ensures p'.WellFormed()
  {
    if useArray then Parser(false, Grow(p.raws, 1), false, 0, Native) else p.(isHeader := false)
  }

  /** The version is read into a buffer of eight characters. */
  const VERSION_ROOM := 7

  /** One iteration of the loop. */
  function ParseLine(p: Parser, line: string, useArray: bool): (r: Parsing)
    requires p.WellFormed()
    ensures r.Reading? || r.Ended? ==> r.parser.WellFormed()
  {
    if line == "" then Reading(p)
    else if IsTestSeparator(line) then Ended(p)
    else if p.dialect.Aida64? then ParseAida64(p, line, useArray)
    else if !p.isHeader then ParseNative(p, line, useArray)
    else if ScanVersion(line).Match? then
      if |ScanVersion(line).value| <= VERSION_ROOM then Reading(p) else Undefined
    else if ScanRow(line, BASIC_CPUID).Match? then ParseNative(FirstRecord(p, useArray), line, useArray)
    else if IsAida64Marker(line) then ParseAida64(p.(isHeader := false, dialect := Aida64(0)), line, useArray)
    else ParseNative(p, line, useArray)
  }

  function ParseLines(p: Parser, lines: seq<string>, useArray: bool): (r: Parsing)
    requires p.WellFormed()
    ensures r.Reading? || r.Ended? ==> r.parser.WellFormed()
    decreases |lines|
  {
    if lines == [] then Reading(p)
    else
      var r := ParseLine(p, lines[0], useArray);
      if r.Reading? then ParseLines(r.parser, lines[1..], useArray) else r
  }

  /** The state in which the array entry point starts. */
  function ArrayStart(): (p: Parser)
    ensures p.WellFormed()
  {
    Parser(true, [], false, -1, Native)
  }

  /** The state in which the single entry point starts: one zeroed record. */
  function SingleStart(): (p: Parser)
    ensures p.WellFormed()
  {
    Parser(true, [ZeroRaw()], false, 0, Native)
  }
}

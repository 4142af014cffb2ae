/**
  Parsing a written dump restores what was written.
 */
module RoundTrip {
  import opened Bits
  import opened Text
  import opened Scanning
  import opened RawData
  import opened DumpFormat
  import opened Aida64
  import opened Dump

  // ----- single lines

  /** The character 'M' is in every AIDA64 marker that may occur inside a line. */
  lemma {:induction false} NoMarker(line: string)
    requires 'M' !in line && (line == "" || (line[0] != '-' && line[0] != 'C'))
    ensures !IsAida64Marker(line)
  {
    assert SECTION[0] == '-' && NUMBERED_HEADER[0] == 'C';
    var marker := MASK_MARKER;
    forall i | 0 <= i <= |line|
      ensures !OccursAt(line, marker, i)
    {
      assert marker[11] == 'M';
    }
  }

  ghost predicate HasRecord(p: Parser) { p.WellFormed() && 0 <= p.cursor < |p.raws| }

  ghost function WithRecord(p: Parser, raw: Raw): (p': Parser)
    requires HasRecord(p) && raw.WellFormed()
    ensures HasRecord(p') && p'.cursor == p.cursor && p'.raws[p'.cursor] == raw
  {
    p.(raws := p.raws[p.cursor := raw])
  }

  /** The first line of a dump without CPU headers: the array entry point makes its one record here. */
  lemma {:induction false} FirstRowParsed(p: Parser, r: Regs, useArray: bool)
    requires p.WellFormed() && p.isHeader && p.dialect.Native?
    requires if useArray then p.raws == [] else HasRecord(p)
    ensures var q := if useArray then Parser(false, [ZeroRaw()], false, 0, Native) else p.(isHeader := false);
            ParseLine(p, RowLine(BASIC_CPUID, 0, r), useArray)
              == Reading(WithRecord(q, Store(q.raws[q.cursor], Row(BASIC_CPUID, 0, r))))
  {
    var line := RowLine(BASIC_CPUID, 0, r);
    RowLineData(BASIC_CPUID, 0, r);
    RowScanned(BASIC_CPUID, 0, r);
    assert line[0] == 'b' && HEADER_PREFIX[0] == '_' && VERSION_PREFIX[0] == 'v';
    LiteralFails(line, VERSION_PREFIX, 0);
    LiteralFails(line, HEADER_PREFIX, 0);
    GrowByOne([]);
  }

  lemma {:induction false} RegisterRestHasNoM(group: int, i: nat, v: uint64)
    requires 0 <= group < NUM_ARM_GROUPS && v < RegisterRange(group)
    ensures 'M' !in RegisterRest(group, i, v)
  {
    var width := RegisterWidth(group);
    DecimalDenotes(i);
    Pow16Constants();
    HexDenotes(v, width, false);
  }

  lemma {:induction false} NoM(group: int, i: nat, v: uint64)
    requires 0 <= group < NUM_ARM_GROUPS && v < RegisterRange(group)
    ensures 'M' !in RegisterLine(group, i, v)
  {
    RegisterRestHasNoM(group, i, v);
    GroupNamesHaveNoM(group);
  }

  lemma {:induction false} GroupNamesHaveNoM(group: int)
    requires 0 <= group < NUM_ARM_GROUPS
    ensures 'M' !in GroupPrefix(group)
  {
  }

  /** A line that begins like a data line is an assignment, unless it ends the header. */
  lemma {:induction false} DataLineRead(p: Parser, line: string, useArray: bool)
    requires p.WellFormed() && p.dialect.Native? && line != "" && line[0] in {'a', 'b', 'e', 'i'}
    requires p.isHeader ==> !ScanRow(line, BASIC_CPUID).Match? && !IsAida64Marker(line)
    ensures ParseLine(p, line, useArray) == Assign(p, DataOf(line))
  {
    DataLineKind(line);
    assert ParseLine(p, line, useArray) == ParseNative(p, line, useArray);
  }

  lemma {:induction false} DataLineKind(line: string)
    requires line != "" && line[0] in {'a', 'b', 'e', 'i'}
    ensures !IsTestSeparator(line) && !ScanVersion(line).Match? && !ScanHeader(line).Match?
  {
    assert HEADER_PREFIX[0] == '_' && VERSION_PREFIX[0] == 'v';
    LiteralFails(line, HEADER_PREFIX, 0);
    LiteralFails(line, VERSION_PREFIX, 0);
  }

  lemma {:induction false} RegisterLineKind(group: int, i: nat, v: uint64)
    requires 0 <= group < NUM_ARM_GROUPS && v < RegisterRange(group)
    ensures var line := RegisterLine(group, i, v);
            line != "" && line[0] == 'a' && !ScanRow(line, BASIC_CPUID).Match? && !IsAida64Marker(line)
  {
    var prefix := GroupPrefix(group);
    assert prefix[0] == 'a' && TablePrefix(BASIC_CPUID)[0] == 'b';
    NoM(group, i, v);
    NoMarker(RegisterLine(group, i, v));
    LiteralFails(RegisterLine(group, i, v), TablePrefix(BASIC_CPUID), 0);
  }

  /** In every state a register line is an assignment. */
  lemma {:induction false} RegisterLineRead(p: Parser, group: int, i: nat, v: uint64, useArray: bool)
    requires p.WellFormed() && p.dialect.Native?
    requires 0 <= group < NUM_ARM_GROUPS && i < Registers(group) && v < RegisterRange(group)
    ensures ParseLine(p, RegisterLine(group, i, v), useArray) == Assign(p, Register(group, i, v))
  {
    RegisterLineData(group, i, v);
    RegisterLineKind(group, i, v);
    DataLineRead(p, RegisterLine(group, i, v), useArray);
  }

  lemma {:induction false} HeaderLineKind(cpu: uint16)
    ensures var line := HeaderLine(cpu);
            && line != "" && !IsTestSeparator(line) && !ScanVersion(line).Match?
            && !ScanRow(line, BASIC_CPUID).Match? && !IsAida64Marker(line)
  {
    var line := HeaderLine(cpu);
    assert line[0] == '_' && VERSION_PREFIX[0] == 'v';
    LiteralFails(line, VERSION_PREFIX, 0);
    assert TablePrefix(BASIC_CPUID)[0] == 'b';
    LiteralFails(line, TablePrefix(BASIC_CPUID), 0);
    DecimalDenotes(cpu);
    NoMarker(line);
  }

  /** The header of the next logical CPU makes its record. */
  lemma {:induction false} HeaderLineParsed(p: Parser, cpu: nat)
    requires p.WellFormed() && p.dialect.Native? && |p.raws| == cpu < UINT16_RANGE - 1
    ensures ParseLine(p, HeaderLine(cpu), true) == Reading(Parser(false, p.raws + [ZeroRaw()], true, cpu, Native))
  {
    HeaderLineKind(cpu);
    HeaderScanned(cpu);
    HeaderRead(p, HeaderLine(cpu), cpu);
  }

  lemma {:induction false} HeaderRead(p: Parser, line: string, cpu: nat)
    requires p.WellFormed() && p.dialect.Native? && |p.raws| == cpu < UINT16_RANGE - 1
    requires ScanHeader(line) == Match(cpu, HEADER_SUFFIX)
    ensures ParseNative(p, line, true) == Reading(Parser(false, p.raws + [ZeroRaw()], true, cpu, Native))
  {
    GrowByOne(p.raws);
  }

  lemma {:induction false} GrowByOne(raws: seq<Raw>)
    requires AllWellFormed(raws) && |raws| < UINT16_RANGE - 1
    ensures Grow(raws, |raws| + 1) == raws + [ZeroRaw()]
  {
    assert Zeros(1) == [ZeroRaw()];
  }

  lemma {:induction false} VersionScanned(version: string)
    requires version != "" && IsPlain(version)
    ensures ScanVersion(VersionLine(version)) == Match(version, "")
  {
    LiteralMatches(VERSION_PREFIX, version);
    WordScanned(version);
  }

  lemma {:induction false} VersionLineParsed(p: Parser, version: string, useArray: bool)
    requires p.WellFormed() && p.dialect.Native? && p.isHeader && 0 < |version| <= VERSION_ROOM && IsPlain(version)
    ensures ParseLine(p, VersionLine(version), useArray) == Reading(p)
  {
    VersionScanned(version);
    assert VersionLine(version)[0] == 'v';
  }

  // ----- blocks of lines

  lemma {:induction false} ParseConcat(p: Parser, a: seq<string>, b: seq<string>, useArray: bool)
    requires p.WellFormed()
    ensures var r := ParseLines(p, a, useArray);
            ParseLines(p, a + b, useArray) == if r.Reading? then ParseLines(r.parser, b, useArray) else r
    decreases |a|
  {
    if a == [] {
      assert a + b == b;
    } else {
      assert (a + b)[0] == a[0] && (a + b)[1..] == a[1..] + b;
      var r := ParseLine(p, a[0], useArray);
      if r.Reading? {
        ParseConcat(r.parser, a[1..], b, useArray);
      }
    }
  }

  lemma {:induction false} ParseFirst(
      p: Parser, line: string, q: Parser, rest: seq<string>, r: Parser, useArray: bool)
    requires p.WellFormed() && q.WellFormed()
    requires ParseLine(p, line, useArray) == Reading(q) && ParseLines(q, rest, useArray) == Reading(r)
    ensures ParseLines(p, [line] + rest, useArray) == Reading(r)
  {
    assert ([line] + rest)[1..] == rest;
  }

  lemma {:induction false} ParseInTurn(
      p: Parser, a: seq<string>, q: Parser, b: seq<string>, r: Parser, useArray: bool)
    requires p.WellFormed() && q.WellFormed()
    requires ParseLines(p, a, useArray) == Reading(q) && ParseLines(q, b, useArray) == Reading(r)
    ensures ParseLines(p, a + b, useArray) == Reading(r)
  {
    ParseConcat(p, a, b, useArray);
  }

  // ----- the data of a record

  predicate AllFit(items: seq<Data>) { forall i | 0 <= i < |items| :: Fits(items[i]) }

  predicate OnlyRegisters(items: seq<Data>) { forall i | 0 <= i < |items| :: items[i].Register? }

  /** The record after all its data has been stored. */
  ghost function StoreAll(raw: Raw, items: seq<Data>): (raw': Raw)
    requires raw.WellFormed() && AllFit(items)
    ensures raw'.WellFormed()
    decreases |items|
  {
    if items == [] then raw else StoreAll(Store(raw, items[0]), items[1..])
  }

  lemma {:induction false} StoreAllConcat(raw: Raw, a: seq<Data>, b: seq<Data>)
    requires raw.WellFormed() && AllFit(a) && AllFit(b)
    ensures AllFit(a + b) && StoreAll(raw, a + b) == StoreAll(StoreAll(raw, a), b)
    decreases |a|
  {
    if a == [] {
      assert a + b == b;
    } else {
      StoreAllConcat(Store(raw, a[0]), a[1..], b);
      assert (a + b)[0] == a[0] && (a + b)[1..] == a[1..] + b;
    }
  }

  lemma {:induction false} DataLineParsed(p: Parser, d: Data, useArray: bool)
    requires HasRecord(p) && p.dialect.Native? && Fits(d) && (d.Row? ==> !p.isHeader)
    ensures ParseLine(p, DataLine(d), useArray) == Reading(WithRecord(p, Store(p.raws[p.cursor], d)))
  {
    match d
    case Row(table, i, regs) =>
      RowLineData(table, i, regs);
      assert DataLine(d)[0] == TablePrefix(table)[0];
      DataLineRead(p, DataLine(d), useArray);
    case Register(group, i, value) => RegisterLineRead(p, group, i, value, useArray);
  }

  lemma {:induction false} WithRecordTwice(p: Parser, a: Raw, b: Raw)
    requires HasRecord(p) && a.WellFormed() && b.WellFormed()
    ensures WithRecord(WithRecord(p, a), b) == WithRecord(p, b)
  {
  }

  lemma {:induction false} DataLinesParsed(p: Parser, items: seq<Data>, useArray: bool)
    requires HasRecord(p) && p.dialect.Native? && AllFit(items) && (p.isHeader ==> OnlyRegisters(items))
    ensures ParseLines(p, DataLines(items), useArray) == Reading(WithRecord(p, StoreAll(p.raws[p.cursor], items)))
    decreases |items|
  {
    if items != [] {
      var q := WithRecord(p, Store(p.raws[p.cursor], items[0]));
      DataLineParsed(p, items[0], useArray);
      DataLinesParsed(q, items[1..], useArray);
      WithRecordTwice(p, Store(p.raws[p.cursor], items[0]), StoreAll(p.raws[p.cursor], items));
    }
  }

  lemma {:induction false} SpliceNext<T>(a: seq<T>, b: seq<T>, k: nat)
    requires |a| == |b| && k < |a|
    ensures a[k := b[k]][..k + 1] + b[k + 1..] == a[..k] + b[k..]
    ensures a[k := b[k]][..k + 1] == a[..k] + [b[k]]
  {
  }

  lemma {:induction false} SpliceAll<T>(a: seq<T>, b: seq<T>)
    requires |a| == |b|
    ensures a[..0] + b[0..] == b && a[..|a|] + b[|b|..] == a
  {
  }

  lemma {:induction false} StoreRows(base: Raw, raw: Raw, table: int, i: nat)
    requires base.WellFormed() && raw.WellFormed() && 0 <= table < NUM_TABLES && i <= Rows(table)
    ensures AllFit(RowItems(raw, table, i))
    ensures StoreAll(base, RowItems(raw, table, i))
      == base.(leaves := base.leaves[table := base.leaves[table][..i] + raw.leaves[table][i..]])
    decreases Rows(table) - i
  {
    var a, b := base.leaves[table], raw.leaves[table];
    if i == Rows(table) {
      SpliceAll(a, b);
    } else {
      StoreRows(Store(base, Row(table, i, b[i])), raw, table, i + 1);
      SpliceNext(a, b, i);
      assert RowItems(raw, table, i)[1..] == RowItems(raw, table, i + 1);
    }
  }

  lemma {:induction false} StoreTables(base: Raw, raw: Raw, table: int)
    requires base.WellFormed() && raw.WellFormed() && 0 <= table <= NUM_TABLES
    ensures AllFit(TableItems(raw, table))
    ensures StoreAll(base, TableItems(raw, table)) == base.(leaves := base.leaves[..table] + raw.leaves[table..])
    decreases NUM_TABLES - table
  {
    if table == NUM_TABLES {
      SpliceAll(base.leaves, raw.leaves);
    } else {
      StoreTables(base.(leaves := base.leaves[table := raw.leaves[table]]), raw, table + 1);
      StoreTableFirst(base, raw, table, TableItems(raw, table + 1));
    }
  }

  /** A table before further data that fills in the tables behind it. */
  lemma {:induction false} StoreTableFirst(base: Raw, raw: Raw, table: int, more: seq<Data>)
    requires base.WellFormed() && raw.WellFormed() && 0 <= table < NUM_TABLES && AllFit(more)
    requires var next := base.(leaves := base.leaves[table := raw.leaves[table]]);
             StoreAll(next, more) == next.(leaves := next.leaves[..table + 1] + raw.leaves[table + 1..])
    ensures AllFit(RowItems(raw, table, 0) + more)
    ensures StoreAll(base, RowItems(raw, table, 0) + more)
      == base.(leaves := base.leaves[..table] + raw.leaves[table..])
  {
    StoreTable(base, raw, table);
    StoreAllConcat(base, RowItems(raw, table, 0), more);
    SpliceNext(base.leaves, raw.leaves, table);
  }

  lemma {:induction false} StoreTable(base: Raw, raw: Raw, table: int)
    requires base.WellFormed() && raw.WellFormed() && 0 <= table < NUM_TABLES
    ensures AllFit(RowItems(raw, table, 0))
    ensures StoreAll(base, RowItems(raw, table, 0)) == base.(leaves := base.leaves[table := raw.leaves[table]])
  {
    StoreRows(base, raw, table, 0);
    SpliceAll(base.leaves[table], raw.leaves[table]);
  }

  lemma {:induction false} StoreRegisters(base: Raw, raw: Raw, group: int, i: nat)
    requires base.WellFormed() && raw.WellFormed() && 0 <= group < NUM_ARM_GROUPS && i <= Registers(group)
    ensures AllFit(RegisterItems(raw, group, i))
    ensures OnlyRegisters(RegisterItems(raw, group, i))
    ensures StoreAll(base, RegisterItems(raw, group, i))
      == base.(arm := base.arm[group := base.arm[group][..i] + raw.arm[group][i..]])
    decreases Registers(group) - i
  {
    var a, b := base.arm[group], raw.arm[group];
    if i == Registers(group) {
      SpliceAll(a, b);
    } else {
      StoreRegisters(Store(base, Register(group, i, b[i])), raw, group, i + 1);
      SpliceNext(a, b, i);
      assert RegisterItems(raw, group, i)[1..] == RegisterItems(raw, group, i + 1);
    }
  }

  lemma {:induction false} StoreGroups(base: Raw, raw: Raw, group: int)
    requires base.WellFormed() && raw.WellFormed() && 0 <= group <= NUM_ARM_GROUPS
    ensures AllFit(GroupItems(raw, group))
    ensures OnlyRegisters(GroupItems(raw, group))
    ensures StoreAll(base, GroupItems(raw, group)) == base.(arm := base.arm[..group] + raw.arm[group..])
    decreases NUM_ARM_GROUPS - group
  {
    if group == NUM_ARM_GROUPS {
      SpliceAll(base.arm, raw.arm);
    } else {
      StoreGroups(base.(arm := base.arm[group := raw.arm[group]]), raw, group + 1);
      StoreGroupFirst(base, raw, group, GroupItems(raw, group + 1));
    }
  }

  /** A group before further data that fills in the groups behind it. */
  lemma {:induction false} StoreGroupFirst(base: Raw, raw: Raw, group: int, more: seq<Data>)
    requires base.WellFormed() && raw.WellFormed() && 0 <= group < NUM_ARM_GROUPS
    requires AllFit(more) && OnlyRegisters(more)
    requires var next := base.(arm := base.arm[group := raw.arm[group]]);
             StoreAll(next, more) == next.(arm := next.arm[..group + 1] + raw.arm[group + 1..])
    ensures AllFit(RegisterItems(raw, group, 0) + more) && OnlyRegisters(RegisterItems(raw, group, 0) + more)
    ensures StoreAll(base, RegisterItems(raw, group, 0) + more)
      == base.(arm := base.arm[..group] + raw.arm[group..])
  {
    StoreGroup(base, raw, group);
    StoreAllConcat(base, RegisterItems(raw, group, 0), more);
    SpliceNext(base.arm, raw.arm, group);
  }

  lemma {:induction false} StoreGroup(base: Raw, raw: Raw, group: int)
    requires base.WellFormed() && raw.WellFormed() && 0 <= group < NUM_ARM_GROUPS
    ensures AllFit(RegisterItems(raw, group, 0)) && OnlyRegisters(RegisterItems(raw, group, 0))
    ensures StoreAll(base, RegisterItems(raw, group, 0)) == base.(arm := base.arm[group := raw.arm[group]])
  {
    StoreRegisters(base, raw, group, 0);
    SpliceAll(base.arm[group], raw.arm[group]);
  }

  // ----- whole dumps

  /** The part of a record a dump of an architecture has; the rest is zero. */
  function Visible(raw: Raw, architecture: Architecture): (r: Raw)
    requires raw.WellFormed()
    ensures r.WellFormed()
  {
    var z := ZeroRaw();
    var r := match architecture
      case X86 => Raw(raw.leaves, z.arm)
      case Arm => Raw(z.leaves, raw.arm)
      case Unknown => z;
    r
  }

  function VisibleAll(raws: seq<Raw>, architecture: Architecture): (r: seq<Raw>)
    requires AllWellFormed(raws)
    ensures |r| == |raws| && AllWellFormed(r) && forall i | 0 <= i < |raws| :: r[i] == Visible(raws[i], architecture)
  {
    seq(|raws|, i requires 0 <= i < |raws| => Visible(raws[i], architecture))
  }

  /** Storing the data of a record in a zeroed record gives what its dump shows. */
  lemma {:induction false} StoreData(raw: Raw, architecture: Architecture)
    requires raw.WellFormed()
    ensures var items := DataItems(raw, architecture);
            && AllFit(items) && StoreAll(ZeroRaw(), items) == Visible(raw, architecture)
            && (architecture != X86 ==> OnlyRegisters(items))
  {
    match architecture
    case X86 =>
      SpliceAll(ZeroRaw().leaves, raw.leaves);
      StoreTables(ZeroRaw(), raw, 0);
    case Arm =>
      SpliceAll(ZeroRaw().arm, raw.arm);
      StoreGroups(ZeroRaw(), raw, 0);
    case Unknown =>
  }

  lemma {:induction false} DataParsed(p: Parser, raw: Raw, architecture: Architecture, useArray: bool)
    requires HasRecord(p) && p.dialect.Native? && raw.WellFormed() && p.raws[p.cursor] == ZeroRaw()
    requires architecture == X86 ==> !p.isHeader
    ensures ParseLines(p, DataLines(DataItems(raw, architecture)), useArray)
      == Reading(WithRecord(p, Visible(raw, architecture)))
  {
    StoreData(raw, architecture);
    DataLinesParsed(p, DataItems(raw, architecture), useArray);
  }

  /** An empty line, a header and the data of the next logical CPU append a record. */
  lemma {:induction false} BlockParsed(p: Parser, data: seq<string>, record: Raw)
    requires p.WellFormed() && p.dialect.Native? && |p.raws| < UINT16_RANGE - 1 && record.WellFormed()
    requires var q := Parser(false, p.raws + [ZeroRaw()], true, |p.raws|, Native);
             ParseLines(q, data, true) == Reading(WithRecord(q, record))
    ensures ParseLines(p, [""] + ([HeaderLine(|p.raws|)] + data), true)
      == Reading(Parser(false, p.raws + [record], true, |p.raws|, Native))
  {
    var header := HeaderLine(|p.raws|);
    var q := Parser(false, p.raws + [ZeroRaw()], true, |p.raws|, Native);
    var r := Parser(false, p.raws + [record], true, |p.raws|, Native);
    HeaderLineParsed(p, |p.raws|);
    assert q.raws[|p.raws| := record] == r.raws;
    ParseFirst(p, header, q, data, r, true);
    ParseFirst(p, "", p, [header] + data, r, true);
  }

  /** The block of one logical CPU appends its record. */
  lemma {:induction false} CpuParsed(p: Parser, raw: Raw, architecture: Architecture)
    requires p.WellFormed() && p.dialect.Native? && raw.WellFormed() && |p.raws| < UINT16_RANGE - 1
    ensures ParseLines(p, CpuLines(raw, |p.raws|, architecture), true)
      == Reading(Parser(false, p.raws + [Visible(raw, architecture)], true, |p.raws|, Native))
  {
    var q := Parser(false, p.raws + [ZeroRaw()], true, |p.raws|, Native);
    DataParsed(q, raw, architecture, true);
    BlockParsed(p, DataLines(DataItems(raw, architecture)), Visible(raw, architecture));
  }

  lemma {:induction false} VisibleAppend(raws: seq<Raw>, n: nat, architecture: Architecture)
    requires AllWellFormed(raws) && n < |raws|
    ensures VisibleAll(raws[..n + 1], architecture)
      == VisibleAll(raws[..n], architecture) + [Visible(raws[n], architecture)]
  {
  }

  /** The state of the array entry point after the blocks of `n` logical CPUs. */
  ghost function AfterCpus(raws: seq<Raw>, n: nat, architecture: Architecture): (p: Parser)
    requires AllWellFormed(raws) && n <= |raws|
    ensures p.WellFormed() && |p.raws| == n
  {
    if n == 0 then ArrayStart() else Parser(false, VisibleAll(raws[..n], architecture), true, n - 1, Native)
  }

  lemma {:induction false} ParsedUpTo(raws: seq<Raw>, n: nat, architecture: Architecture)
    requires AllWellFormed(raws) && n < |raws| < UINT16_RANGE
    requires ParseLines(ArrayStart(), ArrayLines(raws, n, architecture), true)
      == Reading(AfterCpus(raws, n, architecture))
    ensures ParseLines(ArrayStart(), ArrayLines(raws, n + 1, architecture), true)
      == Reading(AfterCpus(raws, n + 1, architecture))
  {
    CpuParsed(AfterCpus(raws, n, architecture), raws[n], architecture);
    VisibleAppend(raws, n, architecture);
    ParseInTurn(ArrayStart(), ArrayLines(raws, n, architecture), AfterCpus(raws, n, architecture),
      CpuLines(raws[n], n, architecture), AfterCpus(raws, n + 1, architecture), true);
  }

  lemma {:induction false} CpusParsed(raws: seq<Raw>, n: nat, architecture: Architecture)
    requires AllWellFormed(raws) && n <= |raws| < UINT16_RANGE
    ensures ParseLines(ArrayStart(), ArrayLines(raws, n, architecture), true)
      == Reading(AfterCpus(raws, n, architecture))
  {
    for k := 0 to n
      invariant ParseLines(ArrayStart(), ArrayLines(raws, k, architecture), true)
        == Reading(AfterCpus(raws, k, architecture))
    {
      ParsedUpTo(raws, k, architecture);
    }
  }

  /**
    Dump round trip: parsing the lines written for 1 to 65535 records gives the same number of records,
    each with everything the dump of its architecture shows.
   */
  lemma {:induction false} ArrayRoundTrip(raws: seq<Raw>, version: string)
    requires AllWellFormed(raws) && 0 < |raws| < UINT16_RANGE && 0 < |version| <= VERSION_ROOM && IsPlain(version)
    ensures ParseLines(ArrayStart(), DumpOfArray(raws, version), true)
      == Reading(Parser(false, VisibleAll(raws, ArchitectureOf(raws[0])), true, |raws| - 1, Native))
  {
    var architecture := ArchitectureOf(raws[0]);
    VersionLineParsed(ArrayStart(), version, true);
    CpusParsed(raws, |raws|, architecture);
    assert raws[..|raws|] == raws;
  }

  // ----- dumps of a single record

  /** Data that begins with the first row is read into one record at either entry point. */
  lemma {:induction false} SingleParsed(p: Parser, items: seq<Data>, useArray: bool)
    requires p == if useArray then ArrayStart() else SingleStart()
    requires items != [] && AllFit(items) && items[0].Row? && items[0].table == BASIC_CPUID && items[0].i == 0
    ensures ParseLines(p, DataLines(items), useArray)
      == Reading(Parser(false, [StoreAll(ZeroRaw(), items)], false, 0, Native))
  {
    var raw, rest := Store(ZeroRaw(), items[0]), items[1..];
    FirstItemParsed(p, items[0], useArray);
    RestParsed(raw, rest, useArray);
    ParseFirst(p, DataLine(items[0]), Parser(false, [raw], false, 0, Native), DataLines(rest),
      Parser(false, [StoreAll(raw, rest)], false, 0, Native), useArray);
  }

  lemma {:induction false} FirstItemParsed(p: Parser, d: Data, useArray: bool)
    requires p == if useArray then ArrayStart() else SingleStart()
    requires Fits(d) && d.Row? && d.table == BASIC_CPUID && d.i == 0
    ensures ParseLine(p, DataLine(d), useArray) == Reading(Parser(false, [Store(ZeroRaw(), d)], false, 0, Native))
  {
    FirstRowParsed(p, d.regs, useArray);
  }

  lemma {:induction false} RestParsed(raw: Raw, items: seq<Data>, useArray: bool)
    requires raw.WellFormed() && AllFit(items)
    ensures ParseLines(Parser(false, [raw], false, 0, Native), DataLines(items), useArray)
      == Reading(Parser(false, [StoreAll(raw, items)], false, 0, Native))
  {
    DataLinesParsed(Parser(false, [raw], false, 0, Native), items, useArray);
  }

  lemma {:induction false} VersionThen(p: Parser, version: string, lines: seq<string>, useArray: bool)
    requires p.WellFormed() && p.dialect.Native? && p.isHeader && 0 < |version| <= VERSION_ROOM && IsPlain(version)
    ensures ParseLines(p, [VersionLine(version)] + lines, useArray) == ParseLines(p, lines, useArray)
  {
    VersionLineParsed(p, version, useArray);
  }

  /** What is known of the data of a record of some architecture. */
  ghost predicate IsDataOf(items: seq<Data>, raw: Raw, architecture: Architecture)
    requires raw.WellFormed()
  {
    && AllFit(items)
    && StoreAll(ZeroRaw(), items) == Visible(raw, architecture)
    && match architecture
       case X86 => items != [] && items[0].Row? && items[0].table == BASIC_CPUID && items[0].i == 0
       case Arm => items != [] && OnlyRegisters(items)
       case Unknown => items == []
  }

  lemma {:induction false} DataItemsAre(raw: Raw, architecture: Architecture)
    requires raw.WellFormed()
    ensures IsDataOf(DataItems(raw, architecture), raw, architecture)
  {
    StoreData(raw, architecture);
  }

  lemma {:induction false} SingleItemsParsed(items: seq<Data>, raw: Raw, architecture: Architecture)
    requires raw.WellFormed() && IsDataOf(items, raw, architecture)
    ensures ParseLines(SingleStart(), DataLines(items), false)
      == Reading(Parser(architecture != X86, [Visible(raw, architecture)], false, 0, Native))
  {
    if architecture == X86 {
      SingleParsed(SingleStart(), items, false);
    } else {
      DataLinesParsed(SingleStart(), items, false);
    }
  }

  /** The single entry point restores everything the dump of a record shows. */
  lemma {:induction false} SingleRoundTrip(raw: Raw, version: string)
    requires raw.WellFormed() && 0 < |version| <= VERSION_ROOM && IsPlain(version)
    ensures var architecture := ArchitectureOf(raw);
            ParseLines(SingleStart(), DumpOfSingle(raw, version), false)
              == Reading(Parser(architecture != X86, [Visible(raw, architecture)], false, 0, Native))
  {
    var architecture := ArchitectureOf(raw);
    var items := DataItems(raw, architecture);
    DataItemsAre(raw, architecture);
    VersionThen(SingleStart(), version, DataLines(items), false);
    SingleItemsParsed(items, raw, architecture);
  }

  lemma {:induction false} ItemsWithoutRecord(items: seq<Data>)
    requires AllFit(items) && OnlyRegisters(items) && items != []
    ensures ParseLines(ArrayStart(), DataLines(items), true) == Undefined
  {
    RegisterLineRead(ArrayStart(), items[0].group, items[0].i, items[0].value, true);
  }

  lemma {:induction false} SingleItemsThroughArray(items: seq<Data>, raw: Raw, architecture: Architecture)
    requires raw.WellFormed() && IsDataOf(items, raw, architecture)
    ensures ParseLines(ArrayStart(), DataLines(items), true)
      == match architecture
         case X86 => Reading(Parser(false, [Visible(raw, X86)], false, 0, Native))
         case Arm => Undefined
         case Unknown => Reading(ArrayStart())
  {
    match architecture
    case X86 => SingleParsed(ArrayStart(), items, true);
    case Arm => ItemsWithoutRecord(items);
    case Unknown =>
  }

  /**
    Through the array entry point, the dump of a single record gives one record without affinity if it
    is an x86 record; the first ARM register is written through no record; otherwise nothing is read.
   */
  lemma {:induction false} SingleThroughArray(raw: Raw, version: string)
    requires raw.WellFormed() && 0 < |version| <= VERSION_ROOM && IsPlain(version)
    ensures ParseLines(ArrayStart(), DumpOfSingle(raw, version), true)
      == match ArchitectureOf(raw)
         case X86 => Reading(Parser(false, [Visible(raw, X86)], false, 0, Native))
         case Arm => Undefined
         case Unknown => Reading(ArrayStart())
  {
    var architecture := ArchitectureOf(raw);
    var items := DataItems(raw, architecture);
    DataItemsAre(raw, architecture);
    VersionThen(ArrayStart(), version, DataLines(items), true);
    SingleItemsThroughArray(items, raw, architecture);
  }

  // ----- dumps of an array at the single entry point

  lemma {:induction false} NoTableReads(line: string, from: nat)
    requires line != "" && line[0] == '_' && from <= NUM_TABLES
    ensures RowOf(line, from) == NotUnderstood
    decreases NUM_TABLES - from
  {
    if from < NUM_TABLES {
      assert TablePrefix(from)[0] in {'a', 'b', 'e', 'i'};
      LiteralFails(line, TablePrefix(from), 0);
      NoTableReads(line, from + 1);
    }
  }

  lemma {:induction false} NoGroupReads(line: string, from: nat)
    requires line != "" && line[0] == '_' && from <= NUM_ARM_GROUPS
    ensures RegisterOf(line, from) == NotUnderstood
    decreases NUM_ARM_GROUPS - from
  {
    if from < NUM_ARM_GROUPS {
      assert GroupPrefix(from)[0] == 'a';
      LiteralFails(line, GroupPrefix(from), 0);
      NoGroupReads(line, from + 1);
    }
  }

  /** The header of a logical CPU means nothing to the single entry point. */
  lemma {:induction false} HeaderIgnored(p: Parser, cpu: uint16)
    requires p.WellFormed() && p.dialect.Native?
    ensures ParseLine(p, HeaderLine(cpu), false) == Reading(p)
  {
    var line := HeaderLine(cpu);
    HeaderLineKind(cpu);
    assert line[0] == '_';
    NoTableReads(line, 0);
    NoGroupReads(line, 0);
    assert DataOf(line) == NotUnderstood;
  }

  /** All data a dump shows is overwritten by that of the next record. */
  lemma {:induction false} StoreOver(base: Raw, raw: Raw, architecture: Architecture)
    requires base.WellFormed() && raw.WellFormed() && Visible(base, architecture) == base
    ensures var items := DataItems(raw, architecture);
            AllFit(items) && StoreAll(base, items) == Visible(raw, architecture)
  {
    match architecture
    case X86 =>
      SpliceAll(base.leaves, raw.leaves);
      StoreTables(base, raw, 0);
    case Arm =>
      SpliceAll(base.arm, raw.arm);
      StoreGroups(base, raw, 0);
    case Unknown =>
  }

  /** Rows are stored from the first row of the dump on, which ends its header. */
  lemma {:induction false} RowsRead(p: Parser, items: seq<Data>)
    requires HasRecord(p) && p.dialect.Native? && AllFit(items)
    requires items != [] && items[0].Row? && items[0].table == BASIC_CPUID && items[0].i == 0
    ensures ParseLines(p, DataLines(items), false)
      == Reading(WithRecord(p.(isHeader := false), StoreAll(p.raws[p.cursor], items)))
  {
    var q := p.(isHeader := false);
    if !p.isHeader {
      DataLinesParsed(p, items, false);
    } else {
      var raw := Store(q.raws[q.cursor], items[0]);
      var all := StoreAll(raw, items[1..]);
      FirstRowParsed(p, items[0].regs, false);
      DataLinesParsed(WithRecord(q, raw), items[1..], false);
      WithRecordTwice(q, raw, all);
      ParseFirst(p, DataLine(items[0]), WithRecord(q, raw), DataLines(items[1..]), WithRecord(q, all), false);
    }
  }

  lemma {:induction false} DataReadOver(p: Parser, raw: Raw, architecture: Architecture)
    requires HasRecord(p) && p.dialect.Native? && raw.WellFormed()
    requires Visible(p.raws[p.cursor], architecture) == p.raws[p.cursor]
    ensures ParseLines(p, DataLines(DataItems(raw, architecture)), false)
      == Reading(WithRecord(if architecture == X86 then p.(isHeader := false) else p, Visible(raw, architecture)))
  {
    var items := DataItems(raw, architecture);
    StoreOver(p.raws[p.cursor], raw, architecture);
    DataItemsAre(raw, architecture);
    if architecture == X86 {
      RowsRead(p, items);
    } else {
      DataLinesParsed(p, items, false);
    }
  }

  /** The state of the single entry point after the blocks of `n` logical CPUs. */
  ghost function AfterIgnored(raws: seq<Raw>, n: nat, architecture: Architecture): (p: Parser)
    requires AllWellFormed(raws) && n <= |raws|
    ensures HasRecord(p) && p.dialect.Native? && Visible(p.raws[p.cursor], architecture) == p.raws[p.cursor]
  {
    if n == 0 then SingleStart()
    else Parser(architecture != X86, [Visible(raws[n - 1], architecture)], false, 0, Native)
  }

  lemma {:induction false} BlockReadOver(raws: seq<Raw>, n: nat, architecture: Architecture)
    requires AllWellFormed(raws) && n < |raws| < UINT16_RANGE
    ensures ParseLines(AfterIgnored(raws, n, architecture), CpuLines(raws[n], n, architecture), false)
      == Reading(AfterIgnored(raws, n + 1, architecture))
  {
    var p, q := AfterIgnored(raws, n, architecture), AfterIgnored(raws, n + 1, architecture);
    var data := DataLines(DataItems(raws[n], architecture));
    DataReadOver(p, raws[n], architecture);
    HeaderIgnored(p, n);
    ParseFirst(p, HeaderLine(n), p, data, q, false);
    ParseFirst(p, "", p, [HeaderLine(n)] + data, q, false);
  }

  lemma {:induction false} NextReadOver(raws: seq<Raw>, n: nat, architecture: Architecture)
    requires AllWellFormed(raws) && n < |raws| < UINT16_RANGE
    requires ParseLines(SingleStart(), ArrayLines(raws, n, architecture), false)
      == Reading(AfterIgnored(raws, n, architecture))
    ensures ParseLines(SingleStart(), ArrayLines(raws, n + 1, architecture), false)
      == Reading(AfterIgnored(raws, n + 1, architecture))
  {
    BlockReadOver(raws, n, architecture);
    ParseInTurn(SingleStart(), ArrayLines(raws, n, architecture), AfterIgnored(raws, n, architecture),
      CpuLines(raws[n], n, architecture), AfterIgnored(raws, n + 1, architecture), false);
  }

  lemma {:induction false} BlocksReadOver(raws: seq<Raw>, n: nat, architecture: Architecture)
    requires AllWellFormed(raws) && n <= |raws| < UINT16_RANGE
    ensures ParseLines(SingleStart(), ArrayLines(raws, n, architecture), false)
      == Reading(AfterIgnored(raws, n, architecture))
  {
    if n > 0 {
      BlocksReadOver(raws, n - 1, architecture);
      NextReadOver(raws, n - 1, architecture);
    }
  }

  /** Through the single entry point, the dump of an array gives what it shows of its last record. */
  lemma {:induction false} ArrayThroughSingle(raws: seq<Raw>, version: string)
    requires AllWellFormed(raws) && 0 < |raws| < UINT16_RANGE && 0 < |version| <= VERSION_ROOM && IsPlain(version)
    ensures var architecture := ArchitectureOf(raws[0]);
            ParseLines(SingleStart(), DumpOfArray(raws, version), false)
              == Reading(Parser(architecture != X86, [Visible(raws[|raws| - 1], architecture)], false, 0, Native))
  {
    var architecture := ArchitectureOf(raws[0]);
    VersionThen(SingleStart(), version, ArrayLines(raws, |raws|, architecture), false);
    BlocksReadOver(raws, |raws|, architecture);
  }
}

/**
  The raw dump as a text file: the writer and the reader as they run, and the round trip from records
  to text and back.
 */
module DumpText {
  import opened Bits
  import opened Collections
  import opened Text
  import opened Scanning
  import opened RawData
  import opened DumpFormat
  import opened Aida64
  import opened Dump
  import opened RoundTrip

  // ----- lines of a file

  predicate IsClean(s: string) { '\n' !in s && NUL !in s }

  /** A line that `fgets` reads whole: no newline, no terminator, at most 98 characters. */
  predicate FitsLine(line: string) { |line| < LINE_ROOM && IsClean(line) }

  predicate AllFitLine(lines: seq<string>) { forall i | 0 <= i < |lines| :: FitsLine(lines[i]) }

  lemma {:induction false} TakeWhole(line: string, rest: string, room: nat)
    requires IsClean(line) && |line| < room
    ensures TakeLine(line + ("\n" + rest), room) == |line| + 1
    decreases |line|
  {
    var text := line + ("\n" + rest);
    if line == "" {
      assert text[0] == '\n';
    } else {
      assert text[0] == line[0] && line[0] in line && (forall c | c in line[1..] :: c in line);
      TakeWhole(line[1..], rest, room - 1);
      assert text[1..] == line[1..] + ("\n" + rest);
    }
  }

  lemma {:induction false} CutWhole(line: string)
    requires IsClean(line)
    ensures CutLine(line + "\n") == line
    decreases |line|
  {
    if line != "" {
      assert line[0] in line && (forall c | c in line[1..] :: c in line);
      CutWhole(line[1..]);
      assert (line + "\n")[1..] == line[1..] + "\n";
      assert line == [line[0]] + line[1..];
    }
  }

  lemma {:induction false} FirstLine(line: string, rest: string)
    requires FitsLine(line)
    ensures Lines(line + ("\n" + rest)) == [line] + Lines(rest)
  {
    var text := line + ("\n" + rest);
    TakeWhole(line, rest, LINE_ROOM);
    CutWhole(line);
    assert text[..|line| + 1] == line + "\n" && text[|line| + 1..] == rest;
  }

  lemma {:induction false} TakeCut(line: string, rest: string, room: nat)
    requires IsClean(line) && room <= |line|
    ensures TakeLine(line + rest, room) == room
    decreases |line|
  {
    if room > 0 {
      assert line[0] in line && (forall c | c in line[1..] :: c in line);
      TakeCut(line[1..], rest, room - 1);
      assert (line + rest)[1..] == line[1..] + rest;
    }
  }

  lemma {:induction false} CutClean(line: string)
    requires IsClean(line)
    ensures CutLine(line) == line
    decreases |line|
  {
    if line != "" {
      assert line[0] in line && (forall c | c in line[1..] :: c in line);
      CutClean(line[1..]);
      assert line == [line[0]] + line[1..];
    }
  }

  /** The next line of a file is read whole with up to 98 characters; of a longer one, 99 are read as a line. */
  lemma {:induction false} NextLineIs(line: string, rest: string)
    requires '\n' !in line && '\0' !in line
    ensures Lines(line + ("\n" + rest)) ==
      if |line| <= 98 then [line] + Lines(rest) else [line[..99]] + Lines(line[99..] + ("\n" + rest))
  {
    if |line| <= 98 {
      FirstLine(line, rest);
    } else {
      var text, first, more := line + ("\n" + rest), line[..99], line[99..] + ("\n" + rest);
      assert text == first + more && IsClean(first);
      TakeCut(first, more, 99);
      assert text[..99] == first && text[99..] == more;
      CutClean(first);
    }
  }

  /** Reading a written file line by line gives back its lines. */
  lemma {:induction false} LinesOfJoin(lines: seq<string>)
    requires AllFitLine(lines)
    ensures Lines(Join(lines)) == lines
    decreases |lines|
  {
    if lines != [] {
      FirstLine(lines[0], Join(lines[1..]));
      assert Join(lines) == lines[0] + ("\n" + Join(lines[1..]));
      LinesOfJoin(lines[1..]);
      assert lines == [lines[0]] + lines[1..];
    }
  }

  lemma {:induction false} JoinConcat(a: seq<string>, b: seq<string>)
    ensures Join(a + b) == Join(a) + Join(b)
    decreases |a|
  {
    if a == [] {
      assert a + b == b;
    } else {
      JoinConcat(a[1..], b);
      assert (a + b)[0] == a[0] && (a + b)[1..] == a[1..] + b;
      ConcatAssociates(a[0] + "\n", Join(a[1..]), Join(b));
    }
  }

  // ----- every printed line fits

  lemma {:induction false} CleanConcat(a: string, b: string)
    requires IsClean(a) && IsClean(b)
    ensures IsClean(a + b)
  {
  }

  lemma {:induction false} HexIsClean(v: uint64, width: nat)
    requires v < Pow16(width)
    ensures IsClean(Hex(v, width, false))
  {
    HexDenotes(v, width, false);
  }

  lemma {:induction false} DecimalFits(v: uint16)
    ensures IsClean(Decimal(v)) && |Decimal(v)| <= 5
  {
    DecimalDenotes(v);
    DecimalLength(v);
  }

  lemma {:induction false} DecimalLength(v: nat)
    ensures v < 10 ==> |Decimal(v)| == 1
    ensures v < 100 ==> |Decimal(v)| <= 2
    ensures v < 1000 ==> |Decimal(v)| <= 3
    ensures v < 10000 ==> |Decimal(v)| <= 4
    ensures v < 100000 ==> |Decimal(v)| <= 5
  {
    if v >= 10 {
      DecimalLength(v / 10);
    }
  }

  lemma {:induction false} RegsTextFits(r: Regs)
    ensures IsClean(RegsText(r)) && |RegsText(r)| == 35
  {
    Pow16Constants();
    HexIsClean(r.eax, 8);
    HexIsClean(r.ebx, 8);
    HexIsClean(r.ecx, 8);
    HexIsClean(r.edx, 8);
    var s4 := SpacedHex32(r.edx, "");
    var s3 := SpacedHex32(r.ecx, s4);
    CleanConcat(Hex32(r.edx), "");
    CleanConcat(" ", Hex32(r.edx) + "");
    CleanConcat(Hex32(r.ecx), s4);
    CleanConcat(" ", Hex32(r.ecx) + s4);
    CleanConcat(Hex32(r.ebx), s3);
    CleanConcat(" ", Hex32(r.ebx) + s3);
    CleanConcat(Hex32(r.eax), SpacedHex32(r.ebx, s3));
  }

  lemma {:induction false} GroupPrefixFits(group: int)
    requires 0 <= group < NUM_ARM_GROUPS
    ensures IsClean(GroupPrefix(group)) && |GroupPrefix(group)| <= 20
  {
  }

  lemma {:induction false} RowLineFits(table: int, i: nat, r: Regs)
    requires 0 <= table < NUM_TABLES && i < Rows(table)
    ensures FitsLine(RowLine(table, i, r))
  {
    DecimalFits(i);
    RegsTextFits(r);
    CleanConcat("]=", RegsText(r));
    CleanConcat(Decimal(i), "]=" + RegsText(r));
    CleanConcat(TablePrefix(table), IndexedRegsText(i, r));
  }

  lemma {:induction false} RegisterLineFits(group: int, i: nat, v: uint64)
    requires 0 <= group < NUM_ARM_GROUPS && i < Registers(group) && v < RegisterRange(group)
    ensures FitsLine(RegisterLine(group, i, v))
  {
    var value := Hex(v, RegisterWidth(group), false) + "";
    GroupPrefixFits(group);
    DecimalFits(i);
    Pow16Constants();
    HexIsClean(v, RegisterWidth(group));
    CleanConcat("=", value);
    CleanConcat(Decimal(i), "=" + value);
    CleanConcat(GroupPrefix(group), RegisterRest(group, i, v));
  }

  lemma {:induction false} HeaderLineFits(cpu: uint16)
    ensures FitsLine(HeaderLine(cpu))
  {
    DecimalFits(cpu);
    CleanConcat(Decimal(cpu), HEADER_SUFFIX);
    CleanConcat(HEADER_PREFIX, Decimal(cpu) + HEADER_SUFFIX);
  }

  lemma {:induction false} DataLineFits(d: Data)
    requires Fits(d)
    ensures FitsLine(DataLine(d))
  {
    match d
    case Row(table, i, regs) => RowLineFits(table, i, regs);
    case Register(group, i, value) => RegisterLineFits(group, i, value);
  }

  lemma {:induction false} DataLinesFit(items: seq<Data>)
    requires AllFit(items)
    ensures AllFitLine(DataLines(items))
    decreases |items|
  {
    if items != [] {
      DataLineFits(items[0]);
      DataLinesFit(items[1..]);
    }
  }

  lemma {:induction false} CpuLinesFit(raw: Raw, cpu: uint16, architecture: Architecture)
    requires raw.WellFormed()
    ensures AllFitLine(CpuLines(raw, cpu, architecture))
  {
    HeaderLineFits(cpu);
    DataItemsAre(raw, architecture);
    DataLinesFit(DataItems(raw, architecture));
  }

  lemma {:induction false} ArrayLinesFit(raws: seq<Raw>, n: nat, architecture: Architecture)
    requires AllWellFormed(raws) && n <= |raws| < UINT16_RANGE
    ensures AllFitLine(ArrayLines(raws, n, architecture))
  {
    if n > 0 {
      ArrayLinesFit(raws, n - 1, architecture);
      CpuLinesFit(raws[n - 1], n - 1, architecture);
    }
  }

  // ----- round trips of whole files

  predicate IsVersion(version: string) { 0 < |version| <= VERSION_ROOM && IsPlain(version) && NUL !in version }

  /** Parsing a file at one of the two entry points. */
  function Parse(text: string, useArray: bool): (r: Parsing)
    ensures r.Reading? || r.Ended? ==> r.parser.WellFormed()
  {
    ParseLines(if useArray then ArrayStart() else SingleStart(), Lines(text), useArray)
  }

  /** A file written for 1 to 65535 records is read back into the same number of records. */
  lemma {:induction false} ArrayTextRoundTrip(raws: seq<Raw>, version: string)
    requires AllWellFormed(raws) && 0 < |raws| < UINT16_RANGE && IsVersion(version)
    ensures Parse(Join(DumpOfArray(raws, version)), true)
      == Reading(Parser(false, VisibleAll(raws, ArchitectureOf(raws[0])), true, |raws| - 1, Native))
  {
    ArrayLinesFit(raws, |raws|, ArchitectureOf(raws[0]));
    LinesOfJoin(DumpOfArray(raws, version));
    ArrayRoundTrip(raws, version);
  }

  /** The written records come back unchanged exactly when none holds data of the other architecture. */
  lemma {:induction false} ArrayTextRestoredIff(raws: seq<Raw>, version: string)
    requires AllWellFormed(raws) && 0 < |raws| < UINT16_RANGE && IsVersion(version)
    ensures var architecture := ArchitectureOf(raws[0]);
            Parse(Join(DumpOfArray(raws, version)), true)
              == Reading(Parser(false, raws, true, |raws| - 1, Native))
            <==> forall i | 0 <= i < |raws| ::
              && (architecture != X86 ==> raws[i].leaves == ZeroLeaves())
              && (architecture != Arm ==> raws[i].arm == ZeroArm())
  {
    ArrayTextRoundTrip(raws, version);
    VisibleIff(raws, ArchitectureOf(raws[0]));
  }

  lemma {:induction false} VisibleIff(raws: seq<Raw>, architecture: Architecture)
    requires AllWellFormed(raws)
    ensures VisibleAll(raws, architecture) == raws <==>
      forall i | 0 <= i < |raws| ::
        && (architecture != X86 ==> raws[i].leaves == ZeroLeaves())
        && (architecture != Arm ==> raws[i].arm == ZeroArm())
  {
    forall i | 0 <= i < |raws|
      ensures VisibleAll(raws, architecture)[i] == raws[i] <==>
        && (architecture != X86 ==> raws[i].leaves == ZeroLeaves())
        && (architecture != Arm ==> raws[i].arm == ZeroArm())
    {
    }
  }

  /** A file written for an array, read at the single entry point. */
  lemma {:induction false} ArrayTextThroughSingle(raws: seq<Raw>, version: string)
    requires AllWellFormed(raws) && 0 < |raws| < UINT16_RANGE && IsVersion(version)
    ensures var architecture := ArchitectureOf(raws[0]);
            Parse(Join(DumpOfArray(raws, version)), false)
              == Reading(Parser(architecture != X86, [Visible(raws[|raws| - 1], architecture)], false, 0, Native))
  {
    ArrayLinesFit(raws, |raws|, ArchitectureOf(raws[0]));
    LinesOfJoin(DumpOfArray(raws, version));
    ArrayThroughSingle(raws, version);
  }

  /** A file written for one record, read back at either entry point. */
  lemma {:induction false} SingleTextRoundTrip(raw: Raw, version: string)
    requires raw.WellFormed() && IsVersion(version)
    ensures var architecture := ArchitectureOf(raw);
            var text := Join(DumpOfSingle(raw, version));
            && Parse(text, false)
               == Reading(Parser(architecture != X86, [Visible(raw, architecture)], false, 0, Native))
            && Parse(text, true) == match architecture
                                    case X86 => Reading(Parser(false, [Visible(raw, X86)], false, 0, Native))
                                    case Arm => Undefined
                                    case Unknown => Reading(ArrayStart())
  {
    DataItemsAre(raw, ArchitectureOf(raw));
    DataLinesFit(DataItems(raw, ArchitectureOf(raw)));
    LinesOfJoin(DumpOfSingle(raw, version));
    SingleRoundTrip(raw, version);
    SingleThroughArray(raw, version);
  }

  // ----- the writer

  lemma {:induction false} DataLinesConcat(a: seq<Data>, b: seq<Data>)
    ensures DataLines(a + b) == DataLines(a) + DataLines(b)
    decreases |a|
  {
    if a == [] {
      assert a + b == b;
    } else {
      DataLinesConcat(a[1..], b);
      assert (a + b)[0] == a[0] && (a + b)[1..] == a[1..] + b;
      ConcatAssociates([DataLine(a[0])], DataLines(a[1..]), DataLines(b));
    }
  }

  /** The text of some data. */
  ghost function TextOf(items: seq<Data>): string { Join(DataLines(items)) }

  lemma {:induction false} TextOfConcat(a: seq<Data>, b: seq<Data>)
    ensures TextOf(a + b) == TextOf(a) + TextOf(b)
  {
    DataLinesConcat(a, b);
    JoinConcat(DataLines(a), DataLines(b));
  }

  lemma {:induction false} FirstText(d: Data, items: seq<Data>)
    ensures TextOf([d] + items) == (DataLine(d) + "\n") + TextOf(items)
  {
    assert ([d] + items)[1..] == items;
    JoinFirst(DataLine(d), DataLines(items));
  }

  lemma {:induction false} JoinFirst(line: string, lines: seq<string>)
    ensures Join([line] + lines) == (line + "\n") + Join(lines)
  {
    assert ([line] + lines)[1..] == lines;
  }

  lemma {:induction false} NextRowText(raw: Raw, table: int, i: nat)
    requires raw.WellFormed() && 0 <= table < NUM_TABLES && i < Rows(table)
    ensures TextOf(RowItems(raw, table, i))
      == (RowLine(table, i, raw.leaves[table][i]) + "\n") + TextOf(RowItems(raw, table, i + 1))
  {
    FirstText(Row(table, i, raw.leaves[table][i]), RowItems(raw, table, i + 1));
  }

  lemma {:induction false} NextRegisterText(raw: Raw, group: int, i: nat)
    requires raw.WellFormed() && 0 <= group < NUM_ARM_GROUPS && i < Registers(group)
    ensures TextOf(RegisterItems(raw, group, i))
      == (RegisterLine(group, i, raw.arm[group][i]) + "\n") + TextOf(RegisterItems(raw, group, i + 1))
  {
    FirstText(Register(group, i, raw.arm[group][i]), RegisterItems(raw, group, i + 1));
  }

  lemma {:induction false} TableText(raw: Raw, table: int)
    requires raw.WellFormed() && 0 <= table < NUM_TABLES
    ensures TextOf(TableItems(raw, table)) == TextOf(RowItems(raw, table, 0)) + TextOf(TableItems(raw, table + 1))
  {
    TextOfConcat(RowItems(raw, table, 0), TableItems(raw, table + 1));
  }

  lemma {:induction false} GroupText(raw: Raw, group: int)
    requires raw.WellFormed() && 0 <= group < NUM_ARM_GROUPS
    ensures TextOf(GroupItems(raw, group)) == TextOf(RegisterItems(raw, group, 0)) + TextOf(GroupItems(raw, group + 1))
  {
    TextOfConcat(RegisterItems(raw, group, 0), GroupItems(raw, group + 1));
  }

  lemma {:induction false} CpuText(raws: seq<Raw>, cpu: nat, architecture: Architecture)
    requires AllWellFormed(raws) && cpu < |raws|
    ensures Join(ArrayLines(raws, cpu + 1, architecture))
      == Join(ArrayLines(raws, cpu, architecture))
         + ("\n" + HeaderLine(cpu) + "\n" + TextOf(DataItems(raws[cpu], architecture)))
  {
    JoinConcat(ArrayLines(raws, cpu, architecture), CpuLines(raws[cpu], cpu, architecture));
    BlockText(HeaderLine(cpu), DataLines(DataItems(raws[cpu], architecture)));
  }

  lemma {:induction false} BlockText(header: string, data: seq<string>)
    ensures Join([""] + ([header] + data)) == "\n" + header + "\n" + Join(data)
  {
  }

  /** One leaf table of a record. */
  method WriteTable(raw: Raw, table: int) returns (text: string)
    requires raw.WellFormed() && 0 <= table < NUM_TABLES
    ensures text == TextOf(RowItems(raw, table, 0))
  {
    text := "";
    for i := 0 to Rows(table)
      invariant text + TextOf(RowItems(raw, table, i)) == TextOf(RowItems(raw, table, 0))
    {
      NextRowText(raw, table, i);
      ConcatAssociates(text, RowLine(table, i, raw.leaves[table][i]) + "\n", TextOf(RowItems(raw, table, i + 1)));
      text := text + (RowLine(table, i, raw.leaves[table][i]) + "\n");
    }
  }

  /** One group of ARM registers of a record. */
  method WriteGroup(raw: Raw, group: int) returns (text: string)
    requires raw.WellFormed() && 0 <= group < NUM_ARM_GROUPS
    ensures text == TextOf(RegisterItems(raw, group, 0))
  {
    text := "";
    for i := 0 to Registers(group)
      invariant text + TextOf(RegisterItems(raw, group, i)) == TextOf(RegisterItems(raw, group, 0))
    {
      NextRegisterText(raw, group, i);
      ConcatAssociates(text, RegisterLine(group, i, raw.arm[group][i]) + "\n",
        TextOf(RegisterItems(raw, group, i + 1)));
      text := text + (RegisterLine(group, i, raw.arm[group][i]) + "\n");
    }
  }

  method WriteTables(raw: Raw) returns (text: string)
    requires raw.WellFormed()
    ensures text == TextOf(TableItems(raw, 0))
  {
    text := "";
    ghost var whole := TextOf(TableItems(raw, 0));
    for table := 0 to NUM_TABLES
      invariant text + TextOf(TableItems(raw, table)) == whole
    {
      TableText(raw, table);
      var rows := WriteTable(raw, table);
      ConcatAssociates(text, rows, TextOf(TableItems(raw, table + 1)));
      text := text + rows;
    }
  }

  method WriteGroups(raw: Raw) returns (text: string)
    requires raw.WellFormed()
    ensures text == TextOf(GroupItems(raw, 0))
  {
    text := "";
    ghost var whole := TextOf(GroupItems(raw, 0));
    for group := 0 to NUM_ARM_GROUPS
      invariant text + TextOf(GroupItems(raw, group)) == whole
    {
      GroupText(raw, group);
      var registers := WriteGroup(raw, group);
      ConcatAssociates(text, registers, TextOf(GroupItems(raw, group + 1)));
      text := text + registers;
    }
  }

  method WriteData(raw: Raw, architecture: Architecture) returns (text: string)
    requires raw.WellFormed()
    ensures text == TextOf(DataItems(raw, architecture))
  {
    match architecture {
      case X86 => text := WriteTables(raw);
      case Arm => text := WriteGroups(raw);
      case Unknown => text := "";
    }
  }

  ghost function TextUpTo(raws: seq<Raw>, n: nat, version: string): string
    requires AllWellFormed(raws) && raws != [] && n <= |raws|
  {
    VersionLine(version) + "\n" + Join(ArrayLines(raws, n, ArchitectureOf(raws[0])))
  }

  lemma {:induction false} NextText(raws: seq<Raw>, n: nat, version: string)
    requires AllWellFormed(raws) && n < |raws|
    ensures TextUpTo(raws, n + 1, version) == TextUpTo(raws, n, version)
      + ("\n" + HeaderLine(n) + "\n" + TextOf(DataItems(raws[n], ArchitectureOf(raws[0]))))
  {
    var architecture := ArchitectureOf(raws[0]);
    CpuText(raws, n, architecture);
    ConcatAssociates(VersionLine(version) + "\n", Join(ArrayLines(raws, n, architecture)),
      "\n" + HeaderLine(n) + "\n" + TextOf(DataItems(raws[n], architecture)));
  }

  /** `cpuid_serialize_raw_data_internal` for an array of records. */
  method SerializeArray(raws: seq<Raw>, version: string) returns (text: string)
    requires AllWellFormed(raws) && 0 < |raws| < UINT16_RANGE
    ensures text == Join(DumpOfArray(raws, version))
  {
    var architecture := ArchitectureOf(raws[0]);
    text := VersionLine(version) + "\n";
    var logicalCpu := 0;
    while logicalCpu < |raws|
      invariant logicalCpu <= |raws|
      invariant text == TextUpTo(raws, logicalCpu, version)
    {
      NextText(raws, logicalCpu, version);
      var data := WriteData(raws[logicalCpu], architecture);
      text := text + ("\n" + HeaderLine(logicalCpu) + "\n" + data);
      logicalCpu := logicalCpu + 1;
    }
    JoinFirst(VersionLine(version), ArrayLines(raws, |raws|, architecture));
  }

  /** `cpuid_serialize_raw_data_internal` for a single record. */
  method SerializeOne(raw: Raw, version: string) returns (text: string)
    requires raw.WellFormed()
    ensures text == Join(DumpOfSingle(raw, version))
  {
    var data := WriteData(raw, ArchitectureOf(raw));
    text := VersionLine(version) + "\n" + data;
  }

  // ----- the reader

  lemma {:induction false} AssignAtMostTwo(p: Parser, items: seq<Data>)
    requires p.WellFormed() && |items| <= 2
    ensures AssignAll(p, items) ==
      if items == [] then Reading(p)
      else
        var r := Assign(p, items[0]);
        if |items| == 2 && r.Reading? then Assign(r.parser, items[1]) else r
  {
    if items != [] {
      AssignAtMostOne(items[1..]);
    }
  }

  lemma {:induction false} AssignAtMostOne(items: seq<Data>)
    requires |items| <= 1
    ensures forall p: Parser | p.WellFormed() ::
      AssignAll(p, items) == if items == [] then Reading(p) else Assign(p, items[0])
  {
    if items != [] {
      assert items[1..] == [];
    }
  }

  datatype ReadResult = Done | BadFormat

  /** The records a parse fills in and the array they belong to (`cpu_raw_data_array_t`). */
  class RawDataArray {
    var withAffinity: bool
    var raws: seq<Raw>

    /** `cpu_raw_data_array_t_constructor` */
    constructor ()
      ensures raws == [] && !withAffinity
    {
      withAffinity := false;
      raws := [];
    }

    /** `cpuid_grow_raw_data_array`: zeroed records are added up to the new size. */
    method GrowTo(n: int)
      requires AllWellFormed(raws) && n >= 0
      modifies this`raws
      ensures raws == Grow(old(raws), n)
    {
      var n16 := n % UINT16_RANGE;
      if n16 <= 0 || n16 < |raws| { return; }
      var i := |raws|;
      while i < n16
        invariant |old(raws)| <= i <= n16
        invariant raws == old(raws) + Zeros(i - |old(raws)|)
      {
        raws := raws + [ZeroRaw()];
        i := i + 1;
      }
    }

    /** The parser's variables: those of the array and the local ones. */
    ghost function ParserState(isHeader: bool, rawPtr: int, dialect: Dialect): Parser
      reads this
    {
      Parser(isHeader, raws, withAffinity, rawPtr, dialect)
    }

    /** A row or register of the current record. */
    method StoreLine(data: Data, ghost isHeader: bool, rawPtr: int, ghost dialect: Dialect)
      requires ParserState(isHeader, rawPtr, dialect).WellFormed()
      requires Assign(ParserState(isHeader, rawPtr, dialect), data).Reading?
      modifies this`raws
      ensures Assign(old(ParserState(isHeader, rawPtr, dialect)), data)
        == Reading(ParserState(isHeader, rawPtr, dialect))
    {
      if !data.NotUnderstood? {
        raws := raws[rawPtr := Store(raws[rawPtr], data)];
      }
    }

    /** The row of a leaf and the row of its subleaf. */
    method StoreItems(items: seq<Data>, rawPtr: int, ghost dialect: Dialect)
      requires |items| <= 2 && ParserState(false, rawPtr, dialect).WellFormed()
      requires AssignAll(ParserState(false, rawPtr, dialect), items).Reading?
      modifies this`raws
      ensures AssignAll(old(ParserState(false, rawPtr, dialect)), items)
        == Reading(ParserState(false, rawPtr, dialect))
    {
      ghost var p := ParserState(false, rawPtr, dialect);
      AssignAtMostTwo(p, items);
      if |items| >= 1 {
        StoreLine(items[0], false, rawPtr, dialect);
      }
      if |items| == 2 {
        StoreLine(items[1], false, rawPtr, dialect);
      }
    }

    /** The record of a logical CPU that has a header. */
    method StartCpu(logicalCpu: uint16)
      requires AllWellFormed(raws)
      modifies this
      ensures raws == Grow(old(raws), logicalCpu as int + 1) && withAffinity
    {
      GrowTo(logicalCpu as int + 1);
      withAffinity := true;
    }

    /** The native branch: a CPU header makes its record current, a data line is stored. */
    method ReadNative(line: string, useArray: bool, wasHeader: bool, wasPtr: int)
      returns (isHeader: bool, rawPtr: int)
      requires ParserState(wasHeader, wasPtr, Native).WellFormed()
      requires ParseNative(ParserState(wasHeader, wasPtr, Native), line, useArray).Reading?
      modifies this
      ensures ParseNative(old(ParserState(wasHeader, wasPtr, Native)), line, useArray)
        == Reading(ParserState(isHeader, rawPtr, Native))
    {
      isHeader, rawPtr := wasHeader, wasPtr;
      if useArray && ScanHeader(line).Match? {
        rawPtr := ScanHeader(line).value;
        isHeader := false;
        StartCpu(rawPtr);
      } else {
        StoreLine(DataOf(line), isHeader, rawPtr, Native);
      }
    }

    /** The AIDA64 branch: CPU headers count from the first number seen, rows are stored. */
    method ReadAida64(line: string, useArray: bool, wasPtr: int, wasOffset: uint16)
      returns (rawPtr: int, offset: uint16)
      requires ParserState(false, wasPtr, Aida64(wasOffset)).WellFormed()
      requires ParseAida64(ParserState(false, wasPtr, Aida64(wasOffset)), line, useArray).Reading?
      modifies this
      ensures ParseAida64(old(ParserState(false, wasPtr, Aida64(wasOffset))), line, useArray)
        == Reading(ParserState(false, rawPtr, Aida64(offset)))
    {
      rawPtr, offset := wasPtr, wasOffset;
      if useArray && ScanAnyCpu(line).Match? {
        var number := ScanAnyCpu(line).value;
        if raws == [] && number >= 1 {
          offset := number;
        }
        rawPtr := (number - offset) % UINT16_RANGE;
        StartCpu(rawPtr);
      } else {
        StoreItems(LeafLineItems(line), rawPtr, Aida64(offset));
      }
    }

    /** A line in the header that tells the kind of dump. */
    method ReadKind(line: string, useArray: bool, wasPtr: int)
      returns (isHeader: bool, rawPtr: int, dialect: Dialect)
      requires ParserState(true, wasPtr, Native).WellFormed()
      modifies this
      ensures ParserState(isHeader, rawPtr, dialect) ==
        var p := old(ParserState(true, wasPtr, Native));
        if ScanRow(line, BASIC_CPUID).Match? then FirstRecord(p, useArray)
        else if IsAida64Marker(line) then p.(isHeader := false, dialect := Aida64(0)) else p
    {
      isHeader, rawPtr, dialect := true, wasPtr, Native;
      if ScanRow(line, BASIC_CPUID).Match? {
        isHeader := false;
        if useArray {
          GrowTo(1);
          rawPtr := 0;
          withAffinity := false;
        }
      } else if IsAida64Marker(line) {
        isHeader := false;
        dialect := Aida64(0);
      }
    }

    /** One line; `more` is false at the line that ends the dump. */
    method ReadLine(line: string, useArray: bool, wasHeader: bool, wasPtr: int, wasDialect: Dialect)
      returns (more: bool, isHeader: bool, rawPtr: int, dialect: Dialect)
      requires ParserState(wasHeader, wasPtr, wasDialect).WellFormed() && (wasDialect.Aida64? ==> !wasHeader)
      requires ParseLine(ParserState(wasHeader, wasPtr, wasDialect), line, useArray) != Undefined
      modifies this
      ensures ParseLine(old(ParserState(wasHeader, wasPtr, wasDialect)), line, useArray)
        == var q := ParserState(isHeader, rawPtr, dialect); if more then Reading(q) else Ended(q)
      ensures dialect.Aida64? ==> !isHeader
    {
      more, isHeader, rawPtr, dialect := true, wasHeader, wasPtr, wasDialect;
      if line == "" { return; }
      if IsTestSeparator(line) {
        more := false;
        return;
      }
      if isHeader {
        if ScanVersion(line).Match? { return; }
        isHeader, rawPtr, dialect := ReadKind(line, useArray, rawPtr);
      }
      if dialect.Native? {
        isHeader, rawPtr := ReadNative(line, useArray, isHeader, rawPtr);
      } else {
        var offset;
        rawPtr, offset := ReadAida64(line, useArray, rawPtr, dialect.offset);
        dialect := Aida64(offset);
      }
    }

    /**
      `cpuid_deserialize_raw_data_internal`. With `useArray` the array is built from nothing; otherwise
      it holds the one zeroed record to fill in.
    */
    method Deserialize(text: string, useArray: bool) returns (result: ReadResult)
      requires ParserState(true, if useArray then -1 else 0, Native)
        == if useArray then ArrayStart() else SingleStart()
      requires Parse(text, useArray) != Undefined
      modifies this
      ensures var p := Parse(text, useArray).parser;
              && raws == p.raws && withAffinity == p.withAffinity
              && result == if useArray && raws == [] then BadFormat else Done
    {
      var more, isHeader, rawPtr, dialect := true, true, if useArray then -1 else 0, Native;
      var rest := text;
      ghost var goal := Parse(text, useArray);
      while more && rest != ""
        invariant ParserState(isHeader, rawPtr, dialect).WellFormed() && (dialect.Aida64? ==> !isHeader)
        invariant goal == if more then ParseLines(ParserState(isHeader, rawPtr, dialect), Lines(rest), useArray)
                          else Ended(ParserState(isHeader, rawPtr, dialect))
        decreases more, |rest|
      {
        var n := TakeLine(rest, LINE_ROOM);
        var line := CutLine(rest[..n]);
        rest := rest[n..];
        more, isHeader, rawPtr, dialect := ReadLine(line, useArray, isHeader, rawPtr, dialect);
      }
      result := if useArray && raws == [] then BadFormat else Done;
    }
  }
}

/**
  Reading a dump of the AIDA64 dialect: a marker, and one block per logical CPU, numbered from any first number.
 */
module Aida64Reading {
  import opened Bits
  import opened Text
  import opened Scanning
  import opened RawData
  import opened DumpFormat
  import opened Aida64
  import opened Dump
  import opened RoundTrip

  // ----- leaves

  /** No header format reads the line of a leaf. */
  lemma {:induction false} LeafLineIsNoHeader(l: Leaf, separator: string, upper: bool)
    requires IsPrintable(l)
    ensures var line := LeafLine(l, separator, upper);
            line != "" && line[0] == 'C' && ScanAnyCpu(line) == NoMatch
  {
    var line := LeafLine(l, separator, upper);
    var rest := Hex(l.leaf, 8, upper) + (separator + LeafRegsText(l.regs, upper, SubleafText(l)));
    assert line == LEAF_PREFIX + rest;
    assert line[0] == 'C' && line[3] == 'I' && CPU_HEADER[0] == '-' && REGISTERS_HEADER[0] == '-';
    LiteralFails(line, CPU_HEADER, 0);
    LiteralFails(line, REGISTERS_HEADER, 0);
    assert MASK_HEADER[3] == '#';
    LiteralFails(line, MASK_HEADER, 3);
    NumberedHeaderFails(l.leaf, upper, rest);
  }

  lemma {:induction false} NumberedHeaderFails(v: uint32, upper: bool, rest: string)
    requires |rest| > 8 && rest[..8] == Hex(v, 8, upper)
    ensures ScanLiteral(LEAF_PREFIX + rest, NUMBERED_HEADER) == NoMatch
  {
    Pow16Constants();
    HexDenotes(v, 8, upper);
    var num := Hex(v, 8, upper);
    assert num[0] in num && rest[0] == num[0];
    SameStartFails(LEAF_PREFIX, rest, "Registers (CPU #");
  }

  /** Text and literal that begin alike and go on with different characters. */
  lemma {:induction false} SameStartFails(start: string, rest: string, more: string)
    requires rest != "" && more != "" && rest[0] != more[0] && !IsSpace(more[0]) && SpacesAreSingle(start, rest)
    ensures ScanLiteral(start + rest, start + more) == NoMatch
  {
    LiteralGoesOn(start, more, rest);
    LiteralFails(rest, more, 0);
  }

  /** All rows of a leaf line go to a record that has them. */
  predicate FitsLeaf(l: Leaf) { IsPrintable(l) && AllFit(LeafRows(l)) }

  predicate AllFitLeaf(leaves: seq<Leaf>) { forall i | 0 <= i < |leaves| :: FitsLeaf(leaves[i]) }

  ghost predicate HasAida64Record(p: Parser) { HasRecord(p) && p.dialect.Aida64? }

  lemma {:induction false} RowsAssigned(p: Parser, items: seq<Data>)
    requires HasRecord(p) && AllFit(items)
    ensures AssignAll(p, items) == Reading(WithRecord(p, StoreAll(p.raws[p.cursor], items)))
    decreases |items|
  {
    if items != [] {
      var raw := Store(p.raws[p.cursor], items[0]);
      RowsAssigned(WithRecord(p, raw), items[1..]);
      WithRecordTwice(p, raw, StoreAll(p.raws[p.cursor], items));
    }
  }

  lemma {:induction false} LeafParsed(p: Parser, l: Leaf, separator: string, upper: bool, useArray: bool)
    requires HasAida64Record(p) && FitsLeaf(l) && IsSeparator(separator)
    ensures ParseLine(p, LeafLine(l, separator, upper), useArray)
      == Reading(WithRecord(p, StoreAll(p.raws[p.cursor], LeafRows(l))))
  {
    LeafLineIsNoHeader(l, separator, upper);
    LeafLineRead(l, separator, upper);
    RowsAssigned(p, LeafRows(l));
  }

  function LeafLines(leaves: seq<Leaf>, separator: string, upper: bool): seq<string>
    requires AllFitLeaf(leaves)
    decreases |leaves|
  {
    if leaves == [] then []
    else [LeafLine(leaves[0], separator, upper)] + LeafLines(leaves[1..], separator, upper)
  }

  /** The rows of all lines of a logical CPU, in order. */
  ghost function RowsOf(leaves: seq<Leaf>): (items: seq<Data>)
    requires AllFitLeaf(leaves)
    ensures AllFit(items)
    decreases |leaves|
  {
    if leaves == [] then [] else LeafRows(leaves[0]) + RowsOf(leaves[1..])
  }

  lemma {:induction false} LeavesParsed(p: Parser, leaves: seq<Leaf>, separator: string, upper: bool, useArray: bool)
    requires HasAida64Record(p) && AllFitLeaf(leaves) && IsSeparator(separator)
    ensures ParseLines(p, LeafLines(leaves, separator, upper), useArray)
      == Reading(WithRecord(p, StoreAll(p.raws[p.cursor], RowsOf(leaves))))
    decreases |leaves|
  {
    if leaves != [] {
      var raw := StoreAll(p.raws[p.cursor], LeafRows(leaves[0]));
      var all := StoreAll(raw, RowsOf(leaves[1..]));
      LeafParsed(p, leaves[0], separator, upper, useArray);
      LeavesParsed(WithRecord(p, raw), leaves[1..], separator, upper, useArray);
      StoreAllConcat(p.raws[p.cursor], LeafRows(leaves[0]), RowsOf(leaves[1..]));
      WithRecordTwice(p, raw, all);
      ParseFirst(p, LeafLine(leaves[0], separator, upper), WithRecord(p, raw),
        LeafLines(leaves[1..], separator, upper), WithRecord(p, all), useArray);
    }
  }

  // ----- headers

  /** The four forms of a CPU header. */
  datatype HeaderForm = SectionForm | RegistersForm | NumberedForm | MaskForm

  function HeaderPrefix(form: HeaderForm): string {
    match form
    case SectionForm => CPU_HEADER
    case RegistersForm => REGISTERS_HEADER
    case NumberedForm => NUMBERED_HEADER
    case MaskForm => MASK_HEADER
  }

  /** A header with the digits of its number, leading zeros included, and the text behind them. */
  datatype CpuHeader = CpuHeader(form: HeaderForm, digits: string, tail: string)

  predicate NamesCpu(h: CpuHeader, number: uint16) {
    h.digits != "" && IsNumeral(h.digits, 10) && Value(h.digits, 10) == number && StopsNumber(h.tail, 10)
  }

  function HeaderText(h: CpuHeader): string { HeaderPrefix(h.form) + (h.digits + h.tail) }

  lemma {:induction false} PrefixScanned(prefix: string, digits: string, tail: string)
    requires digits != "" && IsNumeral(digits, 10) && Value(digits, 10) < UINT16_RANGE && StopsNumber(tail, 10)
    requires SpacesAreSingle(prefix, digits + tail)
    ensures ScanCpu(prefix + (digits + tail), prefix) == Match(Value(digits, 10), tail)
  {
    var number := Value(digits, 10);
    LiteralMatchesItself(prefix, digits + tail);
    DigitsScanned(digits, tail, 10);
    assert Scan(digits + tail, Unsigned(10, End)) == Match(Cons(number, None), tail);
    CpuStored(number, tail);
  }

  /** An earlier form does not read it. */
  lemma {:induction false} EarlierFormsFail(form: HeaderForm, rest: string)
    ensures var line := HeaderPrefix(form) + rest;
            && (form != SectionForm ==> ScanCpu(line, CPU_HEADER) == NoMatch)
            && (form == NumberedForm || form == MaskForm ==> ScanCpu(line, REGISTERS_HEADER) == NoMatch)
            && (form == MaskForm ==> ScanCpu(line, NUMBERED_HEADER) == NoMatch)
  {
    var line := HeaderPrefix(form) + rest;
    match form
    case SectionForm =>
    case RegistersForm => OtherSectionFails("CPUID Registers / Logical CPU #", rest);
    case NumberedForm => SectionsFail(line);
    case MaskForm =>
      SectionsFail(line);
      assert line[3] == '#' && NUMBERED_HEADER[3] == 'I';
      LiteralFails(line, NUMBERED_HEADER, 3);
  }

  lemma {:induction false} OtherSectionFails(more: string, rest: string)
    requires more != "" && more[0] == 'C'
    ensures ScanCpu((SECTION + more) + rest, CPU_HEADER) == NoMatch
  {
    assert (SECTION + more) + rest == SECTION + (more + rest) && SpacesAreSingle(SECTION, more + rest);
    SameStartFails(SECTION, more + rest, "Logical CPU #");
  }

  lemma {:induction false} SectionsFail(line: string)
    requires line != "" && line[0] == 'C'
    ensures ScanCpu(line, CPU_HEADER) == NoMatch && ScanCpu(line, REGISTERS_HEADER) == NoMatch
  {
    assert CPU_HEADER[0] == '-' && REGISTERS_HEADER[0] == '-';
    LiteralFails(line, CPU_HEADER, 0);
    LiteralFails(line, REGISTERS_HEADER, 0);
  }

  /** Each form is read with its number. */
  lemma {:induction false} HeaderTextScanned(h: CpuHeader, number: uint16)
    requires NamesCpu(h, number)
    ensures ScanAnyCpu(HeaderText(h)) == Match(number, h.tail)
  {
    var prefix, rest := HeaderPrefix(h.form), h.digits + h.tail;
    assert h.digits[0] in h.digits && rest[0] == h.digits[0];
    PrefixIsSingle(h.form, rest);
    PrefixScanned(prefix, h.digits, h.tail);
    EarlierFormsFail(h.form, rest);
  }

  lemma {:induction false} PrefixIsSingle(form: HeaderForm, rest: string)
    requires rest != "" && !IsSpace(rest[0])
    ensures SpacesAreSingle(HeaderPrefix(form), rest)
  {
    match form
    case SectionForm =>
      assert SpacesAreSingle("Logical CPU #", rest);
      SectionIsSingle("Logical CPU #", rest);
    case RegistersForm =>
      RegistersIsSingle(rest);
      SectionIsSingle("CPUID Registers / Logical CPU #", rest);
    case NumberedForm => NumberedIsSingle(rest);
    case MaskForm =>
  }

  lemma {:induction false} SectionIsSingle(more: string, rest: string)
    requires more != "" && !IsSpace(more[0]) && SpacesAreSingle(more, rest)
    ensures SpacesAreSingle(SECTION + more, rest)
  {
    assert SpacesAreSingle(SECTION, more + rest);
    SingleConcat(SECTION, more, rest);
  }

  lemma {:induction false} RegistersIsSingle(rest: string)
    requires rest != "" && !IsSpace(rest[0])
    ensures SpacesAreSingle("CPUID Registers / Logical CPU #", rest)
  {
  }

  lemma {:induction false} NumberedIsSingle(rest: string)
    requires rest != "" && !IsSpace(rest[0])
    ensures SpacesAreSingle(NUMBERED_HEADER, rest)
  {
    var more := "Registers (CPU #";
    assert SpacesAreSingle(more, rest) && SpacesAreSingle(LEAF_PREFIX, more + rest);
    SingleConcat(LEAF_PREFIX, more, rest);
  }

  lemma {:induction false} SingleConcat(a: string, b: string, rest: string)
    requires SpacesAreSingle(a, b + rest) && SpacesAreSingle(b, rest)
    ensures SpacesAreSingle(a + b, rest)
  {
    var s := a + b;
    assert s + rest == a + (b + rest);
    forall i | 0 <= i < |s| && IsSpace(s[i])
      ensures i + 1 < |s + rest| && !IsSpace((s + rest)[i + 1])
    {
      if i >= |a| {
        assert s[i] == b[i - |a|] && (s + rest)[i + 1] == (b + rest)[i - |a| + 1];
      }
    }
  }

  /** The state before the header of the logical CPU with a number, when the first one is `first`. */
  predicate Expects(p: Parser, number: nat, first: nat) {
    && p.WellFormed() && p.dialect.Aida64? && |p.raws| < UINT16_RANGE - 1
    && number == first + |p.raws| < UINT16_RANGE
    && p.dialect.offset == if p.raws == [] then 0 else first
  }

  lemma {:induction false} HeaderTextKind(h: CpuHeader)
    ensures var line := HeaderText(h);
            line != "" && line[0] in {'-', 'C'} && !IsTestSeparator(line)
  {
    var line := HeaderText(h);
    if h.form == SectionForm || h.form == RegistersForm {
      assert SECTION[0] == '-' && line[8] == HeaderPrefix(h.form)[8] != '-';
    } else {
      assert line[0] == 'C';
    }
  }

  /** The header makes the next record, whatever number the first one had. */
  lemma {:induction false} CpuHeaderParsed(p: Parser, h: CpuHeader, number: nat, first: nat)
    requires Expects(p, number, first) && NamesCpu(h, number)
    ensures ParseLine(p, HeaderText(h), true)
      == Reading(Parser(false, p.raws + [ZeroRaw()], true, |p.raws|, Aida64(first)))
  {
    HeaderTextScanned(h, number);
    HeaderTextKind(h);
    GrowByOne(p.raws);
  }

  // ----- blocks

  /** One logical CPU: its header and the lines of its leaves. */
  datatype Block = Block(header: CpuHeader, leaves: seq<Leaf>)

  /** Headers that count from a first number, and lines that a record has. */
  predicate AreBlocks(blocks: seq<Block>, first: nat) {
    && first + |blocks| <= UINT16_RANGE
    && forall k | 0 <= k < |blocks| :: NamesCpu(blocks[k].header, first + k) && AllFitLeaf(blocks[k].leaves)
  }

  function BlockLines(b: Block, separator: string, upper: bool): seq<string>
    requires AllFitLeaf(b.leaves)
  {
    [HeaderText(b.header)] + LeafLines(b.leaves, separator, upper)
  }

  function BlocksLines(blocks: seq<Block>, n: nat, separator: string, upper: bool): seq<string>
    requires n <= |blocks| && forall k | 0 <= k < n :: AllFitLeaf(blocks[k].leaves)
  {
    if n == 0 then []
    else BlocksLines(blocks, n - 1, separator, upper) + BlockLines(blocks[n - 1], separator, upper)
  }

  /** The record a logical CPU gets: its rows stored in order in a zeroed record. */
  ghost function RecordOf(leaves: seq<Leaf>): (raw: Raw)
    requires AllFitLeaf(leaves)
    ensures raw.WellFormed()
  {
    StoreAll(ZeroRaw(), RowsOf(leaves))
  }

  ghost function Records(blocks: seq<Block>, n: nat): (raws: seq<Raw>)
    requires n <= |blocks| && forall k | 0 <= k < n :: AllFitLeaf(blocks[k].leaves)
    ensures |raws| == n && AllWellFormed(raws)
    ensures forall k | 0 <= k < n :: raws[k] == RecordOf(blocks[k].leaves)
  {
    seq(n, k requires 0 <= k < n => RecordOf(blocks[k].leaves))
  }

  /** The state after `n` blocks. */
  ghost function AfterBlocks(blocks: seq<Block>, n: nat, first: uint16): (p: Parser)
    requires n <= |blocks| && forall k | 0 <= k < n :: AllFitLeaf(blocks[k].leaves)
    ensures p.WellFormed() && |p.raws| == n
  {
    Parser(false, Records(blocks, n), n > 0, n - 1, Aida64(if n == 0 then 0 else first))
  }

  /** The state of a dump that has been recognised, before its first block. */
  function Recognised(): (p: Parser)
    ensures p.WellFormed()
  {
    Parser(false, [], false, -1, Aida64(0))
  }

  lemma {:induction false} BlockAppends(p: Parser, b: Block, number: nat, first: nat,
                                        separator: string, upper: bool, r: Parser)
    requires Expects(p, number, first) && NamesCpu(b.header, number)
    requires AllFitLeaf(b.leaves) && IsSeparator(separator)
    requires r == Parser(false, p.raws + [RecordOf(b.leaves)], true, |p.raws|, Aida64(first))
    ensures ParseLines(p, BlockLines(b, separator, upper), true) == Reading(r)
  {
    var q := Parser(false, p.raws + [ZeroRaw()], true, |p.raws|, Aida64(first));
    CpuHeaderParsed(p, b.header, number, first);
    LeavesParsed(q, b.leaves, separator, upper, true);
    assert q.raws[|p.raws| := RecordOf(b.leaves)] == r.raws;
    ParseFirst(p, HeaderText(b.header), q, LeafLines(b.leaves, separator, upper), r, true);
  }

  lemma {:induction false} AfterNext(blocks: seq<Block>, n: nat, first: uint16)
    requires AreBlocks(blocks, first) && n < |blocks| < UINT16_RANGE
    ensures var p := AfterBlocks(blocks, n, first);
            && Expects(p, first + n, first)
            && AfterBlocks(blocks, n + 1, first)
               == Parser(false, p.raws + [RecordOf(blocks[n].leaves)], true, |p.raws|, Aida64(first))
  {
    RecordsNext(blocks, n);
  }

  lemma {:induction false} RecordsNext(blocks: seq<Block>, n: nat)
    requires n < |blocks| && forall k | 0 <= k <= n :: AllFitLeaf(blocks[k].leaves)
    ensures Records(blocks, n + 1) == Records(blocks, n) + [RecordOf(blocks[n].leaves)]
  {
  }

  lemma {:induction false} BlockAdded(blocks: seq<Block>, n: nat, first: uint16, separator: string, upper: bool)
    requires AreBlocks(blocks, first) && n < |blocks| < UINT16_RANGE && IsSeparator(separator)
    ensures ParseLines(AfterBlocks(blocks, n, first), BlockLines(blocks[n], separator, upper), true)
      == Reading(AfterBlocks(blocks, n + 1, first))
  {
    AfterNext(blocks, n, first);
    BlockAppends(AfterBlocks(blocks, n, first), blocks[n], first + n, first, separator, upper,
      AfterBlocks(blocks, n + 1, first));
  }

  lemma {:induction false} NextBlockParsed(
      blocks: seq<Block>, n: nat, first: uint16, separator: string, upper: bool)
    requires AreBlocks(blocks, first) && n < |blocks| < UINT16_RANGE && IsSeparator(separator)
    requires ParseLines(Recognised(), BlocksLines(blocks, n, separator, upper), true)
      == Reading(AfterBlocks(blocks, n, first))
    ensures ParseLines(Recognised(), BlocksLines(blocks, n + 1, separator, upper), true)
      == Reading(AfterBlocks(blocks, n + 1, first))
  {
    BlockAdded(blocks, n, first, separator, upper);
    ParseInTurn(Recognised(), BlocksLines(blocks, n, separator, upper), AfterBlocks(blocks, n, first),
      BlockLines(blocks[n], separator, upper), AfterBlocks(blocks, n + 1, first), true);
  }

  lemma {:induction false} BlocksParsed(
      blocks: seq<Block>, n: nat, first: uint16, separator: string, upper: bool)
    requires AreBlocks(blocks, first) && n <= |blocks| < UINT16_RANGE && IsSeparator(separator)
    ensures ParseLines(Recognised(), BlocksLines(blocks, n, separator, upper), true)
      == Reading(AfterBlocks(blocks, n, first))
  {
    if n > 0 {
      BlocksParsed(blocks, n - 1, first, separator, upper);
      NextBlockParsed(blocks, n - 1, first, separator, upper);
    }
  }

  // ----- whole dumps

  /** A line that makes the dump one of AIDA64 and says nothing else. */
  predicate IsTitle(line: string) {
    && IsAida64Marker(line) && !IsTestSeparator(line)
    && !ScanVersion(line).Match? && !ScanRow(line, BASIC_CPUID).Match?
    && ScanAnyCpu(line) == NoMatch && LeafLineItems(line) == []
  }

  lemma {:induction false} MarkerIsNoHeader(rest: string)
    requires rest != "" && rest[0] == 'V'
    ensures ScanAnyCpu(SECTION + rest) == NoMatch
  {
    var line := SECTION + rest;
    assert SpacesAreSingle(SECTION, rest) && line[0] == '-';
    SameStartFails(SECTION, rest, "Logical CPU #");
    SameStartFails(SECTION, rest, "CPUID Registers / Logical CPU #");
    LiteralFails(line, NUMBERED_HEADER, 0);
    LiteralFails(line, MASK_HEADER, 0);
  }

  /** The marker that is no header is such a line. */
  lemma {:induction false} VersionsIsTitle(line: string)
    requires line == VERSIONS_MARKER
    ensures IsTitle(line)
  {
    assert line[0] == '-' && line[8] == 'V';
    LiteralFails(line, VERSION_PREFIX, 0);
    LiteralFails(line, TablePrefix(BASIC_CPUID), 0);
    LiteralFails(line, LEAF_PREFIX, 0);
    MarkerIsNoHeader("Versions ]------");
  }

  lemma {:induction false} TitleParsed(line: string)
    requires IsTitle(line)
    ensures ParseLine(ArrayStart(), line, true) == Reading(Recognised())
  {
  }

  /**
    Under a title, each block gives one record with exactly the rows of its lines; the records do not depend
    on the number of the first logical CPU.
   */
  lemma {:induction false} Aida64Parsed(
      title: string, blocks: seq<Block>, first: uint16, separator: string, upper: bool)
    requires IsTitle(title) && AreBlocks(blocks, first) && |blocks| < UINT16_RANGE && IsSeparator(separator)
    ensures ParseLines(ArrayStart(), [title] + BlocksLines(blocks, |blocks|, separator, upper), true)
      == Reading(AfterBlocks(blocks, |blocks|, first))
  {
    TitleParsed(title);
    BlocksParsed(blocks, |blocks|, first, separator, upper);
    ParseFirst(ArrayStart(), title, Recognised(), BlocksLines(blocks, |blocks|, separator, upper),
      AfterBlocks(blocks, |blocks|, first), true);
  }

  /** A header that is a marker is read as if the dump had been recognised before. */
  lemma {:induction false} MarkerHeaderParsed(h: CpuHeader)
    requires IsAida64Marker(HeaderText(h))
    ensures ParseLine(ArrayStart(), HeaderText(h), true) == ParseLine(Recognised(), HeaderText(h), true)
  {
    var line := HeaderText(h);
    HeaderTextKind(h);
    assert VERSION_PREFIX[0] == 'v' && TablePrefix(BASIC_CPUID)[0] == 'b';
    LiteralFails(line, VERSION_PREFIX, 0);
    LiteralFails(line, TablePrefix(BASIC_CPUID), 0);
  }

  lemma {:induction false} SameFirstLine(p: Parser, q: Parser, lines: seq<string>, useArray: bool)
    requires p.WellFormed() && q.WellFormed() && lines != []
    requires ParseLine(p, lines[0], useArray) == ParseLine(q, lines[0], useArray)
    ensures ParseLines(p, lines, useArray) == ParseLines(q, lines, useArray)
  {
  }

  lemma {:induction false} FirstLineIsHeader(blocks: seq<Block>, n: nat, separator: string, upper: bool)
    requires 0 < n <= |blocks| && forall k | 0 <= k < n :: AllFitLeaf(blocks[k].leaves)
    ensures var lines := BlocksLines(blocks, n, separator, upper);
            lines != [] && lines[0] == HeaderText(blocks[0].header)
  {
    if n > 1 {
      FirstLineIsHeader(blocks, n - 1, separator, upper);
    }
  }

  /** Without a title, the same if the first header is one of the other markers. */
  lemma {:induction false} Aida64ParsedByHeader(
      blocks: seq<Block>, first: uint16, separator: string, upper: bool)
    requires AreBlocks(blocks, first) && 0 < |blocks| < UINT16_RANGE && IsSeparator(separator)
    requires IsAida64Marker(HeaderText(blocks[0].header))
    ensures ParseLines(ArrayStart(), BlocksLines(blocks, |blocks|, separator, upper), true)
      == Reading(AfterBlocks(blocks, |blocks|, first))
  {
    var lines := BlocksLines(blocks, |blocks|, separator, upper);
    FirstLineIsHeader(blocks, |blocks|, separator, upper);
    MarkerHeaderParsed(blocks[0].header);
    SameFirstLine(ArrayStart(), Recognised(), lines, true);
    BlocksParsed(blocks, |blocks|, first, separator, upper);
  }

  /** The headers that are markers: number 0 in two forms, 1 in the third, and 000 with an affinity mask. */
  lemma {:induction false} MarkerHeaders(mask: string)
    ensures IsAida64Marker(HeaderText(CpuHeader(SectionForm, "0", SECTION_END)))
    ensures IsAida64Marker(HeaderText(CpuHeader(RegistersForm, "0", SECTION_END)))
    ensures IsAida64Marker(HeaderText(CpuHeader(NumberedForm, "1", "):")))
    ensures IsAida64Marker(HeaderText(CpuHeader(MaskForm, "000", " AffMask: 0x" + mask)))
  {
    var line := HeaderText(CpuHeader(MaskForm, "000", " AffMask: 0x" + mask));
    assert line == MASK_MARKER + mask;
    assert OccursAt(line, MASK_MARKER, 0);
  }
}

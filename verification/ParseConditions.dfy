/**
  When the parser of a raw dump stays within what the C code defines.
 */
module ParseConditions {
  import opened Bits
  import opened Scanning
  import opened RawData
  import opened DumpFormat
  import opened Aida64
  import opened Dump
  import opened RoundTrip
  import opened DumpText

  // ----- one line

  predicate IsVersionLine(p: Parser, line: string) {
    p.isHeader && p.dialect.Native? && ScanVersion(line).Match?
  }

  /** The state in which a line is read, after it has told the kind of dump. */
  function Settled(p: Parser, line: string, useArray: bool): (q: Parser)
    requires p.WellFormed()
    ensures q.WellFormed()
  {
    if !p.isHeader || p.dialect.Aida64? then p
    else if ScanRow(line, BASIC_CPUID).Match? then FirstRecord(p, useArray)
    else if IsAida64Marker(line) then p.(isHeader := false, dialect := Aida64(0))
    else p
  }

  /** The logical CPU a header line selects, or none. */
  function CpuIn(q: Parser, line: string): Scanned<uint16> {
    match q.dialect
    case Native => ScanHeader(line)
    case Aida64(offset) =>
      match ScanAnyCpu(line)
      case NoMatch => NoMatch
      case Match(number, rest) =>
        var first := if q.raws == [] && number >= 1 then number else offset;
        Match((number - first) % UINT16_RANGE, rest)
  }

  function ItemOf(d: Data): seq<Data> { if d.NotUnderstood? then [] else [d] }

  /** The rows or the register a line assigns. */
  function RowsIn(q: Parser, line: string): seq<Data> {
    if q.dialect.Aida64? then LeafLineItems(line) else ItemOf(DataOf(line))
  }

  /** There is a current record and it has all these rows and registers. */
  predicate CanStore(q: Parser, items: seq<Data>) {
    items == [] || (0 <= q.cursor < |q.raws| && AllFit(items))
  }

  /** A header of logical CPU 65535, or data without a current record or outside its group or table. */
  predicate LeavesRecords(q: Parser, line: string, useArray: bool) {
    if useArray && CpuIn(q, line).Match? then CpuIn(q, line).value == UINT16_RANGE - 1
    else !CanStore(q, RowsIn(q, line))
  }

  /** Such a line, or a version of more than seven characters. */
  predicate LeavesDefined(p: Parser, line: string, useArray: bool)
    requires p.WellFormed()
  {
    && line != "" && !IsTestSeparator(line)
    && if IsVersionLine(p, line) then |ScanVersion(line).value| > VERSION_ROOM
       else LeavesRecords(Settled(p, line, useArray), line, useArray)
  }

  lemma {:induction false} GrowSize(raws: seq<Raw>, n: nat)
    requires AllWellFormed(raws)
    ensures |Grow(raws, n)| == if n % UINT16_RANGE > |raws| then n % UINT16_RANGE else |raws|
  {
  }

  /** The record of a logical CPU exists after growing, except that of number 65535. */
  lemma {:induction false} GrownForIff(raws: seq<Raw>, cpu: uint16)
    requires AllWellFormed(raws) && |raws| < UINT16_RANGE
    ensures var grown := Grow(raws, cpu + 1);
            |grown| < UINT16_RANGE && (cpu < |grown| <==> cpu != UINT16_RANGE - 1)
  {
    GrowSize(raws, cpu + 1);
  }

  lemma {:induction false} AssignAllUndefinedIff(p: Parser, items: seq<Data>)
    requires p.WellFormed() && forall i | 0 <= i < |items| :: !items[i].NotUnderstood?
    ensures var r := AssignAll(p, items);
            (r == Undefined <==> !CanStore(p, items)) && (r.Reading? ==> |r.parser.raws| == |p.raws|)
    decreases |items|
  {
    if items != [] && 0 <= p.cursor < |p.raws| && Fits(items[0]) {
      var q := Assign(p, items[0]).parser;
      AssignAllUndefinedIff(q, items[1..]);
      AllFitFirst(items);
    }
  }

  lemma {:induction false} AllFitFirst(items: seq<Data>)
    requires items != []
    ensures AllFit(items) <==> Fits(items[0]) && AllFit(items[1..])
  {
    assert forall i | 0 < i < |items| :: items[i] == items[1..][i - 1];
    assert forall i | 0 <= i < |items[1..]| :: items[1..][i] == items[i + 1];
  }

  lemma {:induction false} AssignUndefinedIff(p: Parser, d: Data)
    requires p.WellFormed()
    ensures var r := Assign(p, d);
            (r == Undefined <==> !CanStore(p, ItemOf(d))) && (r.Reading? ==> |r.parser.raws| == |p.raws|)
  {
    if !d.NotUnderstood? {
      AllFitFirst([d]);
    }
  }

  lemma {:induction false} NativeUndefinedIff(q: Parser, line: string, useArray: bool)
    requires q.WellFormed() && q.dialect.Native? && |q.raws| < UINT16_RANGE
    ensures var r := ParseNative(q, line, useArray);
            && (r == Undefined <==> LeavesRecords(q, line, useArray))
            && (r.Reading? ==> |r.parser.raws| < UINT16_RANGE)
  {
    if useArray && ScanHeader(line).Match? {
      GrownForIff(q.raws, ScanHeader(line).value);
    } else {
      NativeDataUndefinedIff(q, line, useArray, DataOf(line));
    }
  }

  lemma {:induction false} NativeDataUndefinedIff(q: Parser, line: string, useArray: bool, d: Data)
    requires q.WellFormed() && q.dialect.Native? && |q.raws| < UINT16_RANGE
    requires d == DataOf(line) && !(useArray && ScanHeader(line).Match?)
    ensures var r := ParseNative(q, line, useArray);
            && (r == Undefined <==> LeavesRecords(q, line, useArray))
            && (r.Reading? ==> |r.parser.raws| < UINT16_RANGE)
  {
    assert ParseNative(q, line, useArray) == Assign(q, d) && RowsIn(q, line) == ItemOf(d);
    AssignUndefinedIff(q, d);
  }

  lemma {:induction false} Aida64UndefinedIff(q: Parser, line: string, useArray: bool)
    requires q.WellFormed() && q.dialect.Aida64? && |q.raws| < UINT16_RANGE
    ensures var r := ParseAida64(q, line, useArray);
            && (r == Undefined <==> LeavesRecords(q, line, useArray))
            && (r.Reading? ==> |r.parser.raws| < UINT16_RANGE)
  {
    if useArray && ScanAnyCpu(line).Match? {
      GrownForIff(q.raws, CpuIn(q, line).value);
    } else {
      AssignAllUndefinedIff(q, LeafLineItems(line));
    }
  }

  lemma {:induction false} SettledParsed(p: Parser, line: string, useArray: bool)
    requires p.WellFormed() && line != "" && !IsTestSeparator(line) && !IsVersionLine(p, line)
    ensures var q := Settled(p, line, useArray);
            ParseLine(p, line, useArray)
              == if q.dialect.Native? then ParseNative(q, line, useArray) else ParseAida64(q, line, useArray)
  {
  }

  /** A line takes the parser out of what C defines exactly in these cases; there are never more than 65535 records. */
  lemma {:induction false} LineUndefinedIff(p: Parser, line: string, useArray: bool)
    requires p.WellFormed() && |p.raws| < UINT16_RANGE
    ensures var r := ParseLine(p, line, useArray);
            && (r == Undefined <==> LeavesDefined(p, line, useArray))
            && (r.Reading? ==> |r.parser.raws| < UINT16_RANGE)
  {
    if line != "" && !IsTestSeparator(line) && !IsVersionLine(p, line) {
      var q := Settled(p, line, useArray);
      GrowSize(p.raws, 1);
      SettledParsed(p, line, useArray);
      if q.dialect.Native? {
        NativeUndefinedIff(q, line, useArray);
      } else {
        Aida64UndefinedIff(q, line, useArray);
      }
    }
  }

  // ----- whole texts

  /** Some lines having been read, the next one leaves what C defines. */
  predicate LeavesAt(p: Parser, lines: seq<string>, k: nat, useArray: bool)
    requires p.WellFormed() && k < |lines|
  {
    var r := ParseLines(p, lines[..k], useArray);
    r.Reading? && LeavesDefined(r.parser, lines[k], useArray)
  }

  lemma {:induction false} ParseNext(p: Parser, lines: seq<string>, n: nat, useArray: bool)
    requires p.WellFormed() && n < |lines|
    ensures var r := ParseLines(p, lines[..n], useArray);
            ParseLines(p, lines[..n + 1], useArray)
              == if r.Reading? then ParseLine(r.parser, lines[n], useArray) else r
  {
    var r := ParseLines(p, lines[..n], useArray);
    assert lines[..n + 1] == lines[..n] + [lines[n]];
    ParseConcat(p, lines[..n], [lines[n]], useArray);
    if r.Reading? {
      ParseOne(r.parser, lines[n], useArray);
    }
  }

  lemma {:induction false} ParseOne(p: Parser, line: string, useArray: bool)
    requires p.WellFormed()
    ensures ParseLines(p, [line], useArray) == ParseLine(p, line, useArray)
  {
    assert [line][1..] == [];
  }

  ghost predicate LeavesBefore(p: Parser, lines: seq<string>, n: nat, useArray: bool)
    requires p.WellFormed() && n <= |lines|
  {
    exists k: nat :: k < n && LeavesAt(p, lines, k, useArray)
  }

  lemma {:induction false} LeavesNext(p: Parser, lines: seq<string>, n: nat, useArray: bool)
    requires p.WellFormed() && n < |lines|
    ensures LeavesBefore(p, lines, n + 1, useArray) <==>
      LeavesBefore(p, lines, n, useArray) || LeavesAt(p, lines, n, useArray)
  {
  }

  lemma {:induction false} LinesUndefinedIff(p: Parser, lines: seq<string>, n: nat, useArray: bool)
    requires p.WellFormed() && |p.raws| < UINT16_RANGE && n <= |lines|
    ensures var r := ParseLines(p, lines[..n], useArray);
            && (r.Reading? ==> |r.parser.raws| < UINT16_RANGE)
            && (r == Undefined <==> LeavesBefore(p, lines, n, useArray))
  {
    if n == 0 {
      assert lines[..0] == [];
    } else {
      LinesUndefinedIff(p, lines, n - 1, useArray);
      ParseNext(p, lines, n - 1, useArray);
      LeavesNext(p, lines, n - 1, useArray);
      var r := ParseLines(p, lines[..n - 1], useArray);
      if r.Reading? {
        LineUndefinedIff(r.parser, lines[n - 1], useArray);
      }
    }
  }

  /** The state in which an entry point starts. */
  function Start(useArray: bool): (p: Parser)
    ensures p.WellFormed()
  {
    if useArray then ArrayStart() else SingleStart()
  }

  /** The parse of a text leaves what C defines exactly when one of its lines does so in its turn. */
  lemma {:induction false} TextUndefinedIff(text: string, lines: seq<string>, useArray: bool)
    requires lines == Lines(text)
    ensures Parse(text, useArray) == Undefined <==>
      exists k: nat :: k < |lines| && LeavesAt(Start(useArray), lines, k, useArray)
  {
    LinesUndefinedIff(Start(useArray), lines, |lines|, useArray);
    assert lines[..|lines|] == lines;
  }
}

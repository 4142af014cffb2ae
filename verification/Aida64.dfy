/**
  The AIDA64 dialect of the raw dump, which is only read: headers of logical CPUs and lines of CPUID
  leaves with or without a subleaf.
 */
module Aida64 {
  import opened Bits
  import opened Text
  import opened Scanning
  import opened RawData
  import opened DumpFormat

  const EXT_CPUID_START := 0x8000_0000

  // ----- headers

  const LEAF_PREFIX := "CPUID "
  const SECTION := "------[ "
  const CPU_HEADER := SECTION + "Logical CPU #"
  const REGISTERS_HEADER := SECTION + "CPUID Registers / Logical CPU #"
  const NUMBERED_HEADER := LEAF_PREFIX + "Registers (CPU #"
  const MASK_HEADER := "CPU#"
  const SECTION_END := " ]------"
  const VERSIONS_MARKER := SECTION + "Versions ]------"
  const MASK_MARKER := MASK_HEADER + ("000" + " AffMask: 0x")

  /** One header format; the text behind its only conversion need not match. */
  function ScanCpu(line: string, prefix: string): Scanned<uint16> {
    StoreCpu(Scan(line, Literal(prefix, Unsigned(10, End))))
  }

  /** The number in the first of the four headers that matches. */
  function ScanAnyCpu(line: string): Scanned<uint16> {
    if ScanCpu(line, CPU_HEADER).Match? then ScanCpu(line, CPU_HEADER)
    else if ScanCpu(line, REGISTERS_HEADER).Match? then ScanCpu(line, REGISTERS_HEADER)
    else if ScanCpu(line, NUMBERED_HEADER).Match? then ScanCpu(line, NUMBERED_HEADER)
    else ScanCpu(line, MASK_HEADER)
  }

  // ----- lines of leaves

  const COLON := ": "
  const TAB := "  \t "

  /** " [SL %02i]" */
  function SubleafFormat(): Format { Literal(" [SL ", Integer(2, Literal("]", End))) }

  /** "-%x" */
  function DashedFormat(next: Format): Format { Literal("-", Unsigned(16, next)) }

  /** "%x-%x-%x-%x [SL %02i]" */
  function LeafRegsFormat(): Format {
    Unsigned(16, DashedFormat(DashedFormat(DashedFormat(SubleafFormat()))))
  }

  /** "CPUID %x" and the rest behind a separator. */
  function LeafFormat(separator: string): Format {
    Literal(LEAF_PREFIX, Unsigned(16, Literal(separator, LeafRegsFormat())))
  }

  /** The values of a line: the second format is tried when the first one has read the leaf number only. */
  function LeafValues(line: string): seq<int> {
    var values := Assigned(line, LeafFormat(COLON));
    if |values| == 1 then Assigned(line, LeafFormat(TAB)) else values
  }

  /** The row of a leaf without a subleaf, or of subleaf 0. */
  function LeafItems(leaf: uint32, regs: Regs): (items: seq<Data>)
    ensures |items| <= 1
  {
    if leaf < Rows(BASIC_CPUID) then [Row(BASIC_CPUID, leaf, regs)]
    else if EXT_CPUID_START <= leaf < EXT_CPUID_START + Rows(EXT_CPUID)
    then [Row(EXT_CPUID, leaf - EXT_CPUID_START, regs)]
    else []
  }

  /** The row of a subleaf, for the leaves that have a table; the index is not checked. */
  function SubleafItems(leaf: uint32, regs: Regs, subleaf: int): (items: seq<Data>)
    ensures |items| <= 1
  {
    if leaf == 0x04 then [Row(INTEL_FN4, subleaf, regs)]
    else if leaf == 0x0B then [Row(INTEL_FN11, subleaf, regs)]
    else if leaf == 0x12 then [Row(INTEL_FN12H, subleaf, regs)]
    else if leaf == 0x14 then [Row(INTEL_FN14H, subleaf, regs)]
    else if leaf == 0x8000_001D then [Row(AMD_FN8000001DH, subleaf, regs)]
    else if leaf == 0x8000_0026 then [Row(AMD_FN80000026H, subleaf, regs)]
    else []
  }

  /** What a line with a leaf assigns: its subleaf is 0 if it has none. */
  function ItemsOf(leaf: uint32, regs: Regs, subleaf: int, hasSubleaf: bool): seq<Data> {
    (if subleaf == 0 then LeafItems(leaf, regs) else [])
    + (if hasSubleaf then SubleafItems(leaf, regs, subleaf) else [])
  }

  function LeafOf(v: seq<int>): seq<Data> {
    if |v| < 5 then []
    else
      var regs := Regs(StoredUInt32(v[1]), StoredUInt32(v[2]), StoredUInt32(v[3]), StoredUInt32(v[4]));
      ItemsOf(StoredUInt32(v[0]), regs, if |v| >= 6 then StoredInt(v[5]) else 0, |v| >= 6)
  }

  function LeafLineItems(line: string): (items: seq<Data>)
    ensures |items| <= 2
  {
    LeafOf(LeafValues(line))
  }

  // ----- lines as AIDA64 prints them

  datatype Leaf = Plain(leaf: uint32, regs: Regs) | WithSubleaf(leaf: uint32, regs: Regs, subleaf: nat)

  function TwoDigits(n: nat): string
    requires n < 100
  {
    [HexDigit(n / 10, false), HexDigit(n % 10, false)]
  }

  predicate IsPrintable(l: Leaf) { l.WithSubleaf? ==> l.subleaf < 100 }

  function SubleafText(l: Leaf): string
    requires IsPrintable(l)
  {
    match l
    case Plain(_, _) => ""
    case WithSubleaf(_, _, n) => " [SL " + (TwoDigits(n) + "]")
  }

  function DashedText(v: uint32, upper: bool, rest: string): string { "-" + (Hex(v, 8, upper) + rest) }

  function LeafRegsText(r: Regs, upper: bool, rest: string): string {
    Hex(r.eax, 8, upper) + DashedText(r.ebx, upper, DashedText(r.ecx, upper, DashedText(r.edx, upper, rest)))
  }

  /** A line with either separator and digits in either case. */
  function LeafLine(l: Leaf, separator: string, upper: bool): string
    requires IsPrintable(l)
  {
    LEAF_PREFIX + (Hex(l.leaf, 8, upper) + (separator + LeafRegsText(l.regs, upper, SubleafText(l))))
  }

  // ----- what is read of them

  /** "%02i" takes 08 and 09 for octal numerals, which end before the 8 or 9. */
  function SubleafRead(n: nat): nat { if n == 8 || n == 9 then 0 else n }

  lemma {:induction false} LiteralAssigned(text: string, rest: string, next: Format)
    requires SpacesAreSingle(text, rest)
    ensures Assigned(text + rest, Literal(text, next)) == Assigned(rest, next)
  {
    LiteralMatchesItself(text, rest);
  }

  lemma {:induction false} HexAssigned(v: uint64, width: nat, upper: bool, rest: string, next: Format)
    requires 2 <= width && v < Pow16(width) && StopsNumber(rest, 16)
    ensures Assigned(Hex(v, width, upper) + rest, Unsigned(16, next)) == [v] + Assigned(rest, next)
  {
    HexConverted(v, width, upper, rest);
  }

  lemma {:induction false} DashedAssigned(v: uint32, upper: bool, rest: string, next: Format)
    requires StopsNumber(rest, 16)
    ensures Assigned(DashedText(v, upper, rest), DashedFormat(next)) == [v] + Assigned(rest, next)
  {
    Pow16Constants();
    HexAssigned(v, 8, upper, rest, next);
    LiteralAssigned("-", Hex(v, 8, upper) + rest, Unsigned(16, next));
  }

  lemma {:induction false} RegsAssigned(r: Regs, upper: bool, rest: string)
    requires StopsNumber(rest, 16)
    ensures Assigned(LeafRegsText(r, upper, rest), LeafRegsFormat())
      == [r.eax] + ([r.ebx] + ([r.ecx] + ([r.edx] + Assigned(rest, SubleafFormat()))))
  {
    var f4 := SubleafFormat();
    var f3 := DashedFormat(f4);
    var f2 := DashedFormat(f3);
    var s4 := DashedText(r.edx, upper, rest);
    var s3 := DashedText(r.ecx, upper, s4);
    var s2 := DashedText(r.ebx, upper, s3);
    Pow16Constants();
    DashedAssigned(r.edx, upper, rest, f4);
    DashedAssigned(r.ecx, upper, s4, f3);
    DashedAssigned(r.ebx, upper, s3, f2);
    HexAssigned(r.eax, 8, upper, s2, DashedFormat(f2));
  }

  lemma {:induction false} TwoDigitsRead(n: nat)
    requires n < 100
    ensures ScanInteger(TwoDigits(n) + "]", 2).Match? && ScanInteger(TwoDigits(n) + "]", 2).value == SubleafRead(n)
  {
    var s := TwoDigits(n) + "]";
    var a, b := TwoDigits(n)[0], TwoDigits(n)[1];
    assert SkipSpaces(s) == s && s[..2] == [a, b];
    TwoDigitsScanned(a, b, if n < 10 then 8 else 10);
  }

  lemma {:induction false} TwoDigitsScanned(a: char, b: char, base: nat)
    requires IsDigit(a) && IsDigit(b) && DigitValue(a) < base && (base == 8 || base == 10)
    ensures var r := ScanDigits([a, b], base);
            && r.Match? && !r.value.0
            && r.value.1 == if DigitValue(b) < base then DigitValue(a) * base + DigitValue(b) else DigitValue(a)
  {
    var s := [a, b];
    assert s[1..] == [b] && [b][1..] == "";
    assert SkipSpaces(s) == s && !HasSign(s);
    assert DigitCount("", base) == 0;
    assert DigitCount([b], base) == if DigitValue(b) < base then 1 else 0;
    ValueAppend("", a, base);
    assert "" + [a] == [a] && s[..1] == [a] && s[..2] == s;
    ValueAppend([a], b, base);
    assert [a] + [b] == s;
  }

  lemma {:induction false} SubleafAssigned(l: Leaf)
    requires IsPrintable(l)
    ensures Assigned(SubleafText(l), SubleafFormat()) == if l.Plain? then [] else [SubleafRead(l.subleaf)]
  {
    match l
    case Plain(_, _) => EmptyFails(" [SL ", 1);
    case WithSubleaf(_, _, n) =>
      var close := Literal("]", End);
      var digits := TwoDigits(n) + "]";
      TwoDigitsRead(n);
      NothingAssigned(ScanInteger(digits, 2).rest, "]");
      assert Assigned(digits, Integer(2, close)) == [SubleafRead(n)];
      LiteralAssigned(" [SL ", digits, Integer(2, close));
  }

  /** Text that has ended matches no literal with a character that is not white space. */
  lemma {:induction false} EmptyFails(text: string, k: nat)
    requires k < |text| && !IsSpace(text[k])
    ensures ScanLiteral("", text) == NoMatch
    decreases k
  {
    if k > 0 {
      EmptyFails(text[1..], k - 1);
    }
  }

  lemma {:induction false} NothingAssigned(s: string, text: string)
    ensures Assigned(s, Literal(text, End)) == []
  {
  }

  /** The values behind the separator, if the separator is the one of the format. */
  ghost function Expected(l: Leaf): seq<int>
    requires IsPrintable(l)
  {
    [l.leaf] + ([l.regs.eax] + ([l.regs.ebx] + ([l.regs.ecx] + ([l.regs.edx]
      + (if l.Plain? then [] else [SubleafRead(l.subleaf)])))))
  }

  predicate IsSeparator(separator: string) { separator == COLON || separator == TAB }

  /** Either separator is followed by a digit and is read by its own format only. */
  lemma {:induction false} SeparatorAssigned(separator: string, rest: string, next: Format)
    requires IsSeparator(separator) && rest != "" && !IsSpace(rest[0])
    ensures Assigned(separator + rest, Literal(separator, next)) == Assigned(rest, next)
  {
    if separator == COLON {
      LiteralAssigned(COLON, rest, next);
    } else {
      SpacesMatch(TAB, rest);
    }
  }

  lemma {:induction false} SpacesMatch(spaces: string, rest: string)
    requires spaces != "" && (forall c | c in spaces :: IsSpace(c)) && (rest == "" || !IsSpace(rest[0]))
    ensures ScanLiteral(spaces + rest, spaces) == Match((), rest)
  {
    SpacesSkipped(spaces, rest);
    assert spaces[0] in spaces && forall c | c in spaces[1..] :: c in spaces;
    SpacesMatchNothing(spaces[1..], rest);
  }

  lemma {:induction false} SpacesSkipped(spaces: string, rest: string)
    requires (forall c | c in spaces :: IsSpace(c)) && (rest == "" || !IsSpace(rest[0]))
    ensures SkipSpaces(spaces + rest) == rest
  {
    if spaces == "" {
      assert spaces + rest == rest;
    } else {
      assert spaces[0] in spaces && forall c | c in spaces[1..] :: c in spaces;
      SpacesSkipped(spaces[1..], rest);
      assert (spaces + rest)[1..] == spaces[1..] + rest;
    }
  }

  lemma {:induction false} SpacesMatchNothing(spaces: string, rest: string)
    requires (forall c | c in spaces :: IsSpace(c)) && (rest == "" || !IsSpace(rest[0]))
    ensures ScanLiteral(rest, spaces) == Match((), rest)
    decreases |spaces|
  {
    if spaces != "" {
      assert spaces[0] in spaces && forall c | c in spaces[1..] :: c in spaces;
      SpacesMatchNothing(spaces[1..], rest);
    }
  }

  /** What a format reads behind "CPUID ". */
  lemma {:induction false} LeafNumberAssigned(v: uint32, upper: bool, rest: string, next: Format)
    requires StopsNumber(rest, 16)
    ensures Assigned(LEAF_PREFIX + (Hex(v, 8, upper) + rest), Literal(LEAF_PREFIX, Unsigned(16, next)))
      == [v] + Assigned(rest, next)
  {
    Pow16Constants();
    HexConverted(v, 8, upper, rest);
    HexAssigned(v, 8, upper, rest, next);
    var line := Hex(v, 8, upper) + rest;
    assert SpacesAreSingle(LEAF_PREFIX, line);
    LiteralAssigned(LEAF_PREFIX, line, Unsigned(16, next));
  }

  lemma {:induction false} RegsTextAssigned(l: Leaf, upper: bool)
    requires IsPrintable(l)
    ensures var text := LeafRegsText(l.regs, upper, SubleafText(l));
            && text != "" && !IsSpace(text[0])
            && [l.leaf] + Assigned(text, LeafRegsFormat()) == Expected(l)
  {
    var rest := SubleafText(l);
    Pow16Constants();
    RegsAssigned(l.regs, upper, rest);
    SubleafAssigned(l);
    HexConverted(l.regs.eax, 8, upper,
      DashedText(l.regs.ebx, upper, DashedText(l.regs.ecx, upper, DashedText(l.regs.edx, upper, rest))));
  }

  /** A printed line is read with the number of its subleaf as `SubleafRead` says. */
  lemma {:induction false} LeafLineValues(l: Leaf, separator: string, upper: bool)
    requires IsPrintable(l) && IsSeparator(separator)
    ensures LeafValues(LeafLine(l, separator, upper)) == Expected(l)
  {
    var text := LeafRegsText(l.regs, upper, SubleafText(l));
    RegsTextAssigned(l, upper);
    SeparatorAssigned(separator, text, LeafRegsFormat());
    LeafNumberAssigned(l.leaf, upper, separator + text, Literal(separator, LeafRegsFormat()));
    if separator == TAB {
      LeafNumberAssigned(l.leaf, upper, separator + text, Literal(COLON, LeafRegsFormat()));
      LiteralFails(separator + text, COLON, 0);
    }
  }

  /** The rows a printed line assigns. */
  function LeafRows(l: Leaf): seq<Data> {
    match l
    case Plain(leaf, regs) => LeafItems(leaf, regs)
    case WithSubleaf(leaf, regs, n) =>
      (if SubleafRead(n) == 0 then LeafItems(leaf, regs) else []) + SubleafItems(leaf, regs, SubleafRead(n))
  }

  /** A printed line assigns the row of its leaf and of its subleaf; 08 and 09 are taken for subleaf 0. */
  lemma {:induction false} LeafLineRead(l: Leaf, separator: string, upper: bool)
    requires IsPrintable(l) && IsSeparator(separator)
    ensures LeafLineItems(LeafLine(l, separator, upper)) == LeafRows(l)
  {
    LeafLineValues(l, separator, upper);
    ExpectedRows(l);
  }

  lemma {:induction false} ExpectedRows(l: Leaf)
    requires IsPrintable(l)
    ensures LeafOf(Expected(l)) == LeafRows(l)
  {
    var v, r := Expected(l), l.regs;
    assert v[0] == l.leaf && v[1] == r.eax && v[2] == r.ebx && v[3] == r.ecx && v[4] == r.edx;
    if l.WithSubleaf? {
      assert v[5] == SubleafRead(l.subleaf);
    }
  }

  /** A line of a higher subleaf also writes the row of its leaf if and only if it is subleaf 8 or 9. */
  lemma {:induction false} LeafOverwrittenIff(leaf: uint32, regs: Regs, n: nat, separator: string, upper: bool)
    requires 0 < n < 100 && IsSeparator(separator) && LeafItems(leaf, regs) != []
    ensures LeafItems(leaf, regs)[0] in LeafLineItems(LeafLine(WithSubleaf(leaf, regs, n), separator, upper))
      <==> n == 8 || n == 9
  {
    LeafLineRead(WithSubleaf(leaf, regs, n), separator, upper);
  }
}

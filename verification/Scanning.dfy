/**
  `sscanf` on character sequences: literal text and the conversions %d, %i, %u, %x and %s, in the
  "C" locale, with the value conversions of `strtol` and `strtoul` on 64-bit longs. A converted
  value is truncated to the width of a variable where it is stored.
 */
module Scanning {
  import opened Bits
  import opened Text

  /** A conversion either fails or yields a value and the unread rest. */
  datatype Scanned<+T> = NoMatch | Match(value: T, rest: string) {
    predicate IsFailure() { NoMatch? }
    function PropagateFailure<U>(): Scanned<U>
      requires NoMatch?
    {
      NoMatch
    }
    function Extract(): (T, string)
      requires Match?
    {
      (value, rest)
    }
  }

  function SkipSpaces(s: string): (r: string)
    ensures |r| <= |s| && (r != "" ==> !IsSpace(r[0]))
  {
    if s != "" && IsSpace(s[0]) then SkipSpaces(s[1..]) else s
  }

  /** Ordinary characters of a format match themselves; white space matches any white space. */
  function ScanLiteral(s: string, format: string): Scanned<()>
    decreases |format|, |s|
  {
    if format == "" then Match((), s)
    else if IsSpace(format[0]) then ScanLiteral(SkipSpaces(s), format[1..])
    else if s != "" && s[0] == format[0] then ScanLiteral(s[1..], format[1..])
    else NoMatch
  }

  /** How many leading characters are digits of a base. */
  function DigitCount(s: string, base: int): (n: nat)
    ensures n <= |s|
  {
    if s != "" && DigitValue(s[0]) < base then 1 + DigitCount(s[1..], base) else 0
  }

  predicate HasSign(s: string) { s != "" && (s[0] == '-' || s[0] == '+') }
  predicate HasHexPrefix(s: string) { |s| >= 2 && s[0] == '0' && (s[1] == 'x' || s[1] == 'X') }

  /** Optional white space, sign and hexadecimal prefix, then at least one digit. */
  function ScanDigits(s: string, base: nat): Scanned<(bool, nat)> {
    var s1 := SkipSpaces(s);
    var negative := HasSign(s1) && s1[0] == '-';
    var s2 := if HasSign(s1) then s1[1..] else s1;
    var s3 := if base == 16 && HasHexPrefix(s2) then s2[2..] else s2;
    var n := DigitCount(s3, base);
    if n == 0 then NoMatch else Match((negative, Value(s3[..n], base)), s3[n..])
  }

  /** `strtoul`: a 64-bit value. */
  function ScanUnsigned(s: string, base: nat): Scanned<int> {
    var ((negative, magnitude), rest) :- ScanDigits(s, base);
    Match(if magnitude >= UINT64_RANGE then UINT64_RANGE - 1
          else if negative then (UINT64_RANGE - magnitude) % UINT64_RANGE else magnitude, rest)
  }

  /** A 64-bit signed value. */
  function Signed64(negative: bool, magnitude: nat): int {
    var bound := UINT64_RANGE / 2;
    if negative then (if magnitude > bound then 0 - bound else 0 - magnitude)
    else if magnitude >= bound then bound - 1 else magnitude
  }

  /** `strtol`: a 64-bit value. */
  function ScanSigned(s: string): Scanned<int> {
    var ((negative, magnitude), rest) :- ScanDigits(s, 10);
    Match(Signed64(negative, magnitude), rest)
  }

  /** The base that `%i` reads off the first digits: 0x for 16, 0 for 8. */
  function PrefixBase(s: string): nat {
    var digits := if HasSign(s) then s[1..] else s;
    if HasHexPrefix(digits) then 16 else if digits != "" && digits[0] == '0' then 8 else 10
  }

  /** `%<width>i`: at most `width` characters after white space. */
  function ScanInteger(s: string, width: nat): Scanned<int> {
    var s1 := SkipSpaces(s);
    var room := if width < |s1| then width else |s1|;
    var ((negative, magnitude), rest) :- ScanDigits(s1[..room], PrefixBase(s1[..room]));
    Match(Signed64(negative, magnitude), rest + s1[room..])
  }

  /** A format: text, %d, %u or %x, and %i with a width, each followed by the rest of the format. */
  datatype Format =
    | End
    | Literal(text: string, next: Format)
    | Signed(next: Format)
    | Unsigned(base: nat, next: Format)
    | Integer(width: nat, next: Format)

  /** The converted values, before they are stored. */
  datatype Values = None | Cons(value: int, next: Values)

  /** `sscanf` with all conversions assigned. */
  function Scan(s: string, format: Format): Scanned<Values>
    decreases format, |s|
  {
    match format
    case End => Match(None, s)
    case Literal(text, next) =>
      var (_, rest) :- ScanLiteral(s, text);
      Scan(rest, next)
    case Signed(next) =>
      var (v, rest) :- ScanSigned(s);
      Prepend(v, Scan(rest, next))
    case Unsigned(base, next) =>
      var (v, rest) :- ScanUnsigned(s, base);
      Prepend(v, Scan(rest, next))
    case Integer(width, next) =>
      var (v, rest) :- ScanInteger(s, width);
      Prepend(v, Scan(rest, next))
  }

  /** The values assigned by `sscanf` up to the first failure; their number is its result. */
  function Assigned(s: string, format: Format): seq<int>
    decreases format, |s|
  {
    match format
    case End => []
    case Literal(text, next) =>
      (match ScanLiteral(s, text)
       case Match(_, rest) => Assigned(rest, next)
       case NoMatch => [])
    case Signed(next) => AssignedNext(ScanSigned(s), next)
    case Unsigned(base, next) => AssignedNext(ScanUnsigned(s, base), next)
    case Integer(width, next) => AssignedNext(ScanInteger(s, width), next)
  }

  function AssignedNext(r: Scanned<int>, next: Format): seq<int>
    decreases next, if r.Match? then |r.rest| + 1 else 0
  {
    match r
    case Match(v, rest) => [v] + Assigned(rest, next)
    case NoMatch => []
  }

  function Prepend(v: int, r: Scanned<Values>): Scanned<Values> {
    match r
    case Match(vs, rest) => Match(Cons(v, vs), rest)
    case NoMatch => NoMatch
  }

  /** `%s`: a non-empty run of characters that are not white space. */
  function ScanWord(s: string): Scanned<string> {
    var s1 := SkipSpaces(s);
    var n := WordLength(s1);
    if n == 0 then NoMatch else Match(s1[..n], s1[n..])
  }

  function WordLength(s: string): (n: nat)
    ensures n <= |s|
  {
    if s != "" && !IsSpace(s[0]) then 1 + WordLength(s[1..]) else 0
  }

  // ----- scanning what was printed

  predicate IsPlain(s: string) { forall c | c in s :: !IsSpace(c) }

  lemma {:induction false} LiteralMatches(format: string, rest: string)
    requires IsPlain(format)
    ensures ScanLiteral(format + rest, format) == Match((), rest)
  {
    if format == "" {
      assert format + rest == rest;
    } else {
      assert format[0] in format && (forall c | c in format[1..] :: c in format);
      LiteralMatches(format[1..], rest);
      assert (format + rest)[1..] == format[1..] + rest;
    }
  }

  /** Also with single spaces, when no space follows them in the text. */
  predicate SpacesAreSingle(format: string, rest: string) {
    forall i | 0 <= i < |format| && IsSpace(format[i]) ::
      i + 1 < |format + rest| && !IsSpace((format + rest)[i + 1])
  }

  /** A literal that begins with such text goes on behind it. */
  lemma {:induction false} LiteralGoesOn(format: string, more: string, rest: string)
    requires SpacesAreSingle(format, rest)
    ensures ScanLiteral(format + rest, format + more) == ScanLiteral(rest, more)
  {
    if format == "" {
      assert format + rest == rest && format + more == more;
    } else {
      var s, tail := format + rest, format[1..];
      assert s[1..] == tail + rest && (format + more)[1..] == tail + more;
      forall i | 0 <= i < |tail| && IsSpace(tail[i])
        ensures i + 1 < |tail + rest| && !IsSpace((tail + rest)[i + 1])
      {
        assert format[i + 1] == tail[i] && s[i + 2] == (tail + rest)[i + 1];
      }
      LiteralGoesOn(tail, more, rest);
      if IsSpace(format[0]) {
        assert s[1] == (tail + rest)[0];
        assert SkipSpaces(s) == SkipSpaces(s[1..]) == s[1..];
      }
    }
  }

  lemma {:induction false} LiteralMatchesItself(format: string, rest: string)
    requires SpacesAreSingle(format, rest)
    ensures ScanLiteral(format + rest, format) == Match((), rest)
  {
    LiteralGoesOn(format, "", rest);
    assert format + "" == format;
  }

  /** One differing character is enough for a literal to fail. */
  lemma {:induction false} LiteralFails(s: string, format: string, k: nat)
    requires k < |s| && k < |format| && s[k] != format[k]
    requires forall i | 0 <= i <= k :: !IsSpace(format[i])
    ensures ScanLiteral(s, format) == NoMatch
    decreases k
  {
    if k > 0 && s[0] == format[0] {
      LiteralFails(s[1..], format[1..], k - 1);
    }
  }

  predicate StopsNumber(rest: string, base: int) { rest == "" || DigitValue(rest[0]) >= base }

  lemma {:induction false} DigitsCounted(num: string, rest: string, base: int)
    requires IsNumeral(num, base) && StopsNumber(rest, base)
    ensures DigitCount(num + rest, base) == |num|
  {
    if num == "" {
      assert num + rest == rest;
    } else {
      assert num[0] in num && (forall c | c in num[1..] :: c in num);
      DigitsCounted(num[1..], rest, base);
      assert (num + rest)[1..] == num[1..] + rest;
    }
  }

  lemma {:induction false} DigitsScanned(num: string, rest: string, base: nat)
    requires num != "" && IsNumeral(num, base) && StopsNumber(rest, base) && base <= 16
    requires base == 16 ==> |num| >= 2
    ensures ScanDigits(num + rest, base) == Match((false, Value(num, base)), rest)
  {
    var s := num + rest;
    assert num[0] in num && (|num| >= 2 ==> num[1] in num);
    assert s[0] == num[0] && (|num| >= 2 ==> s[1] == num[1]);
    assert SkipSpaces(s) == s && !HasSign(s) && (base == 16 ==> !HasHexPrefix(s));
    DigitsCounted(num, rest, base);
    assert s[..|num|] == num && s[|num|..] == rest;
  }

  lemma {:induction false} SpacesGo(spaces: string, rest: string)
    requires (forall c | c in spaces :: IsSpace(c)) && rest != "" && !IsSpace(rest[0])
    ensures SkipSpaces(spaces + rest) == rest
  {
    if spaces == "" {
      assert spaces + rest == rest;
    } else {
      assert spaces[0] in spaces && (forall c | c in spaces[1..] :: c in spaces);
      SpacesGo(spaces[1..], rest);
      assert (spaces + rest)[1..] == spaces[1..] + rest;
    }
  }

  lemma {:induction false} SignedDigitsScanned(sign: string, num: string, rest: string)
    requires (sign == "+" || sign == "-") && num != "" && IsNumeral(num, 10) && StopsNumber(rest, 10)
    ensures ScanDigits(sign + (num + rest), 10) == Match((sign == "-", Value(num, 10)), rest)
  {
    var s, t := sign + (num + rest), num + rest;
    assert s[0] == sign[0] && s[1..] == t && SkipSpaces(s) == s && HasSign(s);
    DigitsCounted(num, rest, 10);
    assert t[..|num|] == num && t[|num|..] == rest;
  }

  /** A decimal number with white space and a sign before it. */
  lemma {:induction false} SpacedDigitsScanned(spaces: string, sign: string, num: string, rest: string)
    requires (forall c | c in spaces :: c == ' ' || 9 <= c as int <= 13) && sign in {"", "+", "-"}
    requires num != "" && IsNumeral(num, 10) && StopsNumber(rest, 10)
    ensures ScanDigits(spaces + (sign + (num + rest)), 10) == Match((sign == "-", Value(num, 10)), rest)
  {
    var tail := sign + (num + rest);
    assert num[0] in num;
    if sign == "" {
      assert tail == num + rest;
      DigitsScanned(num, rest, 10);
    } else {
      SignedDigitsScanned(sign, num, rest);
    }
    assert tail[0] == (if sign == "" then num[0] else sign[0]);
    SpacesGo(spaces, tail);
    assert SkipSpaces(tail) == tail;
  }

  /** The nearest 64-bit signed value. */
  function Clamped(x: int): int {
    if x < -0x8000_0000_0000_0000 then -0x8000_0000_0000_0000
    else if x > 0x7FFF_FFFF_FFFF_FFFF then 0x7FFF_FFFF_FFFF_FFFF
    else x
  }

  /** Its signed conversion is the nearest value; the unsigned one is clamped, and negated modulo 2^64. */
  lemma {:induction false} NumberScanned(spaces: string, sign: string, num: string, rest: string, v: nat)
    requires (forall c | c in spaces :: c == ' ' || 9 <= c as int <= 13) && sign in {"", "+", "-"}
    requires num != "" && IsNumeral(num, 10) && StopsNumber(rest, 10) && v == Value(num, 10)
    ensures ScanSigned(spaces + (sign + (num + rest))) == Match(Clamped(if sign == "-" then 0 - v else v), rest)
    ensures ScanUnsigned(spaces + (sign + (num + rest)), 10) ==
      Match(if v > 0xFFFF_FFFF_FFFF_FFFF then 0xFFFF_FFFF_FFFF_FFFF
            else if sign == "-" && v > 0 then 0x1_0000_0000_0000_0000 - v else v, rest)
  {
    SpacedDigitsScanned(spaces, sign, num, rest);
  }

  lemma {:induction false} LiteralScanned(text: string, rest: string, next: Format)
    requires IsPlain(text)
    ensures Scan(text + rest, Literal(text, next)) == Scan(rest, next)
  {
    LiteralMatches(text, rest);
  }

  /** `%d` reads back a printed index. */
  lemma {:induction false} IndexScanned(v: nat, rest: string, next: Format)
    requires v < 0x8000_0000 && StopsNumber(rest, 10)
    ensures Scan(Decimal(v) + rest, Signed(next)) == Prepend(v, Scan(rest, next))
  {
    DecimalDenotes(v);
    DigitsScanned(Decimal(v), rest, 10);
  }

  /** `%hu` reads back a printed CPU number. */
  lemma {:induction false} CpuNumberScanned(v: uint16, rest: string, next: Format)
    requires StopsNumber(rest, 10)
    ensures Scan(Decimal(v) + rest, Unsigned(10, next)) == Prepend(v, Scan(rest, next))
  {
    DecimalDenotes(v);
    DigitsScanned(Decimal(v), rest, 10);
  }

  lemma {:induction false} SpaceSkipped(s: string, base: nat)
    requires s != "" && !IsSpace(s[0])
    ensures ScanUnsigned(" " + s, base) == ScanUnsigned(s, base)
  {
    assert (" " + s)[1..] == s;
    assert SkipSpaces(" " + s) == SkipSpaces(s);
  }

  lemma {:induction false} HexConverted(v: uint64, width: nat, upper: bool, rest: string)
    requires 2 <= width && v < Pow16(width) && StopsNumber(rest, 16)
    ensures var num := Hex(v, width, upper);
            ScanUnsigned(num + rest, 16) == Match(v, rest) && (num + rest)[0] == num[0] && !IsSpace(num[0])
  {
    var num := Hex(v, width, upper);
    HexDenotes(v, width, upper);
    DigitsScanned(num, rest, 16);
    assert num[0] in num;
  }

  /** `%x` reads back a register printed in `width` digits, also after a space. */
  lemma {:induction false} HexScanned(v: uint64, width: nat, rest: string, next: Format)
    requires 2 <= width && v < Pow16(width) && StopsNumber(rest, 16)
    ensures Scan(Hex(v, width, false) + rest, Unsigned(16, next)) == Prepend(v, Scan(rest, next))
    ensures Scan(" " + (Hex(v, width, false) + rest), Unsigned(16, next)) == Prepend(v, Scan(rest, next))
  {
    HexConverted(v, width, false, rest);
    SpaceSkipped(Hex(v, width, false) + rest, 16);
  }

  lemma {:induction false} WordLengthPlain(word: string)
    requires IsPlain(word)
    ensures WordLength(word) == |word|
  {
    if word != "" {
      assert word[0] in word && forall c | c in word[1..] :: c in word;
      WordLengthPlain(word[1..]);
    }
  }

  /** `%s` reads back a word. */
  lemma {:induction false} WordScanned(word: string)
    requires word != "" && IsPlain(word)
    ensures ScanWord(word) == Match(word, "")
  {
    assert word[0] in word && SkipSpaces(word) == word;
    WordLengthPlain(word);
    assert word[..|word|] == word && word[|word|..] == "";
  }
}

/**
  Characters, numerals and the string functions of the C library in the "C" locale.
  A C string is the sequence of the characters before its terminator.
 */
module Text {

  const NUL: char := '\0'

  predicate IsSpace(c: char) {
    c == ' ' || '\t' <= c <= '\r'
  }

  predicate IsDigit(c: char) { '0' <= c <= '9' }

  function ToLower(c: char): char {
    if 'A' <= c <= 'Z' then (c as int + 32) as char else c
  }

  /** No terminator inside the string. */
  predicate IsCString(s: string) { NUL !in s }

  /** `s[i]` for a position of the string or of its terminator, and no further. */
  function At(s: string, i: int): char
    requires 0 <= i <= |s|
  {
    if i == |s| then NUL else s[i]
  }

  // ----- strstr

  predicate OccursAt(s: string, t: string, i: int) {
    0 <= i <= |s| - |t| && s[i..i + |t|] == t
  }

  predicate Contains(s: string, t: string) {
    exists i | 0 <= i <= |s| :: OccursAt(s, t, i)
  }

  /** The offset of the first occurrence, or -1. */
  method StrStr(s: string, t: string) returns (pos: int)
    ensures pos >= 0 ==> OccursAt(s, t, pos)
    ensures forall i | 0 <= i <= |s| && OccursAt(s, t, i) :: 0 <= pos <= i
    ensures pos >= 0 <==> Contains(s, t)
    ensures pos < 0 ==> pos == -1
  {
    pos := 0;
    while pos + |t| <= |s|
      invariant 0 <= pos <= |s| + 1
      invariant forall i | 0 <= i < pos :: !OccursAt(s, t, i)
    {
      if s[pos..pos + |t|] == t {
        assert OccursAt(s, t, pos);
        return;
      }
      assert !OccursAt(s, t, pos);
      pos := pos + 1;
    }
    pos := -1;
  }

  // ----- numerals

  function HexDigit(v: int, upper: bool): char
    requires 0 <= v < 16
  {
    if v < 10 then ('0' as int + v) as char
    else if upper then ('A' as int + v - 10) as char
    else ('a' as int + v - 10) as char
  }

  /** The value of a digit in any base up to 16; 16 for a character that is none. */
  function DigitValue(c: char): (v: int)
    ensures 0 <= v <= 16
  {
    if '0' <= c <= '9' then c as int - '0' as int
    else if 'a' <= c <= 'f' then c as int - 'a' as int + 10
    else if 'A' <= c <= 'F' then c as int - 'A' as int + 10
    else 16
  }

  predicate IsNumeral(s: string, base: int) {
    forall c | c in s :: DigitValue(c) < base
  }

  /** The number a digit string denotes. */
  function Value(s: string, base: nat): nat {
    if s == "" then 0 else Value(s[..|s| - 1], base) * base + DigitValue(s[|s| - 1])
  }

  /** `%0<width>x` or `%0<width>X` of a number that fits the width. */
  function Hex(v: nat, width: nat, upper: bool): (s: string)
    ensures |s| == width
  {
    if width == 0 then "" else Hex(v / 16, width - 1, upper) + [HexDigit(v % 16, upper)]
  }

  /** `%d` of a non-negative number. */
  function Decimal(v: nat): (s: string)
    ensures |s| > 0
  {
    if v < 10 then [HexDigit(v, false)] else Decimal(v / 10) + [HexDigit(v % 10, false)]
  }

  function Pow16(n: nat): (p: nat)
    ensures p > 0
  {
    if n == 0 then 1 else 16 * Pow16(n - 1)
  }

  /** Appending a digit. */
  lemma {:induction false} ValueAppend(s: string, c: char, base: nat)
    ensures Value(s + [c], base) == Value(s, base) * base + DigitValue(c)
  {
    assert (s + [c])[..|s|] == s;
  }

  lemma {:induction false} HexDenotes(v: nat, width: nat, upper: bool)
    requires v < Pow16(width)
    ensures IsNumeral(Hex(v, width, upper), 16)
    ensures Value(Hex(v, width, upper), 16) == v
  {
    if width > 0 {
      HexDenotes(v / 16, width - 1, upper);
      ValueAppend(Hex(v / 16, width - 1, upper), HexDigit(v % 16, upper), 16);
    }
  }

  lemma {:induction false} DecimalDenotes(v: nat)
    ensures IsNumeral(Decimal(v), 10)
    ensures Value(Decimal(v), 10) == v
  {
    if v >= 10 {
      DecimalDenotes(v / 10);
      ValueAppend(Decimal(v / 10), HexDigit(v % 10, false), 10);
    } else {
      ValueAppend("", HexDigit(v, false), 10);
      assert "" + [HexDigit(v, false)] == Decimal(v);
    }
  }

  /** Digit `i` of a hexadecimal numeral, which are all of one case. */
  lemma {:induction false} HexAt(v: nat, width: nat, upper: bool, i: nat)
    requires i < width
    ensures Hex(v, width, upper)[i]
      == (if upper then "0123456789ABCDEF" else "0123456789abcdef")[v / Pow16(width - 1 - i) % 16]
  {
    if i == width - 1 {
      HexDigitIs(v % 16, upper);
    } else {
      HexAt(v / 16, width - 1, upper, i);
      DividedTwice(v, Pow16(width - 2 - i));
    }
  }

  lemma {:induction false} HexDigitIs(v: int, upper: bool)
    requires 0 <= v < 16
    ensures HexDigit(v, upper) == (if upper then "0123456789ABCDEF" else "0123456789abcdef")[v]
  {
  }

  lemma {:induction false} DividedTwice(v: nat, p: nat)
    requires p > 0
    ensures v / 16 / p == v / (16 * p)
  {
    var q, r := v / 16 / p, v / 16 % p;
    assert v / 16 == q * p + r && v == 16 * (q * p + r) + v % 16;
    assert 16 * (q * p) == q * (16 * p);
    QuotientIs(v, 16 * p, q, 16 * r + v % 16);
  }

  lemma {:induction false} Multiples(e: int, d: nat)
    ensures e >= 1 ==> e * d >= d
    ensures e <= -1 ==> e * d <= 0 - d
  {
  }

  lemma {:induction false} QuotientIs(v: nat, d: nat, q: nat, r: nat)
    requires v == q * d + r && r < d
    ensures v / d == q
  {
    var q', r' := v / d, v % d;
    assert v == q' * d + r';
    assert (q' - q) * d == q' * d - q * d;
    Multiples(q' - q, d);
  }

  /** A decimal numeral is that of the tenth and a last digit; it does not begin with 0 unless it is "0". */
  lemma {:induction false} DecimalIs(v: nat)
    ensures v < 10 ==> Decimal(v) == ["0123456789"[v]]
    ensures v >= 10 ==> Decimal(v) == Decimal(v / 10) + ["0123456789"[v % 10]]
    ensures v > 0 ==> Decimal(v)[0] != '0'
  {
    if v >= 10 {
      DecimalIs(v / 10);
      DecimalDigitIs(v % 10);
    } else {
      DecimalDigitIs(v);
    }
  }

  lemma {:induction false} DecimalDigitIs(v: int)
    requires 0 <= v < 10
    ensures HexDigit(v, false) == "0123456789"[v] && (v > 0 ==> HexDigit(v, false) != '0')
  {
  }
}

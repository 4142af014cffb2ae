/**
  The in-place normalisers of the brand string: `collapse_spaces` and `remove_substring` on a buffer
  that holds a terminated string.
 */
module BrandText {
  import opened Collections
  import opened Text
  import opened Scanning

  /** The buffer holds a string: its characters, none of them the terminator, and a terminator behind them. */
  ghost predicate Holds(buffer: seq<char>, s: string) {
    |s| < |buffer| && buffer[|s|] == NUL && forall k | 0 <= k < |s| :: buffer[k] == s[k] != NUL
  }

  /** `strlen` */
  method StrLen(a: array<char>, ghost s: string) returns (n: nat)
    requires Holds(a[..], s)
    ensures n == |s|
  {
    n := 0;
    while a[n] != NUL
      invariant n <= |s|
      decreases |s| - n
    {
      n := n + 1;
    }
    assert a[..][n] == NUL;
  }

  // ----- collapse_spaces

  /** Every maximal run of white space becomes one space. */
  function Collapse(s: string): (t: string)
    ensures |t| <= |s|
    decreases |s|
  {
    if s == "" then ""
    else if IsSpace(s[0]) then " " + Collapse(SkipSpaces(s[1..]))
    else [s[0]] + Collapse(s[1..])
  }

  predicate EndsInSpace(s: string) { s != "" && IsSpace(s[|s| - 1]) }

  /** What one character adds. */
  function Piece(inSpace: bool, c: char): (w: string)
    ensures |w| <= 1
  {
    if !IsSpace(c) then [c] else if inSpace then "" else " "
  }

  lemma {:induction false} SkipAppend(s: string, c: char)
    ensures var rest := SkipSpaces(s);
            && SkipSpaces(s + [c]) == (if rest == "" then SkipSpaces([c]) else rest + [c])
            && (rest == "" ==> s == "" || EndsInSpace(s))
            && (rest != "" ==> EndsInSpace(rest) == EndsInSpace(s))
  {
    if s == "" {
      assert s + [c] == [c];
    } else {
      assert (s + [c])[1..] == s[1..] + [c];
      if IsSpace(s[0]) {
        SkipAppend(s[1..], c);
      }
    }
  }

  lemma {:induction false} CollapseOne(c: char)
    ensures Collapse(SkipSpaces([c])) == Piece(true, c)
  {
    assert [c][1..] == "";
  }

  /** The next character adds its piece to what is written, depending on the character before it only. */
  lemma {:induction false} CollapseAppend(s: string, c: char)
    ensures Collapse(s + [c]) == Collapse(s) + Piece(EndsInSpace(s), c)
    decreases |s|
  {
    if s == "" {
      assert s + [c] == [c] && [c][1..] == "";
    } else {
      var tail := s[1..];
      assert (s + [c])[1..] == tail + [c];
      assert tail != "" ==> EndsInSpace(tail) == EndsInSpace(s);
      if IsSpace(s[0]) {
        var rest := SkipSpaces(tail);
        SkipAppend(tail, c);
        if rest == "" {
          CollapseOne(c);
        } else {
          CollapseAppend(rest, c);
          ConcatAssociates(" ", Collapse(rest), Piece(EndsInSpace(rest), c));
        }
      } else {
        CollapseAppend(tail, c);
        ConcatAssociates([s[0]], Collapse(tail), Piece(EndsInSpace(tail), c));
      }
    }
  }

  /** One character more: white space, the six characters of the "C" locale, adds a space unless it follows some. */
  lemma {:induction false} CollapseNext(s: string, c: char)
    ensures Collapse("") == ""
    ensures var isSpace := (d: char) => d == ' ' || 9 <= d as int <= 13;
            Collapse(s + [c]) == Collapse(s) +
              if !isSpace(c) then [c] else if s != "" && isSpace(s[|s| - 1]) then "" else " "
  {
    CollapseAppend(s, c);
  }

  /** What the loop has written before it reads the character at `i`. */
  function Written(s: string, i: nat): (w: string)
    requires i <= |s|
    ensures |w| <= i
    decreases |s|, i
  {
    if i == 0 then "" else Written(s, i - 1) + Piece(i > 1 && IsSpace(s[i - 2]), s[i - 1])
  }

  /** That is what the characters before `i` collapse to. */
  lemma {:induction false} WrittenIs(s: string, i: nat)
    requires i <= |s|
    ensures Written(s, i) == Collapse(s[..i])
  {
    if i > 0 {
      WrittenIs(s, i - 1);
      assert s[..i] == s[..i - 1] + [s[i - 1]];
      CollapseAppend(s[..i - 1], s[i - 1]);
    }
  }

  /** The write position at each character read. */
  function WritePositions(s: string, i: nat): (positions: seq<nat>)
    requires i <= |s|
    ensures |positions| == i
    decreases |s|, i
  {
    if i == 0 then [] else WritePositions(s, i - 1) + [|Written(s, i - 1)|]
  }

  /** It is the length of what the characters before it collapse to, never ahead of the read position. */
  lemma {:induction false} WritePositionsAre(s: string, n: nat, i: nat)
    requires i < n <= |s|
    ensures WritePositions(s, n)[i] == |Collapse(s[..i])| <= i
  {
    if i < n - 1 {
      WritePositionsAre(s, n - 1, i);
    } else {
      WrittenIs(s, i);
    }
  }

  /** The loop of `collapse_spaces`; `positions` are the positions written to. */
  method CollapseSpaces(a: array<char>, ghost s: string) returns (ghost positions: seq<nat>)
    requires Holds(a[..], s)
    modifies a
    ensures Holds(a[..], Collapse(s))
    ensures forall k | |Collapse(s)| < k < a.Length :: a[k] == old(a[k])
    ensures positions == WritePositions(s, |s|)
  {
    ghost var before, written := a[..], "";
    positions := [];
    var j, inSpace := 0, false;
    var len := StrLen(a, s);
    assert forall k | 0 <= k < len :: before[k] == s[k];
    for i := 0 to len
      invariant j == |written| <= i && written == Written(s, i) && positions == WritePositions(s, i)
      invariant inSpace == (i > 0 && IsSpace(s[i - 1]))
      invariant forall k | j <= k < a.Length :: a[k] == before[k]
      invariant forall k | 0 <= k < j :: a[k] == written[k]
    {
      assert a[i] == s[i];
      positions := positions + [j];
      written := written + Piece(inSpace, s[i]);
      if IsSpace(a[i]) {
        if !inSpace {
          a[j] := ' ';
          j := j + 1;
          inSpace := true;
        }
      } else {
        a[j] := a[i];
        j := j + 1;
        inSpace := false;
      }
    }
    WrittenAll(s);
    a[j] := NUL;
  }

  lemma {:induction false} WrittenAll(s: string)
    requires forall k | 0 <= k < |s| :: s[k] != NUL
    ensures Written(s, |s|) == Collapse(s) && forall k | 0 <= k < |Collapse(s)| :: Collapse(s)[k] != NUL
  {
    WrittenIs(s, |s|);
    assert s[..|s|] == s;
    CollapseHasNo(s, NUL);
  }

  lemma {:induction false} CollapseHasNo(s: string, c: char)
    requires !IsSpace(c) && forall k | 0 <= k < |s| :: s[k] != c
    ensures forall k | 0 <= k < |Collapse(s)| :: Collapse(s)[k] != c
    decreases |s|
  {
    if s != "" {
      var rest := if IsSpace(s[0]) then SkipSpaces(s[1..]) else s[1..];
      SkippedPart(s[1..]);
      assert forall k | 0 <= k < |rest| :: rest[k] in s[1..];
      CollapseHasNo(rest, c);
      assert Collapse(s)[1..] == Collapse(rest);
      assert forall k | 1 <= k < |Collapse(s)| :: Collapse(s)[k] == Collapse(rest)[k - 1];
    }
  }

  lemma {:induction false} SkippedPart(s: string)
    ensures forall c | c in SkipSpaces(s) :: c in s
  {
    if s != "" {
      SkippedPart(s[1..]);
    }
  }

  /** No white space but single spaces. */
  predicate IsCollapsed(s: string) {
    && (forall i | 0 <= i < |s| && IsSpace(s[i]) :: s[i] == ' ')
    && forall i | 0 <= i < |s| - 1 :: !(IsSpace(s[i]) && IsSpace(s[i + 1]))
  }

  /** The words of a text. */
  function Words(s: string): (words: seq<string>)
    decreases |s|
  {
    if s == "" then []
    else if IsSpace(s[0]) then Words(s[1..])
    else
      var n := WordLength(s);
      [s[..n]] + Words(s[n..])
  }

  lemma {:induction false} SkippedWords(s: string)
    ensures Words(SkipSpaces(s)) == Words(s)
  {
    if s != "" && IsSpace(s[0]) {
      SkippedWords(s[1..]);
    }
  }

  /** Collapsing keeps a word at the front and goes on behind it. */
  lemma {:induction false} CollapsePastWord(s: string)
    ensures var n := WordLength(s);
            Collapse(s) == s[..n] + Collapse(s[n..]) && WordLength(Collapse(s)) == n
    decreases |s|
  {
    if s != "" && !IsSpace(s[0]) {
      var tail, n := s[1..], WordLength(s);
      CollapsePastWord(tail);
      assert Collapse(s) == [s[0]] + Collapse(tail);
      assert Collapse(s)[1..] == Collapse(tail);
      assert s[..n] == [s[0]] + tail[..n - 1] && s[n..] == tail[n - 1..];
      ConcatAssociates([s[0]], tail[..n - 1], Collapse(tail[n - 1..]));
    }
  }

  /** The words are kept, in order and unchanged. */
  lemma {:induction false} CollapseKeepsWords(s: string)
    ensures Words(Collapse(s)) == Words(s)
    decreases |s|
  {
    if s != "" {
      var t := Collapse(s);
      if IsSpace(s[0]) {
        assert t[1..] == Collapse(SkipSpaces(s[1..]));
        CollapseKeepsWords(SkipSpaces(s[1..]));
        SkippedWords(s[1..]);
      } else {
        var n := WordLength(s);
        CollapsePastWord(s);
        assert t[..n] == s[..n] && t[n..] == Collapse(s[n..]);
        CollapseKeepsWords(s[n..]);
      }
    }
  }

  lemma {:induction false} CollapseCollapses(s: string)
    ensures IsCollapsed(Collapse(s))
    ensures s != "" ==> Collapse(s) != "" && (IsSpace(Collapse(s)[0]) <==> IsSpace(s[0]))
    decreases |s|
  {
    if s != "" {
      var rest := if IsSpace(s[0]) then SkipSpaces(s[1..]) else s[1..];
      CollapseCollapses(rest);
      assert Collapse(s)[1..] == Collapse(rest);
      forall i | 0 <= i < |Collapse(s)| - 1
        ensures !(IsSpace(Collapse(s)[i]) && IsSpace(Collapse(s)[i + 1]))
      {
        assert Collapse(s)[i + 1] == Collapse(rest)[i];
        if i > 0 { assert Collapse(s)[i] == Collapse(rest)[i - 1]; }
      }
      forall i | 0 <= i < |Collapse(s)| && IsSpace(Collapse(s)[i])
        ensures Collapse(s)[i] == ' '
      {
        if i > 0 { assert Collapse(s)[i] == Collapse(rest)[i - 1]; }
      }
    }
  }

  /** A text is left alone exactly when it has only single spaces. */
  lemma {:induction false} CollapseFixedIff(s: string)
    ensures Collapse(s) == s <==> IsCollapsed(s)
    decreases |s|
  {
    if Collapse(s) == s {
      CollapseCollapses(s);
    }
    if IsCollapsed(s) && s != "" {
      assert IsCollapsed(s[1..]) by {
        assert forall i | 0 <= i < |s| - 1 :: s[1..][i] == s[i + 1];
      }
      CollapseFixedIff(s[1..]);
      assert |s| > 1 ==> !(IsSpace(s[0]) && IsSpace(s[0 + 1]));
      assert IsSpace(s[0]) ==> SkipSpaces(s[1..]) == s[1..];
      assert s == [s[0]] + s[1..];
    }
  }

  lemma {:induction false} CollapseIdempotent(s: string)
    ensures Collapse(Collapse(s)) == Collapse(s)
  {
    CollapseCollapses(s);
    CollapseFixedIff(Collapse(s));
  }

  // ----- remove_substring

  /** The offset of the first occurrence from `i` on, or -1. */
  ghost function FirstFrom(s: string, t: string, i: nat): (pos: int)
    requires i <= |s| + 1
    ensures pos == -1 || (i <= pos && pos + |t| <= |s|)
    decreases |s| + 1 - i
  {
    if i > |s| then -1 else if OccursAt(s, t, i) then i else FirstFrom(s, t, i + 1)
  }

  lemma {:induction false} FirstFromIs(s: string, t: string, i: nat, pos: int)
    requires i <= |s| + 1
    requires pos == -1 || (i <= pos && OccursAt(s, t, pos))
    requires forall k | i <= k <= |s| && OccursAt(s, t, k) :: 0 <= pos <= k
    ensures FirstFrom(s, t, i) == pos
    decreases |s| + 1 - i
  {
    if i <= |s| && !OccursAt(s, t, i) {
      FirstFromIs(s, t, i + 1, pos);
    }
  }

  /** The string without `len` characters at an offset; nothing is cut at a negative one. */
  function CutAt(s: string, pos: int, len: nat): string
    requires pos + len <= |s| || pos < 0
  {
    if pos < 0 then s else s[..pos] + s[pos + len..]
  }

  ghost function RemoveFirst(s: string, t: string): string { CutAt(s, FirstFrom(s, t, 0), |t|) }

  /** The string without the first occurrence of another one, if it has any. */
  ghost predicate IsWithoutFirst(s: string, t: string, r: string) {
    if Contains(s, t) then exists a, b: string :: IsCutBetween(s, t, a, b) && r == a + b else r == s
  }

  ghost predicate IsCutBetween(s: string, t: string, a: string, b: string) {
    s == a + t + b && forall i | 0 <= i < |a| :: !OccursAt(s, t, i)
  }

  lemma {:induction false} RemoveFirstIs(s: string, t: string)
    ensures IsWithoutFirst(s, t, RemoveFirst(s, t))
  {
    var pos := FirstFrom(s, t, 0);
    FirstFromLeast(s, t, 0);
    if pos >= 0 {
      var a, b := s[..pos], s[pos + |t|..];
      assert s == a + s[pos..pos + |t|] + b;
      assert IsCutBetween(s, t, a, b) && RemoveFirst(s, t) == a + b;
    }
  }

  lemma {:induction false} FirstFromLeast(s: string, t: string, i: nat)
    requires i <= |s| + 1
    ensures var pos := FirstFrom(s, t, i);
            && (pos >= 0 ==> OccursAt(s, t, pos))
            && forall k | i <= k <= |s| && OccursAt(s, t, k) :: 0 <= pos <= k
    decreases |s| + 1 - i
  {
    if i <= |s| && !OccursAt(s, t, i) {
      FirstFromLeast(s, t, i + 1);
    }
  }

  /** A buffer after `n` characters have moved to a lower address. */
  function Moved(buffer: seq<char>, to: nat, from: nat, n: nat): (moved: seq<char>)
    requires to <= from && from + n <= |buffer|
    ensures |moved| == |buffer|
  {
    buffer[..to] + buffer[from..from + n] + buffer[to + n..]
  }

  lemma {:induction false} MovedIs(before: seq<char>, after: seq<char>, to: nat, from: nat, n: nat)
    requires to <= from && from + n <= |before| == |after|
    requires forall x | 0 <= x < to || to + n <= x < |after| :: after[x] == before[x]
    requires forall x | to <= x < to + n :: after[x] == before[x + from - to]
    ensures after == Moved(before, to, from, n)
  {
    assert after[..to] == before[..to];
    assert after[to..to + n] == before[from..from + n];
    assert after[to + n..] == before[to + n..];
    assert after == after[..to] + after[to..to + n] + after[to + n..];
  }

  lemma {:induction false} CutOut(before: seq<char>, s: string, pos: nat, len: nat)
    requires Holds(before, s) && pos + len <= |s|
    ensures Holds(Moved(before, pos, pos + len, |s| - pos - len + 1), CutAt(s, pos, len))
  {
    var r, after := CutAt(s, pos, len), Moved(before, pos, pos + len, |s| - pos - len + 1);
    assert after[|r|] == before[|s|];
    forall k | 0 <= k < |r|
      ensures after[k] == r[k] != NUL
    {
      var from := if k < pos then k else k + len;
      assert r[k] == s[from] && after[k] == before[from];
    }
  }

  method FindFirst(s: string, t: string) returns (pos: int)
    ensures pos == FirstFrom(s, t, 0)
  {
    pos := StrStr(s, t);
    FirstFromIs(s, t, 0, pos);
  }

  /** `memmove` to a lower address. */
  method MoveDown(a: array<char>, to: nat, from: nat, n: nat)
    requires to <= from && from + n <= a.Length
    modifies a
    ensures a[..] == Moved(old(a[..]), to, from, n)
  {
    ghost var before := a[..];
    for k := 0 to n
      invariant forall x | 0 <= x < to || to + k <= x < a.Length :: a[x] == before[x]
      invariant forall x | to <= x < to + k :: a[x] == before[x + from - to]
    {
      a[to + k] := a[from + k];
    }
    MovedIs(before, a[..], to, from, n);
  }

  /** `remove_substring`: the tail and its terminator move over the first occurrence. */
  method RemoveSubstring(a: array<char>, substring: string, ghost s: string)
    requires Holds(a[..], s)
    modifies a
    ensures Holds(a[..], RemoveFirst(s, substring))
  {
    var n := StrLen(a, s);
    assert forall k | 0 <= k < n :: a[..][k] == s[k];
    assert a[..n] == s;
    var pos := FindFirst(a[..n], substring);
    if pos >= 0 {
      CutOut(a[..], s, pos, |substring|);
      MoveDown(a, pos, pos + |substring|, n - pos - |substring| + 1);
    }
  }
}

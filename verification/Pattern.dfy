/**
  The brand-string patterns: `xmatch_entry` and `match_pattern` as they run, against the meaning their
  header file documents.
 */
module Pattern {
  import opened Text

  // ----- what a pattern means

  /** '.' is any character, '#' any digit, "[chars]" any of some characters; other characters are themselves. */
  datatype Token = Exact(c: char) | AnyChar | Digit | OneOf(chars: string) | Unterminated

  /** The offset of the first ']' from `j` on, or the length of the pattern. */
  function ClassEnd(p: string, j: nat): (e: nat)
    requires j <= |p|
    ensures j <= e <= |p| && (forall i | j <= i < e :: p[i] != ']') && (e < |p| ==> p[e] == ']')
    decreases |p| - j
  {
    if j == |p| || p[j] == ']' then j else ClassEnd(p, j + 1)
  }

  function FirstToken(p: string): Token
    requires p != ""
  {
    if p[0] == '.' then AnyChar
    else if p[0] == '#' then Digit
    else if p[0] == '[' then
      var j := ClassEnd(p, 1);
      if j < |p| then OneOf(p[1..j]) else Unterminated
    else Exact(p[0])
  }

  function FirstLength(p: string): (n: nat)
    requires p != ""
    ensures 0 < n <= |p| && (p[0] != '[' ==> n == 1)
  {
    if p[0] != '[' then 1
    else
      var j := ClassEnd(p, 1);
      if j < |p| then j + 1 else |p|
  }

  function Tokens(p: string): (tokens: seq<Token>)
    ensures p == "" <==> tokens == []
    ensures |tokens| <= |p|
    decreases |p|
  {
    if p == "" then [] else [FirstToken(p)] + Tokens(p[FirstLength(p)..])
  }

  predicate SameLetter(a: char, b: char) { ToLower(a) == ToLower(b) }

  predicate Accepts(t: Token, c: char) {
    match t
    case Exact(d) => SameLetter(c, d)
    case AnyChar => true
    case Digit => IsDigit(c)
    case OneOf(chars) => exists i | 0 <= i < |chars| :: SameLetter(chars[i], c)
    case Unterminated => false
  }

  /** The text begins with one accepted character for each token. */
  predicate Accepted(s: string, tokens: seq<Token>) {
    |tokens| <= |s| && forall k | 0 <= k < |tokens| :: Accepts(tokens[k], s[k])
  }

  /** The documented result: 0, or one more than the least offset at which the pattern is found. */
  ghost predicate IsDocumented(r: int, s: string, p: string) {
    if r == 0 then p == "" || forall i | 0 <= i < |s| :: !Accepted(s[i..], Tokens(p))
    else
      && 1 <= r <= |s| && p != "" && Accepted(s[r - 1..], Tokens(p))
      && forall i | 0 <= i < r - 1 :: !Accepted(s[i..], Tokens(p))
  }

  // ----- what the code does

  /** Whether the class at the head of a pattern has a character. */
  predicate InClass(c: char, p: string, j: nat)
    requires j <= |p|
  {
    exists i | 1 <= i < j :: SameLetter(p[i], c)
  }

  /** How many pattern characters a text character consumes, or -1 if it does not match. */
  function Entry(c: char, p: string): (n: int)
    ensures n == -1 || (1 <= n <= |p|)
  {
    if c == NUL || p == "" then -1
    else if SameLetter(c, p[0]) || p[0] == '.' || (p[0] == '#' && IsDigit(c)) then 1
    else if p[0] == '[' && ClassEnd(p, 1) < |p| && InClass(c, p, ClassEnd(p, 1)) then ClassEnd(p, 1) + 1
    else -1
  }

  /** The pattern is used up before a character fails to match. */
  predicate Consumes(s: string, p: string)
    decreases |p|
  {
    p == "" || (s != "" && Entry(s[0], p) != -1 && Consumes(s[1..], p[Entry(s[0], p)..]))
  }

  ghost predicate IsResult(r: int, s: string, p: string) {
    if r == 0 then p == "" || forall i | 0 <= i < |s| :: !Consumes(s[i..], p)
    else
      && 1 <= r <= |s| && p != "" && Consumes(s[r - 1..], p)
      && forall i | 0 <= i < r - 1 :: !Consumes(s[i..], p)
  }

  /** `xmatch_entry` for the pattern at an offset; a character is read only up to the terminator. */
  method XMatchEntry(c: char, p: string, start: nat) returns (r: int)
    requires IsCString(p) && start <= |p|
    ensures r == Entry(c, p[start..])
  {
    ghost var q := p[start..];
    if c == NUL { return -1; }
    if ToLower(c) == ToLower(At(p, start)) {
      return 1;
    }
    if At(p, start) == '.' { return 1; }
    if At(p, start) == '#' && IsDigit(c) { return 1; }
    if At(p, start) == '[' {
      var j := 1;
      while At(p, start + j) != NUL && At(p, start + j) != ']'
        invariant 1 <= j && start + j <= |p|
        invariant ClassEnd(q, j) == ClassEnd(q, 1)
        decreases |p| - j
      {
        j := j + 1;
      }
      assert start + j < |p| ==> p[start + j] in p;
      if At(p, start + j) == NUL { return -1; }
      for i := 1 to j
        invariant forall k | 1 <= k < i :: !SameLetter(q[k], c)
      {
        if ToLower(At(p, start + i)) == ToLower(c) { return j + 1; }
      }
    }
    return -1;
  }

  predicate ConsumesFrom(s: string, i: nat, p: string, j: nat)
    requires i <= |s| && j <= |p|
  {
    Consumes(s[i..], p[j..])
  }

  /** The inner loop of `match_pattern`: the pattern against the text from one offset. */
  method MatchFrom(s: string, i: nat, p: string) returns (matched: bool)
    requires IsCString(s) && IsCString(p) && i <= |s|
    ensures matched <==> Consumes(s[i..], p)
  {
    var j, k := 0, 0;
    ghost var goal := ConsumesFrom(s, i, p, 0);
    assert p[0..] == p;
    while j < |p|
      invariant 0 <= j <= |p| && 0 <= k && i + k <= |s|
      invariant goal == ConsumesFrom(s, i + k, p, j)
      decreases |p| - j
    {
      var dj := XMatchEntry(At(s, i + k), p, j);
      if dj == -1 {
        return false;
      }
      k := k + 1;
      j := j + dj;
    }
    return true;
  }

  /** `match_pattern` */
  method MatchPattern(s: string, p: string) returns (r: int)
    requires IsCString(s) && IsCString(p)
    ensures IsResult(r, s, p)
  {
    for i := 0 to |s|
      invariant p == "" || forall x | 0 <= x < i :: !Consumes(s[x..], p)
    {
      var first := XMatchEntry(At(s, i), p, 0);
      assert p[0..] == p && s[i] in s;
      if first != -1 {
        var matched := MatchFrom(s, i, p);
        if matched { return i + 1; }
      }
    }
    return 0;
  }

  // ----- letters and single characters

  /** The same character, or the two cases of one letter. */
  predicate IsCaseOf(c: char, d: char) {
    c == d || ('A' <= c <= 'Z' && d as int == c as int + 32) || ('A' <= d <= 'Z' && c as int == d as int + 32)
  }

  /** Texts that differ at most in the case of the letters A to Z. */
  predicate DifferInCase(s: string, t: string) {
    |s| == |t| && forall i | 0 <= i < |s| :: IsCaseOf(s[i], t[i])
  }

  lemma {:induction false} SameLetterIff(c: char, d: char)
    ensures SameLetter(c, d) <==> IsCaseOf(c, d)
  {
  }

  lemma {:induction false} EntryIgnoresCase(c: char, d: char, p: string)
    requires IsCaseOf(c, d)
    ensures Entry(c, p) == Entry(d, p)
  {
    SameLetterIff(c, d);
    assert forall x :: SameLetter(x, c) <==> SameLetter(x, d);
  }

  lemma {:induction false} ConsumesIgnoresCase(s: string, t: string, p: string)
    requires DifferInCase(s, t)
    ensures Consumes(s, p) <==> Consumes(t, p)
    decreases |p|
  {
    if p != "" && s != "" {
      EntryIgnoresCase(s[0], t[0], p);
      if Entry(s[0], p) != -1 {
        ConsumesIgnoresCase(s[1..], t[1..], p[Entry(s[0], p)..]);
      }
    }
  }

  /** The result is the same for two texts that differ only in case. */
  lemma {:induction false} ResultIgnoresCase(r: int, s: string, t: string, p: string)
    requires DifferInCase(s, t)
    ensures IsResult(r, s, p) <==> IsResult(r, t, p)
  {
    forall i | 0 <= i < |s|
      ensures Consumes(s[i..], p) <==> Consumes(t[i..], p)
    {
      ConsumesIgnoresCase(s[i..], t[i..], p);
    }
  }

  /** What one character other than a class matches. */
  lemma {:induction false} CharacterMatchesIff(c: char, d: char)
    ensures Consumes([c], [d]) <==> c != '\0' && (IsCaseOf(c, d) || d == '.' || (d == '#' && '0' <= c <= '9'))
  {
    var p := [d];
    SameLetterIff(c, d);
    assert Entry(c, p) != -1 ==> Entry(c, p) == 1 && p[1..] == "";
  }

  /** A class matches its characters in either case, but never '[', which is taken for the bracket itself. */
  lemma {:induction false} ClassMatchesIff(c: char, chars: string)
    requires ']' !in chars
    ensures Consumes([c], "[" + chars + "]") <==>
      c != '\0' && c != '[' && exists i | 0 <= i < |chars| :: IsCaseOf(c, chars[i])
  {
    var p := "[" + chars + "]";
    ClassEndIs(p, 1, |chars| + 1);
    assert forall i | 0 <= i < |chars| :: p[i + 1] == chars[i];
    forall x, y { SameLetterIff(x, y); }
    if c == '[' {
      assert Entry(c, p) == 1;
    } else if InClass(c, p, |chars| + 1) {
      var i :| 1 <= i < |chars| + 1 && SameLetter(p[i], c);
      assert IsCaseOf(c, chars[i - 1]);
      assert p[|chars| + 2..] == "";
    } else {
      assert forall i | 0 <= i < |chars| :: chars[i] == p[i + 1] && !SameLetter(chars[i], c);
    }
  }

  lemma {:induction false} ClassEndIs(p: string, j: nat, e: nat)
    requires j <= e < |p| && p[e] == ']' && forall i | j <= i < e :: p[i] != ']'
    ensures ClassEnd(p, j) == e
    decreases e - j
  {
    if j < e {
      ClassEndIs(p, j + 1, e);
    }
  }

  // ----- the code against the documentation

  /** A text character that a pattern character matches literally although it has a special meaning. */
  predicate Clashes(c: char, p: string) { p != "" && c == p[0] && (c == '[' || c == '#') }

  /** One step does what its token says exactly when it does not clash. */
  lemma {:induction false} EntryIsDocumentedIff(c: char, p: string)
    requires c != NUL && p != ""
    ensures Entry(c, p) == (if Accepts(FirstToken(p), c) then FirstLength(p) else -1) <==> !Clashes(c, p)
  {
  }

  predicate CanClash(s: string, p: string) {
    ('[' in s && '[' in p) || ('#' in s && '#' in p)
  }

  lemma {:induction false} AcceptedFirst(s: string, t: Token, rest: seq<Token>)
    requires s != ""
    ensures Accepted(s, [t] + rest) <==> Accepts(t, s[0]) && Accepted(s[1..], rest)
  {
    var tokens := [t] + rest;
    if Accepts(t, s[0]) && Accepted(s[1..], rest) {
      forall k | 0 <= k < |tokens|
        ensures Accepts(tokens[k], s[k])
      {
        assert k > 0 ==> tokens[k] == rest[k - 1] && s[k] == s[1..][k - 1];
      }
    }
    if Accepted(s, tokens) {
      assert Accepts(tokens[0], s[0]);
      forall k | 0 <= k < |rest|
        ensures Accepts(rest[k], s[1..][k])
      {
        assert Accepts(tokens[k + 1], s[k + 1]);
      }
    }
  }

  lemma {:induction false} ConsumesIsAccepted(s: string, p: string)
    requires IsCString(s) && !CanClash(s, p)
    ensures Consumes(s, p) <==> Accepted(s, Tokens(p))
    decreases |p|
  {
    if p != "" && s != "" {
      var rest := p[FirstLength(p)..];
      assert s[0] in s && p[0] in p;
      assert (forall c | c in s[1..] :: c in s) && (forall c | c in rest :: c in p);
      EntryIsDocumentedIff(s[0], p);
      ConsumesIsAccepted(s[1..], rest);
      AcceptedFirst(s, FirstToken(p), Tokens(rest));
    }
  }

  /** Where text and pattern do not share a special character, the result is the documented one. */
  lemma {:induction false} ResultIsDocumented(r: int, s: string, p: string)
    requires IsCString(s) && !CanClash(s, p)
    ensures IsResult(r, s, p) <==> IsDocumented(r, s, p)
  {
    forall i | 0 <= i < |s|
      ensures Consumes(s[i..], p) <==> Accepted(s[i..], Tokens(p))
    {
      assert forall c | c in s[i..] :: c in s;
      ConsumesIsAccepted(s[i..], p);
    }
  }

  /** Any pattern is found at the start of its own text, character by character. */
  lemma {:induction false} ConsumesItself(p: string)
    requires IsCString(p)
    ensures Consumes(p, p)
    decreases |p|
  {
    if p != "" {
      assert p[0] in p && (forall c | c in p[1..] :: c in p);
      ConsumesItself(p[1..]);
    }
  }

  /** But not at the start of a proper prefix of it. */
  lemma {:induction false} PrefixFails(p: string, n: nat)
    requires IsCString(p) && n < |p|
    ensures !Consumes(p[..n], p)
    decreases n
  {
    if n > 0 {
      assert p[0] in p && (forall c | c in p[1..] :: c in p);
      PrefixFails(p[1..], n - 1);
      assert p[..n][1..] == p[1..][..n - 1];
    }
  }

  /** A documented match of a pattern with its own text means fewer tokens than characters, or nothing special. */
  lemma {:induction false} AcceptsItself(p: string)
    requires Accepted(p, Tokens(p)) && ('[' in p || '#' in p)
    ensures |Tokens(p)| < |p|
    decreases |p|
  {
    var rest := p[FirstLength(p)..];
    AcceptedFirst(p, FirstToken(p), Tokens(rest));
    if p[0] == '[' {
      assert FirstToken(p) != Unterminated;
      assert FirstLength(p) >= 2 && |Tokens(rest)| <= |p| - FirstLength(p);
    } else {
      assert p == [p[0]] + rest && p[0] != '#';
      assert rest == p[1..];
      AcceptsItself(rest);
    }
  }

  /** A text on which the code departs from the documentation: the pattern itself, or a prefix of it. */
  ghost function Departure(p: string): (s: string)
    ensures s <= p
  {
    if Accepted(p, Tokens(p)) then p[..|Tokens(p)|] else p
  }

  lemma {:induction false} DepartureDeparts(p: string)
    requires IsCString(p) && ('[' in p || '#' in p)
    ensures IsResult(1, Departure(p), p) <==> !IsDocumented(1, Departure(p), p)
  {
    var s := Departure(p);
    assert p[0..] == p;
    ConsumesItself(p);
    if Accepted(p, Tokens(p)) {
      AcceptsItself(p);
      PrefixFails(p, |Tokens(p)|);
      assert s[0..] == s;
      assert Accepted(s, Tokens(p)) by {
        assert forall k | 0 <= k < |Tokens(p)| :: s[k] == p[k];
      }
      assert |s| > 0;
    }
  }

  /** The documented meaning holds on all texts exactly for the patterns without '[' and '#'. */
  lemma {:induction false} DocumentedForAllTextsIff(p: string)
    requires IsCString(p)
    ensures (forall s, r | IsCString(s) :: IsResult(r, s, p) <==> IsDocumented(r, s, p))
      <==> '[' !in p && '#' !in p
  {
    if '[' in p || '#' in p {
      DepartureDeparts(p);
      assert forall c | c in Departure(p) :: c in p;
      assert IsCString(Departure(p));
    } else {
      forall s, r | IsCString(s)
        ensures IsResult(r, s, p) <==> IsDocumented(r, s, p)
      {
        ResultIsDocumented(r, s, p);
      }
    }
  }
}

/**
  The codename search: `score` rates a table entry against a processor, `match_cpu_codename` selects the
  first entry with the best score.
 */
module Codename {
  import opened Text
  import opened BrandText
  import opened Pattern

  const BRAND_STR_MAX := 64

  /** A table entry; a negative field is not compared. */
  datatype MatchEntry = MatchEntry(family: int, model: int, stepping: int, extFamily: int, extModel: int, ncores: int,
                         l2cache: int, l3cache: int, pattern: string, patternScore: int,
                         name: string, technology: string)

  /** The part of a processor description that is compared. */
  datatype Cpu = Cpu(family: int, model: int, stepping: int, extFamily: int, extModel: int, numCores: int,
                     l2Cache: int, l3Cache: int, brand: string) {
    predicate WellFormed() { |brand| < BRAND_STR_MAX && IsCString(brand) }
  }

  // ----- what a score is

  function Points(wanted: int, actual: int, weight: nat): nat {
    if wanted >= 0 && wanted == actual then weight else 0
  }

  function FieldScore(e: MatchEntry, cpu: Cpu): nat {
    Points(e.family, cpu.family, 2) + Points(e.model, cpu.model, 2) + Points(e.stepping, cpu.stepping, 2)
    + Points(e.extFamily, cpu.extFamily, 2) + Points(e.extModel, cpu.extModel, 2)
    + Points(e.ncores, cpu.numCores, 2)
    + Points(e.l2cache, cpu.l2Cache, 1) + Points(e.l3cache, cpu.l3Cache, 1)
  }

  /** The brand string without its first "CPU", then without its first "Processor", with single spaces. */
  ghost function Normalised(brand: string): string {
    Collapse(RemoveFirst(RemoveFirst(brand, "CPU"), "Processor"))
  }

  ghost predicate Found(s: string, p: string) { exists r | 1 <= r <= |s| :: IsResult(r, s, p) }

  ghost function Bonus(e: MatchEntry, cpu: Cpu): nat {
    if e.patternScore > 0 && e.pattern != "" && Found(Normalised(cpu.brand), e.pattern) then e.patternScore else 0
  }

  ghost function Score(e: MatchEntry, cpu: Cpu): nat { FieldScore(e, cpu) + Bonus(e, cpu) }

  /** The brand string loses its first "CPU", then its first "Processor", then its repeated spaces. */
  lemma {:induction false} NormalisedIs(brand: string) returns (once: string, twice: string)
    ensures IsWithoutFirst(brand, "CPU", once) && IsWithoutFirst(once, "Processor", twice)
    ensures Normalised(brand) == Collapse(twice)
  {
    once := RemoveFirst(brand, "CPU");
    twice := RemoveFirst(once, "Processor");
    RemoveFirstIs(brand, "CPU");
    RemoveFirstIs(once, "Processor");
  }

  // ----- score

  datatype MatchField = MatchField(wanted: int, actual: int, weight: nat)

  /** The array of fields that `score` walks. */
  function Fields(e: MatchEntry, cpu: Cpu): (fields: seq<MatchField>)
    ensures |fields| == 8
  {
    [MatchField(e.family, cpu.family, 2), MatchField(e.model, cpu.model, 2), MatchField(e.stepping, cpu.stepping, 2),
     MatchField(e.extFamily, cpu.extFamily, 2), MatchField(e.extModel, cpu.extModel, 2),
     MatchField(e.ncores, cpu.numCores, 2),
     MatchField(e.l2cache, cpu.l2Cache, 1), MatchField(e.l3cache, cpu.l3Cache, 1)]
  }

  function SumOfPoints(fields: seq<MatchField>, n: nat): nat
    requires n <= |fields|
    decreases n
  {
    if n == 0 then 0
    else SumOfPoints(fields, n - 1) + Points(fields[n - 1].wanted, fields[n - 1].actual, fields[n - 1].weight)
  }

  /** The brand string as the pattern sees it, made in a buffer of its own. */
  method NormaliseBrand(brand: string) returns (text: string)
    requires |brand| < BRAND_STR_MAX && IsCString(brand)
    ensures text == Normalised(brand) && IsCString(text)
  {
    var buffer := new char[BRAND_STR_MAX](i => if 0 <= i < |brand| then brand[i] else NUL);
    assert forall k | 0 <= k < |brand| :: brand[k] in brand;
    RemoveSubstring(buffer, "CPU", brand);
    ghost var s1 := RemoveFirst(brand, "CPU");
    RemoveSubstring(buffer, "Processor", s1);
    ghost var s2 := RemoveFirst(s1, "Processor");
    ghost var positions := CollapseSpaces(buffer, s2);
    var n := StrLen(buffer, Collapse(s2));
    text := buffer[..n];
    assert forall k | 0 <= k < n :: text[k] == buffer[..][k];
  }

  /** `score` */
  method ComputeScore(e: MatchEntry, cpu: Cpu) returns (res: int)
    requires cpu.WellFormed() && IsCString(e.pattern)
    ensures res == Score(e, cpu)
  {
    res := 0;
    var fields := Fields(e, cpu);
    for i := 0 to |fields|
      invariant res == SumOfPoints(fields, i)
    {
      if fields[i].wanted >= 0 && fields[i].wanted == fields[i].actual {
        res := res + fields[i].weight;
      }
    }
    if e.patternScore > 0 && |e.pattern| > 0 {
      var brandStr := NormaliseBrand(cpu.brand);
      var r := MatchPattern(brandStr, e.pattern);
      if r != 0 {
        res := res + e.patternScore;
      }
    }
  }

  // ----- what each field is worth

  lemma {:induction false} SteppingWeight(e: MatchEntry, cpu: Cpu, none: int)
    requires none < 0
    ensures Score(e, cpu) - Score(e.(stepping := none), cpu) == if 0 <= e.stepping == cpu.stepping then 2 else 0
  {
    assert Bonus(e.(stepping := none), cpu) == Bonus(e, cpu);
  }

  lemma {:induction false} ModelWeights(e: MatchEntry, cpu: Cpu, none: int)
    requires none < 0
    ensures Score(e, cpu) - Score(e.(family := none), cpu) == if 0 <= e.family == cpu.family then 2 else 0
    ensures Score(e, cpu) - Score(e.(model := none), cpu) == if 0 <= e.model == cpu.model then 2 else 0
    ensures Score(e, cpu) - Score(e.(extFamily := none), cpu) == if 0 <= e.extFamily == cpu.extFamily then 2 else 0
    ensures Score(e, cpu) - Score(e.(extModel := none), cpu) == if 0 <= e.extModel == cpu.extModel then 2 else 0
  {
    assert Bonus(e.(family := none), cpu) == Bonus(e.(model := none), cpu) == Bonus(e, cpu);
    assert Bonus(e.(extFamily := none), cpu) == Bonus(e.(extModel := none), cpu) == Bonus(e, cpu);
  }

  lemma {:induction false} SizeWeights(e: MatchEntry, cpu: Cpu, none: int)
    requires none < 0
    ensures Score(e, cpu) - Score(e.(ncores := none), cpu) == if 0 <= e.ncores == cpu.numCores then 2 else 0
    ensures Score(e, cpu) - Score(e.(l2cache := none), cpu) == if 0 <= e.l2cache == cpu.l2Cache then 1 else 0
    ensures Score(e, cpu) - Score(e.(l3cache := none), cpu) == if 0 <= e.l3cache == cpu.l3Cache then 1 else 0
  {
    assert Bonus(e.(ncores := none), cpu) == Bonus(e.(l2cache := none), cpu) == Bonus(e.(l3cache := none), cpu);
  }

  /** Leaving a field out costs 2 or 1 if it matched, and nothing otherwise. */
  lemma {:induction false} FieldWeights(e: MatchEntry, cpu: Cpu, none: int)
    requires none < 0
    ensures Score(e, cpu) - Score(e.(family := none), cpu) == if 0 <= e.family == cpu.family then 2 else 0
    ensures Score(e, cpu) - Score(e.(model := none), cpu) == if 0 <= e.model == cpu.model then 2 else 0
    ensures Score(e, cpu) - Score(e.(stepping := none), cpu) == if 0 <= e.stepping == cpu.stepping then 2 else 0
    ensures Score(e, cpu) - Score(e.(extFamily := none), cpu) == if 0 <= e.extFamily == cpu.extFamily then 2 else 0
    ensures Score(e, cpu) - Score(e.(extModel := none), cpu) == if 0 <= e.extModel == cpu.extModel then 2 else 0
    ensures Score(e, cpu) - Score(e.(ncores := none), cpu) == if 0 <= e.ncores == cpu.numCores then 2 else 0
    ensures Score(e, cpu) - Score(e.(l2cache := none), cpu) == if 0 <= e.l2cache == cpu.l2Cache then 1 else 0
    ensures Score(e, cpu) - Score(e.(l3cache := none), cpu) == if 0 <= e.l3cache == cpu.l3Cache then 1 else 0
  {
    ModelWeights(e, cpu, none);
    SteppingWeight(e, cpu, none);
    SizeWeights(e, cpu, none);
  }

  /** An entry without any field scores its pattern alone, if the brand string has it. */
  lemma {:induction false} PatternWeight(e: MatchEntry, cpu: Cpu)
    requires e.family < 0 && e.model < 0 && e.stepping < 0 && e.extFamily < 0 && e.extModel < 0
    requires e.ncores < 0 && e.l2cache < 0 && e.l3cache < 0
    ensures Score(e, cpu) == if e.patternScore > 0 && e.pattern != "" && Found(Normalised(cpu.brand), e.pattern)
                             then e.patternScore else 0
  {
  }

  // ----- match_cpu_codename

  ghost function Scores(table: seq<MatchEntry>, cpu: Cpu): (scores: seq<int>)
    ensures |scores| == |table| && forall i | 0 <= i < |table| :: scores[i] == Score(table[i], cpu)
  {
    seq(|table|, i requires 0 <= i < |table| => Score(table[i], cpu))
  }

  /** The first index of the greatest number. */
  ghost predicate IsFirstMaximum(scores: seq<int>, k: int) {
    && 0 <= k < |scores|
    && (forall i | 0 <= i < |scores| :: scores[i] <= scores[k])
    && forall i | 0 <= i < k :: scores[i] < scores[k]
  }

  /** The first index with the greatest score. */
  ghost predicate IsBest(table: seq<MatchEntry>, k: int, cpu: Cpu) { IsFirstMaximum(Scores(table, cpu), k) }

  lemma {:induction false} MaximumAppend(scores: seq<int>, k: int, x: int)
    requires IsFirstMaximum(scores, k)
    ensures IsFirstMaximum(scores + [x], |scores|) <==> x > scores[k]
    ensures IsFirstMaximum(scores + [x], k) <==> x <= scores[k]
  {
    var longer := scores + [x];
    assert longer[|scores|] == x && longer[k] == scores[k];
    assert forall i | 0 <= i < |scores| :: longer[i] == scores[i];
  }

  lemma {:induction false} NextMaximum(scores: seq<int>, i: nat, k: int)
    requires i < |scores| && (i > 0 ==> IsFirstMaximum(scores[..i], k))
    ensures i == 0 ==> IsFirstMaximum(scores[..1], 0)
    ensures i > 0 ==> IsFirstMaximum(scores[..i + 1], if scores[i] > scores[k] then i else k)
  {
    assert scores[..i + 1] == scores[..i] + [scores[i]];
    if i > 0 {
      MaximumAppend(scores[..i], k, scores[i]);
    }
  }

  lemma {:induction false} BestIsUnique(table: seq<MatchEntry>, j: int, k: int, cpu: Cpu)
    requires IsBest(table, j, cpu) && IsBest(table, k, cpu)
    ensures j == k
  {
    assert Scores(table, cpu)[j] == Scores(table, cpu)[k];
  }

  /** An entry added to a table is chosen exactly when it scores more than every entry before it. */
  lemma {:induction false} AddedEntryChosenIff(table: seq<MatchEntry>, e: MatchEntry, k: int, cpu: Cpu)
    requires IsBest(table, k, cpu)
    ensures IsBest(table + [e], |table|, cpu) <==> Score(e, cpu) > Score(table[k], cpu)
    ensures IsBest(table + [e], k, cpu) <==> Score(e, cpu) <= Score(table[k], cpu)
  {
    assert Scores(table + [e], cpu) == Scores(table, cpu) + [Score(e, cpu)];
    MaximumAppend(Scores(table, cpu), k, Score(e, cpu));
  }

  lemma {:induction false} NamesScoreNothing(e: MatchEntry, cpu: Cpu, name: string, technology: string)
    ensures Score(e.(name := name, technology := technology), cpu) == Score(e, cpu)
  {
  }

  /** Of two entries that differ in a stepping only the later one matches, the earlier one is never chosen. */
  lemma {:induction false} SteppingDecides(table: seq<MatchEntry>, i: nat, j: nat, cpu: Cpu)
    requires i < |table| && j < |table| && table[i].stepping != cpu.stepping && table[j].stepping == cpu.stepping >= 0
    requires table[j] == table[i].(stepping := cpu.stepping, name := table[j].name, technology := table[j].technology)
    ensures Score(table[j], cpu) == Score(table[i], cpu) + 2
    ensures !IsBest(table, i, cpu)
  {
    SteppingWeight(table[i], cpu, -1);
    SteppingWeight(table[j], cpu, -1);
    NamesScoreNothing(table[j].(stepping := -1), cpu, table[i].name, table[i].technology);
    assert table[j].(stepping := -1, name := table[i].name, technology := table[i].technology)
        == table[i].(stepping := -1);
    assert Scores(table, cpu)[i] < Scores(table, cpu)[j];
  }

  /** The processor description the search fills in. */
  class CpuId {
    const cpu: Cpu
    var codename: string
    var technologyNode: string

    constructor (cpu: Cpu)
      ensures this.cpu == cpu && codename == "" && technologyNode == ""
    {
      this.cpu := cpu;
      codename := "";
      technologyNode := "";
    }

    /** `match_cpu_codename` */
    method MatchCpuCodename(table: seq<MatchEntry>) returns (bestScore: int, ghost best: int)
      requires cpu.WellFormed() && table != [] && forall e | e in table :: IsCString(e.pattern)
      modifies this`codename, this`technologyNode
      ensures IsBest(table, best, cpu) && bestScore == Score(table[best], cpu)
      ensures codename == table[best].name && technologyNode == table[best].technology
    {
      bestScore := -1;
      var bestIndex := 0;
      ghost var scores := Scores(table, cpu);
      for i := 0 to |table|
        invariant i == 0 ==> bestIndex == 0 && bestScore == -1
        invariant i > 0 ==> IsFirstMaximum(scores[..i], bestIndex) && bestScore == scores[bestIndex]
      {
        assert table[i] in table;
        var t := ComputeScore(table[i], cpu);
        NextMaximum(scores, i, bestIndex);
        if t > bestScore {
          bestScore := t;
          bestIndex := i;
        }
      }
      assert scores[..|table|] == scores;
      codename := table[bestIndex].name;
      technologyNode := table[bestIndex].technology;
      best := bestIndex;
    }
  }

  // ----- the brand bonus and the documented meaning of patterns

  lemma {:induction false} NormalisedAddsNothing(brand: string, c: char)
    requires c !in brand && !IsSpace(c)
    ensures c !in Normalised(brand)
  {
    CollapseHasNo(RemoveFirst(RemoveFirst(brand, "CPU"), "Processor"), c);
  }

  /** For a brand string without '[' and '#', the bonus is given exactly when the documented pattern is found. */
  lemma {:induction false} BonusIsDocumented(e: MatchEntry, cpu: Cpu)
    requires cpu.WellFormed() && '[' !in cpu.brand && '#' !in cpu.brand && e.patternScore > 0
    ensures Bonus(e, cpu) > 0 <==>
      e.pattern != "" && exists i | 0 <= i < |Normalised(cpu.brand)| ::
                           Accepted(Normalised(cpu.brand)[i..], Tokens(e.pattern))
  {
    var s, p := Normalised(cpu.brand), e.pattern;
    NormalisedAddsNothing(cpu.brand, NUL);
    NormalisedAddsNothing(cpu.brand, '[');
    NormalisedAddsNothing(cpu.brand, '#');
    forall i | 0 <= i < |s|
      ensures Consumes(s[i..], p) <==> Accepted(s[i..], Tokens(p))
    {
      assert forall c | c in s[i..] :: c in s;
      ConsumesIsAccepted(s[i..], p);
    }
    if p != "" && exists i | 0 <= i < |s| :: Consumes(s[i..], p) {
      var i :| 0 <= i < |s| && Consumes(s[i..], p);
      LeastExists(s, p, i);
    }
    if Found(s, p) && p != "" {
      var r :| 1 <= r <= |s| && IsResult(r, s, p);
      assert Consumes(s[r - 1..], p);
    }
  }

  lemma {:induction false} LeastExists(s: string, p: string, i: nat)
    requires p != "" && i < |s| && Consumes(s[i..], p)
    ensures Found(s, p)
  {
    if k :| 0 <= k < i && Consumes(s[k..], p) {
      LeastExists(s, p, k);
    } else {
      assert IsResult(i + 1, s, p);
    }
  }
}

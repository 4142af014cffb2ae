/**
  The architecture level of an ARM processor: feature records counted per level, and the search along
  the chain of Armv8-A or Armv9-A levels.
 */
module ArmLevel {
  import opened Bits
  import opened RawData

  const UNKNOWN := -1
  const ARM_V6 := 109
  const ARM_V6_M := 110
  const ARM_V7_A := 111
  const ARM_V7_M := 112
  const ARM_V7_R := 113
  const ARM_V7E_M := 114
  const ARM_V8_0_A := 115
  const ARM_V8_0_M := 116
  const ARM_V8_0_R := 117
  const ARM_V8_1_A := 118
  const ARM_V8_1_M := 119
  const ARM_V8_2_A := 120
  const ARM_V8_9_A := 127
  const ARM_V9_0_A := 128
  const ARM_V9_4_A := 132
  const NUM_FEATURE_LEVELS := 134

  predicate IsLevel(level: int) { 0 <= level < NUM_FEATURE_LEVELS }

  /** The Armv8-A levels in order; the M and R profiles stand between them. */
  function ChainV8(): (chain: seq<int>)
    ensures |chain| == 10 && chain[0] == ARM_V8_0_A && IsChain(chain)
    ensures forall i | 0 <= i < 10 :: chain[i] < ARM_V9_0_A
  {
    [ARM_V8_0_A, ARM_V8_1_A, ARM_V8_2_A, 121, 122, 123, 124, 125, 126, ARM_V8_9_A]
  }

  function ChainV9(): (chain: seq<int>)
    ensures |chain| == 5 && chain[0] == ARM_V9_0_A && IsChain(chain)
  {
    [ARM_V9_0_A, 129, 130, 131, ARM_V9_4_A]
  }

  /** Levels that rise along the chain. */
  predicate IsChain(chain: seq<int>) {
    && (forall i | 0 <= i < |chain| :: IsLevel(chain[i]))
    && forall i, j | 0 <= i < j < |chain| :: chain[i] < chain[j]
  }

  // ----- feature records and their counts

  /** One call of `set_feature_status`; a negative level is none. */
  datatype Record = Record(feature: nat, present: bool, optionalFrom: int, mandatoryFrom: int) {
    predicate WellFormed() { optionalFrom < NUM_FEATURE_LEVELS && mandatoryFrom < NUM_FEATURE_LEVELS }
  }

  datatype Kind = TotalOptional | TotalMandatory | PresentOptional | PresentMandatory

  /** Whether a record adds to a counter. A mandatory feature counts as present only if it has an optional level. */
  predicate Counted(r: Record, kind: Kind, level: int) {
    match kind
    case TotalOptional => r.optionalFrom == level
    case TotalMandatory => r.mandatoryFrom == level
    case PresentOptional => r.present && r.optionalFrom == level
    case PresentMandatory => r.present && r.optionalFrom >= 0 && r.mandatoryFrom == level
  }

  function One(r: Record, kind: Kind, level: int): nat { if Counted(r, kind, level) then 1 else 0 }

  function Count(records: seq<Record>, kind: Kind, level: int): (n: nat)
    ensures n <= |records|
    decreases |records|
  {
    if records == [] then 0
    else
      var last := records[|records| - 1];
      Count(records[..|records| - 1], kind, level) + One(last, kind, level)
  }

  lemma {:induction false} CountAppend(records: seq<Record>, r: Record, kind: Kind, level: int)
    ensures Count(records + [r], kind, level) == Count(records, kind, level) + One(r, kind, level)
  {
    assert (records + [r])[..|records|] == records;
  }

  lemma {:induction false} CountPositiveIff(records: seq<Record>, kind: Kind, level: int)
    ensures Count(records, kind, level) > 0 <==> exists i | 0 <= i < |records| :: Counted(records[i], kind, level)
    decreases |records|
  {
    if records != [] {
      var front := records[..|records| - 1];
      CountPositiveIff(front, kind, level);
      if Count(front, kind, level) > 0 {
        var i :| 0 <= i < |front| && Counted(front[i], kind, level);
        assert Counted(records[i], kind, level);
      }
      if i :| 0 <= i < |records| && Counted(records[i], kind, level) {
        assert i < |front| ==> Counted(front[i], kind, level);
      }
    }
  }

  /** Present features are among all features, at each level. */
  lemma {:induction false} PresentAtMostTotal(records: seq<Record>, level: int)
    ensures Count(records, PresentOptional, level) <= Count(records, TotalOptional, level)
    ensures Count(records, PresentMandatory, level) <= Count(records, TotalMandatory, level)
    decreases |records|
  {
    if records != [] {
      PresentAtMostTotal(records[..|records| - 1], level);
    }
  }

  /** The mandatory counters agree exactly when every mandatory record is present and has an optional level. */
  lemma {:induction false} MandatoryCountsAgreeIff(records: seq<Record>, level: int)
    ensures Count(records, PresentMandatory, level) == Count(records, TotalMandatory, level) <==>
      forall i | 0 <= i < |records| && records[i].mandatoryFrom == level ::
        records[i].present && records[i].optionalFrom >= 0
    decreases |records|
  {
    if records != [] {
      var front, last := records[..|records| - 1], records[|records| - 1];
      MandatoryCountsAgreeIff(front, level);
      PresentAtMostTotal(front, level);
      assert forall i | 0 <= i < |front| :: front[i] == records[i];
      if Count(records, PresentMandatory, level) == Count(records, TotalMandatory, level) {
        assert Count(front, PresentMandatory, level) == Count(front, TotalMandatory, level);
        forall i | 0 <= i < |records| && records[i].mandatoryFrom == level
          ensures records[i].present && records[i].optionalFrom >= 0
        {
          if i < |front| { assert front[i].present; }
        }
      }
    }
  }

  // ----- levels

  /** The counters as 8-bit numbers. */
  function Counter(records: seq<Record>, kind: Kind, level: int): uint8 {
    Count(records, kind, level) % BYTE_RANGE
  }

  /** One step of the search, on the counters. */
  predicate Passes(records: seq<Record>, level: int) {
    && Counter(records, PresentMandatory, level) >= Counter(records, TotalMandatory, level)
    && (Counter(records, TotalMandatory, level) == 0 ==> Counter(records, PresentOptional, level) > 0)
  }

  /** What a step means for the records themselves. */
  predicate IsCompliant(records: seq<Record>, level: int) {
    if exists i | 0 <= i < |records| :: records[i].mandatoryFrom == level
    then forall i | 0 <= i < |records| && records[i].mandatoryFrom == level ::
           records[i].present && records[i].optionalFrom >= 0
    else exists i | 0 <= i < |records| :: records[i].present && records[i].optionalFrom == level
  }

  /** No counter of a level wraps around. */
  predicate CountersFit(records: seq<Record>, level: int) {
    Count(records, TotalOptional, level) < BYTE_RANGE && Count(records, TotalMandatory, level) < BYTE_RANGE
  }

  lemma {:induction false} CountersExact(records: seq<Record>, kind: Kind, level: int)
    requires CountersFit(records, level)
    ensures Counter(records, kind, level) == Count(records, kind, level)
  {
    PresentAtMostTotal(records, level);
  }

  /** Without wrap-around a level passes exactly when the processor is compliant with it. */
  lemma {:induction false} PassesIffCompliant(records: seq<Record>, level: int)
    requires CountersFit(records, level)
    ensures Passes(records, level) <==> IsCompliant(records, level)
  {
    CountersExact(records, TotalMandatory, level);
    CountersExact(records, PresentMandatory, level);
    CountersExact(records, PresentOptional, level);
    PresentAtMostTotal(records, level);
    MandatoryCountsAgreeIff(records, level);
    CountPositiveIff(records, TotalMandatory, level);
    CountPositiveIff(records, PresentOptional, level);
  }

  // ----- the documented rule

  /** "It includes all of the architectural features that are mandatory"; without any, one optional feature. */
  predicate IncludesMandatory(records: seq<Record>, level: int) {
    if exists i | 0 <= i < |records| :: records[i].mandatoryFrom == level
    then forall i | 0 <= i < |records| && records[i].mandatoryFrom == level :: records[i].present
    else exists i | 0 <= i < |records| :: records[i].present && records[i].optionalFrom == level
  }

  /** Records of the same features, whichever of them are present. */
  predicate SameLevels(a: seq<Record>, b: seq<Record>) {
    && |a| == |b|
    && forall i | 0 <= i < |a| :: a[i].optionalFrom == b[i].optionalFrom && a[i].mandatoryFrom == b[i].mandatoryFrom
  }

  /** The rule holds for a table of features exactly when each one that is mandatory from the level is also optional. */
  lemma {:induction false} PassesAsDocumentedIff(records: seq<Record>, level: int)
    requires CountersFit(records, level)
    ensures (forall r: seq<Record> | SameLevels(records, r) :: Passes(r, level) <==> IncludesMandatory(r, level))
      <==> forall i | 0 <= i < |records| && records[i].mandatoryFrom == level :: records[i].optionalFrom >= 0
  {
    if forall i | 0 <= i < |records| && records[i].mandatoryFrom == level :: records[i].optionalFrom >= 0 {
      forall r: seq<Record> | SameLevels(records, r)
        ensures Passes(r, level) <==> IncludesMandatory(r, level)
      {
        TotalsSame(records, r, level);
        PassesIffCompliant(r, level);
      }
    } else {
      var i :| 0 <= i < |records| && records[i].mandatoryFrom == level && records[i].optionalFrom < 0;
      var all := seq(|records|, k requires 0 <= k < |records| => records[k].(present := true));
      TotalsSame(records, all, level);
      PassesIffCompliant(all, level);
      assert SameLevels(records, all) && all[i].mandatoryFrom == level && all[i].optionalFrom < 0;
    }
  }

  lemma {:induction false} TotalsSame(a: seq<Record>, b: seq<Record>, level: int)
    requires SameLevels(a, b)
    ensures Count(a, TotalOptional, level) == Count(b, TotalOptional, level)
    ensures Count(a, TotalMandatory, level) == Count(b, TotalMandatory, level)
    decreases |a|
  {
    if a != [] {
      TotalsSame(a[..|a| - 1], b[..|b| - 1], level);
    }
  }

  /** One present feature that is mandatory and not optional: the documented rule holds, the level fails. */
  lemma {:induction false} MandatoryOnlyFails(level: int)
    requires IsLevel(level)
    ensures var records := [Record(0, true, UNKNOWN, level)];
            IncludesMandatory(records, level) && !Passes(records, level)
  {
    var r := Record(0, true, UNKNOWN, level);
    CountAppend([], r, TotalMandatory, level);
    CountAppend([], r, PresentMandatory, level);
    assert [] + [r] == [r] && [r][0].mandatoryFrom == level;
  }

  /** How many levels at the front of a chain pass. */
  function ChainReached(records: seq<Record>, chain: seq<int>): (n: nat)
    ensures n <= |chain|
    ensures forall i | 0 <= i < n :: Passes(records, chain[i])
    ensures n < |chain| ==> !Passes(records, chain[n])
    decreases |chain|
  {
    if chain == [] || !Passes(records, chain[0]) then 0 else 1 + ChainReached(records, chain[1..])
  }

  function EndOf(chain: seq<int>, n: nat): int
    requires n <= |chain|
  {
    if n == 0 then UNKNOWN else chain[n - 1]
  }

  predicate AnyPresent(records: seq<Record>, level: int) {
    Counter(records, PresentOptional, level) > 0 || Counter(records, PresentMandatory, level) > 0
  }

  /** The chain that is searched. */
  function ChainOf(records: seq<Record>): (chain: seq<int>)
    ensures IsChain(chain)
  {
    if AnyPresent(records, ARM_V9_0_A) then ChainV9()
    else if AnyPresent(records, ARM_V8_0_A) then ChainV8()
    else []
  }

  function SearchedLevel(records: seq<Record>): int {
    EndOf(ChainOf(records), ChainReached(records, ChainOf(records)))
  }

  /** A level that the identification registers state themselves. */
  function ExplicitLevel(raw: Raw): int
    requires raw.WellFormed()
  {
    var copdbg := Field(raw.arm[ARM_ID_DFR][0], 3, 0);
    var simd := Field(raw.arm[ARM_ID_ISAR][3], 7, 4);
    var psrM := Field(raw.arm[ARM_ID_ISAR][4], 27, 24);
    var vmsa := Field(raw.arm[ARM_ID_MMFR][0], 3, 0);
    var pmsa := Field(raw.arm[ARM_ID_MMFR][0], 7, 4);
    var ras := Field(raw.arm[ARM_ID_PFR][0], 31, 28);
    var mprogmod := Field(raw.arm[ARM_ID_PFR][1], 11, 8);
    if copdbg == 2 || copdbg == 3 then
      if psrM == 1 then ARM_V6_M else ARM_V6
    else if copdbg == 4 || copdbg == 5 then
      if psrM == 1 then if simd == 3 then ARM_V7E_M else ARM_V7_M
      else if vmsa != 0 then ARM_V7_A
      else if pmsa != 0 then ARM_V7_R
      else UNKNOWN
    else if psrM == 1 && mprogmod == 2 then
      if ras == 2 then ARM_V8_1_M else ARM_V8_0_M
    else if pmsa != 0 then ARM_V8_0_R
    else UNKNOWN
  }

  function LevelOf(raw: Raw, records: seq<Record>): int
    requires raw.WellFormed()
  {
    if ExplicitLevel(raw) != UNKNOWN then ExplicitLevel(raw) else SearchedLevel(records)
  }

  /**
    Soundness and completeness of the search: the level ends the longest chain prefix of levels the
    processor is compliant with.
   */
  lemma {:induction false} SearchedLevelIs(records: seq<Record>, n: nat)
    requires var chain := ChainOf(records);
             n <= |chain| && forall i | 0 <= i < |chain| :: CountersFit(records, chain[i])
    ensures var chain := ChainOf(records);
            SearchedLevel(records) == EndOf(chain, n) <==>
              && (forall i | 0 <= i < n :: IsCompliant(records, chain[i]))
              && (n < |chain| ==> !IsCompliant(records, chain[n]))
  {
    var chain := ChainOf(records);
    var m := ChainReached(records, chain);
    forall i | 0 <= i < |chain|
      ensures Passes(records, chain[i]) <==> IsCompliant(records, chain[i])
    {
      PassesIffCompliant(records, chain[i]);
    }
    if n < m {
      assert Passes(records, chain[n]);
    }
    if m < n {
      assert !Passes(records, chain[m]);
    }
  }

  // ----- the Armv9-A chain

  /** An Armv9-A level is reported exactly when the processor is compliant with Armv9.0. */
  lemma {:induction false} V9ReportedIff(records: seq<Record>)
    requires CountersFit(records, ARM_V9_0_A)
    ensures SearchedLevel(records) >= ARM_V9_0_A <==> IsCompliant(records, ARM_V9_0_A)
  {
    PassesIffCompliant(records, ARM_V9_0_A);
    AnyPresentIff(records, ARM_V9_0_A);
    if IsCompliant(records, ARM_V9_0_A) {
      CompliantHasFeature(records, ARM_V9_0_A);
    }
  }

  /** Armv8.5 is not asked for: a processor without the mandatory feature of Armv8.0 is reported as Armv9.0. */
  lemma {:induction false} V9WithoutV8()
    ensures var records := [Record(0, false, ARM_V8_0_A, ARM_V8_0_A), Record(1, true, ARM_V9_0_A, ARM_V9_0_A)];
            SearchedLevel(records) >= ARM_V9_0_A && !IsCompliant(records, ARM_V8_0_A)
  {
    var absent, present := Record(0, false, ARM_V8_0_A, ARM_V8_0_A), Record(1, true, ARM_V9_0_A, ARM_V9_0_A);
    var records := [absent, present];
    assert records[0] == absent && records[1] == present;
    assert |records| < BYTE_RANGE && CountersFit(records, ARM_V9_0_A);
    assert IsCompliant(records, ARM_V9_0_A);
    V9ReportedIff(records);
  }

  /** The chain ends at Armv9.4: Armv9.5, the level after it, is never the result of the search. */
  lemma {:induction false} SearchEndsAtV94(records: seq<Record>)
    ensures SearchedLevel(records) <= ARM_V9_4_A
  {
    var chain := ChainOf(records);
    assert forall i | 0 <= i < |chain| :: chain[i] <= ARM_V9_4_A;
  }

  // ----- wrap-around

  function Repeated(r: Record, n: nat): (records: seq<Record>)
    ensures |records| == n
    decreases n, r
  {
    if n == 0 then [] else Repeated(r, n - 1) + [r]
  }

  lemma {:induction false} CountRepeated(r: Record, n: nat, kind: Kind, level: int)
    ensures Count(Repeated(r, n), kind, level) == if Counted(r, kind, level) then n else 0
    decreases n, r
  {
    if n > 0 {
      CountRepeated(r, n - 1, kind, level);
      CountAppend(Repeated(r, n - 1), r, kind, level);
    }
  }

  /** With 256 absent mandatory features at a level, its counter is 0 and one optional feature makes it pass. */
  lemma {:induction false} WrappedLevelPasses(level: int, wrap: nat)
    requires IsLevel(level) && wrap == BYTE_RANGE
    ensures var absent, optional := Record(0, false, level, level), Record(1, true, level, UNKNOWN);
            var records := Repeated(absent, wrap) + [optional];
            Passes(records, level) && !IsCompliant(records, level)
  {
    var absent, optional := Record(0, false, level, level), Record(1, true, level, UNKNOWN);
    var all := Repeated(absent, wrap);
    CountRepeated(absent, wrap, TotalMandatory, level);
    CountRepeated(absent, wrap, PresentMandatory, level);
    CountRepeated(absent, wrap, PresentOptional, level);
    CountAppend(all, optional, TotalMandatory, level);
    CountAppend(all, optional, PresentMandatory, level);
    CountAppend(all, optional, PresentOptional, level);
    assert all == Repeated(absent, wrap - 1) + [absent];
    assert (all + [optional])[wrap - 1] == absent;
  }

  // ----- monotonicity

  /** The same records, with more of them present. */
  predicate MorePresent(before: seq<Record>, after: seq<Record>) {
    && |before| == |after|
    && forall i | 0 <= i < |before| ::
         && after[i].optionalFrom == before[i].optionalFrom && after[i].mandatoryFrom == before[i].mandatoryFrom
         && (before[i].present ==> after[i].present)
  }

  ghost predicate AllCountersFit(records: seq<Record>) { forall level | IsLevel(level) :: CountersFit(records, level) }

  lemma {:induction false} CountMonotone(before: seq<Record>, after: seq<Record>, kind: Kind, level: int)
    requires MorePresent(before, after)
    ensures Count(before, kind, level) <= Count(after, kind, level)
    ensures kind.TotalOptional? || kind.TotalMandatory? ==> Count(before, kind, level) == Count(after, kind, level)
    decreases |before|
  {
    if before != [] {
      var b, a := before[..|before| - 1], after[..|after| - 1];
      assert forall i | 0 <= i < |b| :: b[i] == before[i] && a[i] == after[i];
      CountMonotone(b, a, kind, level);
    }
  }

  lemma {:induction false} PassesMonotone(before: seq<Record>, after: seq<Record>, level: int)
    requires MorePresent(before, after) && CountersFit(before, level)
    ensures CountersFit(after, level)
    ensures Passes(before, level) ==> Passes(after, level)
    ensures AnyPresent(before, level) ==> AnyPresent(after, level)
  {
    CountMonotone(before, after, TotalOptional, level);
    CountMonotone(before, after, TotalMandatory, level);
    CountMonotone(before, after, PresentOptional, level);
    CountMonotone(before, after, PresentMandatory, level);
    forall kind: Kind
      ensures Counter(before, kind, level) == Count(before, kind, level)
      ensures Counter(after, kind, level) == Count(after, kind, level)
    {
      CountersExact(before, kind, level);
      CountersExact(after, kind, level);
    }
  }

  lemma {:induction false} ReachedMonotone(before: seq<Record>, after: seq<Record>, chain: seq<int>)
    requires MorePresent(before, after) && IsChain(chain) && AllCountersFit(before)
    ensures ChainReached(before, chain) <= ChainReached(after, chain)
    ensures EndOf(chain, ChainReached(before, chain)) <= EndOf(chain, ChainReached(after, chain))
  {
    var m, n := ChainReached(before, chain), ChainReached(after, chain);
    if n < m {
      PassesMonotone(before, after, chain[n]);
    }
  }

  /** A present feature that belongs to a level. */
  predicate HasFeature(records: seq<Record>, level: int) {
    exists i | 0 <= i < |records| ::
      Counted(records[i], PresentOptional, level) || Counted(records[i], PresentMandatory, level)
  }

  lemma {:induction false} AnyPresentIff(records: seq<Record>, level: int)
    requires CountersFit(records, level)
    ensures AnyPresent(records, level) <==> HasFeature(records, level)
  {
    CountersExact(records, PresentOptional, level);
    CountersExact(records, PresentMandatory, level);
    CountPositiveIff(records, PresentOptional, level);
    CountPositiveIff(records, PresentMandatory, level);
  }

  lemma {:induction false} CompliantHasFeature(records: seq<Record>, level: int)
    requires IsLevel(level) && IsCompliant(records, level)
    ensures HasFeature(records, level)
  {
    if i :| 0 <= i < |records| && records[i].mandatoryFrom == level {
      assert Counted(records[i], PresentMandatory, level);
    } else {
      var j :| 0 <= j < |records| && records[j].present && records[j].optionalFrom == level;
      assert Counted(records[j], PresentOptional, level);
    }
  }

  /**
    A first Armv9.0 feature appears, so that the Armv9-A chain is searched instead of the Armv8-A chain;
    the processor was compliant with Armv8.0 and is not with Armv9.0.
   */
  predicate LeavesV8TooSoon(before: seq<Record>, after: seq<Record>) {
    && !HasFeature(before, ARM_V9_0_A) && HasFeature(after, ARM_V9_0_A)
    && IsCompliant(before, ARM_V8_0_A) && !IsCompliant(after, ARM_V9_0_A)
  }

  lemma {:induction false} SearchMonotoneIff(before: seq<Record>, after: seq<Record>)
    requires MorePresent(before, after) && AllCountersFit(before)
    ensures SearchedLevel(before) <= SearchedLevel(after) <==> !LeavesV8TooSoon(before, after)
  {
    PassesMonotone(before, after, ARM_V9_0_A);
    PassesMonotone(before, after, ARM_V8_0_A);
    AnyPresentIff(before, ARM_V9_0_A);
    AnyPresentIff(after, ARM_V9_0_A);
    AnyPresentIff(before, ARM_V8_0_A);
    PassesIffCompliant(before, ARM_V8_0_A);
    PassesIffCompliant(after, ARM_V9_0_A);
    if IsCompliant(before, ARM_V8_0_A) {
      CompliantHasFeature(before, ARM_V8_0_A);
    }
    if ChainOf(before) == ChainOf(after) {
      ReachedMonotone(before, after, ChainOf(before));
    }
  }

  /** More present features never lower the level, except exactly in that case. */
  lemma {:induction false} MonotoneIff(raw: Raw, before: seq<Record>, after: seq<Record>)
    requires raw.WellFormed() && MorePresent(before, after) && AllCountersFit(before)
    ensures LevelOf(raw, before) <= LevelOf(raw, after) <==>
      ExplicitLevel(raw) != UNKNOWN || !LeavesV8TooSoon(before, after)
  {
    SearchMonotoneIff(before, after);
  }

  /** A table without features that are mandatory from Armv9.0 is monotone. */
  lemma {:induction false} MonotoneWithoutV9Mandatory(raw: Raw, before: seq<Record>, after: seq<Record>)
    requires raw.WellFormed() && MorePresent(before, after) && AllCountersFit(before)
    requires forall i | 0 <= i < |before| :: before[i].mandatoryFrom != ARM_V9_0_A
    ensures LevelOf(raw, before) <= LevelOf(raw, after)
  {
    MonotoneIff(raw, before, after);
    if HasFeature(after, ARM_V9_0_A) {
      var i :| 0 <= i < |after| && (Counted(after[i], PresentOptional, ARM_V9_0_A)
                                    || Counted(after[i], PresentMandatory, ARM_V9_0_A));
      assert after[i].mandatoryFrom == before[i].mandatoryFrom;
      assert after[i].present && after[i].optionalFrom == ARM_V9_0_A;
      assert forall k | 0 <= k < |after| :: after[k].mandatoryFrom == before[k].mandatoryFrom;
    }
  }

  /** With such a feature the level can fall: an optional Armv9.0 feature appears, the mandatory one does not. */
  lemma {:induction false} LevelCanFall()
    ensures var mandatory := Record(1, false, ARM_V9_0_A, ARM_V9_0_A);
            var before := [Record(0, true, ARM_V8_0_A, UNKNOWN), mandatory, Record(2, false, ARM_V9_0_A, UNKNOWN)];
            var after := [Record(0, true, ARM_V8_0_A, UNKNOWN), mandatory, Record(2, true, ARM_V9_0_A, UNKNOWN)];
            && MorePresent(before, after) && AllCountersFit(before)
            && SearchedLevel(before) == ARM_V8_0_A && SearchedLevel(after) == UNKNOWN
  {
    var first, mandatory := Record(0, true, ARM_V8_0_A, UNKNOWN), Record(1, false, ARM_V9_0_A, ARM_V9_0_A);
    var off, on := Record(2, false, ARM_V9_0_A, UNKNOWN), Record(2, true, ARM_V9_0_A, UNKNOWN);
    var before, after := [first, mandatory, off], [first, mandatory, on];
    forall kind, level
      ensures Count(before, kind, level)
        == One(first, kind, level) + One(mandatory, kind, level) + One(off, kind, level)
      ensures Count(after, kind, level)
        == One(first, kind, level) + One(mandatory, kind, level) + One(on, kind, level)
    {
      CountThree(first, mandatory, off, kind, level);
      CountThree(first, mandatory, on, kind, level);
    }
    assert ChainOf(before)[1] == ARM_V8_1_A;
    assert ChainReached(before, ChainOf(before)) == 1;
  }

  lemma {:induction false} CountThree(a: Record, b: Record, c: Record, kind: Kind, level: int)
    ensures Count([a, b, c], kind, level) == One(a, kind, level) + One(b, kind, level) + One(c, kind, level)
  {
    CountAppend([], a, kind, level);
    CountAppend([a], b, kind, level);
    CountAppend([a, b], c, kind, level);
    assert [] + [a] == [a] && [a] + [b] == [a, b] && [a, b] + [c] == [a, b, c];
  }
}

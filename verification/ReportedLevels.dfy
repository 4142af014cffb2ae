/**
  Which architecture level is reported, told from the identification registers and the feature records by
  the numbers of the levels alone.
 */
module ReportedLevels {
  import opened Bits
  import opened RawData
  import opened ArmLevel
  import opened ArmFeatures

  // ----- levels that the registers state

  function Nibble(reg: nat, weight: nat): nat
    requires weight > 0
  {
    reg / weight % 16
  }

  /** The debug architecture: 2 and 3 are those of Armv6, 4 and 5 those of Armv7. */
  function Debug(raw: Raw): nat
    requires raw.WellFormed()
  {
    raw.arm[ARM_ID_DFR][0] % 16
  }

  function Simd(raw: Raw): nat
    requires raw.WellFormed()
  {
    Nibble(raw.arm[ARM_ID_ISAR][3], 0x10)
  }

  /** The program status registers are those of an M profile. */
  predicate IsMProfile(raw: Raw)
    requires raw.WellFormed()
  {
    Nibble(raw.arm[ARM_ID_ISAR][4], 0x100_0000) == 1
  }

  function Vmsa(raw: Raw): nat
    requires raw.WellFormed()
  {
    raw.arm[ARM_ID_MMFR][0] % 16
  }

  function Pmsa(raw: Raw): nat
    requires raw.WellFormed()
  {
    Nibble(raw.arm[ARM_ID_MMFR][0], 0x10)
  }

  function Ras(raw: Raw): nat
    requires raw.WellFormed()
  {
    Nibble(raw.arm[ARM_ID_PFR][0], 0x1000_0000)
  }

  function ProgrammersModel(raw: Raw): nat
    requires raw.WellFormed()
  {
    Nibble(raw.arm[ARM_ID_PFR][1], 0x100)
  }

  predicate IsV8M(raw: Raw)
    requires raw.WellFormed()
  {
    !(2 <= Debug(raw) <= 5) && IsMProfile(raw) && ProgrammersModel(raw) == 2
  }

  /** The registers state no level: the feature records are searched. */
  predicate IsSearched(raw: Raw)
    requires raw.WellFormed()
  {
    if 2 <= Debug(raw) <= 3 then false
    else if 4 <= Debug(raw) <= 5 then !IsMProfile(raw) && Vmsa(raw) == 0 && Pmsa(raw) == 0
    else !IsV8M(raw) && Pmsa(raw) == 0
  }

  lemma {:induction false} FieldsAre(x: nat)
    ensures Field(x, 3, 0) == x % 16 && Field(x, 7, 4) == Nibble(x, 0x10) && Field(x, 11, 8) == Nibble(x, 0x100)
    ensures Field(x, 27, 24) == Nibble(x, 0x100_0000) && Field(x, 31, 28) == Nibble(x, 0x1000_0000)
  {
    Pow2Values();
  }

  /** The fields the level is read off. */
  lemma {:induction false} RegisterFields(raw: Raw)
    requires raw.WellFormed()
    ensures Field(raw.arm[ARM_ID_DFR][0], 3, 0) == Debug(raw) && Field(raw.arm[ARM_ID_ISAR][3], 7, 4) == Simd(raw)
    ensures Field(raw.arm[ARM_ID_ISAR][4], 27, 24) == 1 <==> IsMProfile(raw)
    ensures Field(raw.arm[ARM_ID_MMFR][0], 3, 0) == Vmsa(raw) && Field(raw.arm[ARM_ID_MMFR][0], 7, 4) == Pmsa(raw)
    ensures Field(raw.arm[ARM_ID_PFR][0], 31, 28) == Ras(raw)
    ensures Field(raw.arm[ARM_ID_PFR][1], 11, 8) == ProgrammersModel(raw)
  {
    FieldsAre(raw.arm[ARM_ID_DFR][0]);
    FieldsAre(raw.arm[ARM_ID_ISAR][3]);
    FieldsAre(raw.arm[ARM_ID_ISAR][4]);
    FieldsAre(raw.arm[ARM_ID_MMFR][0]);
    FieldsAre(raw.arm[ARM_ID_PFR][0]);
    FieldsAre(raw.arm[ARM_ID_PFR][1]);
  }

  /** A level of the two chains: Armv8.0-A to Armv8.9-A and Armv9.0-A to Armv9.4-A. */
  predicate IsChainLevel(level: int) { level == 115 || level == 118 || 120 <= level <= 132 }

  lemma {:induction false} SearchedIsChainLevel(records: seq<Record>)
    ensures SearchedLevel(records) == -1 || IsChainLevel(SearchedLevel(records))
  {
    var chain := ChainOf(records);
    assert forall i | 0 <= i < |chain| :: IsChainLevel(chain[i]);
  }

  /** Each level that the registers state is reported exactly for its values of the fields. */
  lemma {:induction false} StatedLevelIff(raw: Raw, records: seq<Record>)
    requires raw.WellFormed()
    ensures LevelOf(raw, records) == 109 <==> 2 <= Debug(raw) <= 3 && !IsMProfile(raw)
    ensures LevelOf(raw, records) == 110 <==> 2 <= Debug(raw) <= 3 && IsMProfile(raw)
    ensures LevelOf(raw, records) == 111 <==> 4 <= Debug(raw) <= 5 && !IsMProfile(raw) && Vmsa(raw) != 0
    ensures LevelOf(raw, records) == 112 <==> 4 <= Debug(raw) <= 5 && IsMProfile(raw) && Simd(raw) != 3
    ensures LevelOf(raw, records) == 113 <==>
      4 <= Debug(raw) <= 5 && !IsMProfile(raw) && Vmsa(raw) == 0 && Pmsa(raw) != 0
    ensures LevelOf(raw, records) == 114 <==> 4 <= Debug(raw) <= 5 && IsMProfile(raw) && Simd(raw) == 3
    ensures LevelOf(raw, records) == 116 <==> IsV8M(raw) && Ras(raw) != 2
    ensures LevelOf(raw, records) == 117 <==> !(2 <= Debug(raw) <= 5) && !IsV8M(raw) && Pmsa(raw) != 0
    ensures LevelOf(raw, records) == 119 <==> IsV8M(raw) && Ras(raw) == 2
    ensures IsSearched(raw) ==> LevelOf(raw, records) == SearchedLevel(records)
    ensures !IsSearched(raw) ==> LevelOf(raw, records) in {109, 110, 111, 112, 113, 114, 116, 117, 119}
  {
    RegisterFields(raw);
    SearchedIsChainLevel(records);
  }

  // ----- levels that are searched for

  /** The number of Armv8.k-A; the M and R profiles stand between the first three. */
  function V8Level(k: nat): int { if k == 0 then 115 else if k == 1 then 118 else 118 + k }

  /** A present feature counts for a level it is optional from, or mandatory from if it is optional anywhere. */
  predicate ShowsFeatureOf(records: seq<Record>, level: int) {
    exists i | 0 <= i < |records| ::
      && records[i].present
      && (records[i].optionalFrom == level || (records[i].optionalFrom >= 0 && records[i].mandatoryFrom == level))
  }

  lemma {:induction false} ShowsFeatureIff(records: seq<Record>, level: int)
    requires CountersFit(records, level)
    ensures AnyPresent(records, level) <==> ShowsFeatureOf(records, level)
  {
    AnyPresentIff(records, level);
    if i :| 0 <= i < |records| &&
            (Counted(records[i], PresentOptional, level) || Counted(records[i], PresentMandatory, level)) {
      assert records[i].present;
    }
    if ShowsFeatureOf(records, level) {
      var i :|
        && 0 <= i < |records| && records[i].present
        && (records[i].optionalFrom == level || (records[i].optionalFrom >= 0 && records[i].mandatoryFrom == level));
      assert Counted(records[i], PresentOptional, level) || Counted(records[i], PresentMandatory, level);
    }
  }

  lemma {:induction false} ChainLevelIff(records: seq<Record>, chain: seq<int>, k: nat)
    requires chain == ChainOf(records) && k < |chain| && AllCountersFit(records)
    ensures SearchedLevel(records) == chain[k] <==>
      && (forall i | 0 <= i <= k :: IsCompliant(records, chain[i]))
      && (k + 1 < |chain| ==> !IsCompliant(records, chain[k + 1]))
  {
    SearchedLevelIs(records, k + 1);
  }

  lemma {:induction false} V9ChainLevels()
    ensures |ChainV9()| == 5 && forall i | 0 <= i < 5 :: ChainV9()[i] == 128 + i
  {
  }

  lemma {:induction false} V9Prefix(records: seq<Record>, chain: seq<int>, k: nat)
    requires k < |chain| && forall i | 0 <= i < |chain| :: chain[i] == 128 + i
    ensures (forall i | 0 <= i <= k :: IsCompliant(records, chain[i]))
      <==> forall level | 128 <= level <= 128 + k :: IsCompliant(records, level)
  {
    if forall i | 0 <= i <= k :: IsCompliant(records, chain[i]) {
      forall level | 128 <= level <= 128 + k
        ensures IsCompliant(records, level)
      {
        assert IsCompliant(records, chain[level - 128]);
      }
    }
  }

  /** Armv9.k-A is found exactly with compliance to Armv9.0 up to it and not to the next one. */
  lemma {:induction false} V9LevelIff(records: seq<Record>, k: nat)
    requires k <= 4 && AllCountersFit(records)
    ensures SearchedLevel(records) == 128 + k <==>
      && (forall level | 128 <= level <= 128 + k :: IsCompliant(records, level))
      && (k < 4 ==> !IsCompliant(records, 129 + k))
  {
    if AnyPresent(records, 128) {
      V9ChainLevels();
      ChainLevelIff(records, ChainV9(), k);
      V9Prefix(records, ChainV9(), k);
    } else {
      NotCompliant(records, 128);
      V8Below(records);
    }
  }

  lemma {:induction false} V8Below(records: seq<Record>)
    requires !AnyPresent(records, 128)
    ensures SearchedLevel(records) < 128
  {
    assert forall i | 0 <= i < |ChainOf(records)| :: ChainOf(records)[i] < 128;
  }

  lemma {:induction false} NotCompliant(records: seq<Record>, level: int)
    requires IsLevel(level) && CountersFit(records, level) && !AnyPresent(records, level)
    ensures !IsCompliant(records, level)
  {
    AnyPresentIff(records, level);
    if IsCompliant(records, level) {
      CompliantHasFeature(records, level);
    }
  }

  lemma {:induction false} V8ChainLevels()
    ensures |ChainV8()| == 10 && forall i | 0 <= i < 10 :: ChainV8()[i] == V8Level(i)
  {
  }

  lemma {:induction false} V8ChainIff(records: seq<Record>, k: nat)
    requires k <= 9 && AllCountersFit(records) && !AnyPresent(records, 128) && AnyPresent(records, 115)
    ensures SearchedLevel(records) == V8Level(k) <==>
      && (forall i | 0 <= i <= k :: IsCompliant(records, V8Level(i)))
      && (k < 9 ==> !IsCompliant(records, V8Level(k + 1)))
  {
    V8ChainLevels();
    ChainLevelIff(records, ChainV8(), k);
  }

  /** Armv8.k-A is found exactly without any feature of Armv9.0, with compliance up to it and not to the next one. */
  lemma {:induction false} V8LevelIff(records: seq<Record>, k: nat)
    requires k <= 9 && AllCountersFit(records)
    ensures SearchedLevel(records) == V8Level(k) <==>
      && !ShowsFeatureOf(records, 128)
      && (forall i | 0 <= i <= k :: IsCompliant(records, V8Level(i)))
      && (k < 9 ==> !IsCompliant(records, V8Level(k + 1)))
  {
    ShowsFeatureIff(records, 128);
    if AnyPresent(records, 128) {
      V9Above(records);
    } else if AnyPresent(records, 115) {
      V8ChainIff(records, k);
    } else {
      NothingFound(records);
      NotCompliant(records, V8Level(0));
    }
  }

  lemma {:induction false} NothingFound(records: seq<Record>)
    requires !AnyPresent(records, 128) && !AnyPresent(records, 115)
    ensures SearchedLevel(records) == -1
  {
  }

  lemma {:induction false} V9Above(records: seq<Record>)
    requires AnyPresent(records, 128)
    ensures SearchedLevel(records) == -1 || SearchedLevel(records) >= 128
  {
    assert forall i | 0 <= i < |ChainOf(records)| :: ChainOf(records)[i] >= 128;
  }

  // ----- features

  /** A processor is in AArch64 mode if one of the first registers of these five groups is not 0. */
  lemma {:induction false} AArch64Iff(raw: Raw)
    requires raw.WellFormed()
    ensures IsAArch64(raw) <==> exists g | g in {8, 9, 11, 12, 13} :: raw.arm[g][0] != 0
  {
    if IsAArch64(raw) {
      var g :| g in {8, 9, 11, 12, 13} && raw.arm[g][0] != 0;
    }
  }

  /** The records of a table, in order: one for each row whose optional level is not 0. */
  lemma {:induction false} RecordsAre(raw: Raw, maps: seq<FeatureMap>, r: Record)
    requires raw.WellFormed() && AllMapsWellFormed(maps)
    ensures r in RecordsOf(raw, maps) <==> exists n | 0 <= n < |maps| ::
      && maps[n].verOptional != 0
      && r == Record(n, FeatureIsPresent(raw, maps[n], IsAArch64(raw)), maps[n].verOptional, maps[n].verMandatory)
    decreases |maps|
  {
    if maps != [] {
      var front := maps[..|maps| - 1];
      RecordsAre(raw, front, r);
      assert forall n | 0 <= n < |front| :: front[n] == maps[n];
    }
  }
}

/**
  The counting of ARM features and the search for the architecture level as they run: the feature table
  is matched against the registers, the counters are 8-bit numbers updated in place.
 */
module ArmFeatures {
  import opened Bits
  import opened RawData
  import opened ArmLevel

  const MAX_IDENTIFY_FIELDS := 6

  /** A register of the raw record, or the null pointer that ends a list of fields. */
  datatype RegisterRef = NoRegister | RegisterAt(group: int, index: int) {
    predicate Exists() { RegisterAt? ==> 0 <= group < NUM_ARM_GROUPS && 0 <= index < Registers(group) }
  }

  datatype FieldTest = FieldTest(aarch32: RegisterRef, aarch64: RegisterRef, high: nat, low: nat, value: nat) {
    predicate WellFormed() { aarch32.Exists() && aarch64.Exists() && low <= high }
  }

  /** A row of the feature table. */
  datatype FeatureMap = FeatureMap(verOptional: int, verMandatory: int, fields: seq<FieldTest>) {
    predicate WellFormed() {
      && verOptional < NUM_FEATURE_LEVELS && verMandatory < NUM_FEATURE_LEVELS
      && |fields| == MAX_IDENTIFY_FIELDS && forall i | 0 <= i < |fields| :: fields[i].WellFormed()
    }
  }

  predicate IsAArch64(raw: Raw)
    requires raw.WellFormed()
  {
    || raw.arm[ARM_ID_AA64AFR][0] != 0 || raw.arm[ARM_ID_AA64DFR][0] != 0 || raw.arm[ARM_ID_AA64ISAR][0] != 0
    || raw.arm[ARM_ID_AA64MMFR][0] != 0 || raw.arm[ARM_ID_AA64PFR][0] != 0
  }

  function RefOf(f: FieldTest, isAArch64: bool): RegisterRef { if isAArch64 then f.aarch64 else f.aarch32 }

  predicate FieldMatches(raw: Raw, f: FieldTest, isAArch64: bool)
    requires raw.WellFormed() && f.WellFormed()
  {
    var ref := RefOf(f, isAArch64);
    ref.RegisterAt? && Field(raw.arm[ref.group][ref.index], f.high, f.low) == f.value
  }

  /** Some field matches, and no list end stands before it. */
  predicate FeatureIsPresent(raw: Raw, m: FeatureMap, isAArch64: bool)
    requires raw.WellFormed() && m.WellFormed()
  {
    exists i | 0 <= i < |m.fields| ::
      && FieldMatches(raw, m.fields[i], isAArch64)
      && forall k | 0 <= k < i :: RefOf(m.fields[k], isAArch64).RegisterAt?
  }

  function FeatureRecord(raw: Raw, feature: nat, m: FeatureMap): Record
    requires raw.WellFormed() && m.WellFormed()
  {
    Record(feature, FeatureIsPresent(raw, m, IsAArch64(raw)), m.verOptional, m.verMandatory)
  }

  predicate AllMapsWellFormed(maps: seq<FeatureMap>) { forall i | 0 <= i < |maps| :: maps[i].WellFormed() }

  /** The records of a table; a row whose optional level is 0 was never filled in. */
  function RecordsOf(raw: Raw, maps: seq<FeatureMap>): seq<Record>
    requires raw.WellFormed() && AllMapsWellFormed(maps)
    decreases |maps|
  {
    if maps == [] then []
    else
      var n := |maps| - 1;
      RecordsOf(raw, maps[..n]) + if maps[n].verOptional != 0 then [FeatureRecord(raw, n, maps[n])] else []
  }

  /** The features that some records found. */
  function PresentFeatures(records: seq<Record>): set<nat> { set r | r in records && r.present :: r.feature }

  lemma {:induction false} PresentFeaturesConcat(a: seq<Record>, b: seq<Record>)
    ensures PresentFeatures(a + b) == PresentFeatures(a) + PresentFeatures(b)
  {
  }

  datatype LevelCounters = LevelCounters(optional: uint8, mandatory: uint8)

  function Bump(c: uint8): uint8 { (c + 1) % BYTE_RANGE }

  function CountersOf(records: seq<Record>, level: int, present: bool): LevelCounters {
    if present then LevelCounters(Counter(records, PresentOptional, level), Counter(records, PresentMandatory, level))
    else LevelCounters(Counter(records, TotalOptional, level), Counter(records, TotalMandatory, level))
  }

  lemma {:induction false} CountersAppend(records: seq<Record>, r: Record, kind: Kind, level: int)
    ensures Counter(records + [r], kind, level)
      == if Counted(r, kind, level) then Bump(Counter(records, kind, level)) else Counter(records, kind, level)
  {
    CountAppend(records, r, kind, level);
  }

  /** `arm_arch_extension_t`, the feature flags and the level of the processor. */
  class ArmStatus {
    const present: array<LevelCounters>
    const total: array<LevelCounters>
    var flags: set<nat>
    var featureLevel: int

    constructor ()
      ensures CountsRecords([]) && flags == {} && fresh(present) && fresh(total)
    {
      present := new LevelCounters[NUM_FEATURE_LEVELS](_ => LevelCounters(0, 0));
      total := new LevelCounters[NUM_FEATURE_LEVELS](_ => LevelCounters(0, 0));
      flags := {};
      featureLevel := UNKNOWN;
    }

    /** The counters are those of some records. */
    ghost predicate CountsRecords(records: seq<Record>)
      reads this, present, total
    {
      && present != total && present.Length == NUM_FEATURE_LEVELS && total.Length == NUM_FEATURE_LEVELS
      && forall level | IsLevel(level) ::
           present[level] == CountersOf(records, level, true) && total[level] == CountersOf(records, level, false)
    }

    method BumpOptional(a: array<LevelCounters>, level: int)
      requires a.Length == NUM_FEATURE_LEVELS && IsLevel(level)
      modifies a
      ensures a[level] == old(a[level]).(optional := Bump(old(a[level]).optional))
      ensures forall l | IsLevel(l) && l != level :: a[l] == old(a[l])
    {
      a[level] := a[level].(optional := Bump(a[level].optional));
    }

    method BumpMandatory(a: array<LevelCounters>, level: int)
      requires a.Length == NUM_FEATURE_LEVELS && IsLevel(level)
      modifies a
      ensures a[level] == old(a[level]).(mandatory := Bump(old(a[level]).mandatory))
      ensures forall l | IsLevel(l) && l != level :: a[l] == old(a[l])
    {
      a[level] := a[level].(mandatory := Bump(a[level].mandatory));
    }

    /** `set_feature_status` */
    method SetFeatureStatus(r: Record, ghost records: seq<Record>)
      requires r.WellFormed() && CountsRecords(records)
      modifies this`flags, present, total
      ensures CountsRecords(records + [r])
      ensures flags == old(flags) + if r.present then {r.feature} else {}
    {
      if r.optionalFrom >= 0 { BumpOptional(total, r.optionalFrom); }
      if r.mandatoryFrom >= 0 { BumpMandatory(total, r.mandatoryFrom); }
      if r.present {
        flags := flags + {r.feature};
        if r.optionalFrom >= 0 {
          BumpOptional(present, r.optionalFrom);
          if r.mandatoryFrom >= 0 { BumpMandatory(present, r.mandatoryFrom); }
        }
      }
      forall level | IsLevel(level)
        ensures present[level] == CountersOf(records + [r], level, true)
        ensures total[level] == CountersOf(records + [r], level, false)
      {
        CountersAppend(records, r, TotalOptional, level);
        CountersAppend(records, r, TotalMandatory, level);
        CountersAppend(records, r, PresentOptional, level);
        CountersAppend(records, r, PresentMandatory, level);
      }
    }

    /** The loop of `match_arm_features`. */
    method MatchFields(raw: Raw, m: FeatureMap, isAArch64: bool) returns (isPresent: bool)
      requires raw.WellFormed() && m.WellFormed()
      ensures isPresent <==> FeatureIsPresent(raw, m, isAArch64)
      ensures isPresent <==> exists i | 0 <= i < MAX_IDENTIFY_FIELDS ::
        var ref := if isAArch64 then m.fields[i].aarch64 else m.fields[i].aarch32;
        && ref.RegisterAt?
        && raw.arm[ref.group][ref.index] / Pow2(m.fields[i].low) % Pow2(m.fields[i].high + 1 - m.fields[i].low)
           == m.fields[i].value
        && forall k | 0 <= k < i ::
             if isAArch64 then m.fields[k].aarch64.RegisterAt? else m.fields[k].aarch32.RegisterAt?
    {
      isPresent := false;
      for i := 0 to MAX_IDENTIFY_FIELDS
        invariant forall k | 0 <= k < i :: RefOf(m.fields[k], isAArch64).RegisterAt?
        invariant isPresent <==> exists k | 0 <= k < i :: FieldMatches(raw, m.fields[k], isAArch64)
      {
        var ref := RefOf(m.fields[i], isAArch64);
        if ref.NoRegister? { break; }
        var value := raw.arm[ref.group][ref.index];
        isPresent := isPresent || Field(value, m.fields[i].high, m.fields[i].low) == m.fields[i].value;
      }
    }

    /** `match_arm_features` */
    method MatchArmFeatures(raw: Raw, feature: nat, m: FeatureMap, ghost records: seq<Record>)
      requires raw.WellFormed() && m.WellFormed() && CountsRecords(records)
      modifies this`flags, present, total
      ensures CountsRecords(records + [FeatureRecord(raw, feature, m)])
      ensures flags == old(flags) + PresentFeatures([FeatureRecord(raw, feature, m)])
    {
      var isPresent := MatchFields(raw, m, IsAArch64(raw));
      SetFeatureStatus(Record(feature, isPresent, m.verOptional, m.verMandatory), records);
    }

    /** The loop of `load_arm_features` over the feature table. */
    method LoadArmFeatures(raw: Raw, maps: seq<FeatureMap>, ghost records: seq<Record>)
      requires raw.WellFormed() && AllMapsWellFormed(maps) && CountsRecords(records)
      modifies this`flags, present, total
      ensures CountsRecords(records + RecordsOf(raw, maps))
      ensures flags == old(flags) + PresentFeatures(RecordsOf(raw, maps))
    {
      assert records + [] == records;
      for feature := 0 to |maps|
        invariant CountsRecords(records + RecordsOf(raw, maps[..feature]))
        invariant flags == old(flags) + PresentFeatures(RecordsOf(raw, maps[..feature]))
      {
        assert maps[..feature + 1][..feature] == maps[..feature];
        ghost var sofar := RecordsOf(raw, maps[..feature]);
        if maps[feature].verOptional != 0 {
          MatchArmFeatures(raw, feature, maps[feature], records + sofar);
          PresentFeaturesConcat(sofar, [FeatureRecord(raw, feature, maps[feature])]);
          assert records + (sofar + [FeatureRecord(raw, feature, maps[feature])])
              == (records + sofar) + [FeatureRecord(raw, feature, maps[feature])];
        } else {
          assert sofar + [] == sofar;
        }
      }
      assert maps[..|maps|] == maps;
    }

    /** `decode_arm_architecture_version_by_cpuid`: the chain search on the counters. */
    method SearchChain(chain: seq<int>, ghost records: seq<Record>) returns (level: int)
      requires CountsRecords(records) && IsChain(chain)
      ensures level == EndOf(chain, ChainReached(records, chain))
    {
      level := UNKNOWN;
      for i := 0 to |chain|
        invariant level == EndOf(chain, i)
        invariant forall k | 0 <= k < i :: Passes(records, chain[k])
      {
        var p, t := present[chain[i]], total[chain[i]];
        if p.mandatory < t.mandatory || (t.mandatory == 0 && p.optional == 0) {
          return;
        }
        level := chain[i];
      }
    }

    method DecodeByCpuid(raw: Raw, ghost records: seq<Record>)
      requires raw.WellFormed() && CountsRecords(records)
      modifies this`featureLevel
      ensures featureLevel == LevelOf(raw, records)
    {
      featureLevel := ExplicitLevel(raw);
      if featureLevel != UNKNOWN { return; }
      if present[ARM_V9_0_A].optional > 0 || present[ARM_V9_0_A].mandatory > 0 {
        featureLevel := SearchChain(ChainV9(), records);
      } else if present[ARM_V8_0_A].optional > 0 || present[ARM_V8_0_A].mandatory > 0 {
        featureLevel := SearchChain(ChainV8(), records);
      }
    }
  }

}

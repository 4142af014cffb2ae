/**
  When a run of `cpu_identify_all` stays within what the C code defines and succeeds, told from the
  raw records.
 */
module RunConditions {
  import opened Bits
  import opened Collections
  import opened InstanceTable
  import opened Options
  import opened RawData
  import opened Topology
  import opened CacheSharing
  import opened Enumeration
  import opened Grouping
  import opened IdentifyAll

  // ----- the types a run makes

  /** The topology of the first `n` records is known. */
  predicate KnownUpTo(probes: seq<Probe>, n: nat)
    requires n <= |probes|
  {
    forall i | 0 <= i < n :: probes[i].ids.Some?
  }

  /** The key a record files the type under that it makes: the identified purpose, and the package while it is known. */
  function FiledKey(probes: seq<Probe>, r: nat): Key
    requires r < |probes|
  {
    var p := probes[r];
    (if p.identity.Identified? then p.identity.purpose else p.purpose,
     if KnownUpTo(probes, r + 1) then Some(p.ids.value.packageId) else None)
  }

  /** The key answers to a record, which is looked up by its own purpose and, while it is known, its package. */
  predicate Answers(key: Key, p: Probe, known: bool)
    requires known ==> p.ids.Some?
  {
    key.0 == p.purpose && (known ==> key.1 == Some(p.ids.value.packageId))
  }

  /** The first of the types from `from` on that answers to a record; their number if none does. */
  function PlaceOf(probes: seq<Probe>, makers: seq<nat>, n: nat, from: nat := 0): (i: nat)
    requires n < |probes| && from <= |makers| && forall j | 0 <= j < |makers| :: makers[j] < n
    ensures from <= i <= |makers|
    ensures i < |makers| ==> Answers(FiledKey(probes, makers[i]), probes[n], KnownUpTo(probes, n + 1))
    ensures forall j | from <= j < i :: !Answers(FiledKey(probes, makers[j]), probes[n], KnownUpTo(probes, n + 1))
    decreases |makers| - from
  {
    if from == |makers| || Answers(FiledKey(probes, makers[from]), probes[n], KnownUpTo(probes, n + 1)) then from
    else PlaceOf(probes, makers, n, from + 1)
  }

  /** The records among the first `n` that make a type, in the order of the types. */
  function Makers(probes: seq<Probe>, n: nat): (makers: seq<nat>)
    requires n <= |probes|
    ensures |makers| <= n && forall j | 0 <= j < |makers| :: makers[j] < n
  {
    if n == 0 then []
    else
      var makers := Makers(probes, n - 1);
      if PlaceOf(probes, makers, n - 1) < |makers| then makers else makers + [n - 1]
  }

  /** The record that made the type a logical CPU is counted for. */
  function MakerOf(probes: seq<Probe>, c: nat): (r: nat)
    requires c < |probes|
    ensures r <= c
  {
    var makers := Makers(probes, c);
    var i := PlaceOf(probes, makers, c);
    if i < |makers| then makers[i] else c
  }

  // ----- when a run succeeds

  /** The core and cache IDs give slots inside the tables. */
  predicate SlotsExist(ids: Ids, masks: seq<uint32>)
    requires IsInt32(ids.apicId)
  {
    Indexable(ids.coreId) && AllCachesIndexable(ids.apicId, masks)
  }

  /** The step of a logical CPU is defined: it joins a type or can make one, and its slots exist while they count. */
  predicate CpuFits(probes: seq<Probe>, c: nat)
    requires ProbesWellFormed(probes) && c < |probes|
  {
    && (MakerOf(probes, c) == c ==> probes[c].identity.Identified?)
    && (KnownUpTo(probes, c + 1) ==> SlotsExist(probes[c].ids.value, MasksIn(probes[MakerOf(probes, c)].identity)))
  }

  predicate RunFits(probes: seq<Probe>, n: nat)
    requires ProbesWellFormed(probes) && n <= |probes|
  {
    |Makers(probes, n)| <= 255 && forall c | 0 <= c < n :: CpuFits(probes, c)
  }

  /** A type with the key and the masks of the record that made it. */
  ghost predicate IsFiled(t: CpuTypeState, probes: seq<Probe>, r: nat)
    requires r < |probes|
  {
    TypeKey(t) == FiledKey(probes, r) && t.masks == MasksIn(probes[r].identity)
  }

  ghost predicate AreFiled(types: seq<CpuTypeState>, probes: seq<Probe>, makers: seq<nat>)
    requires forall j | 0 <= j < |makers| :: makers[j] < |probes|
  {
    |types| == |makers| && forall j | 0 <= j < |makers| :: IsFiled(types[j], probes, makers[j])
  }

  /** The types of a state are those made by the first `n` records. */
  ghost predicate HasTypesOf(s: State, probes: seq<Probe>, n: nat)
    requires n <= |probes|
  {
    (s.supported <==> KnownUpTo(probes, n)) && AreFiled(s.types, probes, Makers(probes, n))
  }

  /** The search finds the type that answers. */
  lemma {:induction false} PlaceFound(s: State, probes: seq<Probe>, n: nat)
    requires n < |probes| && HasTypesOf(s, probes, n)
    ensures var s1 := Observe(s, probes[n], true);
            && (s1.supported <==> KnownUpTo(probes, n + 1))
            && (s1.supported ==> s1.packageId == probes[n].ids.value.packageId)
            && TypeIndex(s1, probes[n]) == PlaceOf(probes, Makers(probes, n), n)
  {
    var p, s1, makers := probes[n], Observe(s, probes[n], true), Makers(probes, n);
    forall j | 0 <= j < |makers|
      ensures Matches(s1.types[j], p.purpose, s1.packageId, s1.supported)
        <==> Answers(FiledKey(probes, makers[j]), p, KnownUpTo(probes, n + 1))
    {
      assert IsFiled(s.types[j], probes, makers[j]);
    }
  }

  /** When one step is defined and meets no error, given the masks its type has or gets. */
  lemma {:induction false} StepRunsIff(s: State, cpu: int, p: Probe, masks: seq<uint32>)
    requires s.WellFormed() && p.WellFormed() && |masks| == NUM_CACHE_TYPES
    requires var i := TypeIndex(Observe(s, p, true), p);
             masks == if i < |s.types| then s.types[i].masks else MasksIn(p.identity)
    ensures var o, i := Step(s, cpu, p, true), TypeIndex(Observe(s, p, true), p);
            && (p.identity.Identified? ==> !o.Failed?)
            && (o.Running? <==>
                && (i < |s.types| || (|s.types| < MAX_CPU_TYPES && p.identity.Identified?))
                && (s.supported && p.ids.Some? ==> SlotsExist(p.ids.value, masks)))
  {
  }

  lemma {:induction false} StepFits(s: State, probes: seq<Probe>, n: nat)
    requires ProbesWellFormed(probes) && n < |probes| && s.WellFormed() && HasTypesOf(s, probes, n)
    ensures var o := Step(s, n, probes[n], true);
            && (probes[n].identity.Identified? ==> !o.Failed?)
            && (o.Running? <==> CpuFits(probes, n) && |Makers(probes, n + 1)| <= 255)
  {
    PlaceFound(s, probes, n);
    StepRunsIff(s, n, probes[n], MasksIn(probes[MakerOf(probes, n)].identity));
  }

  lemma {:induction false} StepHasTypes(s: State, probes: seq<Probe>, n: nat)
    requires ProbesWellFormed(probes) && n < |probes| && s.WellFormed() && HasTypesOf(s, probes, n)
    requires Step(s, n, probes[n], true).Running?
    ensures HasTypesOf(Step(s, n, probes[n], true).state, probes, n + 1)
  {
    PlaceFound(s, probes, n);
    SupportAfter(s, n, probes[n]);
    StepGains(s, n, probes[n]);
    AreFiledNext(s.types, Step(s, n, probes[n], true).state.types, probes, n);
  }

  lemma {:induction false} AreFiledNext(
      types: seq<CpuTypeState>, types': seq<CpuTypeState>, probes: seq<Probe>, n: nat)
    requires n < |probes| && AreFiled(types, probes, Makers(probes, n))
    requires var i := PlaceOf(probes, Makers(probes, n), n);
             && |types'| == |types| + (if i < |types| then 0 else 1)
             && (i == |types| ==> IsFiled(types'[i], probes, n))
    requires forall j | 0 <= j < |types| ::
      TypeKey(types'[j]) == TypeKey(types[j]) && types'[j].masks == types[j].masks
    ensures AreFiled(types', probes, Makers(probes, n + 1))
  {
    var makers, makers' := Makers(probes, n), Makers(probes, n + 1);
    forall j | 0 <= j < |types'|
      ensures IsFiled(types'[j], probes, makers'[j])
    {
      if j < |types| {
        assert makers'[j] == makers[j] && IsFiled(types[j], probes, makers[j]);
      }
    }
  }

  lemma {:induction false} SupportAfter(s: State, cpu: int, p: Probe)
    requires s.WellFormed() && p.WellFormed() && Step(s, cpu, p, true).Running?
    ensures Step(s, cpu, p, true).state.supported == Observe(s, p, true).supported
  {
    StepShape(s, cpu, p);
  }

  lemma {:induction false} RunNext(probes: seq<Probe>, n: nat)
    requires ProbesWellFormed(probes) && n < |probes|
    ensures var o := Run(probes[..n], true);
            Run(probes[..n + 1], true) == if o.Running? then Step(o.state, n, probes[n], true) else o
  {
    assert probes[..n + 1][..n] == probes[..n];
  }

  lemma {:induction false} FitsNext(probes: seq<Probe>, n: nat)
    requires ProbesWellFormed(probes) && n < |probes|
    ensures RunFits(probes, n + 1) <==>
      RunFits(probes, n) && CpuFits(probes, n) && |Makers(probes, n + 1)| <= 255
  {
  }

  /** The step of a logical CPU leaves what C defines: it makes a 256th type, or has one and misses a slot. */
  predicate CpuLeaves(probes: seq<Probe>, c: nat)
    requires ProbesWellFormed(probes) && c < |probes|
  {
    var maker := MakerOf(probes, c);
    if maker == c && |Makers(probes, c)| == 255 then true
    else
      && (maker == c ==> probes[c].identity.Identified?)
      && KnownUpTo(probes, c + 1) && !SlotsExist(probes[c].ids.value, MasksIn(probes[maker].identity))
  }

  lemma {:induction false} StepUndefinedIff(s: State, cpu: int, p: Probe, masks: seq<uint32>)
    requires s.WellFormed() && p.WellFormed() && |masks| == NUM_CACHE_TYPES
    requires var i := TypeIndex(Observe(s, p, true), p);
             masks == if i < |s.types| then s.types[i].masks else MasksIn(p.identity)
    ensures var o, i := Step(s, cpu, p, true), TypeIndex(Observe(s, p, true), p);
            o == Undefined <==>
              if i == |s.types| == MAX_CPU_TYPES then true
              else
                && (i == |s.types| ==> p.identity.Identified?)
                && s.supported && p.ids.Some? && !SlotsExist(p.ids.value, masks)
  {
  }

  lemma {:induction false} StepLeaves(s: State, probes: seq<Probe>, n: nat)
    requires ProbesWellFormed(probes) && n < |probes| && s.WellFormed() && HasTypesOf(s, probes, n)
    ensures Step(s, n, probes[n], true) == Undefined <==> CpuLeaves(probes, n)
  {
    PlaceFound(s, probes, n);
    StepUndefinedIff(s, n, probes[n], MasksIn(probes[MakerOf(probes, n)].identity));
  }

  /** Some logical CPU leaves what C defines after all before it have fitted. */
  ghost predicate LeftBefore(probes: seq<Probe>, n: nat)
    requires ProbesWellFormed(probes) && n <= |probes|
  {
    exists c: nat :: c < n && RunFits(probes, c) && CpuLeaves(probes, c)
  }

  lemma {:induction false} LeftNext(probes: seq<Probe>, n: nat)
    requires ProbesWellFormed(probes) && n < |probes|
    ensures LeftBefore(probes, n + 1) <==> LeftBefore(probes, n) || (RunFits(probes, n) && CpuLeaves(probes, n))
  {
  }

  /** The step of a logical CPU ends the run with an error: its record would make a type and is rejected. */
  predicate CpuFails(probes: seq<Probe>, c: nat, error: int)
    requires c < |probes|
  {
    MakerOf(probes, c) == c && |Makers(probes, c)| < 255 && probes[c].identity == Rejected(error)
  }

  lemma {:induction false} StepFailedIff(s: State, cpu: int, p: Probe, error: int)
    requires s.WellFormed() && p.WellFormed()
    ensures Step(s, cpu, p, true) == Failed(error) <==>
      TypeIndex(Observe(s, p, true), p) == |s.types| < MAX_CPU_TYPES && p.identity == Rejected(error)
  {
  }

  lemma {:induction false} StepFails(s: State, probes: seq<Probe>, n: nat, error: int)
    requires ProbesWellFormed(probes) && n < |probes| && s.WellFormed() && HasTypesOf(s, probes, n)
    ensures Step(s, n, probes[n], true) == Failed(error) <==> CpuFails(probes, n, error)
  {
    PlaceFound(s, probes, n);
    StepFailedIff(s, n, probes[n], error);
  }

  /** Some logical CPU ends the run with an error after all before it have fitted. */
  ghost predicate FailedBefore(probes: seq<Probe>, n: nat, error: int)
    requires ProbesWellFormed(probes) && n <= |probes|
  {
    exists c: nat :: c < n && RunFits(probes, c) && CpuFails(probes, c, error)
  }

  lemma {:induction false} FailedNext(probes: seq<Probe>, n: nat, error: int)
    requires ProbesWellFormed(probes) && n < |probes|
    ensures FailedBefore(probes, n + 1, error) <==>
      FailedBefore(probes, n, error) || (RunFits(probes, n) && CpuFails(probes, n, error))
  {
  }

  /** An outcome of the first `n` records is as the conditions say. */
  ghost predicate IsAsFits(o: Outcome, probes: seq<Probe>, n: nat)
    requires ProbesWellFormed(probes) && n <= |probes|
  {
    && (o.Running? <==> RunFits(probes, n))
    && (o.Running? ==> o.state.WellFormed() && HasTypesOf(o.state, probes, n))
    && ((forall i | 0 <= i < n :: probes[i].identity.Identified?) ==> !o.Failed?)
    && (o == Undefined <==> LeftBefore(probes, n))
    && (forall error :: o == Failed(error) <==> FailedBefore(probes, n, error))
  }

  lemma {:induction false} NextIsAsFits(o: Outcome, probes: seq<Probe>, n: nat)
    requires ProbesWellFormed(probes) && n < |probes| && IsAsFits(o, probes, n)
    ensures IsAsFits(if o.Running? then Step(o.state, n, probes[n], true) else o, probes, n + 1)
  {
    FitsNext(probes, n);
    LeftNext(probes, n);
    forall error {
      FailedNext(probes, n, error);
    }
    if o.Running? {
      forall error {
        StepFails(o.state, probes, n, error);
      }
      StepFits(o.state, probes, n);
      StepLeaves(o.state, probes, n);
      if Step(o.state, n, probes[n], true).Running? {
        StepHasTypes(o.state, probes, n);
      }
    }
  }

  lemma {:induction false} NothingIsAsFits(probes: seq<Probe>)
    requires ProbesWellFormed(probes)
    ensures IsAsFits(Run(probes[..0], true), probes, 0)
  {
    assert Run(probes[..0], true) == Running(Initial());
    assert Makers(probes, 0) == [] && Initial().types == [];
  }

  lemma {:induction false} RunIsAsFits(probes: seq<Probe>, n: nat)
    requires ProbesWellFormed(probes) && n <= |probes|
    ensures IsAsFits(Run(probes[..n], true), probes, n)
  {
    if n == 0 {
      NothingIsAsFits(probes);
    } else {
      RunIsAsFits(probes, n - 1);
      RunNext(probes, n - 1);
      NextIsAsFits(Run(probes[..n - 1], true), probes, n - 1);
    }
  }

  /**
    A run succeeds exactly when it makes at most 255 types, each from a record that is identified, and up
    to the loss of the topology every ID gives a slot of its table. With every record identified there is
    no error.
   */
  lemma {:induction false} RunSucceedsIff(probes: seq<Probe>)
    requires ProbesWellFormed(probes)
    ensures Run(probes, true).Running? <==> RunFits(probes, |probes|)
    ensures (forall i | 0 <= i < |probes| :: probes[i].identity.Identified?) ==> !Run(probes, true).Failed?
  {
    RunIsAsFits(probes, |probes|);
    assert probes[..|probes|] == probes;
  }

  /** A run leaves what C defines exactly when some logical CPU does so after all before it have fitted. */
  lemma {:induction false} RunUndefinedIff(probes: seq<Probe>)
    requires ProbesWellFormed(probes)
    ensures Run(probes, true) == Undefined <==>
      exists c: nat :: c < |probes| && RunFits(probes, c) && CpuLeaves(probes, c)
  {
    RunIsAsFits(probes, |probes|);
    assert probes[..|probes|] == probes;
  }

  /** A run ends with an error exactly when, all before it having fitted, a record would make a type and is rejected. */
  lemma {:induction false} RunFailedIff(probes: seq<Probe>, error: int)
    requires ProbesWellFormed(probes)
    ensures Run(probes, true) == Failed(error) <==>
      exists c: nat :: c < |probes| && RunFits(probes, c) && CpuFails(probes, c, error)
  {
    RunIsAsFits(probes, |probes|);
    assert probes[..|probes|] == probes;
  }

  // ----- the types made are the labels

  function FiledKeys(probes: seq<Probe>, n: nat): (keys: seq<Key>)
    requires n <= |probes|
    ensures |keys| == |Makers(probes, n)|
    ensures forall j | 0 <= j < |keys| :: keys[j] == FiledKey(probes, Makers(probes, n)[j])
  {
    var makers := Makers(probes, n);
    seq(|makers|, j requires 0 <= j < |makers| => FiledKey(probes, makers[j]))
  }

  /** When identified and looked-up purposes agree, a run makes one type for each label. */
  lemma {:induction false} TypesMadeAreLabels(probes: seq<Probe>, n: nat)
    requires AllAgree(probes) && n <= |probes|
    ensures FiledKeys(probes, n) == FirstOccurrences(Labels(probes[..n]))
  {
    if n > 0 {
      var labels := Labels(probes[..n - 1]);
      TypesMadeAreLabels(probes, n - 1);
      LabelsNext(probes, n - 1);
      AnsweredIff(probes, n - 1, labels);
      NextKeys(probes, n - 1, NextLabel(labels, KnownUpTo(probes, n), probes[n - 1]), labels);
    }
  }

  lemma {:induction false} LabelsNext(probes: seq<Probe>, n: nat)
    requires n < |probes|
    ensures Labels(probes[..n + 1])
      == Labels(probes[..n]) + [NextLabel(Labels(probes[..n]), KnownUpTo(probes, n + 1), probes[n])]
  {
    var front := probes[..n + 1];
    assert front[..n] == probes[..n] && front[n] == probes[n];
    assert TopologyKnown(front) == KnownUpTo(probes, n + 1);
  }

  /** Some type answers exactly when the label is not new; a new label is the key filed. */
  lemma {:induction false} AnsweredIff(probes: seq<Probe>, n: nat, labels: seq<Key>)
    requires n < |probes| && PurposesAgree(probes[n]) && FiledKeys(probes, n) == FirstOccurrences(labels)
    ensures var key := NextLabel(labels, KnownUpTo(probes, n + 1), probes[n]);
            var makers := Makers(probes, n);
            && (PlaceOf(probes, makers, n) < |makers| <==> key in labels)
            && (key !in labels ==> FiledKey(probes, n) == key)
  {
    var keys, makers, known := FiledKeys(probes, n), Makers(probes, n), KnownUpTo(probes, n + 1);
    var key, i := NextLabel(labels, known, probes[n]), PlaceOf(probes, makers, n);
    if i < |makers| {
      assert keys[i] in FirstOccurrences(labels);
      assert keys[i] in labels;
    }
    if key in labels {
      assert key in FirstOccurrences(labels);
      var j :| 0 <= j < |keys| && keys[j] == key;
      assert Answers(FiledKey(probes, makers[j]), probes[n], known);
    }
  }

  lemma {:induction false} NextKeys(probes: seq<Probe>, n: nat, key: Key, labels: seq<Key>)
    requires n < |probes| && FiledKeys(probes, n) == FirstOccurrences(labels)
    requires PlaceOf(probes, Makers(probes, n), n) < |Makers(probes, n)| <==> key in labels
    requires key !in labels ==> FiledKey(probes, n) == key
    ensures FiledKeys(probes, n + 1) == FirstOccurrences(labels + [key])
  {
    assert (labels + [key])[..|labels|] == labels;
    if key !in labels {
      assert FiledKeys(probes, n + 1) == FiledKeys(probes, n) + [key];
    } else {
      assert FiledKeys(probes, n + 1) == FiledKeys(probes, n);
    }
  }

  // ----- slots, told from the raw records

  lemma {:induction false} IndexableIff(id: int)
    ensures Indexable(id) <==> id >= 0 || id % HTABLE_SIZE == 0
  {
  }

  /** The record has IDs at all. */
  predicate HasIds(raw: Raw)
    requires raw.WellFormed()
  {
    match ArchitectureOf(raw)
    case X86 => ApicIdSupported(raw) && Levels(raw) > 0 && LevelType(raw, Levels(raw) - 1) != 0
    case Arm => raw.arm[ARM_MPIDR][0] != 0
    case Unknown => false
  }

  /** The APIC ID as a word; all ones on ARM, which has none. */
  function ApicWord(raw: Raw): uint32
    requires raw.WellFormed() && HasIds(raw)
  {
    if ArchitectureOf(raw) == X86 then ApicId(raw, Levels(raw) - 1) else UINT32_RANGE - 1
  }

  function MaskedWord(apic: uint32, mask: uint32): uint32 {
    AndBound(apic, mask);
    And(apic, mask)
  }

  /** Read as a signed number, the cache ID is not negative or a multiple of 256. */
  predicate CacheSlotExists(apic: uint32, mask: uint32) {
    mask == 0 || MaskedWord(apic, mask) < 0x8000_0000 || MaskedWord(apic, mask) % HTABLE_SIZE == 0
  }

  predicate RawSlotsExist(raw: Raw, masks: seq<uint32>)
    requires raw.WellFormed() && HasIds(raw)
  {
    && (ArchitectureOf(raw) == X86 ==> HasCoreLevel(raw))
    && forall l | 0 <= l < |masks| :: CacheSlotExists(ApicWord(raw), masks[l])
  }

  lemma {:induction false} HasIdsIff(raw: Raw)
    requires raw.WellFormed()
    ensures IdentId(raw).Some? <==> HasIds(raw)
    ensures HasIds(raw) ==> IdentId(raw).value.apicId == Int32(ApicWord(raw))
  {
    HasIdsX86Iff(raw);
  }

  /** A record gives slots exactly when it has a core level, always on ARM, and its cache IDs are as above. */
  lemma {:induction false} RawSlotsIff(raw: Raw, masks: seq<uint32>)
    requires raw.WellFormed() && HasIds(raw) && IdentId(raw).Some? && IsInt32(IdentId(raw).value.apicId)
    ensures SlotsExist(IdentId(raw).value, masks) <==> RawSlotsExist(raw, masks)
  {
    var ids := IdentId(raw).value;
    HasIdsIff(raw);
    CoreSlotIff(raw);
    forall l | 0 <= l < |masks|
      ensures CacheIndexable(ids.apicId, masks[l]) <==> CacheSlotExists(ApicWord(raw), masks[l])
    {
      CacheSlotIff(ApicWord(raw), masks[l]);
    }
  }

  lemma {:induction false} CoreSlotIff(raw: Raw)
    requires raw.WellFormed() && IdentId(raw).Some?
    ensures Indexable(IdentId(raw).value.coreId) <==> (ArchitectureOf(raw) == X86 ==> HasCoreLevel(raw))
  {
    if ArchitectureOf(raw) == X86 {
      CoreIdIff(raw);
    }
    IndexableIff(IdentId(raw).value.coreId);
  }

  lemma {:induction false} CacheSlotIff(apic: uint32, mask: uint32)
    ensures CacheIndexable(Int32(apic), mask) <==> CacheSlotExists(apic, mask)
  {
    assert Unsigned32(Int32(apic)) == apic;
    SignedSlotIff(MaskedWord(apic, mask));
  }

  lemma {:induction false} SignedSlotIff(x: uint32)
    ensures Indexable(Int32(x)) <==> x < 0x8000_0000 || x % HTABLE_SIZE == 0
  {
    IndexableIff(Int32(x));
  }

  /** For a cache shared by `n` logical CPUs: the APIC ID is below 2^31, or in the first block of its 256. */
  lemma {:induction false} SharedCacheSlotIff(apic: uint32, n: nat)
    requires 1 <= n <= 4096
    ensures CacheSlotExists(apic, SharingMask(n)) <==>
      apic < 0x8000_0000 || apic % HTABLE_SIZE < Pow2(CountOrder(n))
  {
    var k := CountOrder(n);
    MaskedBySharing(apic, n);
    Nested256(apic, k);
    RemainderAtMost(apic, Pow2(k));
    if k >= 8 {
      HighBlockResidue(apic, k);
      Pow2Constants();
      Pow2Monotone(8, k);
    } else {
      AlignedResidue(apic, apic % Pow2(k));
      SmallerIff(apic % HTABLE_SIZE, Pow2(k));
      BlockStaysAbove(apic, apic % Pow2(k));
    }
  }

  lemma {:induction false} SmallerIff(x: nat, p: nat)
    requires p > 0
    ensures x % p == x <==> x < p
  {
    if x < p {
      SmallRemainders(x, p);
    }
  }

  lemma {:induction false} BlockStaysAbove(a: nat, r: nat)
    requires r <= a % 256
    ensures a - r < 0x8000_0000 <==> a < 0x8000_0000
  {
  }

  // ----- whole runs, told from the raw records

  /** Up to the loss of the topology a logical CPU has a core level and its cache IDs give slots. */
  predicate RawSlotsFit(raws: seq<Raw>, probes: seq<Probe>, c: nat)
    requires AllWellFormed(raws) && |probes| == |raws| && c < |raws|
  {
    (forall i | 0 <= i <= c :: HasIds(raws[i])) ==> RawSlotsExist(raws[c], MasksIn(probes[MakerOf(probes, c)].identity))
  }

  predicate RawCpuFits(raws: seq<Raw>, probes: seq<Probe>, c: nat)
    requires AllWellFormed(raws) && |probes| == |raws| && c < |raws|
  {
    (MakerOf(probes, c) == c ==> probes[c].identity.Identified?) && RawSlotsFit(raws, probes, c)
  }

  predicate RawRunFits(raws: seq<Raw>, probes: seq<Probe>, n: nat)
    requires AllWellFormed(raws) && |probes| == |raws| && n <= |raws|
  {
    |Makers(probes, n)| <= 255 && forall c | 0 <= c < n :: RawCpuFits(raws, probes, c)
  }

  predicate RawCpuLeaves(raws: seq<Raw>, probes: seq<Probe>, c: nat)
    requires AllWellFormed(raws) && |probes| == |raws| && c < |raws|
  {
    var maker := MakerOf(probes, c);
    if maker == c && |Makers(probes, c)| == 255 then true
    else (maker == c ==> probes[c].identity.Identified?) && !RawSlotsFit(raws, probes, c)
  }

  lemma {:induction false} RawSlotsFitIff(raws: seq<Raw>, probes: seq<Probe>, c: nat)
    requires AllWellFormed(raws) && ProbesWellFormed(probes) && c < |raws| == |probes|
    requires forall i | 0 <= i < |raws| :: probes[i].ids == IdentId(raws[i])
    ensures RawSlotsFit(raws, probes, c) <==>
      (KnownUpTo(probes, c + 1) ==> SlotsExist(probes[c].ids.value, MasksIn(probes[MakerOf(probes, c)].identity)))
  {
    forall i | 0 <= i < |raws|
      ensures probes[i].ids.Some? <==> HasIds(raws[i])
    {
      HasIdsIff(raws[i]);
    }
    if KnownUpTo(probes, c + 1) {
      RawSlotsIff(raws[c], MasksIn(probes[MakerOf(probes, c)].identity));
    }
  }

  lemma {:induction false} RawConditions(raws: seq<Raw>, probes: seq<Probe>)
    requires AllWellFormed(raws) && ProbesWellFormed(probes) && |raws| == |probes|
    requires forall i | 0 <= i < |raws| :: probes[i].ids == IdentId(raws[i])
    ensures forall n: nat | n <= |raws| :: RunFits(probes, n) <==> RawRunFits(raws, probes, n)
    ensures forall c: nat | c < |raws| :: CpuLeaves(probes, c) <==> RawCpuLeaves(raws, probes, c)
  {
    forall c: nat | c < |raws|
      ensures CpuFits(probes, c) <==> RawCpuFits(raws, probes, c)
      ensures CpuLeaves(probes, c) <==> RawCpuLeaves(raws, probes, c)
    {
      RawSlotsFitIff(raws, probes, c);
    }
  }

  /**
    The same for raw records: at most 255 types, each made from a record that is identified, and up to the
    loss of the topology every record has a core level and its cache IDs give slots. The run leaves what C
    defines exactly when, all records before it having fitted, one would make a 256th type or lacks a slot.
   */
  lemma {:induction false} RawRunSucceedsIff(raws: seq<Raw>, purposeOf: Raw -> int, identify: Raw -> Identity)
    requires AllWellFormed(raws) && forall i | 0 <= i < |raws| :: identify(raws[i]).WellFormed()
    ensures var probes := Probes(raws, purposeOf, identify);
            && ProbesWellFormed(probes)
            && (Run(probes, true).Running? <==> RawRunFits(raws, probes, |raws|))
            && (Run(probes, true) == Undefined <==>
                exists c: nat :: c < |raws| && RawRunFits(raws, probes, c) && RawCpuLeaves(raws, probes, c))
  {
    var probes := Probes(raws, purposeOf, identify);
    ProbesDefined(raws, purposeOf, identify);
    RunSucceedsIff(probes);
    RunUndefinedIff(probes);
    RawConditions(raws, probes);
  }

  // ----- records that leave a table

  /** An Intel record whose leaf 0Bh has an SMT level and nothing else. */
  function SmtOnlyRecord(): (raw: Raw)
    ensures raw.WellFormed()
  {
    var z, smt := ZeroRaw(), Regs(1, 1, 0x100, 0);
    var basic := z.leaves[BASIC_CPUID][0 := Regs(11, 0x756e6547, 0x6c65746e, 0x49656e69)][11 := smt];
    var fn11 := z.leaves[INTEL_FN11][0 := smt];
    Raw(z.leaves[BASIC_CPUID := basic][INTEL_FN11 := fn11], z.arm)
  }

  lemma {:induction false} SmtOnlyRecordHasIds()
    ensures var raw := SmtOnlyRecord();
            HasIds(raw) && ArchitectureOf(raw) == X86 && !HasCoreLevel(raw)
  {
    var raw := SmtOnlyRecord();
    var basic, fn11 := raw.leaves[BASIC_CPUID], raw.leaves[INTEL_FN11];
    assert basic[0] == Regs(11, 0x756e6547, 0x6c65746e, 0x49656e69);
    assert basic[11] == fn11[0] == Regs(1, 1, 0x100, 0) && fn11[1] == Regs(0, 0, 0, 0);
    SmtFields();
    assert Enumerated(raw, 0) && !Enumerated(raw, 1);
    assert Levels(raw) == 1 && LevelType(raw, 0) == LEVEL_SMT;
  }

  lemma {:induction false} SmtFields()
    ensures Field(1, 15, 0) == 1 && Field(0x100, 15, 8) == LEVEL_SMT
  {
    Pow2Constants();
    assert Pow2(0) == 1;
  }

  /** Its core ID stays -1, which is no index of a table: a run that begins with it is undefined. */
  lemma {:induction false} SmtOnlyRunUndefined(probes: seq<Probe>)
    requires ProbesWellFormed(probes) && probes != []
    requires probes[0].ids == IdentId(SmtOnlyRecord()) && probes[0].identity.Identified?
    ensures probes[0].ids.Some? && probes[0].ids.value.coreId == -1
    ensures Run(probes, true) == Undefined
  {
    var raw, first := SmtOnlyRecord(), probes[..1];
    SmtOnlyRecordHasIds();
    HasIdsIff(raw);
    CoreIdIff(raw);
    assert first[0] == probes[0] && !CpuFits(first, 0);
    RunSucceedsIff(first);
    RunPrefix(probes, 1, true);
  }

  /** A cache of one logical CPU with APIC ID 2^31 + 1 has no slot. */
  lemma {:induction false} HighApicIdLeavesTable()
    ensures !CacheSlotExists(0x8000_0001, SharingMask(1))
  {
    SharedCacheSlotIff(0x8000_0001, 1);
  }
}

/**
  What the hash tables of a run hold: per type the cores and caches of its logical CPUs, and for the
  whole machine the union of the types' caches.
 */
module Counting {
  import opened Bits
  import opened Collections
  import opened InstanceTable
  import opened Options
  import opened Topology
  import opened CacheSharing
  import opened Enumeration
  import opened Partition

  /** The core IDs of the given logical CPUs, in CPU order, up to the record that loses the topology. */
  function CoreIds(probes: seq<Probe>, cpus: set<int>): (ids: seq<int>)
    ensures |ids| <= |probes|
  {
    if probes == [] then []
    else
      var n := |probes| - 1;
      CoreIds(probes[..n], cpus)
      + if TopologyKnown(probes) && n in cpus then [probes[n].ids.value.coreId] else []
  }

  /** The IDs of their caches at a level with a mask. */
  function LevelIds(probes: seq<Probe>, cpus: set<int>, mask: uint32): (ids: seq<int>)
    requires ProbesWellFormed(probes)
    ensures |ids| <= |probes|
  {
    if probes == [] then []
    else
      var n := |probes| - 1;
      LevelIds(probes[..n], cpus, mask)
      + if TopologyKnown(probes) && n in cpus && mask != 0
        then [Masked(Unsigned32(probes[n].ids.value.apicId), mask)] else []
  }

  lemma {:induction false} IdsLocal(probes: seq<Probe>, cpus: set<int>, more: set<int>, mask: uint32)
    requires ProbesWellFormed(probes)
    requires forall c | 0 <= c < |probes| :: c in cpus <==> c in more
    ensures CoreIds(probes, cpus) == CoreIds(probes, more)
    ensures LevelIds(probes, cpus, mask) == LevelIds(probes, more, mask)
  {
    if probes != [] {
      IdsLocal(probes[..|probes| - 1], cpus, more, mask);
    }
  }

  predicate TypesWellFormed(types: seq<CpuTypeState>) { forall i | 0 <= i < |types| :: types[i].WellFormed() }

  ghost predicate HoldsRun(t: Table, ids: seq<int>) { AllIndexable(ids) && t == TouchAll(ids) }

  /** The tables of a type hold the IDs of its own logical CPUs. */
  ghost predicate TypeTables(t: CpuTypeState, probes: seq<Probe>)
    requires ProbesWellFormed(probes) && t.WellFormed()
  {
    && HoldsRun(t.cores, CoreIds(probes, t.cpus))
    && forall l | 0 <= l < NUM_CACHE_TYPES :: HoldsRun(t.caches[l], LevelIds(probes, t.cpus, t.masks[l]))
  }

  lemma {:induction false} RunTables(probes: seq<Probe>)
    requires ProbesWellFormed(probes) && Run(probes, true).Running?
    ensures forall i | 0 <= i < |Run(probes, true).state.types| ::
      TypeTables(Run(probes, true).state.types[i], probes)
  {
    if probes != [] {
      RunStep(probes, true);
      var n := |probes| - 1;
      RunTables(probes[..n]);
      RunPartitions(probes[..n]);
      SupportedIff(probes[..n]);
      TablesStep(Run(probes[..n], true).state, probes);
    }
  }

  lemma {:induction false} TablesStep(s: State, probes: seq<Probe>)
    requires ProbesWellFormed(probes) && probes != [] && s.WellFormed()
    requires Step(s, |probes| - 1, probes[|probes| - 1], true).Running?
    requires Partitions(s.types, |probes| - 1) && (s.supported <==> TopologyKnown(probes[..|probes| - 1]))
    requires forall i | 0 <= i < |s.types| :: TypeTables(s.types[i], probes[..|probes| - 1])
    ensures var types := Step(s, |probes| - 1, probes[|probes| - 1], true).state.types;
            forall i | 0 <= i < |types| :: TypeTables(types[i], probes)
  {
    var n := |probes| - 1;
    var before, i, ids := StepTypes(s, n, probes[n]);
    TablesBefore(s.types, before, probes[..n]);
    KnownLonger(probes, n);
    assert ids == if TopologyKnown(probes) then probes[n].ids else None;
    TypesCounted(before, probes, i, ids);
  }

  /** The types of the step before, and a new one without logical CPUs. */
  lemma {:induction false} TablesBefore(types: seq<CpuTypeState>, before: seq<CpuTypeState>, probes: seq<Probe>)
    requires ProbesWellFormed(probes) && Partitions(types, |probes|)
    requires TypesWellFormed(types) && TypesWellFormed(before)
    requires types <= before && |before| <= |types| + 1
    requires forall i | 0 <= i < |types| :: TypeTables(types[i], probes)
    requires |before| > |types| ==>
      var t := before[|types|]; t.cpus == {} && t.cores == EmptyTable() && t.caches == EmptyCaches()
    ensures forall i | 0 <= i < |before| :: TypeTables(before[i], probes) && |probes| !in before[i].cpus
  {
    if |before| > |types| {
      NewTypeTables(before[|types|], probes);
    }
    forall i | 0 <= i < |types|
      ensures TypeTables(before[i], probes) && |probes| !in before[i].cpus
    {
      assert before[i] == types[i];
      assert |probes| in types[i].cpus ==> Member(types, |probes|);
    }
  }

  lemma {:induction false} TypesCounted(before: seq<CpuTypeState>, probes: seq<Probe>, i: nat, ids: Option<Ids>)
    requires ProbesWellFormed(probes) && probes != [] && i < |before|
    requires forall j | 0 <= j < |before| ::
      before[j].WellFormed() && TypeTables(before[j], probes[..|probes| - 1]) && |probes| - 1 !in before[j].cpus
    requires ids == if TopologyKnown(probes) then probes[|probes| - 1].ids else None
    requires ids.Some? ==> IsInt32(ids.value.apicId) && CpuIndexable(before[i], ids.value)
    ensures var after := before[i := AddCpu(before[i], |probes| - 1, ids)];
            forall j | 0 <= j < |after| :: TypeTables(after[j], probes)
  {
    CountedTables(before[i], probes, ids);
    forall j | 0 <= j < |before| && j != i
      ensures TypeTables(before[j], probes)
    {
      OtherTables(before[j], probes);
    }
  }

  /** A logical CPU outside the set, or after the loss of the topology, adds no ID. */
  lemma {:induction false} IdsSkip(probes: seq<Probe>, cpus: set<int>, mask: uint32)
    requires ProbesWellFormed(probes) && probes != []
    requires |probes| - 1 !in cpus || !TopologyKnown(probes)
    ensures CoreIds(probes, cpus) == CoreIds(probes[..|probes| - 1], cpus)
    ensures LevelIds(probes, cpus, mask) == LevelIds(probes[..|probes| - 1], cpus, mask)
  {
  }

  lemma {:induction false} NewTypeTables(t: CpuTypeState, probes: seq<Probe>)
    requires ProbesWellFormed(probes) && t.WellFormed()
    requires t.cpus == {} && t.cores == EmptyTable() && t.caches == EmptyCaches()
    ensures TypeTables(t, probes)
  {
    forall l | 0 <= l < NUM_CACHE_TYPES
      ensures HoldsRun(t.caches[l], LevelIds(probes, t.cpus, t.masks[l]))
    {
      NoIds(probes, t.masks[l]);
    }
    NoIds(probes, 0);
  }

  lemma {:induction false} NoIds(probes: seq<Probe>, mask: uint32)
    requires ProbesWellFormed(probes)
    ensures CoreIds(probes, {}) == [] && LevelIds(probes, {}, mask) == []
  {
    if probes != [] {
      NoIds(probes[..|probes| - 1], mask);
    }
  }

  lemma {:induction false} OtherTables(t: CpuTypeState, probes: seq<Probe>)
    requires ProbesWellFormed(probes) && probes != [] && t.WellFormed()
    requires TypeTables(t, probes[..|probes| - 1]) && |probes| - 1 !in t.cpus
    ensures TypeTables(t, probes)
  {
    IdsSkip(probes, t.cpus, 0);
    forall l | 0 <= l < NUM_CACHE_TYPES
      ensures HoldsRun(t.caches[l], LevelIds(probes, t.cpus, t.masks[l]))
    {
      IdsSkip(probes, t.cpus, t.masks[l]);
    }
  }

  lemma {:induction false} CountedTables(t: CpuTypeState, probes: seq<Probe>, ids: Option<Ids>)
    requires ProbesWellFormed(probes) && probes != [] && t.WellFormed()
    requires TypeTables(t, probes[..|probes| - 1]) && |probes| - 1 !in t.cpus
    requires ids == if TopologyKnown(probes) then probes[|probes| - 1].ids else None
    requires ids.Some? ==> IsInt32(ids.value.apicId) && CpuIndexable(t, ids.value)
    ensures TypeTables(AddCpu(t, |probes| - 1, ids), probes)
  {
    var n := |probes| - 1;
    var t' := AddCpu(t, n, ids);
    CountedCores(t, probes, t'.cpus, ids);
    forall l | 0 <= l < NUM_CACHE_TYPES
      ensures HoldsRun(t'.caches[l], LevelIds(probes, t'.cpus, t'.masks[l]))
    {
      CountedLevel(t, probes, t'.cpus, ids, l);
    }
  }

  lemma {:induction false} CountedCores(t: CpuTypeState, probes: seq<Probe>, cpus: set<int>, ids: Option<Ids>)
    requires ProbesWellFormed(probes) && probes != [] && t.WellFormed() && cpus == t.cpus + {|probes| - 1}
    requires HoldsRun(t.cores, CoreIds(probes[..|probes| - 1], t.cpus)) && |probes| - 1 !in t.cpus
    requires ids == if TopologyKnown(probes) then probes[|probes| - 1].ids else None
    requires ids.Some? ==> Indexable(ids.value.coreId)
    ensures HoldsRun(if ids.None? then t.cores else Touch(t.cores, ids.value.coreId), CoreIds(probes, cpus))
  {
    var front := probes[..|probes| - 1];
    IdsLocal(front, t.cpus, cpus, 0);
    if ids.None? {
      IdsSkip(probes, cpus, 0);
    }
  }

  lemma {:induction false} CountedLevel(
      t: CpuTypeState, probes: seq<Probe>, cpus: set<int>, ids: Option<Ids>, l: int)
    requires ProbesWellFormed(probes) && probes != [] && t.WellFormed() && cpus == t.cpus + {|probes| - 1}
    requires 0 <= l < NUM_CACHE_TYPES && |probes| - 1 !in t.cpus
    requires HoldsRun(t.caches[l], LevelIds(probes[..|probes| - 1], t.cpus, t.masks[l]))
    requires ids == if TopologyKnown(probes) then probes[|probes| - 1].ids else None
    requires ids.Some? ==> IsInt32(ids.value.apicId) && CacheIndexable(ids.value.apicId, t.masks[l])
    ensures HoldsRun(if ids.None? then t.caches[l] else TouchCache(t.caches[l], ids.value.apicId, t.masks[l]),
                     LevelIds(probes, cpus, t.masks[l]))
  {
    var front, mask := probes[..|probes| - 1], t.masks[l];
    IdsLocal(front, t.cpus, cpus, mask);
    if ids.None? {
      IdsSkip(probes, cpus, mask);
    } else if mask == 0 {
      assert LevelIds(probes, cpus, mask) == LevelIds(front, cpus, mask);
    }
  }

  /** The counters of a type: distinct residues of its own core and cache IDs, on 8 bits. */
  lemma {:induction false} TypeCounters(probes: seq<Probe>, i: nat)
    requires ProbesWellFormed(probes) && Run(probes, true).Running? && |probes| < UINT16_RANGE
    requires i < |Run(probes, true).state.types|
    ensures var t := Run(probes, true).state.types[i];
            && t.cores.instances == |Residues(CoreIds(probes, t.cpus))| % BYTE_RANGE
            && (forall l | 0 <= l < NUM_CACHE_TYPES ::
                 t.caches[l].instances == |Residues(LevelIds(probes, t.cpus, t.masks[l]))| % BYTE_RANGE
                 && Occupied(t.caches[l]) == Residues(LevelIds(probes, t.cpus, t.masks[l])))
  {
    RunTables(probes);
    var t := Run(probes, true).state.types[i];
    OccupiedAreResidues(CoreIds(probes, t.cpus));
    forall l | 0 <= l < NUM_CACHE_TYPES
      ensures t.caches[l].instances == |Residues(LevelIds(probes, t.cpus, t.masks[l]))| % BYTE_RANGE
      ensures Occupied(t.caches[l]) == Residues(LevelIds(probes, t.cpus, t.masks[l]))
    {
      assert HoldsRun(t.caches[l], LevelIds(probes, t.cpus, t.masks[l]));
      OccupiedAreResidues(LevelIds(probes, t.cpus, t.masks[l]));
    }
  }

  /** Cores are counted exactly iff the type has at most 255 of them, distinct modulo 256. */
  lemma {:induction false} CoreCountExactIff(probes: seq<Probe>, i: nat)
    requires ProbesWellFormed(probes) && Run(probes, true).Running? && |probes| < UINT16_RANGE
    requires i < |Run(probes, true).state.types|
    ensures var t := Run(probes, true).state.types[i];
            var ids := Distinct(CoreIds(probes, t.cpus));
            t.cores.instances == |ids| <==> |ids| < BYTE_RANGE && ResiduesDistinct(ids)
  {
    RunTables(probes);
    ExactCount(CoreIds(probes, Run(probes, true).state.types[i].cpus));
  }

  // ----- the machine-wide tables

  /** The slots in use at a level, type by type. */
  function SlotSets(types: seq<CpuTypeState>, l: int): (sets: seq<set<int>>)
    requires 0 <= l < NUM_CACHE_TYPES && TypesWellFormed(types)
    ensures |sets| == |types| && forall i | 0 <= i < |types| :: sets[i] == Occupied(types[i].caches[l])
  {
    seq(|types|, i requires 0 <= i < |types| => Occupied(types[i].caches[l]))
  }

  function InstanceCounts(types: seq<CpuTypeState>, l: int): (counts: seq<nat>)
    requires 0 <= l < NUM_CACHE_TYPES && TypesWellFormed(types)
    ensures |counts| == |types| && forall i | 0 <= i < |types| :: counts[i] == types[i].caches[l].instances
  {
    seq(|types|, i requires 0 <= i < |types| => types[i].caches[l].instances)
  }

  function Sum(counts: seq<nat>): nat {
    if counts == [] then 0 else Sum(counts[..|counts| - 1]) + counts[|counts| - 1]
  }

  /** The state of a table after some run of at most `n` updates. */
  ghost predicate AfterRun(t: Table, n: nat) {
    exists ids :: |ids| <= n && HoldsRun(t, ids)
  }

  lemma {:induction false} AfterRunSlots(t: Table, n: nat)
    requires AfterRun(t, n) && n < UINT16_RANGE
    ensures t.WellFormed() && t.instances == |Occupied(t)| % BYTE_RANGE && |Occupied(t)| <= HTABLE_SIZE
  {
    var ids :| |ids| <= n && HoldsRun(t, ids);
    OccupiedAreResidues(ids);
    ResiduesBounded(ids);
  }

  /** The slots an update adds. */
  function NewSlots(apicId: int, mask: uint32): set<int>
    requires IsInt32(apicId)
  {
    if mask == 0 then {} else {Residue(Masked(Unsigned32(apicId), mask))}
  }

  lemma {:induction false} TouchAfterRun(t: Table, n: nat, apicId: int, mask: uint32)
    requires AfterRun(t, n) && n < UINT16_RANGE - 1 && IsInt32(apicId) && CacheIndexable(apicId, mask)
    ensures t.WellFormed() && AfterRun(TouchCache(t, apicId, mask), n + 1)
    ensures Occupied(TouchCache(t, apicId, mask)) == Occupied(t) + NewSlots(apicId, mask)
  {
    if mask == 0 {
      AfterRunLater(t, n);
    } else {
      var ids :| |ids| <= n && HoldsRun(t, ids);
      TouchRun(t, ids, Masked(Unsigned32(apicId), mask));
      assert |ids + [Masked(Unsigned32(apicId), mask)]| <= n + 1;
    }
  }

  lemma {:induction false} TouchRun(t: Table, ids: seq<int>, id: int)
    requires HoldsRun(t, ids) && Indexable(id) && |ids| < UINT16_RANGE - 1
    ensures HoldsRun(Touch(t, id), ids + [id])
    ensures Occupied(Touch(t, id)) == Occupied(t) + {Residue(id)}
  {
    OccupiedAreResidues(ids);
    TouchKeeps(t, id, ids);
  }

  /** At a table index: all tables come from runs, and the machine's slots are the types' slots. */
  ghost predicate IndexIsUnion(types: seq<CpuTypeState>, machine: Table, n: nat, l: int)
    requires TypesWellFormed(types) && machine.WellFormed() && 0 <= l < NUM_CACHE_TYPES
  {
    && AfterRun(machine, n)
    && (forall i | 0 <= i < |types| :: AfterRun(types[i].caches[l], n))
    && Occupied(machine) == UnionAll(SlotSets(types, l))
  }

  ghost predicate MachineIsUnion(s: State, n: nat)
    requires s.WellFormed()
  {
    forall l | 0 <= l < NUM_CACHE_TYPES :: IndexIsUnion(s.types, s.caches[l], n, l)
  }

  lemma {:induction false} RunUnion(probes: seq<Probe>)
    requires ProbesWellFormed(probes) && Run(probes, true).Running? && |probes| < UINT16_RANGE
    ensures MachineIsUnion(Run(probes, true).state, |probes|)
  {
    if probes == [] {
      forall l | 0 <= l < NUM_CACHE_TYPES
        ensures IndexIsUnion([], Initial().caches[l], 0, l)
      {
        EmptyAfterRun(0);
      }
    } else {
      RunStep(probes, true);
      var n := |probes| - 1;
      RunUnion(probes[..n]);
      UnionStep(Run(probes[..n], true).state, n, probes[n]);
    }
  }

  lemma {:induction false} UnionStep(s: State, n: nat, p: Probe)
    requires s.WellFormed() && p.WellFormed() && Step(s, n, p, true).Running?
    requires MachineIsUnion(s, n) && n < UINT16_RANGE - 1
    ensures MachineIsUnion(Step(s, n, p, true).state, n + 1)
  {
    var s' := Step(s, n, p, true).state;
    var before, i, ids := StepTypes(s, n, p);
    forall l | 0 <= l < NUM_CACHE_TYPES
      ensures IndexIsUnion(s'.types, s'.caches[l], n + 1, l)
    {
      UnionClassified(s.types, before, s.caches[l], n, l);
      UnionCounted(before, s.caches[l], i, n, ids, l);
    }
  }

  /** A new type has empty tables. */
  lemma {:induction false} UnionClassified(
      types: seq<CpuTypeState>, types': seq<CpuTypeState>, machine: Table, n: nat, l: int)
    requires TypesWellFormed(types) && TypesWellFormed(types') && machine.WellFormed() && 0 <= l < NUM_CACHE_TYPES
    requires IndexIsUnion(types, machine, n, l)
    requires types' == types || (|types'| == |types| + 1 && types' == types + [types'[|types|]]
                                 && types'[|types|].caches == EmptyCaches())
    ensures IndexIsUnion(types', machine, n, l)
  {
    if types' != types {
      var m, sets := |types|, SlotSets(types', l);
      assert types'[m].caches[l] == EmptyTable();
      EmptyAfterRun(n);
      assert sets[..m] == SlotSets(types, l);
      assert UnionAll(sets) == UnionAll(sets[..m]) + sets[m];
    }
  }

  lemma {:induction false} EmptyAfterRun(n: nat)
    ensures AfterRun(EmptyTable(), n) && Occupied(EmptyTable()) == {}
  {
    assert HoldsRun(EmptyTable(), []);
  }

  lemma {:induction false} AfterRunLater(t: Table, n: nat)
    requires AfterRun(t, n)
    ensures AfterRun(t, n + 1)
  {
    var ids :| |ids| <= n && HoldsRun(t, ids);
    assert |ids| <= n + 1;
  }

  lemma {:induction false} UnionCounted(
      types: seq<CpuTypeState>, machine: Table, i: nat, n: nat, ids: Option<Ids>, l: int)
    requires TypesWellFormed(types) && i < |types| && 0 <= l < NUM_CACHE_TYPES && n < UINT16_RANGE - 1
    requires machine.WellFormed()
    requires ids.Some? ==> IsInt32(ids.value.apicId) && CpuIndexable(types[i], ids.value)
    requires IndexIsUnion(types, machine, n, l)
    ensures var types' := types[i := AddCpu(types[i], n, ids)];
            var machine' := if ids.None? then machine else TouchCache(machine, ids.value.apicId, types[i].masks[l]);
            IndexIsUnion(types', machine', n + 1, l)
  {
    var t, t' := types[i], AddCpu(types[i], n, ids);
    forall j | 0 <= j < |types| { AfterRunLater(types[j].caches[l], n); }
    AfterRunLater(machine, n);
    if ids.Some? {
      TouchAfterRun(t.caches[l], n, ids.value.apicId, t.masks[l]);
      TouchAfterRun(machine, n, ids.value.apicId, t.masks[l]);
      UnionUpdated(types, i, t', l, NewSlots(ids.value.apicId, t.masks[l]));
    } else {
      UnionUpdated(types, i, t', l, {});
    }
  }

  lemma {:induction false} UnionUpdated(types: seq<CpuTypeState>, i: nat, t: CpuTypeState, l: int, more: set<int>)
    requires 0 <= l < NUM_CACHE_TYPES && i < |types| && t.WellFormed() && types[i].WellFormed()
    requires TypesWellFormed(types) && TypesWellFormed(types[i := t])
    requires Occupied(t.caches[l]) == Occupied(types[i].caches[l]) + more
    ensures UnionAll(SlotSets(types[i := t], l)) == UnionAll(SlotSets(types, l)) + more
  {
    var sets := SlotSets(types, l);
    UnionAllUpdated(sets, i, more);
    assert SlotSets(types[i := t], l) == sets[i := sets[i] + more];
  }

  /**
    The grand total of a level is the number of slots in use in any type, on 8 bits; while that number
    fits 8 bits it lies between the largest count of a type and the sum of all of them.
   */
  lemma {:induction false} TotalsBounded(probes: seq<Probe>, l: int)
    requires ProbesWellFormed(probes) && Run(probes, true).Running? && |probes| < UINT16_RANGE
    requires 0 <= l < NUM_CACHE_TYPES
    ensures var s := Run(probes, true).state;
            var slots := UnionAll(SlotSets(s.types, l));
            && Occupied(s.caches[l]) == slots
            && s.caches[l].instances == |slots| % BYTE_RANGE
            && (|slots| < BYTE_RANGE ==>
                && (forall i | 0 <= i < |s.types| :: s.types[i].caches[l].instances <= s.caches[l].instances)
                && s.caches[l].instances <= Sum(InstanceCounts(s.types, l)))
  {
    RunUnion(probes);
    var s := Run(probes, true).state;
    LevelTotals(s.types, s.caches[l], |probes|, l);
  }

  lemma {:induction false} LevelTotals(types: seq<CpuTypeState>, machine: Table, n: nat, l: int)
    requires TypesWellFormed(types) && n < UINT16_RANGE && 0 <= l < NUM_CACHE_TYPES && machine.WellFormed()
    requires IndexIsUnion(types, machine, n, l)
    ensures var slots := UnionAll(SlotSets(types, l));
            && machine.instances == |slots| % BYTE_RANGE
            && (|slots| < BYTE_RANGE ==>
                && (forall i | 0 <= i < |types| :: types[i].caches[l].instances <= machine.instances)
                && machine.instances <= Sum(InstanceCounts(types, l)))
  {
    AfterRunSlots(machine, n);
    if |UnionAll(SlotSets(types, l))| < BYTE_RANGE {
      CountsAreSizes(types, n, l);
      SmallCount(machine, n);
    }
  }

  lemma {:induction false} CountsAreSizes(types: seq<CpuTypeState>, n: nat, l: int)
    requires TypesWellFormed(types) && n < UINT16_RANGE && 0 <= l < NUM_CACHE_TYPES
    requires forall i | 0 <= i < |types| :: AfterRun(types[i].caches[l], n)
    requires |UnionAll(SlotSets(types, l))| < BYTE_RANGE
    ensures |UnionAll(SlotSets(types, l))| <= Sum(InstanceCounts(types, l))
    ensures forall i | 0 <= i < |types| :: types[i].caches[l].instances <= |UnionAll(SlotSets(types, l))|
  {
    var sets, counts := SlotSets(types, l), InstanceCounts(types, l);
    UnionAllSize(sets);
    forall i | 0 <= i < |types|
      ensures counts[i] == |sets[i]| && types[i].caches[l].instances == |sets[i]|
    {
      SmallCount(types[i].caches[l], n);
    }
    SizesAreCounts(sets, counts);
  }

  lemma {:induction false} SmallCount(t: Table, n: nat)
    requires AfterRun(t, n) && n < UINT16_RANGE && |Occupied(t)| < BYTE_RANGE
    ensures t.instances == |Occupied(t)|
  {
    AfterRunSlots(t, n);
  }

  lemma {:induction false} SizesAreCounts(sets: seq<set<int>>, counts: seq<nat>)
    requires |sets| == |counts| && forall i | 0 <= i < |sets| :: counts[i] == |sets[i]|
    ensures Sum(counts) == SumSizes(sets)
  {
    if sets != [] {
      SizesAreCounts(sets[..|sets| - 1], counts[..|counts| - 1]);
    }
  }
}

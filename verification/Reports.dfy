/**
  What `cpu_identify_all` reports, field by field, told from what it finds in the records.
 */
module Reports {
  import opened Bits
  import opened Collections
  import opened InstanceTable
  import opened Options
  import opened Topology
  import opened CacheSharing
  import opened Enumeration
  import opened Partition
  import opened Grouping
  import opened Counting
  import opened RunConditions

  // ----- the logical CPUs of a type

  /** The logical CPUs counted for the type that a record made. */
  function CpusOfMaker(probes: seq<Probe>, n: nat, r: nat): set<int>
    requires n <= |probes|
  {
    set c: nat | c < n && MakerOf(probes, c) == r
  }

  /** What a type keeps of the record that made it, and its logical CPUs. */
  ghost predicate IsOfMaker(t: CpuTypeState, probes: seq<Probe>, n: nat, r: nat)
    requires n <= |probes| && r < |probes|
  {
    var identity := probes[r].identity;
    && identity.Identified? && t.purpose == identity.purpose && t.masks == identity.masks
    && t.numCores == identity.numCores && t.cpus == CpusOfMaker(probes, n, r)
  }

  ghost predicate AreOfMakers(types: seq<CpuTypeState>, probes: seq<Probe>, n: nat)
    requires n <= |probes|
  {
    var makers := Makers(probes, n);
    |types| == |makers| && forall j | 0 <= j < |makers| :: IsOfMaker(types[j], probes, n, makers[j])
  }

  /** Each type has a record of its own. */
  lemma {:induction false} MakersRise(probes: seq<Probe>, n: nat)
    requires n <= |probes|
    ensures forall i, j | 0 <= i < j < |Makers(probes, n)| :: Makers(probes, n)[i] < Makers(probes, n)[j]
  {
    if n > 0 {
      MakersRise(probes, n - 1);
    }
  }

  lemma {:induction false} CpusOfMakerNext(probes: seq<Probe>, n: nat, r: nat)
    requires n < |probes|
    ensures CpusOfMaker(probes, n + 1, r)
      == CpusOfMaker(probes, n, r) + if MakerOf(probes, n) == r then {n} else {}
  {
  }

  lemma {:induction false} NewMakerHasNone(probes: seq<Probe>, n: nat)
    requires n < |probes|
    ensures CpusOfMaker(probes, n, n) == {}
  {
  }

  /** Type `i` gains logical CPU `n`; the others stay as they are. */
  ghost predicate Gains(types: seq<CpuTypeState>, types': seq<CpuTypeState>, i: nat, n: nat, identity: Identity) {
    && i < |types'| == |types| + (if i < |types| then 0 else 1)
    && (forall j | 0 <= j < |types| && j != i :: types'[j] == types[j])
    && if i < |types| then
         && types'[i].purpose == types[i].purpose && types'[i].masks == types[i].masks
         && types'[i].numCores == types[i].numCores && types'[i].cpus == types[i].cpus + {n}
       else
         && identity.Identified? && types'[i].purpose == identity.purpose && types'[i].masks == identity.masks
         && types'[i].numCores == identity.numCores && types'[i].cpus == {n}
  }

  lemma {:induction false} StepIsGain(s: State, cpu: nat, p: Probe)
    requires s.WellFormed() && p.WellFormed() && Step(s, cpu, p, true).Running?
    ensures Gains(s.types, Step(s, cpu, p, true).state.types, TypeIndex(Observe(s, p, true), p), cpu, p.identity)
  {
    StepGains(s, cpu, p);
  }

  lemma {:induction false} OfMakerNext(
      types: seq<CpuTypeState>, types': seq<CpuTypeState>, probes: seq<Probe>, n: nat, j: nat)
    requires n < |probes| && AreOfMakers(types, probes, n)
    requires Gains(types, types', PlaceOf(probes, Makers(probes, n), n), n, probes[n].identity)
    requires j < |types'|
    ensures |types'| == |Makers(probes, n + 1)| && IsOfMaker(types'[j], probes, n + 1, Makers(probes, n + 1)[j])
  {
    var makers, makers' := Makers(probes, n), Makers(probes, n + 1);
    MakersRise(probes, n + 1);
    CpusOfMakerNext(probes, n, makers'[j]);
    if j < |makers| {
      assert makers'[j] == makers[j] && IsOfMaker(types[j], probes, n, makers[j]);
    } else {
      NewMakerHasNone(probes, n);
    }
  }

  lemma {:induction false} AreOfMakersNext(
      types: seq<CpuTypeState>, types': seq<CpuTypeState>, probes: seq<Probe>, n: nat)
    requires n < |probes| && AreOfMakers(types, probes, n)
    requires Gains(types, types', PlaceOf(probes, Makers(probes, n), n), n, probes[n].identity)
    ensures AreOfMakers(types', probes, n + 1)
  {
    forall j | 0 <= j < |types'|
      ensures |types'| == |Makers(probes, n + 1)| && IsOfMaker(types'[j], probes, n + 1, Makers(probes, n + 1)[j])
    {
      OfMakerNext(types, types', probes, n, j);
    }
  }

  lemma {:induction false} StepOfMakers(s: State, probes: seq<Probe>, n: nat)
    requires ProbesWellFormed(probes) && n < |probes| && s.WellFormed()
    requires HasTypesOf(s, probes, n) && AreOfMakers(s.types, probes, n)
    requires Step(s, n, probes[n], true).Running?
    ensures AreOfMakers(Step(s, n, probes[n], true).state.types, probes, n + 1)
  {
    PlaceFound(s, probes, n);
    StepIsGain(s, n, probes[n]);
    AreOfMakersNext(s.types, Step(s, n, probes[n], true).state.types, probes, n);
  }

  ghost predicate KeepsMakers(o: Outcome, probes: seq<Probe>, n: nat)
    requires n <= |probes|
  {
    o.Running? ==> AreOfMakers(o.state.types, probes, n)
  }

  lemma {:induction false} NextKeepsMakers(o: Outcome, probes: seq<Probe>, n: nat)
    requires ProbesWellFormed(probes) && n < |probes| && IsAsFits(o, probes, n) && KeepsMakers(o, probes, n)
    ensures KeepsMakers(if o.Running? then Step(o.state, n, probes[n], true) else o, probes, n + 1)
  {
    if o.Running? && Step(o.state, n, probes[n], true).Running? {
      StepOfMakers(o.state, probes, n);
    }
  }

  lemma {:induction false} RunOfMakers(probes: seq<Probe>, n: nat)
    requires ProbesWellFormed(probes) && n <= |probes|
    ensures KeepsMakers(Run(probes[..n], true), probes, n)
  {
    if n == 0 {
      assert Run(probes[..0], true) == Running(Initial());
    } else {
      RunOfMakers(probes, n - 1);
      RunNext(probes, n - 1);
      RunIsAsFits(probes, n - 1);
      NextKeepsMakers(Run(probes[..n - 1], true), probes, n - 1);
    }
  }

  // ----- the slots of cores and caches

  /** The slots that the cores of some logical CPUs hash to. */
  function CoreSlots(probes: seq<Probe>, cpus: set<int>): set<int> {
    set c | c in cpus && 0 <= c < |probes| && probes[c].ids.Some? :: probes[c].ids.value.coreId % 256
  }

  /** The slots that their caches under a mask hash to; a zero mask stands for no cache. */
  function CacheSlots(probes: seq<Probe>, cpus: set<int>, mask: uint32): set<int>
    requires ProbesWellFormed(probes)
  {
    if mask == 0 then {}
    else
      set c | c in cpus && 0 <= c < |probes| && probes[c].ids.Some? ::
        And(Unsigned32(probes[c].ids.value.apicId), mask) % 256
  }

  lemma {:induction false} CoreIdsHave(probes: seq<Probe>, cpus: set<int>, x: int)
    requires TopologyKnown(probes)
    ensures x in CoreIds(probes, cpus) <==>
      exists c :: 0 <= c < |probes| && c in cpus && probes[c].ids.value.coreId == x
  {
    if probes != [] {
      var front := probes[..|probes| - 1];
      assert forall c | 0 <= c < |front| :: front[c] == probes[c];
      CoreIdsHave(front, cpus, x);
    }
  }

  lemma {:induction false} CoreSlotsAre(probes: seq<Probe>, cpus: set<int>)
    requires TopologyKnown(probes)
    ensures Residues(CoreIds(probes, cpus)) == CoreSlots(probes, cpus)
  {
    forall r
      ensures r in Residues(CoreIds(probes, cpus)) <==> r in CoreSlots(probes, cpus)
    {
      if r in Residues(CoreIds(probes, cpus)) {
        var x :| x in CoreIds(probes, cpus) && Residue(x) == r;
        CoreIdsHave(probes, cpus, x);
      }
      if r in CoreSlots(probes, cpus) {
        var c :| c in cpus && 0 <= c < |probes| && probes[c].ids.Some? && probes[c].ids.value.coreId % 256 == r;
        CoreIdsHave(probes, cpus, probes[c].ids.value.coreId);
        assert Residue(probes[c].ids.value.coreId) == r;
      }
    }
  }

  /** Some of the logical CPUs has this ID for a cache. */
  ghost predicate HasLevelId(probes: seq<Probe>, cpus: set<int>, mask: uint32, x: int)
    requires ProbesWellFormed(probes) && TopologyKnown(probes)
  {
    exists c :: 0 <= c < |probes| && c in cpus && Masked(Unsigned32(probes[c].ids.value.apicId), mask) == x
  }

  lemma {:induction false} HasLevelIdNext(
      probes: seq<Probe>, front: seq<Probe>, cpus: set<int>, mask: uint32, x: int)
    requires ProbesWellFormed(probes) && TopologyKnown(probes) && probes != [] && front == probes[..|probes| - 1]
    ensures TopologyKnown(front) && ProbesWellFormed(front)
    ensures HasLevelId(probes, cpus, mask, x) <==>
      || HasLevelId(front, cpus, mask, x)
      || (|front| in cpus && Masked(Unsigned32(probes[|front|].ids.value.apicId), mask) == x)
  {
    assert forall c | 0 <= c < |front| :: front[c] == probes[c];
  }

  lemma {:induction false} LevelIdsHave(probes: seq<Probe>, cpus: set<int>, mask: uint32, x: int)
    requires ProbesWellFormed(probes) && TopologyKnown(probes)
    ensures x in LevelIds(probes, cpus, mask) <==> mask != 0 && HasLevelId(probes, cpus, mask, x)
  {
    if probes != [] {
      var front := probes[..|probes| - 1];
      HasLevelIdNext(probes, front, cpus, mask, x);
      LevelIdsHave(front, cpus, mask, x);
    }
  }

  lemma {:induction false} MaskedResidue(id: uint32, mask: uint32)
    ensures Residue(Masked(id, mask)) == And(id, mask) % 256
  {
    AndBound(id, mask);
    ResidueOfInt32(And(id, mask));
  }

  lemma {:induction false} CacheSlotsAre(probes: seq<Probe>, cpus: set<int>, mask: uint32)
    requires ProbesWellFormed(probes) && TopologyKnown(probes)
    ensures Residues(LevelIds(probes, cpus, mask)) == CacheSlots(probes, cpus, mask)
  {
    forall r
      ensures r in Residues(LevelIds(probes, cpus, mask)) <==> r in CacheSlots(probes, cpus, mask)
    {
      if r in Residues(LevelIds(probes, cpus, mask)) {
        var x :| x in LevelIds(probes, cpus, mask) && Residue(x) == r;
        LevelIdsHave(probes, cpus, mask, x);
        var c :| 0 <= c < |probes| && c in cpus && Masked(Unsigned32(probes[c].ids.value.apicId), mask) == x;
        MaskedResidue(Unsigned32(probes[c].ids.value.apicId), mask);
      }
      if r in CacheSlots(probes, cpus, mask) {
        var c :| c in cpus && 0 <= c < |probes| && probes[c].ids.Some?
                 && And(Unsigned32(probes[c].ids.value.apicId), mask) % 256 == r;
        var x := Masked(Unsigned32(probes[c].ids.value.apicId), mask);
        LevelIdsHave(probes, cpus, mask, x);
        MaskedResidue(Unsigned32(probes[c].ids.value.apicId), mask);
        assert x in LevelIds(probes, cpus, mask) && Residue(x) == r;
      }
    }
  }

  /** The mask at a table index of the type of a logical CPU. */
  function MaskOf(probes: seq<Probe>, c: nat, l: int): uint32
    requires ProbesWellFormed(probes) && c < |probes| && 0 <= l < 5
  {
    MasksIn(probes[MakerOf(probes, c)].identity)[l]
  }

  /** The slots at a table index that any logical CPU of the machine uses. */
  function MachineSlots(probes: seq<Probe>, l: int): set<int>
    requires ProbesWellFormed(probes) && 0 <= l < 5
  {
    set c: nat | c < |probes| && probes[c].ids.Some? && MaskOf(probes, c, l) != 0 ::
      And(Unsigned32(probes[c].ids.value.apicId), MaskOf(probes, c, l)) % 256
  }

  /** The record that made the type of a logical CPU is one of the makers, and the CPU is among those of that record. */
  lemma {:induction false} MakerListed(probes: seq<Probe>, n: nat, c: nat)
    requires c < n <= |probes|
    ensures MakerOf(probes, c) in Makers(probes, n)
    decreases n
  {
    if c < n - 1 {
      MakerListed(probes, n - 1, c);
    }
  }

  /** The slots of the logical CPUs of one type. */
  function SlotsOfMaker(probes: seq<Probe>, r: nat, l: int): set<int>
    requires ProbesWellFormed(probes) && r < |probes| && 0 <= l < 5
  {
    CacheSlots(probes, CpusOfMaker(probes, |probes|, r), MasksIn(probes[r].identity)[l])
  }

  lemma {:induction false} SlotOfMaker(probes: seq<Probe>, r: nat, l: int, x: int)
    requires ProbesWellFormed(probes) && r < |probes| && 0 <= l < 5 && x in SlotsOfMaker(probes, r, l)
    ensures x in MachineSlots(probes, l)
  {
    var mask := MasksIn(probes[r].identity)[l];
    var c: nat :| c in CpusOfMaker(probes, |probes|, r) && c < |probes| && probes[c].ids.Some?
                  && And(Unsigned32(probes[c].ids.value.apicId), mask) % 256 == x;
    assert MaskOf(probes, c, l) == mask;
  }

  lemma {:induction false} SlotHasMaker(probes: seq<Probe>, l: int, x: int) returns (r: nat)
    requires ProbesWellFormed(probes) && 0 <= l < 5 && x in MachineSlots(probes, l)
    ensures r in Makers(probes, |probes|) && r < |probes| && x in SlotsOfMaker(probes, r, l)
  {
    var c: nat :| c < |probes| && probes[c].ids.Some? && MaskOf(probes, c, l) != 0
                  && And(Unsigned32(probes[c].ids.value.apicId), MaskOf(probes, c, l)) % 256 == x;
    r := MakerOf(probes, c);
    MakerListed(probes, |probes|, c);
    assert c in CpusOfMaker(probes, |probes|, r);
  }

  /** The slots of the machine are those of its types. */
  lemma {:induction false} MachineSlotsAre(probes: seq<Probe>, sets: seq<set<int>>, l: int)
    requires ProbesWellFormed(probes) && 0 <= l < 5 && |sets| == |Makers(probes, |probes|)|
    requires forall j | 0 <= j < |sets| :: sets[j] == SlotsOfMaker(probes, Makers(probes, |probes|)[j], l)
    ensures UnionAll(sets) == MachineSlots(probes, l)
  {
    forall x
      ensures x in UnionAll(sets) <==> x in MachineSlots(probes, l)
    {
      UnionAllHas(sets, x);
      if x in UnionAll(sets) {
        var j :| 0 <= j < |sets| && x in sets[j];
        SlotOfMaker(probes, Makers(probes, |probes|)[j], l, x);
      }
      if x in MachineSlots(probes, l) {
        var r := SlotHasMaker(probes, l, x);
        var j :| 0 <= j < |sets| && Makers(probes, |probes|)[j] == r;
        assert x in sets[j];
      }
    }
  }

  // ----- the report of a run with affinity

  /** The fields that do not depend on the topology. */
  ghost predicate IsReportOf(t: CpuReport, probes: seq<Probe>, r: nat)
    requires r < |probes|
  {
    && probes[r].identity.Identified? && t.purpose == probes[r].identity.purpose
    && t.cpus == CpusOfMaker(probes, |probes|, r) && t.numLogicalCpus == |t.cpus|
    && t.totalLogicalCpus == |probes|
  }

  /** With the topology of all records known: the slots in use, on 8 bits. */
  ghost predicate HasCounts(t: CpuReport, probes: seq<Probe>, r: nat)
    requires ProbesWellFormed(probes) && r < |probes|
  {
    && t.numCores == |CoreSlots(probes, t.cpus)| % 256
    && |t.cacheInstances| == 5
    && forall l | 0 <= l < 5 ::
         t.cacheInstances[l] == |CacheSlots(probes, t.cpus, MasksIn(probes[r].identity)[l])| % 256
  }

  /** After the loss of the topology: no caches, and the identified cores if they divide the logical CPUs. */
  ghost predicate HasFallback(t: CpuReport, probes: seq<Probe>, r: nat)
    requires r < |probes| && probes[r].identity.Identified?
  {
    var cores := probes[r].identity.numCores;
    && t.numCores == (if cores > 0 && |t.cpus| % cores == 0 then cores else |t.cpus|)
    && t.cacheInstances == [-1, -1, -1, -1, -1]
  }

  lemma {:induction false} KnownTypeReported(probes: seq<Probe>, i: nat)
    requires ProbesWellFormed(probes) && Run(probes, true).Running? && |probes| < UINT16_RANGE
    requires TopologyKnown(probes) && i < |Run(probes, true).state.types|
    ensures var t := Run(probes, true).state.types[i];
            && t.cores.instances == |CoreSlots(probes, t.cpus)| % 256
            && forall l | 0 <= l < 5 :: t.caches[l].instances == |CacheSlots(probes, t.cpus, t.masks[l])| % 256
  {
    var t := Run(probes, true).state.types[i];
    TypeCounters(probes, i);
    CoreSlotsAre(probes, t.cpus);
    forall l | 0 <= l < 5 {
      CacheSlotsAre(probes, t.cpus, t.masks[l]);
    }
  }

  lemma {:induction false} TotalReported(probes: seq<Probe>, l: int)
    requires ProbesWellFormed(probes) && Run(probes, true).Running? && |probes| < UINT16_RANGE
    requires TopologyKnown(probes) && 0 <= l < 5
    ensures Run(probes, true).state.caches[l].instances == |MachineSlots(probes, l)| % 256
  {
    var s, n := Run(probes, true).state, |probes|;
    var sets, makers := SlotSets(s.types, l), Makers(probes, n);
    assert probes[..n] == probes;
    TotalsBounded(probes, l);
    RunOfMakers(probes, n);
    forall j | 0 <= j < |sets|
      ensures sets[j] == SlotsOfMaker(probes, makers[j], l)
    {
      assert IsOfMaker(s.types[j], probes, n, makers[j]);
      TypeCounters(probes, j);
      CacheSlotsAre(probes, s.types[j].cpus, s.types[j].masks[l]);
    }
    MachineSlotsAre(probes, sets, l);
  }

  /** A type as it is reported. */
  ghost predicate IsReported(t: CpuReport, probes: seq<Probe>, r: nat)
    requires ProbesWellFormed(probes) && r < |probes|
  {
    && IsReportOf(t, probes, r)
    && if TopologyKnown(probes) then HasCounts(t, probes, r) else HasFallback(t, probes, r)
  }

  lemma {:induction false} TypeReported(probes: seq<Probe>, i: nat)
    requires ProbesWellFormed(probes) && Run(probes, true).Running? && |probes| < UINT16_RANGE
    requires i < |Run(probes, true).state.types|
    ensures i < |Makers(probes, |probes|)|
    ensures var s := Run(probes, true).state;
            && s.types[i].numLogicalCpus > 0
            && IsReported(ReportType(s.types[i], |probes|, s.supported, true), probes, Makers(probes, |probes|)[i])
  {
    var s, n := Run(probes, true).state, |probes|;
    assert probes[..n] == probes;
    NoEmptyType(probes);
    RunPartitions(probes);
    SupportedIff(probes);
    RunOfMakers(probes, n);
    assert IsOfMaker(s.types[i], probes, n, Makers(probes, n)[i]);
    if TopologyKnown(probes) {
      KnownTypeReported(probes, i);
    } else {
      FallbackCoresIs(s.types[i].numLogicalCpus, s.types[i].numCores);
    }
  }

  /** Each type is reported as its record and its own logical CPUs say, the totals as all of them do. */
  lemma {:induction false} ReportWithAffinity(probes: seq<Probe>)
    requires ProbesWellFormed(probes) && Run(probes, true).Running? && |probes| < UINT16_RANGE
    ensures var s := Run(probes, true).state;
            && (forall i | 0 <= i < |s.types| :: s.types[i].numLogicalCpus > 0)
            && var report, makers := Report(s, |probes|, true), Makers(probes, |probes|);
            && |report.types| == |makers|
            && (forall i | 0 <= i < |makers| :: IsReported(report.types[i], probes, makers[i]))
            && AreTotals(report.totals, probes)
  {
    assert probes[..|probes|] == probes;
    RunOfMakers(probes, |probes|);
    forall i: nat | i < |Run(probes, true).state.types| {
      TypeReported(probes, i);
    }
    TotalsReported(probes);
  }

  /** With the topology known the slots in use of the whole machine, on 8 bits; else none. */
  ghost predicate AreTotals(totals: seq<int>, probes: seq<Probe>)
    requires ProbesWellFormed(probes)
  {
    |totals| == 5 && forall l | 0 <= l < 5 ::
      totals[l] == if TopologyKnown(probes) then |MachineSlots(probes, l)| % 256 else -1
  }

  lemma {:induction false} TotalsReported(probes: seq<Probe>)
    requires ProbesWellFormed(probes) && Run(probes, true).Running? && |probes| < UINT16_RANGE
    ensures var s := Run(probes, true).state;
            AreTotals(if s.supported then Enumeration.Counters(s.caches) else NoInstances(), probes)
  {
    SupportedIff(probes);
    if TopologyKnown(probes) {
      forall l | 0 <= l < 5 {
        TotalReported(probes, l);
      }
    }
  }

  // ----- the report of a run without affinity

  /** The first of some records whose identified purpose is that of another record; their number if there is none. */
  function PurposePlace(probes: seq<Probe>, makers: seq<nat>, n: nat, from: nat := 0): (i: nat)
    requires n < |probes| && from <= |makers| && forall j | 0 <= j < |makers| :: makers[j] < n
    ensures from <= i <= |makers|
    ensures i < |makers| ==> FiledPurpose(probes, makers[i]) == probes[n].purpose
    ensures forall j | from <= j < i :: FiledPurpose(probes, makers[j]) != probes[n].purpose
    decreases |makers| - from
  {
    if from == |makers| || FiledPurpose(probes, makers[from]) == probes[n].purpose then from
    else PurposePlace(probes, makers, n, from + 1)
  }

  function FiledPurpose(probes: seq<Probe>, r: nat): int
    requires r < |probes|
  {
    if probes[r].identity.Identified? then probes[r].identity.purpose else probes[r].purpose
  }

  /** The records that make a type when nothing but the purpose is looked up. */
  function PurposeMakers(probes: seq<Probe>, n: nat): (makers: seq<nat>)
    requires n <= |probes|
    ensures |makers| <= n && forall j | 0 <= j < |makers| :: makers[j] < n
  {
    if n == 0 then []
    else
      var makers := PurposeMakers(probes, n - 1);
      if PurposePlace(probes, makers, n - 1) < |makers| then makers else makers + [n - 1]
  }

  /** A type made without affinity, and never touched again. */
  ghost predicate IsMadeBy(t: CpuTypeState, probes: seq<Probe>, r: nat)
    requires r < |probes|
  {
    var identity := probes[r].identity;
    && identity.Identified? && t.purpose == identity.purpose && t.packageId == Some(0)
    && t.cpus == {} && t.numLogicalCpus == identity.numLogicalCpus && t.numCores == identity.numCores
  }

  ghost predicate IsPlainRun(s: State, probes: seq<Probe>, n: nat)
    requires n <= |probes|
  {
    var makers := PurposeMakers(probes, n);
    && s.supported && s.packageId == 0 && s.caches == EmptyCaches()
    && |s.types| == |makers| && forall j | 0 <= j < |makers| :: IsMadeBy(s.types[j], probes, makers[j])
  }

  lemma {:induction false} PlainFound(s: State, probes: seq<Probe>, n: nat)
    requires n < |probes| && IsPlainRun(s, probes, n)
    ensures TypeIndex(s, probes[n]) == PurposePlace(probes, PurposeMakers(probes, n), n)
  {
    var makers := PurposeMakers(probes, n);
    forall j | 0 <= j < |makers|
      ensures Matches(s.types[j], probes[n].purpose, s.packageId, s.supported)
        <==> FiledPurpose(probes, makers[j]) == probes[n].purpose
    {
      assert IsMadeBy(s.types[j], probes, makers[j]);
    }
  }

  lemma {:induction false} PlainStep(s: State, probes: seq<Probe>, n: nat)
    requires ProbesWellFormed(probes) && n < |probes| && s.WellFormed() && IsPlainRun(s, probes, n)
    requires Step(s, n, probes[n], false).Running?
    ensures IsPlainRun(Step(s, n, probes[n], false).state, probes, n + 1)
  {
    var s' := Step(s, n, probes[n], false).state;
    var makers, makers' := PurposeMakers(probes, n), PurposeMakers(probes, n + 1);
    PlainFound(s, probes, n);
    forall j | 0 <= j < |makers'|
      ensures |s'.types| == |makers'| && IsMadeBy(s'.types[j], probes, makers'[j])
    {
      if j < |makers| {
        assert IsMadeBy(s.types[j], probes, makers[j]);
      }
    }
  }

  /** At most 255 types, each made from a record that is identified. */
  predicate PlainFits(probes: seq<Probe>, n: nat)
    requires n <= |probes|
  {
    && |PurposeMakers(probes, n)| <= 255
    && forall r | r in PurposeMakers(probes, n) :: probes[r].identity.Identified?
  }

  lemma {:induction false} PlainFitsNext(probes: seq<Probe>, n: nat)
    requires n < |probes|
    ensures var makers, makers' := PurposeMakers(probes, n), PurposeMakers(probes, n + 1);
            PlainFits(probes, n + 1) <==>
              PlainFits(probes, n) && (|makers'| > |makers| ==> |makers| < 255 && probes[n].identity.Identified?)
  {
    var makers, makers' := PurposeMakers(probes, n), PurposeMakers(probes, n + 1);
    assert forall r :: r in makers' <==> r in makers || (|makers'| > |makers| && r == n);
  }

  ghost predicate IsPlainOutcome(o: Outcome, probes: seq<Probe>, n: nat)
    requires n <= |probes|
  {
    && (o.Running? <==> PlainFits(probes, n))
    && (o.Running? ==> o.state.WellFormed() && IsPlainRun(o.state, probes, n))
  }

  lemma {:induction false} NextPlainOutcome(o: Outcome, probes: seq<Probe>, n: nat)
    requires ProbesWellFormed(probes) && n < |probes| && IsPlainOutcome(o, probes, n)
    ensures IsPlainOutcome(if o.Running? then Step(o.state, n, probes[n], false) else o, probes, n + 1)
  {
    PlainFitsNext(probes, n);
    if o.Running? {
      PlainFound(o.state, probes, n);
      if Step(o.state, n, probes[n], false).Running? {
        PlainStep(o.state, probes, n);
      }
    }
  }

  lemma {:induction false} PlainNext(probes: seq<Probe>, n: nat)
    requires ProbesWellFormed(probes) && n < |probes|
    ensures var o := Run(probes[..n], false);
            Run(probes[..n + 1], false) == if o.Running? then Step(o.state, n, probes[n], false) else o
  {
    assert probes[..n + 1][..n] == probes[..n];
  }

  lemma {:induction false} NothingIsPlain(probes: seq<Probe>)
    requires ProbesWellFormed(probes)
    ensures IsPlainOutcome(Run(probes[..0], false), probes, 0)
  {
    assert Run(probes[..0], false) == Running(Initial());
    assert PurposeMakers(probes, 0) == [] && Initial().types == [];
  }

  lemma {:induction false} PlainRun(probes: seq<Probe>, n: nat)
    requires ProbesWellFormed(probes) && n <= |probes|
    ensures IsPlainOutcome(Run(probes[..n], false), probes, n)
  {
    if n == 0 {
      NothingIsPlain(probes);
    } else {
      PlainRun(probes, n - 1);
      PlainNext(probes, n - 1);
      NextPlainOutcome(Run(probes[..n - 1], false), probes, n - 1);
    }
  }

  /** A type reported as its record was identified. */
  predicate IsIdentifiedReport(t: CpuReport, identity: Identity, n: int) {
    identity.Identified? && t ==
      CpuReport(identity.purpose, {}, identity.numLogicalCpus, identity.numCores, [-1, -1, -1, -1, -1], n)
  }

  lemma {:induction false} PlainReport(s: State, probes: seq<Probe>)
    requires ProbesWellFormed(probes) && s.WellFormed() && IsPlainRun(s, probes, |probes|)
    ensures var report, makers := Report(s, |probes|, false), PurposeMakers(probes, |probes|);
            && |report.types| == |makers|
            && (forall i | 0 <= i < |makers| ::
                  IsIdentifiedReport(report.types[i], probes[makers[i]].identity, |probes|))
            && report.totals == [0, 0, 0, 0, 0]
  {
    var report, makers := Report(s, |probes|, false), PurposeMakers(probes, |probes|);
    forall i | 0 <= i < |makers|
      ensures IsIdentifiedReport(report.types[i], probes[makers[i]].identity, |probes|)
    {
      assert IsMadeBy(s.types[i], probes, makers[i]);
    }
  }

  /** Without affinity each type is reported as its record was identified; no cache is counted. */
  lemma {:induction false} ReportWithoutAffinity(probes: seq<Probe>)
    requires ProbesWellFormed(probes)
    ensures Run(probes, false).Running? <==> PlainFits(probes, |probes|)
    ensures Run(probes, false).Running? ==>
      var report, makers := Report(Run(probes, false).state, |probes|, false), PurposeMakers(probes, |probes|);
      && |report.types| == |makers|
      && (forall i | 0 <= i < |makers| ::
            IsIdentifiedReport(report.types[i], probes[makers[i]].identity, |probes|))
      && report.totals == [0, 0, 0, 0, 0]
  {
    PlainRun(probes, |probes|);
    assert probes[..|probes|] == probes;
    if Run(probes, false).Running? {
      PlainReport(Run(probes, false).state, probes);
    }
  }
}

/**
  `cpu_identify_all` as it runs: CPU types, affinity masks and hash tables updated in place,
  proved to follow the state machine of module Enumeration.
 */
module IdentifyAll {
  import opened Bits
  import opened InstanceTable
  import opened Affinity
  import opened RawData
  import opened Options
  import opened Topology
  import opened CacheSharing
  import opened Enumeration
  import opened Partition

  /** `internal_cache_instances_t`: one counter and one table per level. */
  class CacheInstances {
    const instances: array<uint8>
    const htable: array2<Slot>

    ghost predicate Valid() {
      instances.Length == NUM_CACHE_TYPES && htable.Length0 == NUM_CACHE_TYPES && htable.Length1 == HTABLE_SIZE
    }

    ghost function Level(l: int): (t: Table)
      reads instances, htable
      requires Valid() && 0 <= l < NUM_CACHE_TYPES
      ensures t.WellFormed()
    {
      Table(instances[l], seq(HTABLE_SIZE, j requires 0 <= j < HTABLE_SIZE reads htable => htable[l, j]))
    }

    ghost function Value(): (caches: seq<Table>)
      reads instances, htable
      requires Valid()
      ensures CachesWellFormed(caches) && forall l | 0 <= l < NUM_CACHE_TYPES :: caches[l] == Level(l)
    {
      seq(NUM_CACHE_TYPES, l requires 0 <= l < NUM_CACHE_TYPES reads instances, htable => Level(l))
    }

    constructor ()
      ensures Valid() && fresh(instances) && fresh(htable) && Value() == EmptyCaches()
    {
      instances := new uint8[NUM_CACHE_TYPES](_ => 0);
      htable := new Slot[NUM_CACHE_TYPES, HTABLE_SIZE]((_, _) => Slot(0, 0));
      new;
      forall l | 0 <= l < NUM_CACHE_TYPES
        ensures Level(l) == EmptyTable()
      {
      }
    }

    method ReadCounters() returns (counts: seq<int>)
      requires Valid()
      ensures counts == Counters(Value())
    {
      counts := [];
      for l := 0 to NUM_CACHE_TYPES
        invariant |counts| == l && forall k | 0 <= k < l :: counts[k] == instances[k]
      {
        counts := counts + [instances[l]];
      }
      assert forall l | 0 <= l < NUM_CACHE_TYPES :: Value()[l].instances == instances[l];
    }

    /** The body of the loop of `update_cache_instances`. */
    method UpdateLevel(l: int, apicId: int, mask: uint32)
      requires Valid() && 0 <= l < NUM_CACHE_TYPES && IsInt32(apicId) && CacheIndexable(apicId, mask)
      modifies instances, htable
      ensures Level(l) == TouchCache(old(Level(l)), apicId, mask)
      ensures forall k | 0 <= k < NUM_CACHE_TYPES && k != l :: Level(k) == old(Level(k))
    {
      if mask == 0 { return; }
      var id := Masked(Unsigned32(apicId), mask);
      var index := Remainder(id);
      if htable[l, index].id == 0 || htable[l, index].id == id {
        if htable[l, index].numLogicalCpu == 0 {
          instances[l] := (instances[l] + 1) % BYTE_RANGE;
        }
        htable[l, index] := Slot((htable[l, index].numLogicalCpu + 1) % UINT16_RANGE, id);
      }
      assert Level(l).slots == TouchCache(old(Level(l)), apicId, mask).slots;
      forall k | 0 <= k < NUM_CACHE_TYPES && k != l
        ensures Level(k) == old(Level(k))
      {
        assert Level(k).slots == old(Level(k)).slots;
      }
    }

    /** `update_cache_instances` */
    method Update(apicId: int, masks: seq<uint32>)
      requires Valid() && |masks| == NUM_CACHE_TYPES && IsInt32(apicId) && AllCachesIndexable(apicId, masks)
      modifies instances, htable
      ensures Value() == TouchCaches(old(Value()), apicId, masks)
    {
      var l := 0;
      while l < NUM_CACHE_TYPES
        invariant 0 <= l <= NUM_CACHE_TYPES
        invariant forall k | 0 <= k < NUM_CACHE_TYPES ::
          Level(k) == if k < l then TouchCache(old(Level(k)), apicId, masks[k]) else old(Level(k))
      {
        assert CacheIndexable(apicId, masks[l]);
        UpdateLevel(l, apicId, masks[l]);
        l := l + 1;
      }
    }
  }

  /** One entry of `system->cpu_types` together with its entry of `type_info`. */
  class CpuType {
    var purpose: int
    var packageId: Option<int>
    var masks: seq<uint32>
    var numLogicalCpus: int
    var numCores: int
    var cacheInstances: seq<int>
    var totalLogicalCpus: int
    const affinityMask: AffinityMask
    const cores: Instances
    const caches: CacheInstances

    ghost function Repr(): set<object> {
      {this, affinityMask.bits, cores, cores.htable, caches.instances, caches.htable}
    }

    ghost predicate Valid()
      reads this
    {
      && affinityMask.Valid() && cores.Valid() && caches.Valid()
      && |masks| == NUM_CACHE_TYPES
    }

    ghost function Value(): (t: CpuTypeState)
      reads this, Repr()
      requires Valid()
      ensures t.WellFormed()
    {
      CpuTypeState(purpose, packageId, masks, affinityMask.Cpus(), numLogicalCpus, numCores,
                   cores.Value(), caches.Value())
    }

    constructor (identity: Identity, packageId: Option<int>, withAffinity: bool)
      requires identity.Identified? && |identity.masks| == NUM_CACHE_TYPES
      ensures Valid() && fresh(Repr()) && Value() == NewType(identity, packageId, withAffinity)
      ensures cacheInstances == NoInstances()
    {
      purpose, masks, numCores := identity.purpose, identity.masks, identity.numCores;
      this.packageId := packageId;
      numLogicalCpus := if withAffinity then 0 else identity.numLogicalCpus;
      cacheInstances := NoInstances();
      totalLogicalCpus := 0;
      affinityMask := new AffinityMask();
      cores := new Instances();
      caches := new CacheInstances();
    }

    /** The counters of one logical CPU. */
    method Add(cpu: uint16, ids: Option<Ids>)
      requires Valid()
      requires ids.Some? ==> IsInt32(ids.value.apicId) && CpuIndexable(Value(), ids.value)
      modifies Repr()
      ensures Valid() && Value() == AddCpu(old(Value()), cpu, ids) && cacheInstances == old(cacheInstances)
    {
      affinityMask.SetBit(cpu);
      numLogicalCpus := numLogicalCpus + 1;
      if ids.Some? {
        cores.Update(ids.value.coreId);
        caches.Update(ids.value.apicId, masks);
      }
    }

    /** The public fields. */
    ghost function Reported(): CpuReport
      reads this, affinityMask.bits
    {
      CpuReport(purpose, affinityMask.Cpus(), numLogicalCpus, numCores, cacheInstances, totalLogicalCpus)
    }

    /** One iteration of the last loop: counters that the IDs tell, or the fallback. */
    method Finish(n: int, supported: bool, withAffinity: bool)
      requires Valid() && cacheInstances == NoInstances()
      requires withAffinity && !supported ==> numLogicalCpus > 0
      modifies this
      ensures Valid() && Reported() == ReportType(old(Value()), n, supported, withAffinity)
    {
      if withAffinity {
        if supported {
          numCores := cores.instances;
          cacheInstances := caches.ReadCounters();
        } else {
          numCores := FallbackCores(numLogicalCpus, numCores);
        }
      }
      totalLogicalCpus := n;
    }
  }

  lemma {:induction false} StepDefined(s: State, cpu: int, probe: Probe, withAffinity: bool)
    requires s.WellFormed() && probe.WellFormed() && Step(s, cpu, probe, withAffinity) != Undefined
    ensures var s1 := Observe(s, probe, withAffinity);
            var o, i, ids := Classify(s1, probe, withAffinity), TypeIndex(s1, probe), StepIds(s1, probe);
            && o != Undefined
            && (o.Running? ==> i < |o.state.types| && o.state.supported == s1.supported)
            && (o.Running? && withAffinity && ids.Some? ==> CpuIndexable(o.state.types[i], ids.value))
            && Step(s, cpu, probe, withAffinity)
               == if o.Running? && withAffinity then CountRecord(o.state, i, cpu, ids) else o
  {
  }

  /** The system being described and the local variables of `cpu_identify_all`. */
  class Enumerator {
    var types: seq<CpuType>
    var supported: bool
    var packageId: int
    const caches: CacheInstances

    ghost var Repr: set<object>

    ghost predicate Valid()
      reads this, Repr
      ensures Valid() ==> this in Repr
    {
      && {this, caches.instances, caches.htable} <= Repr
      && caches.Valid() && |types| <= MAX_CPU_TYPES
      && (forall i | 0 <= i < |types| ::
           && types[i].Repr() <= Repr && types[i].Valid() && types[i].cacheInstances == NoInstances()
           && this !in types[i].Repr() && caches.instances !in types[i].Repr() && caches.htable !in types[i].Repr())
      && (forall i, j | 0 <= i < j < |types| :: types[i].Repr() !! types[j].Repr())
    }

    ghost function Value(): (s: State)
      reads this, Repr
      requires Valid()
      ensures s.WellFormed() && |s.types| == |types|
      ensures forall i | 0 <= i < |types| :: s.types[i] == types[i].Value()
      ensures s.caches == caches.Value() && s.supported == supported && s.packageId == packageId
    {
      State(seq(|types|, i requires 0 <= i < |types| && types[i].Repr() <= Repr && types[i].Valid() reads this, Repr
                           => types[i].Value()),
            caches.Value(), supported, packageId)
    }

    constructor ()
      ensures Valid() && fresh(Repr) && Value() == Initial()
    {
      types, supported, packageId := [], true, 0;
      caches := new CacheInstances();
      new;
      Repr := {this, caches.instances, caches.htable};
    }

    /** `cpuid_find_index_system_id` */
    method FindIndex(purpose: int) returns (i: int)
      requires Valid()
      ensures i == Find(Value().types, purpose, packageId, supported)
    {
      i := 0;
      ghost var states := Value().types;
      while i < |types|
        invariant 0 <= i <= |types|
        invariant forall j | 0 <= j < i :: !Matches(states[j], purpose, packageId, supported)
      {
        if types[i].purpose == purpose && (!supported || types[i].packageId == Some(packageId)) {
          return;
        }
        i := i + 1;
      }
      i := -1;
    }

    /** Appends a type made from an identified record. */
    method Append(identity: Identity, withAffinity: bool)
      requires Valid() && |types| < MAX_CPU_TYPES
      requires identity.Identified? && |identity.masks| == NUM_CACHE_TYPES
      modifies this`types, this`Repr
      ensures Valid() && fresh(Repr - old(Repr))
      ensures Value() == old(Value()).(types := old(Value().types)
        + [NewType(identity, if supported then Some(packageId) else None, withAffinity)])
    {
      var t := new CpuType(identity, if supported then Some(packageId) else None, withAffinity);
      GrowTypes(t);
    }

    /** `cpuid_grow_system_id` and `cpuid_grow_type_info` by one entry. */
    method GrowTypes(t: CpuType)
      requires Valid() && |types| < MAX_CPU_TYPES && t.Valid() && t.Repr() !! Repr && t.cacheInstances == NoInstances()
      modifies this`types, this`Repr
      ensures Valid() && Repr == old(Repr) + t.Repr()
      ensures Value() == old(Value()).(types := old(Value().types) + [old(t.Value())])
    {
      ghost var states, added := Value().types, t.Value();
      forall i | 0 <= i < |types|
        ensures types[i].Repr() !! t.Repr() && this !in types[i].Repr()
      {
        assert types[i].Repr() <= Repr;
      }
      types, Repr := types + [t], Repr + t.Repr();
      assert t.Value() == added;
      forall i | 0 <= i < |states|
        ensures types[i].Repr() <= Repr && types[i].Valid() && types[i].Value() == states[i]
      {
        assert types[i] == old(types)[i];
      }
      assert Valid();
      assert Value().types == states + [added];
    }

    /** Counts a logical CPU for the type at an index. */
    method CountType(i: int, cpu: uint16, ids: Option<Ids>)
      requires Valid() && 0 <= i < |types|
      requires ids.Some? ==> IsInt32(ids.value.apicId) && CpuIndexable(types[i].Value(), ids.value)
      modifies types[i].Repr()
      ensures Valid()
      ensures Value() == old(Value()).(types := old(Value()).types[i := AddCpu(old(types[i].Value()), cpu, ids)])
    {
      ghost var before := Value();
      types[i].Add(cpu, ids);
      assert forall j | 0 <= j < |types| && j != i :: types[j].Value() == before.types[j];
    }

    /** Counts the caches of a logical CPU for the machine. */
    method CountMachine(apicId: int, masks: seq<uint32>)
      requires Valid() && |masks| == NUM_CACHE_TYPES && IsInt32(apicId) && AllCachesIndexable(apicId, masks)
      modifies caches.instances, caches.htable
      ensures Valid()
      ensures Value() == old(Value()).(caches := TouchCaches(old(Value()).caches, apicId, masks))
    {
      ghost var before := Value();
      caches.Update(apicId, masks);
      assert forall j | 0 <= j < |types| :: types[j].Value() == before.types[j];
    }

    method CountCpu(i: int, cpu: uint16, ids: Option<Ids>)
      requires Valid() && 0 <= i < |types|
      requires ids.Some? ==> IsInt32(ids.value.apicId) && CpuIndexable(types[i].Value(), ids.value)
      modifies types[i].Repr(), caches.instances, caches.htable
      ensures Valid()
      ensures Running(Value()) == CountRecord(old(Value()), i, cpu, ids)
    {
      CountType(i, cpu, ids);
      if ids.Some? {
        CountMachine(ids.value.apicId, types[i].masks);
      }
    }

    /** Finds the type of a record, or makes it. */
    method ClassifyRecord(probe: Probe, withAffinity: bool) returns (r: int, i: int)
      requires Valid() && probe.WellFormed() && Classify(Value(), probe, withAffinity) != Undefined
      modifies this`types, this`Repr
      ensures Valid() && fresh(Repr - old(Repr))
      ensures supported == old(supported) && packageId == old(packageId)
      ensures i == TypeIndex(old(Value()), probe)
      ensures match Classify(old(Value()), probe, withAffinity)
              case Running(s) => r == 0 && Value() == s
              case Failed(error) => r == error
              case Undefined => false
    {
      ghost var before := Value();
      r := 0;
      i := FindIndex(probe.purpose);
      if i >= 0 {
        assert Classify(before, probe, withAffinity) == Running(before);
      } else {
        i := |types|;
        if probe.identity.Rejected? {
          assert Classify(before, probe, withAffinity) == Failed(probe.identity.error);
          r := probe.identity.error;
        } else {
          Append(probe.identity, withAffinity);
          assert Running(Value()) == Classify(before, probe, withAffinity);
        }
      }
    }

    /** The part of an iteration after the topology of the record is known. */
    method ClassifyAndCount(cpu: uint16, probe: Probe, withAffinity: bool, ids: Option<Ids>) returns (r: int)
      requires Valid() && probe.WellFormed()
      requires var o, i := Classify(Value(), probe, withAffinity), TypeIndex(Value(), probe);
               && o != Undefined
               && (o.Running? ==> i < |o.state.types|)
               && (ids.Some? ==> IsInt32(ids.value.apicId))
               && (o.Running? && withAffinity && ids.Some? ==> CpuIndexable(o.state.types[i], ids.value))
      modifies Repr
      ensures Valid() && fresh(Repr - old(Repr))
      ensures var o := Classify(old(Value()), probe, withAffinity);
              if o.Running?
              then r == 0 && Running(Value())
                == if withAffinity then CountRecord(o.state, TypeIndex(old(Value()), probe), cpu, ids) else o
              else r == o.error
    {
      var i;
      r, i := ClassifyRecord(probe, withAffinity);
      if r == 0 && withAffinity {
        CountCpu(i, cpu, ids);
      }
    }

    /** One iteration of the loop. */
    method StepRecord(cpu: uint16, probe: Probe, withAffinity: bool) returns (r: int)
      requires Valid() && probe.WellFormed() && Step(Value(), cpu, probe, withAffinity) != Undefined
      modifies Repr
      ensures Valid() && fresh(Repr - old(Repr))
      ensures match Step(old(Value()), cpu, probe, withAffinity)
              case Running(s) => r == 0 && Value() == s
              case Failed(error) => r == error
              case Undefined => false
    {
      StepDefined(Value(), cpu, probe, withAffinity);
      ObserveRecord(probe, withAffinity);
      r := ClassifyAndCount(cpu, probe, withAffinity, if supported then probe.ids else None);
    }

    /** The topology of a record: its package, or the loss of topology support. */
    method ObserveRecord(probe: Probe, withAffinity: bool)
      requires Valid()
      modifies this`supported, this`packageId
      ensures Valid() && Value() == Observe(old(Value()), probe, withAffinity)
    {
      ghost var before := Value();
      if withAffinity && supported {
        supported := probe.ids.Some?;
        if supported {
          packageId := probe.ids.value.packageId;
        }
      }
      assert forall j | 0 <= j < |types| :: types[j].Value() == before.types[j];
    }

    ghost function ReportedTypes(): (r: seq<CpuReport>)
      reads this, Repr
      requires forall i | 0 <= i < |types| :: types[i].Repr() <= Repr
      ensures |r| == |types| && forall i | 0 <= i < |types| :: r[i] == types[i].Reported()
    {
      seq(|types|, i requires 0 <= i < |types| && types[i].Repr() <= Repr reads this, Repr => types[i].Reported())
    }

    /** The last loop and the grand totals. */
    method Finish(n: int, withAffinity: bool) returns (totals: seq<int>)
      requires Valid()
      requires withAffinity && !supported ==>
        forall i | 0 <= i < |types| :: Value().types[i].numLogicalCpus > 0
      modifies Repr
      ensures types == old(types) && Repr == old(Repr)
      ensures forall i | 0 <= i < |types| :: types[i].Repr() <= Repr
      ensures SystemReport(ReportedTypes(), totals) == Report(old(Value()), n, withAffinity)
    {
      totals := NoInstances();
      if supported {
        totals := caches.ReadCounters();
      }
      FinishTypes(types, n, supported, withAffinity, Value().types);
    }
  }

  /** The loop over the types, each with counters of its own. */
  method FinishTypes(types: seq<CpuType>, n: int, supported: bool, withAffinity: bool, ghost states: seq<CpuTypeState>)
    requires |states| == |types|
    requires forall i | 0 <= i < |types| ::
      types[i].Valid() && types[i].Value() == states[i] && types[i].cacheInstances == NoInstances()
    requires forall i, j | 0 <= i < |types| && 0 <= j < |types| && i != j :: types[j] !in types[i].Repr()
    requires withAffinity && !supported ==> forall i | 0 <= i < |types| :: states[i].numLogicalCpus > 0
    modifies types
    ensures forall i | 0 <= i < |types| ::
      states[i].WellFormed() && types[i].Reported() == ReportType(states[i], n, supported, withAffinity)
  {
    for i := 0 to |types|
      invariant forall j | 0 <= j < i :: types[j].Reported() == ReportType(states[j], n, supported, withAffinity)
      invariant forall j | i <= j < |types| ::
        types[j].Valid() && types[j].Value() == states[j] && types[j].cacheInstances == NoInstances()
    {
      types[i].Finish(n, supported, withAffinity);
    }
  }

  // ----- the whole function

  /** What the enumerator asks of a record, given the vendor-specific parts as functions of it. */
  function ProbeOf(raw: Raw, purposeOf: Raw -> int, identify: Raw -> Identity): Probe
    requires raw.WellFormed()
  {
    Probe(purposeOf(raw), IdentId(raw), identify(raw))
  }

  function Probes(raws: seq<Raw>, purposeOf: Raw -> int, identify: Raw -> Identity): (probes: seq<Probe>)
    requires AllWellFormed(raws)
    ensures |probes| == |raws| && forall i | 0 <= i < |raws| :: probes[i] == ProbeOf(raws[i], purposeOf, identify)
  {
    seq(|raws|, i requires 0 <= i < |raws| => ProbeOf(raws[i], purposeOf, identify))
  }

  /** A run that has stopped stays stopped. */
  lemma {:induction false} RunPrefix(probes: seq<Probe>, n: nat, withAffinity: bool)
    requires ProbesWellFormed(probes) && n <= |probes|
    ensures !Run(probes[..n], withAffinity).Running? ==> Run(probes, withAffinity) == Run(probes[..n], withAffinity)
    decreases |probes| - n
  {
    if n == |probes| {
      assert probes[..n] == probes;
    } else {
      RunPrefix(probes, n + 1, withAffinity);
      assert probes[..n + 1][..n] == probes[..n];
    }
  }

  /** One iteration more, and the end of the run if it fails. */
  lemma {:induction false} RunExtends(probes: seq<Probe>, n: nat, withAffinity: bool, s: State, o: Outcome)
    requires ProbesWellFormed(probes) && n < |probes| && Run(probes[..n], withAffinity) == Running(s)
    requires s.WellFormed() && o == Step(s, n, probes[n], withAffinity)
    ensures o.Running? ==> Run(probes[..n + 1], withAffinity) == o
    ensures !o.Running? ==> Run(probes, withAffinity) == o
    ensures o.Failed? ==> o.error != 0
  {
    assert probes[..n + 1][..n] == probes[..n];
    assert Run(probes[..n + 1], withAffinity) == o;
    RunPrefix(probes, n + 1, withAffinity);
  }

  /** One record of the run. */
  method NextRecord(system: Enumerator, cpu: uint16, probe: Probe, withAffinity: bool, ghost probes: seq<Probe>)
    returns (r: int)
    requires system.Valid() && ProbesWellFormed(probes) && cpu < |probes| && probe == probes[cpu]
    requires Run(probes[..cpu], withAffinity) == Running(system.Value()) && Run(probes, withAffinity) != Undefined
    modifies system.Repr
    ensures system.Valid() && fresh(system.Repr - old(system.Repr))
    ensures if r == 0 then Run(probes[..cpu + 1], withAffinity) == Running(system.Value())
            else Run(probes, withAffinity) == Failed(r)
  {
    RunExtends(probes, cpu, withAffinity, system.Value(), Step(system.Value(), cpu, probe, withAffinity));
    r := system.StepRecord(cpu, probe, withAffinity);
  }

  /** The loop over all records, up to the first one that is rejected. */
  method RunRecords(system: Enumerator, raws: seq<Raw>, withAffinity: bool, probeOf: Raw --> Probe,
                    ghost probes: seq<Probe>)
    returns (r: int)
    requires system.Valid() && system.Value() == Initial()
    requires |probes| == |raws| < UINT16_RANGE && ProbesWellFormed(probes)
    requires forall i | 0 <= i < |raws| :: probeOf.requires(raws[i]) && probes[i] == probeOf(raws[i])
    requires Run(probes, withAffinity) != Undefined
    modifies system.Repr
    ensures system.Valid() && fresh(system.Repr - old(system.Repr))
    ensures Run(probes, withAffinity) == if r == 0 then Running(system.Value()) else Failed(r)
  {
    r := 0;
    for cpu := 0 to |raws|
      invariant system.Valid() && fresh(system.Repr - old(system.Repr))
      invariant Run(probes[..cpu], withAffinity) == Running(system.Value())
    {
      r := NextRecord(system, cpu, probeOf(raws[cpu]), withAffinity, probes);
      if r != 0 { return; }
    }
    r := 0;
    assert probes[..|raws|] == probes;
  }

  lemma {:induction false} ProbesDefined(raws: seq<Raw>, purposeOf: Raw -> int, identify: Raw -> Identity)
    requires AllWellFormed(raws) && forall i | 0 <= i < |raws| :: identify(raws[i]).WellFormed()
    ensures ProbesWellFormed(Probes(raws, purposeOf, identify))
  {
  }

  /** `cpu_identify_all` on given raw data: the run of the state machine and its report. */
  method CpuIdentifyAll(raws: seq<Raw>, withAffinity: bool, purposeOf: Raw -> int, identify: Raw -> Identity)
    returns (r: int, system: Enumerator, totals: seq<int>)
    requires |raws| < UINT16_RANGE && AllWellFormed(raws)
    requires forall i | 0 <= i < |raws| :: identify(raws[i]).WellFormed()
    requires ProbesWellFormed(Probes(raws, purposeOf, identify)) ==>
      Run(Probes(raws, purposeOf, identify), withAffinity) != Undefined
    ensures ProbesWellFormed(Probes(raws, purposeOf, identify))
    ensures forall i | 0 <= i < |system.types| :: system.types[i].Repr() <= system.Repr
    ensures match Run(Probes(raws, purposeOf, identify), withAffinity)
            case Running(s) =>
              && r == 0
              && (withAffinity ==> forall i | 0 <= i < |s.types| :: s.types[i].numLogicalCpus > 0)
              && SystemReport(system.ReportedTypes(), totals) == Report(s, |raws|, withAffinity)
            case Failed(error) => r == error && r != 0
            case Undefined => false
  {
    ghost var probes := Probes(raws, purposeOf, identify);
    ProbesDefined(raws, purposeOf, identify);
    totals := [];
    system := new Enumerator();
    var probeOf := (raw: Raw) requires raw.WellFormed() => ProbeOf(raw, purposeOf, identify);
    r := RunRecords(system, raws, withAffinity, probeOf, probes);
    if r != 0 { return; }
    if withAffinity { NoEmptyType(probes); }
    totals := system.Finish(|raws|, withAffinity);
  }
}

/**
  The state machine of `cpu_identify_all`: one step per logical CPU, over the values the
  methods of module IdentifyAll keep in memory.
 */
module Enumeration {
  import opened Bits
  import opened InstanceTable
  import opened Options
  import opened Topology
  import opened CacheSharing

  /** `num_cpu_types` is an 8-bit counter. */
  const MAX_CPU_TYPES := 255

  /** What `cpu_ident_internal` finds in a record. */
  datatype Identity =
    | Rejected(error: int)
    | Identified(purpose: int, numCores: int, numLogicalCpus: int, masks: seq<uint32>)
  {
    predicate WellFormed() {
      match this
      case Rejected(error) => error != 0
      case Identified(_, _, _, masks) => |masks| == NUM_CACHE_TYPES
    }
  }

  /** What the enumerator asks of one record: `cpu_ident_purpose`, `cpu_ident_id`, `cpu_ident_internal`. */
  datatype Probe = Probe(purpose: int, ids: Option<Ids>, identity: Identity) {
    predicate WellFormed() {
      identity.WellFormed() && (ids.Some? ==> IsInt32(ids.value.apicId))
    }
  }

  predicate ProbesWellFormed(probes: seq<Probe>) { forall i | 0 <= i < |probes| :: probes[i].WellFormed() }

  /** One entry of `system->cpu_types` with its entry of `type_info`. */
  datatype CpuTypeState = CpuTypeState(
    purpose: int,
    packageId: Option<int>,
    masks: seq<uint32>,
    cpus: set<int>,
    numLogicalCpus: int,
    numCores: int,
    cores: Table,
    caches: seq<Table>)
  {
    predicate WellFormed() {
      |masks| == NUM_CACHE_TYPES && cores.WellFormed() && CachesWellFormed(caches)
    }
  }

  predicate CachesWellFormed(caches: seq<Table>) {
    |caches| == NUM_CACHE_TYPES && forall l | 0 <= l < NUM_CACHE_TYPES :: caches[l].WellFormed()
  }

  function EmptyCaches(): (caches: seq<Table>)
    ensures CachesWellFormed(caches) && forall l | 0 <= l < NUM_CACHE_TYPES :: caches[l] == EmptyTable()
  {
    seq(NUM_CACHE_TYPES, _ => EmptyTable())
  }

  datatype State = State(types: seq<CpuTypeState>, caches: seq<Table>, supported: bool, packageId: int) {
    predicate WellFormed() {
      && |types| <= MAX_CPU_TYPES
      && (forall i | 0 <= i < |types| :: types[i].WellFormed())
      && CachesWellFormed(caches)
    }
  }

  function Initial(): (s: State)
    ensures s.WellFormed()
  {
    State([], EmptyCaches(), true, 0)
  }

  /** The run goes on, ends with an error code, or leaves what the C code defines. */
  datatype Outcome = Running(state: State) | Failed(error: int) | Undefined

  // ----- the parts of a step

  /** The type's masks and the APIC ID give one cache ID per level; a zero mask stands for no cache. */
  predicate CacheIndexable(apicId: int, mask: uint32)
    requires IsInt32(apicId)
  {
    mask == 0 || Indexable(Masked(Unsigned32(apicId), mask))
  }

  predicate AllCachesIndexable(apicId: int, masks: seq<uint32>)
    requires IsInt32(apicId)
  {
    forall l | 0 <= l < |masks| :: CacheIndexable(apicId, masks[l])
  }

  function TouchCache(t: Table, apicId: int, mask: uint32): (t': Table)
    requires t.WellFormed() && IsInt32(apicId) && CacheIndexable(apicId, mask)
    ensures t'.WellFormed()
  {
    if mask == 0 then t else Touch(t, Masked(Unsigned32(apicId), mask))
  }

  /** `update_cache_instances` */
  function TouchCaches(caches: seq<Table>, apicId: int, masks: seq<uint32>): (caches': seq<Table>)
    requires CachesWellFormed(caches) && |masks| == NUM_CACHE_TYPES
    requires IsInt32(apicId) && AllCachesIndexable(apicId, masks)
    ensures CachesWellFormed(caches')
    ensures forall l | 0 <= l < NUM_CACHE_TYPES :: caches'[l] == TouchCache(caches[l], apicId, masks[l])
  {
    seq(NUM_CACHE_TYPES, l requires 0 <= l < NUM_CACHE_TYPES => TouchCache(caches[l], apicId, masks[l]))
  }

  /** A type answers to a purpose and, while the topology is known, to a package. */
  predicate Matches(t: CpuTypeState, purpose: int, packageId: int, supported: bool) {
    t.purpose == purpose && (supported ==> t.packageId == Some(packageId))
  }

  /** `cpuid_find_index_system_id` */
  function Find(types: seq<CpuTypeState>, purpose: int, packageId: int, supported: bool): (i: int)
    ensures -1 <= i < |types|
    ensures i >= 0 ==> Matches(types[i], purpose, packageId, supported)
    ensures forall j | 0 <= j < if i < 0 then |types| else i :: !Matches(types[j], purpose, packageId, supported)
  {
    if types == [] then -1
    else if Matches(types[0], purpose, packageId, supported) then 0
    else
      var i := Find(types[1..], purpose, packageId, supported);
      if i < 0 then -1 else i + 1
  }

  function NewType(identity: Identity, packageId: Option<int>, withAffinity: bool): (t: CpuTypeState)
    requires identity.Identified? && |identity.masks| == NUM_CACHE_TYPES
    ensures t.WellFormed()
  {
    CpuTypeState(identity.purpose, packageId, identity.masks, {},
                 if withAffinity then 0 else identity.numLogicalCpus, identity.numCores,
                 EmptyTable(), EmptyCaches())
  }

  predicate CpuIndexable(t: CpuTypeState, ids: Ids)
    requires IsInt32(ids.apicId)
  {
    Indexable(ids.coreId) && AllCachesIndexable(ids.apicId, t.masks)
  }

  /** Counts a logical CPU for its type, with its core and caches while the topology is known. */
  function AddCpu(t: CpuTypeState, cpu: int, ids: Option<Ids>): (t': CpuTypeState)
    requires t.WellFormed()
    requires ids.Some? ==> IsInt32(ids.value.apicId) && CpuIndexable(t, ids.value)
    ensures t'.WellFormed()
  {
    var counted := t.(cpus := t.cpus + {cpu}, numLogicalCpus := t.numLogicalCpus + 1);
    if ids.None? then counted
    else counted.(cores := Touch(t.cores, ids.value.coreId),
                  caches := TouchCaches(t.caches, ids.value.apicId, t.masks))
  }

  /** The IDs of a step, or none once the topology is lost. */
  function StepIds(s: State, probe: Probe): Option<Ids> {
    if s.supported then probe.ids else None
  }

  /** The first part of a step: topology of the record and the key it is looked up by. */
  function Observe(s: State, probe: Probe, withAffinity: bool): State {
    if !withAffinity || !s.supported then s
    else match probe.ids
      case Some(ids) => s.(packageId := ids.packageId)
      case None => s.(supported := false)
  }

  /** The second part: the type of the record, made if it is new. */
  function Classify(s: State, probe: Probe, withAffinity: bool): (o: Outcome)
    requires s.WellFormed() && probe.WellFormed()
    ensures o.Running? ==> o.state.WellFormed()
  {
    if Find(s.types, probe.purpose, s.packageId, s.supported) >= 0 then Running(s)
    else if |s.types| == MAX_CPU_TYPES then Undefined
    else if probe.identity.Rejected? then Failed(probe.identity.error)
    else
      var packageId := if s.supported then Some(s.packageId) else None;
      Running(s.(types := s.types + [NewType(probe.identity, packageId, withAffinity)]))
  }

  /** The type a record is counted for: the one found, or the one just made. */
  function TypeIndex(s: State, probe: Probe): (i: int)
    ensures 0 <= i <= |s.types|
  {
    var i := Find(s.types, probe.purpose, s.packageId, s.supported);
    if i >= 0 then i else |s.types|
  }

  /** The last part: counters of the type and of the machine. */
  function CountRecord(s: State, i: int, cpu: int, ids: Option<Ids>): (o: Outcome)
    requires s.WellFormed() && 0 <= i < |s.types|
    requires ids.Some? ==> IsInt32(ids.value.apicId)
    ensures o.Running? ==> o.state.WellFormed()
  {
    if ids.None? then
      Running(s.(types := s.types[i := AddCpu(s.types[i], cpu, None)]))
    else if !CpuIndexable(s.types[i], ids.value) then Undefined
    else
      Running(s.(types := s.types[i := AddCpu(s.types[i], cpu, ids)],
                 caches := TouchCaches(s.caches, ids.value.apicId, s.types[i].masks)))
  }

  /** One iteration of the loop of `cpu_identify_all`. */
  function Step(s: State, cpu: int, probe: Probe, withAffinity: bool): (o: Outcome)
    requires s.WellFormed() && probe.WellFormed()
    ensures o.Running? ==> o.state.WellFormed()
  {
    var s1 := Observe(s, probe, withAffinity);
    var o := Classify(s1, probe, withAffinity);
    if !o.Running? || !withAffinity then o
    else CountRecord(o.state, TypeIndex(s1, probe), cpu, StepIds(s1, probe))
  }

  /** The loop over all records. */
  function Run(probes: seq<Probe>, withAffinity: bool): (o: Outcome)
    requires ProbesWellFormed(probes)
    ensures o.Running? ==> o.state.WellFormed()
  {
    if probes == [] then Running(Initial())
    else
      var o := Run(probes[..|probes| - 1], withAffinity);
      if o.Running? then Step(o.state, |probes| - 1, probes[|probes| - 1], withAffinity) else o
  }

  // ----- the report

  /** The public fields of one entry of `system->cpu_types`. */
  datatype CpuReport = CpuReport(
    purpose: int, cpus: set<int>, numLogicalCpus: int, numCores: int, cacheInstances: seq<int>, totalLogicalCpus: int)

  datatype SystemReport = SystemReport(types: seq<CpuReport>, totals: seq<int>)

  /** The number of cores when IDs do not tell: the identified one if it divides the logical CPUs evenly. */
  function FallbackCores(numLogicalCpus: int, numCores: int): int
    requires numLogicalCpus > 0
  {
    var smtSupported := numCores > 0 && numLogicalCpus % numCores == 0;
    var quotient := if smtSupported then numLogicalCpus / numCores else 1;
    var smtDivisor := if quotient > 0 then quotient as real else 1.0;
    (numLogicalCpus as real / smtDivisor).Floor
  }

  function NoInstances(): seq<int> { seq(NUM_CACHE_TYPES, _ => -1) }

  function Counters(caches: seq<Table>): (counts: seq<int>)
    requires CachesWellFormed(caches)
    ensures |counts| == NUM_CACHE_TYPES && forall l | 0 <= l < NUM_CACHE_TYPES :: counts[l] == caches[l].instances
  {
    seq(NUM_CACHE_TYPES, l requires 0 <= l < NUM_CACHE_TYPES => caches[l].instances)
  }

  function ReportType(t: CpuTypeState, n: int, supported: bool, withAffinity: bool): CpuReport
    requires t.WellFormed() && (withAffinity && !supported ==> t.numLogicalCpus > 0)
  {
    CpuReport(t.purpose, t.cpus, t.numLogicalCpus,
              if !withAffinity then t.numCores
              else if supported then t.cores.instances else FallbackCores(t.numLogicalCpus, t.numCores),
              if withAffinity && supported then Counters(t.caches) else NoInstances(),
              n)
  }

  /** The last loop of `cpu_identify_all` and the grand totals. */
  function Report(s: State, n: int, withAffinity: bool): SystemReport
    requires s.WellFormed()
    requires withAffinity && !s.supported ==> forall i | 0 <= i < |s.types| :: s.types[i].numLogicalCpus > 0
  {
    SystemReport(
      seq(|s.types|, i requires 0 <= i < |s.types| => ReportType(s.types[i], n, s.supported, withAffinity)),
      if s.supported then Counters(s.caches) else NoInstances())
  }

  lemma {:induction false} FallbackCoresIs(numLogicalCpus: int, numCores: int)
    requires numLogicalCpus > 0
    ensures FallbackCores(numLogicalCpus, numCores)
      == if numCores > 0 && numLogicalCpus % numCores == 0 then numCores else numLogicalCpus
  {
    if numCores > 0 && numLogicalCpus % numCores == 0 {
      var q := numLogicalCpus / numCores;
      assert numLogicalCpus == numCores * q;
      ExactQuotient(numLogicalCpus, numCores, q);
    }
  }

  lemma {:induction false} ExactQuotient(n: int, c: int, q: int)
    requires n > 0 && c > 0 && n == c * q
    ensures q > 0 && (n as real / q as real) == c as real
  {
    assert q <= 0 ==> c * q <= 0;
    assert n as real == c as real * q as real;
  }

  /** Unfolds a successful run by one step. */
  lemma {:induction false} RunStep(probes: seq<Probe>, withAffinity: bool)
    requires ProbesWellFormed(probes) && probes != [] && Run(probes, withAffinity).Running?
    ensures var n := |probes| - 1;
            && ProbesWellFormed(probes[..n]) && Run(probes[..n], withAffinity).Running?
            && Run(probes, withAffinity) == Step(Run(probes[..n], withAffinity).state, n, probes[n], withAffinity)
            && probes == probes[..n] + [probes[n]] && probes[n].WellFormed()
  {
  }

  /** What a successful step with affinity does: at most one new type, and one type gains the CPU. */
  lemma {:induction false} StepShape(s: State, cpu: int, probe: Probe)
    requires s.WellFormed() && probe.WellFormed() && Step(s, cpu, probe, true).Running?
    ensures var s1 := Observe(s, probe, true);
            var i, s' := TypeIndex(s1, probe), Step(s, cpu, probe, true).state;
            var before := Classify(s1, probe, true).state;
            && Classify(s1, probe, true).Running?
            && i < |s'.types| == |before.types|
            && before.types == (if i < |s.types| then s.types
                                else s.types + [NewType(probe.identity, before.types[i].packageId, true)])
            && s'.types == before.types[i := AddCpu(before.types[i], cpu, StepIds(s1, probe))]
            && s'.supported == s1.supported && s'.packageId == s1.packageId
  {
  }

  /** The same, naming the types before the count, the index of the type counted, and the IDs used. */
  lemma {:induction false} StepTypes(s: State, cpu: int, probe: Probe)
    returns (before: seq<CpuTypeState>, i: nat, ids: Option<Ids>)
    requires s.WellFormed() && probe.WellFormed() && Step(s, cpu, probe, true).Running?
    ensures var s' := Step(s, cpu, probe, true).state;
            && i < |before| && (forall j | 0 <= j < |before| :: before[j].WellFormed())
            && (before == s.types ||
                (|before| == |s.types| + 1 && i == |s.types| && before == s.types + [before[|s.types|]]
                 && before[|s.types|].cpus == {} && before[|s.types|].numLogicalCpus == 0
                 && before[|s.types|].cores == EmptyTable() && before[|s.types|].caches == EmptyCaches()))
            && s'.supported == (s.supported && probe.ids.Some?)
            && ids == (if s'.supported then probe.ids else None)
            && (ids.Some? ==> IsInt32(ids.value.apicId) && CpuIndexable(before[i], ids.value))
            && s'.types == before[i := AddCpu(before[i], cpu, ids)]
            && s'.caches == (if ids.None? then s.caches
                             else TouchCaches(s.caches, ids.value.apicId, before[i].masks))
  {
    StepShape(s, cpu, probe);
    var s1 := Observe(s, probe, true);
    before := Classify(s1, probe, true).state.types;
    i, ids := TypeIndex(s1, probe), StepIds(s1, probe);
  }

  /** The topology of every record is known. */
  predicate TopologyKnown(probes: seq<Probe>) {
    forall i | 0 <= i < |probes| :: probes[i].ids.Some?
  }

  lemma {:induction false} KnownLonger(probes: seq<Probe>, n: nat)
    requires n + 1 == |probes|
    ensures TopologyKnown(probes) <==> TopologyKnown(probes[..n]) && probes[n].ids.Some?
  {
  }

  lemma {:induction false} SupportedIff(probes: seq<Probe>)
    requires ProbesWellFormed(probes) && Run(probes, true).Running?
    ensures Run(probes, true).state.supported <==> TopologyKnown(probes)
  {
    if probes != [] {
      RunStep(probes, true);
      var n := |probes| - 1;
      SupportedIff(probes[..n]);
      KnownLonger(probes, n);
      StepShape(Run(probes[..n], true).state, n, probes[n]);
    }
  }
}

/**
  Every logical CPU is counted for exactly one CPU type, also when the topology is lost on the way.
 */
module Partition {
  import opened Options
  import opened Topology
  import opened Enumeration

  ghost predicate Member(types: seq<CpuTypeState>, c: int) {
    exists i :: 0 <= i < |types| && c in types[i].cpus
  }

  /** The CPUs 0..n-1 fall into disjoint sets, one per type, and each type knows the size of its set. */
  ghost predicate Partitions(types: seq<CpuTypeState>, n: nat) {
    && (forall i, j | 0 <= i < j < |types| :: types[i].cpus !! types[j].cpus)
    && (forall c :: Member(types, c) <==> 0 <= c < n)
    && (forall i | 0 <= i < |types| :: types[i].numLogicalCpus == |types[i].cpus|)
  }

  function TotalCount(types: seq<CpuTypeState>): int {
    if types == [] then 0 else TotalCount(types[..|types| - 1]) + types[|types| - 1].numLogicalCpus
  }

  /** The affinity masks partition the logical CPUs, and the counts are their sizes and add up. */
  lemma {:induction false} RunPartitions(probes: seq<Probe>)
    requires ProbesWellFormed(probes) && Run(probes, true).Running?
    ensures var types := Run(probes, true).state.types;
            Partitions(types, |probes|) && TotalCount(types) == |probes|
  {
    if probes != [] {
      RunStep(probes, true);
      var n := |probes| - 1;
      RunPartitions(probes[..n]);
      PartitionStep(Run(probes[..n], true).state, n, probes[n]);
    }
  }

  /** Every type has a logical CPU. */
  lemma {:induction false} NoEmptyType(probes: seq<Probe>)
    requires ProbesWellFormed(probes) && Run(probes, true).Running?
    ensures forall i | 0 <= i < |Run(probes, true).state.types| :: Run(probes, true).state.types[i].numLogicalCpus > 0
  {
    if probes != [] {
      RunStep(probes, true);
      var n := |probes| - 1;
      NoEmptyType(probes[..n]);
      var before, i, ids := StepTypes(Run(probes[..n], true).state, n, probes[n]);
    }
  }

  ghost predicate InSomeReport(types: seq<CpuReport>, c: int) {
    exists i :: 0 <= i < |types| && c in types[i].cpus
  }

  /** What the caller sees: the reported masks partition the logical CPUs, and each type counts its own. */
  lemma {:induction false} ReportPartitions(probes: seq<Probe>)
    requires ProbesWellFormed(probes) && Run(probes, true).Running?
    ensures var s := Run(probes, true).state;
            && (forall i | 0 <= i < |s.types| :: s.types[i].numLogicalCpus > 0)
            && var types := Report(s, |probes|, true).types;
            && (forall i, j | 0 <= i < j < |types| :: types[i].cpus !! types[j].cpus)
            && (forall c :: InSomeReport(types, c) <==> 0 <= c < |probes|)
            && (forall i | 0 <= i < |types| ::
                  types[i].numLogicalCpus == |types[i].cpus| && types[i].totalLogicalCpus == |probes|)
  {
    var s := Run(probes, true).state;
    RunPartitions(probes);
    NoEmptyType(probes);
    ReportKeepsPartition(s.types, Report(s, |probes|, true).types, |probes|);
  }

  lemma {:induction false} ReportKeepsPartition(types: seq<CpuTypeState>, reports: seq<CpuReport>, n: nat)
    requires Partitions(types, n) && |reports| == |types|
    requires forall i | 0 <= i < |types| ::
      reports[i].cpus == types[i].cpus && reports[i].numLogicalCpus == types[i].numLogicalCpus
    ensures forall i, j | 0 <= i < j < |reports| :: reports[i].cpus !! reports[j].cpus
    ensures forall c :: InSomeReport(reports, c) <==> 0 <= c < n
    ensures forall i | 0 <= i < |reports| :: reports[i].numLogicalCpus == |reports[i].cpus|
  {
    forall c
      ensures InSomeReport(reports, c) <==> Member(types, c)
    {
      if Member(types, c) {
        var i :| 0 <= i < |types| && c in types[i].cpus;
        assert c in reports[i].cpus;
      }
      if InSomeReport(reports, c) {
        var i :| 0 <= i < |reports| && c in reports[i].cpus;
        assert c in types[i].cpus;
      }
    }
  }

  /** When the topology was lost, the reported number of cores of a type divides that of its logical CPUs. */
  lemma {:induction false} FallbackCoresDivide(probes: seq<Probe>, i: nat)
    requires ProbesWellFormed(probes) && Run(probes, true).Running? && !Run(probes, true).state.supported
    requires i < |Run(probes, true).state.types|
    ensures var t := Run(probes, true).state.types[i];
            && t.numLogicalCpus > 0
            && var r := ReportType(t, |probes|, false, true);
            r.numCores > 0 && r.numLogicalCpus % r.numCores == 0
  {
    NoEmptyType(probes);
    var t := Run(probes, true).state.types[i];
    FallbackCoresIs(t.numLogicalCpus, t.numCores);
  }

  lemma {:induction false} PartitionStep(s: State, n: nat, p: Probe)
    requires s.WellFormed() && p.WellFormed() && Step(s, n, p, true).Running?
    requires Partitions(s.types, n) && TotalCount(s.types) == n
    ensures var types := Step(s, n, p, true).state.types;
            Partitions(types, n + 1) && TotalCount(types) == n + 1
  {
    var before, i, ids := StepTypes(s, n, p);
    if before != s.types {
      NewTypeKeeps(s.types, before[|s.types|], n);
    }
    CpuAdded(before, i, n, ids);
  }

  lemma {:induction false} NewTypeKeeps(types: seq<CpuTypeState>, t: CpuTypeState, n: nat)
    requires Partitions(types, n) && t.cpus == {} && t.numLogicalCpus == 0
    ensures Partitions(types + [t], n) && TotalCount(types + [t]) == TotalCount(types)
  {
    var all := types + [t];
    assert all[..|types|] == types;
    forall c
      ensures Member(all, c) <==> Member(types, c)
    {
      if Member(types, c) {
        var i :| 0 <= i < |types| && c in types[i].cpus;
        assert c in all[i].cpus;
      }
    }
  }

  lemma {:induction false} CpuAdded(types: seq<CpuTypeState>, i: nat, n: nat, ids: Option<Ids>)
    requires i < |types| && types[i].WellFormed() && Partitions(types, n)
    requires ids.Some? ==> IsInt32(ids.value.apicId) && CpuIndexable(types[i], ids.value)
    ensures var types' := types[i := AddCpu(types[i], n, ids)];
            Partitions(types', n + 1) && TotalCount(types') == TotalCount(types) + 1
  {
    var t' := AddCpu(types[i], n, ids);
    SetGrows(types, i, n, t');
    TotalUpdated(types, i, t');
  }

  lemma {:induction false} SetGrows(types: seq<CpuTypeState>, i: nat, n: nat, t': CpuTypeState)
    requires i < |types| && Partitions(types, n)
    requires t'.cpus == types[i].cpus + {n} && t'.numLogicalCpus == types[i].numLogicalCpus + 1
    ensures Partitions(types[i := t'], n + 1)
  {
    var types' := types[i := t'];
    forall c
      ensures Member(types', c) <==> Member(types, c) || c == n
    {
      assert c == n ==> c in types'[i].cpus;
      if Member(types, c) {
        var j :| 0 <= j < |types| && c in types[j].cpus;
        assert c in types'[j].cpus;
      }
    }
    assert forall j | 0 <= j < |types| :: n in types[j].cpus ==> Member(types, n);
  }

  lemma {:induction false} TotalUpdated(types: seq<CpuTypeState>, i: nat, t: CpuTypeState)
    requires i < |types|
    ensures TotalCount(types[i := t]) == TotalCount(types) - types[i].numLogicalCpus + t.numLogicalCpus
  {
    var n, types' := |types| - 1, types[i := t];
    if i < n {
      TotalUpdated(types[..n], i, t);
      assert types'[..n] == types[..n][i := t];
    } else {
      assert types'[..n] == types[..n];
    }
  }
}

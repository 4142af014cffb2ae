/**
  Which logical CPUs share a CPU type: those with one (purpose, package) key while the topology is known,
  and after its loss those with one purpose.
 */
module Grouping {
  import opened Bits
  import opened Collections
  import opened Options
  import opened CacheSharing
  import opened Enumeration

  type Key = (int, Option<int>)

  /** The identified purpose of the record is the one it is looked up by. */
  ghost predicate PurposesAgree(p: Probe) {
    p.identity.Identified? ==> p.identity.purpose == p.purpose
  }

  ghost predicate AllAgree(probes: seq<Probe>) {
    forall i | 0 <= i < |probes| :: PurposesAgree(probes[i])
  }

  // ----- labels: the key a logical CPU is grouped by

  function KeyOf(p: Probe): Key
    requires p.ids.Some?
  {
    (p.purpose, Some(p.ids.value.packageId))
  }

  /** The first key with a purpose, or the one of a type made without topology. */
  function FirstWithPurpose(keys: seq<Key>, purpose: int): (key: Key)
    ensures key.0 == purpose
    ensures key in keys <==> exists i :: 0 <= i < |keys| && keys[i].0 == purpose
    ensures key in keys || key == (purpose, None)
  {
    if keys == [] then (purpose, None)
    else if keys[0].0 == purpose then keys[0]
    else FirstWithPurpose(keys[1..], purpose)
  }

  /** A record joins its own key, or without topology the first label with its purpose. */
  function NextLabel(labels: seq<Key>, known: bool, p: Probe): (key: Key)
    requires known ==> p.ids.Some?
    ensures key.0 == p.purpose
  {
    if known then KeyOf(p) else FirstWithPurpose(labels, p.purpose)
  }

  function Labels(probes: seq<Probe>): (labels: seq<Key>)
    ensures |labels| == |probes|
  {
    if probes == [] then []
    else
      var n := |probes| - 1;
      Labels(probes[..n]) + [NextLabel(Labels(probes[..n]), TopologyKnown(probes), probes[n])]
  }

  lemma {:induction false} FirstWithPurposeIs(keys: seq<Key>, purpose: int, i: nat)
    requires i < |keys| && keys[i].0 == purpose && forall j | 0 <= j < i :: keys[j].0 != purpose
    ensures FirstWithPurpose(keys, purpose) == keys[i]
  {
    if i > 0 {
      assert forall j | 0 <= j < i - 1 :: keys[1..][j] == keys[j + 1];
      FirstWithPurposeIs(keys[1..], purpose, i - 1);
    }
  }

  lemma {:induction false} FirstWithPurposeAppend(keys: seq<Key>, key: Key, purpose: int)
    ensures FirstWithPurpose(keys + [key], purpose)
      == if FirstWithPurpose(keys, purpose) in keys || key.0 != purpose then FirstWithPurpose(keys, purpose) else key
  {
    var longer := keys + [key];
    if keys == [] {
      assert longer == [key] && [key][1..] == [];
    } else if keys[0].0 != purpose {
      assert longer[1..] == keys[1..] + [key];
      FirstWithPurposeAppend(keys[1..], key, purpose);
      assert keys == [keys[0]] + keys[1..];
    }
  }

  /** The first occurrences have the same first key with a purpose. */
  lemma {:induction false} FirstWithPurposeOfFirst(keys: seq<Key>, purpose: int)
    ensures FirstWithPurpose(FirstOccurrences(keys), purpose) == FirstWithPurpose(keys, purpose)
  {
    if keys != [] {
      var front, key := keys[..|keys| - 1], keys[|keys| - 1];
      assert keys == front + [key];
      FirstWithPurposeOfFirst(front, purpose);
      FirstWithPurposeAppend(front, key, purpose);
      FirstWithPurposeAppend(FirstOccurrences(front), key, purpose);
    }
  }

  lemma {:induction false} FirstStays(keys: seq<Key>, key: Key, purpose: int)
    requires FirstWithPurpose(keys, purpose) in keys || FirstWithPurpose(keys, purpose) == key
    ensures FirstWithPurpose(keys + [key], purpose) == FirstWithPurpose(keys, purpose)
  {
    FirstWithPurposeAppend(keys, key, purpose);
  }

  lemma {:induction false} LastLabelIs(probes: seq<Probe>, n: nat)
    requires n + 1 == |probes|
    ensures Labels(probes) == Labels(probes[..n]) + [Labels(probes)[n]]
    ensures Labels(probes)[n].0 == probes[n].purpose
    ensures if TopologyKnown(probes) then Labels(probes)[n] == KeyOf(probes[n])
            else Labels(probes)[n] == FirstWithPurpose(Labels(probes[..n]), probes[n].purpose)
  {
  }

  /** Up to the loss of the topology the label is the key; from then on it is the first one with the purpose. */
  lemma {:induction false} LabelIs(probes: seq<Probe>, c: nat)
    requires c < |probes|
    ensures Labels(probes)[c].0 == probes[c].purpose
    ensures if TopologyKnown(probes[..c + 1]) then Labels(probes)[c] == KeyOf(probes[c])
            else Labels(probes)[c] == FirstWithPurpose(Labels(probes), probes[c].purpose)
  {
    var n := |probes| - 1;
    var front, last := Labels(probes[..n]), Labels(probes)[n];
    LastLabelIs(probes, n);
    if c < n {
      LabelIs(probes[..n], c);
      assert probes[..n][..c + 1] == probes[..c + 1];
      if !TopologyKnown(probes[..c + 1]) {
        assert front[c] in front;
        FirstStays(front, last, probes[c].purpose);
      }
    } else {
      assert probes[..n + 1] == probes;
      if !TopologyKnown(probes) {
        FirstStays(front, last, probes[n].purpose);
      }
    }
  }

  // ----- the types are the labels

  ghost function TypeKey(t: CpuTypeState): Key { (t.purpose, t.packageId) }

  ghost function TypeKeys(types: seq<CpuTypeState>): (keys: seq<Key>)
    ensures |keys| == |types| && forall i | 0 <= i < |types| :: keys[i] == TypeKey(types[i])
  {
    seq(|types|, i requires 0 <= i < |types| => TypeKey(types[i]))
  }

  /** The logical CPUs with a label. */
  ghost function CpusWith(labels: seq<Key>, key: Key): set<int> {
    set c | 0 <= c < |labels| && labels[c] == key
  }

  /** The types are the distinct labels in order of first occurrence, each with all CPUs of its label. */
  ghost predicate Grouped(s: State, labels: seq<Key>) {
    && TypeKeys(s.types) == FirstOccurrences(labels)
    && forall i | 0 <= i < |s.types| :: s.types[i].cpus == CpusWith(labels, TypeKey(s.types[i]))
  }

  lemma {:induction false} RunGroups(probes: seq<Probe>)
    requires ProbesWellFormed(probes) && AllAgree(probes) && Run(probes, true).Running?
    ensures Grouped(Run(probes, true).state, Labels(probes))
  {
    if probes != [] {
      RunStep(probes, true);
      var n := |probes| - 1;
      RunGroups(probes[..n]);
      SupportedIff(probes[..n]);
      KnownLonger(probes, n);
      GroupStep(Run(probes[..n], true).state, probes[n], Labels(probes[..n]));
    }
  }

  /** The label of the next record in a state. */
  function LabelIn(s: State, p: Probe, labels: seq<Key>): Key {
    NextLabel(labels, s.supported && p.ids.Some?, p)
  }

  /** A type answers exactly when it has the label. */
  lemma {:induction false} FindIsLabel(s: State, p: Probe, labels: seq<Key>)
    requires Grouped(s, labels)
    ensures var s1, key := Observe(s, p, true), LabelIn(s, p, labels);
            var i := Find(s1.types, p.purpose, s1.packageId, s1.supported);
            (i >= 0 <==> key in labels) && (i >= 0 ==> TypeKey(s.types[i]) == key)
  {
    if s.supported && p.ids.Some? {
      FindIsKey(s, p, labels);
    } else {
      FindIsPurpose(s, p.purpose, s.packageId, labels);
    }
  }

  lemma {:induction false} FindIsKey(s: State, p: Probe, labels: seq<Key>)
    requires Grouped(s, labels) && p.ids.Some?
    ensures var i := Find(s.types, p.purpose, p.ids.value.packageId, true);
            (i >= 0 <==> KeyOf(p) in labels) && (i >= 0 ==> TypeKey(s.types[i]) == KeyOf(p))
  {
    var d := FirstOccurrences(labels);
    if KeyOf(p) in labels {
      var j :| 0 <= j < |d| && d[j] == KeyOf(p);
      assert TypeKeys(s.types)[j] == TypeKey(s.types[j]);
    } else {
      assert forall i | 0 <= i < |s.types| :: TypeKey(s.types[i]) == d[i] && d[i] in d;
    }
  }

  lemma {:induction false} FindIsPurpose(s: State, purpose: int, packageId: int, labels: seq<Key>)
    requires Grouped(s, labels)
    ensures var i, key := Find(s.types, purpose, packageId, false), FirstWithPurpose(labels, purpose);
            (i >= 0 <==> key in labels) && (i >= 0 ==> TypeKey(s.types[i]) == key)
  {
    var i, keys := Find(s.types, purpose, packageId, false), TypeKeys(s.types);
    FirstWithPurposeOfFirst(labels, purpose);
    if i >= 0 {
      assert forall j | 0 <= j < i :: keys[j] == TypeKey(s.types[j]) && !Matches(s.types[j], purpose, packageId, false);
      FirstWithPurposeIs(keys, purpose, i);
      assert keys[i] in keys;
    } else {
      assert forall j | 0 <= j < |s.types| :: keys[j].0 == s.types[j].purpose;
      assert forall j | 0 <= j < |s.types| :: !Matches(s.types[j], purpose, packageId, false);
    }
  }

  /** What a step does to the types: one gains the CPU, the others stay, and a new one has the identified purpose. */
  lemma {:induction false} StepGains(s: State, cpu: int, p: Probe)
    requires s.WellFormed() && p.WellFormed() && Step(s, cpu, p, true).Running?
    ensures var s1, s' := Observe(s, p, true), Step(s, cpu, p, true).state;
            var i := TypeIndex(s1, p);
            && i < |s'.types| == |s.types| + (if i < |s.types| then 0 else 1)
            && (forall j | 0 <= j < |s.types| && j != i :: s'.types[j] == s.types[j])
            && if i < |s.types| then
                 && TypeKey(s'.types[i]) == TypeKey(s.types[i]) && s'.types[i].masks == s.types[i].masks
                 && s'.types[i].cpus == s.types[i].cpus + {cpu} && s'.types[i].numCores == s.types[i].numCores
               else
                 && TypeKey(s'.types[i]) == (p.identity.purpose, if s1.supported then Some(s1.packageId) else None)
                 && p.identity.Identified? && s'.types[i].masks == p.identity.masks && s'.types[i].cpus == {cpu}
                 && s'.types[i].numCores == p.identity.numCores
  {
    StepShape(s, cpu, p);
  }

  lemma {:induction false} GroupStep(s: State, p: Probe, labels: seq<Key>)
    requires s.WellFormed() && p.WellFormed() && PurposesAgree(p) && Grouped(s, labels)
    requires Step(s, |labels|, p, true).Running?
    ensures Grouped(Step(s, |labels|, p, true).state, labels + [LabelIn(s, p, labels)])
  {
    var s' := Step(s, |labels|, p, true).state;
    var key, i := LabelIn(s, p, labels), TypeIndex(Observe(s, p, true), p);
    StepGains(s, |labels|, p);
    FindIsLabel(s, p, labels);
    LabelGroups(s.types, s'.types, labels, i, key);
  }

  /** Adding a CPU to the type of its label, or a type for it, keeps the types grouped. */
  lemma {:induction false} LabelGroups(
      types: seq<CpuTypeState>, types': seq<CpuTypeState>, labels: seq<Key>, i: nat, key: Key)
    requires TypeKeys(types) == FirstOccurrences(labels)
    requires forall j | 0 <= j < |types| :: types[j].cpus == CpusWith(labels, TypeKey(types[j]))
    requires i < |types'| == |types| + (if key in labels then 0 else 1) && (i < |types| <==> key in labels)
    requires TypeKey(types'[i]) == key && (i < |types| ==> TypeKey(types[i]) == key)
    requires types'[i].cpus == (if i < |types| then types[i].cpus else {}) + {|labels|}
    requires forall j | 0 <= j < |types| && j != i :: types'[j] == types[j]
    ensures TypeKeys(types') == FirstOccurrences(labels + [key])
    ensures forall j | 0 <= j < |types'| :: types'[j].cpus == CpusWith(labels + [key], TypeKey(types'[j]))
  {
    assert (labels + [key])[..|labels|] == labels;
    assert TypeKeys(types') == (if key in labels then TypeKeys(types) else TypeKeys(types) + [key]);
    FirstOccurrencesOrdered(labels);
    forall j | 0 <= j < |types'|
      ensures types'[j].cpus == CpusWith(labels + [key], TypeKey(types'[j]))
    {
      OneTypePerLabel(types, types', labels, i, j, key);
    }
  }

  lemma {:induction false} OneTypePerLabel(
      types: seq<CpuTypeState>, types': seq<CpuTypeState>, labels: seq<Key>, i: nat, j: nat, key: Key)
    requires TypeKeys(types) == FirstOccurrences(labels) && NoDuplicates(FirstOccurrences(labels))
    requires forall k | 0 <= k < |types| :: types[k].cpus == CpusWith(labels, TypeKey(types[k]))
    requires i < |types'| && j < |types'| && (i < |types| <==> key in labels)
    requires TypeKey(types'[i]) == key && (i < |types| ==> TypeKey(types[i]) == key)
    requires types'[i].cpus == (if i < |types| then types[i].cpus else {}) + {|labels|}
    requires j != i ==> j < |types| && types'[j] == types[j]
    ensures types'[j].cpus == CpusWith(labels + [key], TypeKey(types'[j]))
  {
    var labels', d := labels + [key], FirstOccurrences(labels);
    if j == i {
      assert CpusWith(labels', key) == CpusWith(labels, key) + {|labels|};
      if key !in labels { assert CpusWith(labels, key) == {}; }
    } else {
      var other := TypeKey(types[j]);
      assert TypeKeys(types)[j] == other && d[j] in d;
      assert other != key by {
        if key in labels {
          assert TypeKeys(types)[i] == d[i];
        }
      }
      assert CpusWith(labels', other) == CpusWith(labels, other);
    }
  }

  // ----- what this means for the logical CPUs

  ghost predicate SameType(types: seq<CpuTypeState>, a: int, b: int) {
    exists i :: 0 <= i < |types| && a in types[i].cpus && b in types[i].cpus
  }

  /** Two logical CPUs land in one type exactly when they have one label; no two types share a key. */
  lemma {:induction false} SameLabelIff(probes: seq<Probe>, a: nat, b: nat)
    requires ProbesWellFormed(probes) && AllAgree(probes) && Run(probes, true).Running?
    requires a < |probes| && b < |probes|
    ensures var types := Run(probes, true).state.types;
            && (SameType(types, a, b) <==> Labels(probes)[a] == Labels(probes)[b])
            && NoDuplicates(TypeKeys(types))
            && (forall x :: x in TypeKeys(types) <==> x in Labels(probes))
            && InOrderOfFirstSight(Labels(probes), TypeKeys(types))
  {
    RunGroups(probes);
    var labels, types := Labels(probes), Run(probes, true).state.types;
    FirstOccurrencesOrdered(labels);
    if labels[a] == labels[b] {
      var d := FirstOccurrences(labels);
      assert labels[a] in labels;
      var i :| 0 <= i < |d| && d[i] == labels[a];
      assert TypeKeys(types)[i] == TypeKey(types[i]);
      assert a in types[i].cpus && b in types[i].cpus;
    }
  }

  /** While the topology is known, two logical CPUs share a type exactly when they have one (purpose, package). */
  lemma {:induction false} SameTypeIff(probes: seq<Probe>, a: nat, b: nat)
    requires ProbesWellFormed(probes) && AllAgree(probes) && Run(probes, true).Running?
    requires a < |probes| && b < |probes| && TopologyKnown(probes[..a + 1]) && TopologyKnown(probes[..b + 1])
    ensures probes[a].ids.Some? && probes[b].ids.Some?
    ensures SameType(Run(probes, true).state.types, a, b) <==> KeyOf(probes[a]) == KeyOf(probes[b])
  {
    assert probes[..a + 1][a] == probes[a] && probes[..b + 1][b] == probes[b];
    SameLabelIff(probes, a, b);
    LabelIs(probes, a);
    LabelIs(probes, b);
  }

  /** From the loss of the topology on, each logical CPU lands in the first type with its purpose. */
  lemma {:induction false} LostCpuLandsIff(probes: seq<Probe>, c: nat, i: nat)
    requires ProbesWellFormed(probes) && AllAgree(probes) && Run(probes, true).Running?
    requires c < |probes| && !TopologyKnown(probes[..c + 1]) && i < |Run(probes, true).state.types|
    ensures var types := Run(probes, true).state.types;
            c in types[i].cpus <==>
              types[i].purpose == probes[c].purpose && forall j | 0 <= j < i :: types[j].purpose != probes[c].purpose
  {
    var labels, types, purpose := Labels(probes), Run(probes, true).state.types, probes[c].purpose;
    var keys := TypeKeys(types);
    RunGroups(probes);
    LabelIs(probes, c);
    FirstWithPurposeOfFirst(labels, purpose);
    assert labels[c] == FirstWithPurpose(keys, purpose) && labels[c] in labels;
    assert c in types[i].cpus <==> keys[i] == labels[c];
    FirstOccurrencesOrdered(labels);
    assert forall j | 0 <= j < |types| :: keys[j].0 == types[j].purpose;
    FirstIsUnique(keys, purpose, i);
  }

  lemma {:induction false} FirstIsUnique(keys: seq<Key>, purpose: int, i: nat)
    requires NoDuplicates(keys) && i < |keys| && FirstWithPurpose(keys, purpose) in keys
    ensures keys[i] == FirstWithPurpose(keys, purpose) <==>
      keys[i].0 == purpose && forall j | 0 <= j < i :: keys[j].0 != purpose
  {
    var k := LeastWith(keys, purpose);
    FirstWithPurposeIs(keys, purpose, k);
  }

  lemma {:induction false} LeastWith(keys: seq<Key>, purpose: int) returns (k: nat)
    requires exists i :: 0 <= i < |keys| && keys[i].0 == purpose
    ensures k < |keys| && keys[k].0 == purpose && forall j | 0 <= j < k :: keys[j].0 != purpose
  {
    k := 0;
    while keys[k].0 != purpose
      invariant k < |keys| && forall j | 0 <= j < k :: keys[j].0 != purpose
      decreases |keys| - k
    {
      assert exists i :: k < i < |keys| && keys[i].0 == purpose;
      k := k + 1;
    }
  }

  /**
    That the purposes agree is needed: a record whose identified purpose is not the one it is looked
    up by is not found again by the next record with its key.
   */
  lemma {:induction false} FoundAgainIff(s: State, cpu: int, p: Probe, q: Probe)
    requires s.WellFormed() && s.supported && p.WellFormed() && p.ids.Some? && p.identity.Identified?
    requires Step(s, cpu, p, true).Running? && q.ids.Some? && KeyOf(q) == KeyOf(p)
    requires TypeIndex(Observe(s, p, true), p) == |s.types|
    ensures var s' := Step(s, cpu, p, true).state;
            TypeIndex(Observe(s', q, true), q) == |s.types| <==> p.identity.purpose == p.purpose
  {
    StepShape(s, cpu, p);
    var s' := Step(s, cpu, p, true).state;
    var n, s1 := |s.types|, Observe(s', q, true);
    assert s1.supported && s1.packageId == q.ids.value.packageId;
    assert forall i | 0 <= i < n :: !Matches(s1.types[i], q.purpose, s1.packageId, true) by {
      assert forall i | 0 <= i < n :: s1.types[i] == s.types[i];
    }
    assert s1.types[n].purpose == p.identity.purpose && s1.types[n].packageId == Some(s1.packageId);
    assert Matches(s1.types[n], q.purpose, s1.packageId, true) <==> p.identity.purpose == p.purpose;
  }

  // ----- the masks of a type

  function MasksIn(identity: Identity): seq<uint32> {
    if identity.Identified? then identity.masks else seq(NUM_CACHE_TYPES, _ => 0)
  }

  /** The masks of a label are those of the first record that has it. */
  ghost function MasksOf(probes: seq<Probe>, key: Key): (masks: seq<uint32>)
    requires ProbesWellFormed(probes) && key in Labels(probes)
    ensures |masks| == NUM_CACHE_TYPES
  {
    MasksIn(probes[FirstIndex(Labels(probes), key)].identity)
  }

  lemma {:induction false} LabelsOfFront(probes: seq<Probe>, n: nat)
    requires n + 1 == |probes|
    ensures Labels(probes) == Labels(probes[..n]) + [Labels(probes)[n]] && Labels(probes)[..n] == Labels(probes[..n])
  {
  }

  lemma {:induction false} MasksOfFront(probes: seq<Probe>, n: nat, key: Key)
    requires ProbesWellFormed(probes) && n + 1 == |probes| && key in Labels(probes)
    ensures key in Labels(probes[..n]) ==> MasksOf(probes, key) == MasksOf(probes[..n], key)
    ensures key !in Labels(probes[..n]) ==> MasksOf(probes, key) == MasksIn(probes[n].identity)
  {
    var front, last := Labels(probes[..n]), Labels(probes)[n];
    LabelsOfFront(probes, n);
    FirstIndexOfFront(front, last, key);
  }

  ghost predicate HasMasks(t: CpuTypeState, probes: seq<Probe>)
    requires ProbesWellFormed(probes)
  {
    TypeKey(t) in Labels(probes) && t.masks == MasksOf(probes, TypeKey(t))
  }

  /** Each type has the masks of the first record with its label. */
  lemma {:induction false} RunMasks(probes: seq<Probe>)
    requires ProbesWellFormed(probes) && AllAgree(probes) && Run(probes, true).Running?
    ensures forall i | 0 <= i < |Run(probes, true).state.types| :: HasMasks(Run(probes, true).state.types[i], probes)
  {
    if probes != [] {
      RunStep(probes, true);
      var n := |probes| - 1;
      RunMasks(probes[..n]);
      RunGroups(probes[..n]);
      SupportedIff(probes[..n]);
      MasksKept(Run(probes[..n], true).state, probes, n);
    }
  }

  lemma {:induction false} MasksKept(s: State, probes: seq<Probe>, n: nat)
    requires ProbesWellFormed(probes) && n + 1 == |probes| && s.WellFormed() && PurposesAgree(probes[n])
    requires Grouped(s, Labels(probes[..n])) && (s.supported <==> TopologyKnown(probes[..n]))
    requires Step(s, n, probes[n], true).Running?
    requires forall j | 0 <= j < |s.types| :: HasMasks(s.types[j], probes[..n])
    ensures var types := Step(s, n, probes[n], true).state.types;
            forall i | 0 <= i < |types| :: HasMasks(types[i], probes)
  {
    var p, front := probes[n], Labels(probes[..n]);
    var types := Step(s, n, p, true).state.types;
    KnownLonger(probes, n);
    LabelsOfFront(probes, n);
    GroupStep(s, p, front);
    FindIsLabel(s, p, front);
    StepGains(s, n, p);
    forall i | 0 <= i < |types|
      ensures HasMasks(types[i], probes)
    {
      assert TypeKeys(types)[i] in FirstOccurrences(Labels(probes));
      MasksStep(s, probes, n, i);
    }
  }

  lemma {:induction false} MasksStep(s: State, probes: seq<Probe>, n: nat, i: nat)
    requires ProbesWellFormed(probes) && n + 1 == |probes| && s.WellFormed()
    requires PurposesAgree(probes[n]) && Step(s, n, probes[n], true).Running?
    requires var s' := Step(s, n, probes[n], true).state;
             i < |s'.types| && TypeKey(s'.types[i]) in Labels(probes)
             && (i >= |s.types| ==> TypeKey(s'.types[i]) !in Labels(probes[..n]))
    requires forall j | 0 <= j < |s.types| :: HasMasks(s.types[j], probes[..n])
    ensures HasMasks(Step(s, n, probes[n], true).state.types[i], probes)
  {
    StepGains(s, n, probes[n]);
    MasksOfFront(probes, n, TypeKey(Step(s, n, probes[n], true).state.types[i]));
    if i < |s.types| {
      assert HasMasks(s.types[i], probes[..n]);
    }
  }
}

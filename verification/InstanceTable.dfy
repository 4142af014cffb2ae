/**
  The 256-slot hash tables that count distinct cores and distinct caches
  (`internal_core_instances_t`, and one level of `internal_cache_instances_t`).
 */
module InstanceTable {
  import opened Bits
  import opened Collections

  const HTABLE_SIZE := 256

  /** One slot: how many logical CPUs share the entity, and its ID. */
  datatype Slot = Slot(numLogicalCpu: uint16, id: int)

  /** The contents of a table: the 8-bit counter and the slots. */
  datatype Table = Table(instances: uint8, slots: seq<Slot>) {
    predicate WellFormed() { |slots| == HTABLE_SIZE }
  }

  function EmptyTable(): Table { Table(0, seq(HTABLE_SIZE, _ => Slot(0, 0))) }

  /** The `%` of C, which truncates toward zero. */
  function Remainder(id: int): int {
    if id >= 0 then id % HTABLE_SIZE else -((-id) % HTABLE_SIZE)
  }

  /** The slot number is computed in signed arithmetic; only these IDs give one inside the table. */
  predicate Indexable(id: int) { Remainder(id) >= 0 }

  function Touch(t: Table, id: int): (t': Table)
    requires t.WellFormed() && Indexable(id)
    ensures t'.WellFormed()
  {
    var slot := t.slots[Remainder(id)];
    if slot.id == 0 || slot.id == id then
      Table(if slot.numLogicalCpu == 0 then (t.instances + 1) % BYTE_RANGE else t.instances,
            t.slots[Remainder(id) := Slot((slot.numLogicalCpu + 1) % UINT16_RANGE, id)])
    else
      t
  }

  predicate AllIndexable(ids: seq<int>) { forall id | id in ids :: Indexable(id) }

  /** The table after a run of updates. */
  function TouchAll(ids: seq<int>): (t: Table)
    requires AllIndexable(ids)
    ensures t.WellFormed()
  {
    if ids == [] then EmptyTable() else Touch(TouchAll(ids[..|ids| - 1]), ids[|ids| - 1])
  }

  /** The slots a table reports as in use. */
  function Occupied(t: Table): set<int> {
    set r | 0 <= r < |t.slots| && t.slots[r].numLogicalCpu > 0
  }

  function Distinct(ids: seq<int>): set<int> { set id | id in ids }

  /** The mathematical residue, in 0..255 also for a negative ID. */
  function Residue(id: int): (r: int)
    ensures 0 <= r < HTABLE_SIZE
  {
    id % 256
  }

  function Residues(ids: seq<int>): set<int> { set id | id in ids :: Residue(id) }

  /** Every slot in use holds an ID that was seen and that hashes to it; an unused one is blank. */
  ghost predicate Consistent(t: Table, ids: seq<int>)
    requires t.WellFormed()
  {
    forall r | 0 <= r < HTABLE_SIZE :: SlotConsistent(t.slots[r], r, ids)
  }

  ghost predicate SlotConsistent(slot: Slot, r: int, ids: seq<int>) {
    && slot.numLogicalCpu <= |ids|
    && if slot.numLogicalCpu == 0 then slot.id == 0 else slot.id in ids && Residue(slot.id) == r
  }

  class Instances {
    var instances: uint8
    const htable: array<Slot>

    ghost predicate Valid() { htable.Length == HTABLE_SIZE }

    ghost function Value(): (t: Table)
      reads this, htable
      requires Valid()
      ensures t.WellFormed()
    {
      Table(instances, htable[..])
    }

    constructor ()
      ensures Valid() && fresh(htable) && Value() == EmptyTable()
    {
      instances := 0;
      htable := new Slot[HTABLE_SIZE](_ => Slot(0, 0));
    }

    method Update(id: int)
      requires Valid() && Indexable(id)
      modifies this, htable
      ensures Valid() && Value() == Touch(old(Value()), id)
    {
      var index := Remainder(id);
      if htable[index].id == 0 || htable[index].id == id {
        if htable[index].numLogicalCpu == 0 {
          instances := (instances + 1) % BYTE_RANGE;
        }
        htable[index] := Slot((htable[index].numLogicalCpu + 1) % UINT16_RANGE, id);
      }
    }
  }

  lemma {:induction false} ResiduesBounded(ids: seq<int>)
    ensures |Residues(ids)| <= HTABLE_SIZE
  {
    RangeSize(HTABLE_SIZE);
    SubsetSize(Residues(ids), Range(HTABLE_SIZE));
  }

  lemma {:induction false} IndexableRemainder(id: int)
    requires Indexable(id)
    ensures Remainder(id) == Residue(id)
  {
  }

  lemma {:induction false} SlotKept(slot: Slot, r: int, ids: seq<int>, id: int)
    requires SlotConsistent(slot, r, ids)
    ensures SlotConsistent(slot, r, ids + [id])
  {
    assert slot.id in ids ==> slot.id in ids + [id];
  }

  /** A slot that is blank or holds the ID is in use afterwards; its counter does not wrap. */
  lemma {:induction false} SlotTouched(slot: Slot, ids: seq<int>, id: int)
    requires SlotConsistent(slot, Residue(id), ids) && |ids| < UINT16_RANGE - 1
    ensures var slot' := Slot((slot.numLogicalCpu + 1) % UINT16_RANGE, id);
            SlotConsistent(slot', Residue(id), ids + [id]) && slot'.numLogicalCpu > 0
  {
    assert id in ids + [id];
    assert (slot.numLogicalCpu + 1) % UINT16_RANGE == slot.numLogicalCpu + 1;
  }

  /** What one update does to each slot. */
  lemma {:induction false} TouchSlot(t: Table, id: int, ids: seq<int>, r: int)
    requires t.WellFormed() && Indexable(id) && |ids| < UINT16_RANGE - 1 && Consistent(t, ids) && 0 <= r < HTABLE_SIZE
    ensures SlotConsistent(Touch(t, id).slots[r], r, ids + [id])
    ensures Touch(t, id).slots[r].numLogicalCpu > 0 <==> t.slots[r].numLogicalCpu > 0 || r == Residue(id)
  {
    IndexableRemainder(id);
    assert SlotConsistent(t.slots[r], r, ids);
    if r == Residue(id) && (t.slots[r].id == 0 || t.slots[r].id == id) {
      SlotTouched(t.slots[r], ids, id);
    } else {
      SlotKept(t.slots[r], r, ids, id);
    }
  }

  lemma {:induction false} TouchKeeps(t: Table, id: int, ids: seq<int>)
    requires t.WellFormed() && Indexable(id) && |ids| < UINT16_RANGE - 1 && Consistent(t, ids)
    ensures Consistent(Touch(t, id), ids + [id])
    ensures Occupied(Touch(t, id)) == Occupied(t) + {Residue(id)}
    ensures Touch(t, id).instances
      == (if Residue(id) in Occupied(t) then t.instances else (t.instances + 1) % BYTE_RANGE)
  {
    IndexableRemainder(id);
    assert SlotConsistent(t.slots[Residue(id)], Residue(id), ids);
    forall r | 0 <= r < HTABLE_SIZE
      ensures SlotConsistent(Touch(t, id).slots[r], r, ids + [id])
      ensures r in Occupied(Touch(t, id)) <==> r in Occupied(t) || r == Residue(id)
    {
      TouchSlot(t, id, ids, r);
    }
  }

  /**
    After any run of at most 65535 updates the slots in use are exactly the residues of the
    IDs seen, whether or not IDs collided, and the counter is their number on 8 bits.
   */
  lemma {:induction false} OccupiedAreResidues(ids: seq<int>)
    requires AllIndexable(ids) && |ids| < UINT16_RANGE
    ensures Consistent(TouchAll(ids), ids)
    ensures Occupied(TouchAll(ids)) == Residues(ids)
    ensures TouchAll(ids).instances == |Residues(ids)| % BYTE_RANGE
  {
    if ids == [] {
    } else {
      var front, id := ids[..|ids| - 1], ids[|ids| - 1];
      assert ids == front + [id];
      OccupiedAreResidues(front);
      OccupiedStep(TouchAll(front), front, id);
    }
  }

  lemma {:induction false} OccupiedStep(t: Table, front: seq<int>, id: int)
    requires Indexable(id) && |front| < UINT16_RANGE - 1
    requires t.WellFormed() && Consistent(t, front) && Occupied(t) == Residues(front)
    requires t.instances == |Residues(front)| % BYTE_RANGE
    ensures Consistent(Touch(t, id), front + [id])
    ensures Occupied(Touch(t, id)) == Residues(front + [id])
    ensures Touch(t, id).instances == |Residues(front + [id])| % BYTE_RANGE
  {
    TouchKeeps(t, id, front);
    CountStep(Occupied(t), Residue(id), t.instances);
  }

  lemma {:induction false} CountStep(used: set<int>, r: int, count: uint8)
    requires count == |used| % BYTE_RANGE
    ensures (if r in used then count else (count + 1) % BYTE_RANGE) == |used + {r}| % BYTE_RANGE
  {
    if r in used {
      assert used + {r} == used;
    }
  }

  ghost predicate ResiduesDistinct(xs: set<int>) {
    forall x, y | x in xs && y in xs && x != y :: Residue(x) != Residue(y)
  }

  /** The counter is the exact number of distinct IDs iff the residues are distinct and fit 8 bits. */
  lemma {:induction false} ExactCount(ids: seq<int>)
    requires AllIndexable(ids) && |ids| < UINT16_RANGE
    ensures TouchAll(ids).instances == |Distinct(ids)|
      <==> |Distinct(ids)| < BYTE_RANGE && ResiduesDistinct(Distinct(ids))
  {
    OccupiedAreResidues(ids);
    ResiduesBounded(ids);
    ImageSize(Distinct(ids), Residues(ids));
  }

  /** The counter of a table in use reads 0 exactly when all 256 slots are occupied. */
  lemma {:induction false} CounterIsZeroIff(ids: seq<int>)
    requires AllIndexable(ids) && |ids| < UINT16_RANGE
    ensures TouchAll(ids).instances == 0 <==> ids == [] || |Residues(ids)| == HTABLE_SIZE
  {
    OccupiedAreResidues(ids);
    ResiduesBounded(ids);
    if ids != [] {
      assert ids[0] in ids && Residue(ids[0]) in Residues(ids);
    }
  }

  lemma {:induction false} ImageSize(xs: set<int>, rs: set<int>)
    requires rs == set x | x in xs :: Residue(x)
    ensures |rs| <= |xs|
    ensures |rs| == |xs| <==> ResiduesDistinct(xs)
    decreases xs
  {
    if xs == {} {
      assert rs == {};
    } else {
      var x := Choose(xs);
      var xs' := xs - {x};
      var rs' := set y | y in xs' :: Residue(y);
      ImageSize(xs', rs');
      assert rs == rs' + {Residue(x)};
      assert Residue(x) in rs' <==> exists y :: y in xs' && Residue(y) == Residue(x);
    }
  }

  /** The counter after `n` updates with one ID: it grows each time the slot counter wraps. */
  function WrappedCount(n: nat): nat { (n + UINT16_RANGE - 1) / UINT16_RANGE }

  lemma {:induction false} WrappedCountStep(n: nat)
    ensures WrappedCount(n + 1) == WrappedCount(n) + (if n % UINT16_RANGE == 0 then 1 else 0)
    ensures n <= 255 * UINT16_RANGE ==> WrappedCount(n) <= 255
  {
  }

  lemma {:induction false} TouchSame(t: Table, id: int, n: nat)
    requires t.WellFormed() && Indexable(id)
    requires t.slots[Remainder(id)] == Slot(n % UINT16_RANGE, if n == 0 then 0 else id)
    ensures Touch(t, id).slots[Remainder(id)] == Slot((n + 1) % UINT16_RANGE, id)
    ensures Touch(t, id).instances == if n % UINT16_RANGE == 0 then (t.instances + 1) % BYTE_RANGE else t.instances
  {
  }

  /**
    Without the bound on the run length the count is wrong: one ID alone is counted again
    each time its slot counter wraps to 0.
   */
  lemma {:induction false} SlotCounterWraps(id: int, n: nat)
    requires Indexable(id) && n <= 255 * UINT16_RANGE
    ensures TouchAll(seq(n, _ => id)).instances == WrappedCount(n)
    ensures n > 0 ==> TouchAll(seq(n, _ => id)).slots[Remainder(id)] == Slot(n % UINT16_RANGE, id)
  {
    if n > 0 {
      var ids, front := seq(n, _ => id), seq(n - 1, _ => id);
      assert ids[..n - 1] == front && ids[n - 1] == id;
      SlotCounterWraps(id, n - 1);
      WrappedCountStep(n - 1);
      WrappedCountStep(n);
      assert n == 1 ==> TouchAll(front) == EmptyTable();
      TouchSame(TouchAll(front), id, n - 1);
    }
  }
}

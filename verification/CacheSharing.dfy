/**
  Which logical CPUs share a cache: the deterministic cache leaves
  (`get_count_order`, `decode_deterministic_cache_info_x86`) and the cache IDs made from them.
 */
module CacheSharing {
  import opened Bits
  import opened Collections
  import opened InstanceTable
  import opened RawData
  import opened Topology

  const NUM_CACHE_TYPES := 5

  /** The least `k` with `x <= 2^k`; -1 for 0. */
  function CountOrder(x: nat): (k: int)
    ensures x > 0 ==> k >= 0
  {
    if x == 0 then -1 else if x == 1 then 0 else 1 + CountOrder((x + 1) / 2)
  }

  lemma {:induction false} CountOrderBounds(x: nat)
    requires x > 0
    ensures x <= Pow2(CountOrder(x)) < 2 * x
  {
    if x > 1 {
      CountOrderBounds((x + 1) / 2);
    }
  }

  /** The number of binary digits. */
  function Width(x: nat): nat {
    if x == 0 then 0 else 1 + Width(x / 2)
  }

  lemma {:induction false} CountOrderIsWidth(x: nat)
    requires x > 0
    ensures CountOrder(x) == Width(x - 1)
  {
    if x > 1 {
      CountOrderIsWidth((x + 1) / 2);
      assert (x + 1) / 2 - 1 == (x - 1) / 2;
    }
  }

  lemma {:induction false} WidthBelow(x: nat, w: nat)
    ensures x < Pow2(w) <==> Width(x) <= w
    decreases w
  {
    if w > 0 {
      WidthBelow(x / 2, w - 1);
    }
  }

  lemma {:induction false} WidthShifted(x: nat, s: nat)
    requires x > 0
    ensures Width(x * Pow2(s)) == Width(x) + s
    decreases s
  {
    if s > 0 {
      WidthShifted(x, s - 1);
      TimesDouble(x, Pow2(s - 1));
    }
  }

  lemma {:induction false} TimesDouble(x: nat, p: nat)
    requires x > 0 && p > 0
    ensures x * (2 * p) == 2 * (x * p) && x * p > 0
  {
  }

  /** One step of the bisection: when the top `s` bits of `x` are zero, shift them out. */
  method Bisect(x: uint32, r: int, s: nat) returns (x': uint32, r': int)
    requires 0 < x && 0 < s <= 32
    ensures 0 < x'
    ensures var out := if Width(x) <= 32 - s then s else 0;
            r' == r - out && Width(x') == Width(x) + out
  {
    TopBitsZero(x, 32 - s);
    if And(x, UINT32_RANGE - Pow2(32 - s)) == 0 {
      ShiftFits(x, s);
      x', r' := ShiftLeft32(x, s), r - s;
    } else {
      x', r' := x, r;
    }
  }

  /** `x <<= s` on 32 bits. */
  function ShiftLeft32(x: uint32, s: nat): uint32 { (x * Pow2(s)) % UINT32_RANGE }

  lemma {:induction false} TopBitsZero(x: uint32, k: nat)
    requires k <= 32
    ensures Pow2(k) <= UINT32_RANGE
    ensures And(x, UINT32_RANGE - Pow2(k)) == 0 <==> Width(x) <= k
  {
    AndBlockMask32(x, k);
    DivisionBelow(x, Pow2(k));
    WidthBelow(x, k);
  }

  lemma {:induction false} DivisionBelow(x: nat, m: nat)
    requires m > 0
    ensures x - x % m == 0 <==> x < m
  {
    if x < m {
      DivisionUnique(x, m, 0, x);
    }
  }

  lemma {:induction false} ShiftFits(x: uint32, s: nat)
    requires 0 < x && s <= 32 && Width(x) <= 32 - s
    ensures 0 < ShiftLeft32(x, s) && Width(ShiftLeft32(x, s)) == Width(x) + s
  {
    WidthShifted(x, s);
    TimesDouble(x, Pow2(s));
    FitsWord(x * Pow2(s));
  }

  lemma {:induction false} FitsWord(y: nat)
    requires Width(y) <= 32
    ensures y % UINT32_RANGE == y
  {
    Pow2Constants();
    var width: nat :| width == 32;
    WidthBelow(y, width);
  }

  /** `get_count_order` */
  method GetCountOrder(x: uint32) returns (r: int)
    ensures r == CountOrder(x)
  {
    if x == 0 { return -1; }
    var y := x - 1;
    if y == 0 { return 0; }
    CountOrderIsWidth(x);
    UInt32Width(y);
    r := 32;
    y, r := Bisect(y, r, 16);
    y, r := Bisect(y, r, 8);
    y, r := Bisect(y, r, 4);
    y, r := Bisect(y, r, 2);
    y, r := Bisect(y, r, 1);
  }

  lemma {:induction false} UInt32Width(x: uint32)
    ensures Width(x) <= 32
  {
    Pow2Constants();
    var width: nat :| width == 32;
    WidthBelow(x, width);
  }

  /** `get_count_order` gives the exponent of the least power of two that is not below `n`. */
  lemma {:induction false} CountOrderIsLeast(n: nat, k: nat)
    requires n > 0
    ensures n <= Pow2(k) <==> CountOrder(n) <= k
    ensures n <= Pow2(CountOrder(n)) < 2 * n
  {
    CountOrderBounds(n);
    CountOrderIsWidth(n);
    WidthBelow(n - 1, k);
  }

  /** At most 4096 sharing CPUs need at most 12 bits. */
  lemma {:induction false} SharingOrder(n: nat)
    requires 1 <= n <= 4096
    ensures CountOrder(n) <= 12
  {
    CountOrderIsLeast(n, 12);
    assert Pow2(12) == 4096;
  }

  // ----- the deterministic cache leaves

  function CacheLevel(regs: Regs): nat { Field(regs.eax, 7, 5) }
  function CacheTypeNumber(regs: Regs): nat { Field(regs.eax, 4, 0) }

  /** How many logical CPUs share the cache: 1 to 4096. */
  function NumSharing(regs: Regs): (n: nat)
    ensures 1 <= n <= 4096
  {
    assert Pow2(12) == 4096;
    Field(regs.eax, 25, 14) + 1
  }

  /** A null subleaf ends the enumeration. */
  predicate IsLast(regs: Regs) { CacheLevel(regs) == 0 || CacheTypeNumber(regs) == 0 }

  // The indices of `cache_type_t`; UNKNOWN_CACHE stands for none of them.
  const L1I := 0
  const L1D := 1
  const L2 := 2
  const L3 := 3
  const L4 := 4
  const UNKNOWN_CACHE := -1

  /** The cache type of a combination of level and type number. */
  function CacheTypeOf(regs: Regs): (t: int)
    ensures UNKNOWN_CACHE <= t < NUM_CACHE_TYPES
  {
    match (CacheLevel(regs), CacheTypeNumber(regs))
    case (1, 1) => L1D
    case (1, 2) => L1I
    case (2, 3) => L2
    case (3, 3) => L3
    case (4, 3) => L4
    case _ => UNKNOWN_CACHE
  }

  predicate IsKnownCache(regs: Regs) { CacheTypeOf(regs) != UNKNOWN_CACHE }

  /** `~((1 << k) - 1)` for the exponent `k` of the number of sharing CPUs. */
  function SharingMask(n: nat): (m: uint32)
    requires 1 <= n <= 4096
    ensures m == UINT32_RANGE - Pow2(CountOrder(n))
    ensures m != 0
  {
    CountOrderBounds(n);
    UINT32_RANGE - Pow2(CountOrder(n))
  }

  /** The number of subleaves before the first null one. */
  function Subleaves(regs: seq<Regs>, from: nat := 0): (n: nat)
    requires from <= |regs|
    ensures from <= n <= |regs|
    ensures forall i | from <= i < n :: !IsLast(regs[i])
    ensures n < |regs| ==> IsLast(regs[n])
    decreases |regs| - from
  {
    if from < |regs| && !IsLast(regs[from]) then Subleaves(regs, from + 1) else from
  }

  function CacheTypes(regs: seq<Regs>): (types: seq<int>)
    ensures |types| == Subleaves(regs) && forall i | 0 <= i < |types| :: types[i] == CacheTypeOf(regs[i])
  {
    seq(Subleaves(regs), i requires 0 <= i < Subleaves(regs) => CacheTypeOf(regs[i]))
  }

  function SharingCounts(regs: seq<Regs>): (counts: seq<nat>)
    ensures |counts| == Subleaves(regs) && AreSharingCounts(counts)
    ensures forall i | 0 <= i < |counts| :: counts[i] == NumSharing(regs[i])
  {
    seq(Subleaves(regs), i requires 0 <= i < Subleaves(regs) => NumSharing(regs[i]))
  }

  predicate AreSharingCounts(counts: seq<nat>) { forall i | 0 <= i < |counts| :: 1 <= counts[i] <= 4096 }

  /** The mask at an index as it is written: that of the subleaf with this number, 0 if it has no known cache. */
  function MaskBySubleaf(types: seq<int>, counts: seq<nat>, t: int): uint32
    requires |counts| == |types| && AreSharingCounts(counts)
  {
    if 0 <= t < |types| && types[t] != UNKNOWN_CACHE then SharingMask(counts[t]) else 0
  }

  /** The mask at an index as it is read: that of the last of the first `n` subleaves with the cache of this type. */
  function MaskByType(types: seq<int>, counts: seq<nat>, n: nat, t: int): uint32
    requires |counts| == |types| && AreSharingCounts(counts) && n <= |types|
  {
    if n == 0 then 0
    else if types[n - 1] == t then SharingMask(counts[n - 1])
    else MaskByType(types, counts, n - 1, t)
  }

  /**
    The masks written by `decode_deterministic_cache_info_x86`. They are indexed by subleaf, so a
    known cache may not be enumerated beyond the fifth one.
   */
  method DecodeCacheMasks(regs: seq<Regs>, cacheMask: array<uint32>)
    requires |regs| < BYTE_RANGE && cacheMask.Length == NUM_CACHE_TYPES
    requires forall i | NUM_CACHE_TYPES <= i < Subleaves(regs) :: !IsKnownCache(regs[i])
    modifies cacheMask
    ensures forall i | 0 <= i < NUM_CACHE_TYPES ::
      cacheMask[i] == if i < Subleaves(regs) && IsKnownCache(regs[i]) then SharingMask(NumSharing(regs[i]))
                      else old(cacheMask[i])
    ensures forall i | 0 <= i < NUM_CACHE_TYPES && old(cacheMask[i]) == 0 ::
      cacheMask[i] == MaskBySubleaf(CacheTypes(regs), SharingCounts(regs), i)
  {
    var i := 0;
    while i < |regs|
      invariant i <= |regs| && Subleaves(regs, i) == Subleaves(regs)
      invariant forall j | 0 <= j < NUM_CACHE_TYPES ::
        cacheMask[j] == if j < i && IsKnownCache(regs[j]) then SharingMask(NumSharing(regs[j])) else old(cacheMask[j])
    {
      if IsLast(regs[i]) { break; }
      if IsKnownCache(regs[i]) {
        var n := NumSharing(regs[i]);
        var k := GetCountOrder(n);
        CountOrderBounds(n);
        cacheMask[i] := Not32(Pow2(k) - 1);
      }
      i := i + 1;
    }
  }

  // ----- what the registers say

  lemma {:induction false} CacheFields(eax: uint32)
    ensures Field(eax, 4, 0) == eax % 32 && Field(eax, 7, 5) == eax / 32 % 8
    ensures Field(eax, 25, 14) == eax / 16384 % 4096
  {
    Pow2Values();
    assert Pow2(3) == 8 && Pow2(12) == 4096 && Pow2(14) == 4 * Pow2(12);
  }

  lemma {:induction false} LowByte(x: nat)
    ensures x % 256 == x % 32 + 32 * (x / 32 % 8)
  {
    var q := x / 256;
    assert x == 256 * q + x % 256;
    assert x / 32 == 8 * q + x % 256 / 32;
  }

  /** The level and the type of a cache, in the low byte of EAX, give its index; a null one ends the enumeration. */
  lemma {:induction false} CacheTypeIs(regs: Regs)
    ensures CacheTypeOf(regs) ==
      match regs.eax % 256
      case 0x21 => 1
      case 0x22 => 0
      case 0x43 => 2
      case 0x63 => 3
      case 0x83 => 4
      case _ => -1
    ensures IsLast(regs) <==> regs.eax % 32 == 0 || regs.eax / 32 % 8 == 0
  {
    CacheFields(regs.eax);
    LowByte(regs.eax);
  }

  /** The mask of a cache clears the bits that its sharing CPUs, counted in bits 14 to 25 of EAX, need. */
  lemma {:induction false} SharingMaskIs(regs: Regs) returns (k: nat)
    ensures var sharing := regs.eax / 16384 % 4096 + 1;
            && sharing <= Pow2(k) < 2 * sharing
            && SharingMask(NumSharing(regs)) == 0x1_0000_0000 - Pow2(k)
  {
    CacheFields(regs.eax);
    CountOrderBounds(NumSharing(regs));
    k := CountOrder(NumSharing(regs));
  }

  // ----- masks by subleaf and by cache type

  /** All masks are at the index of their cache type. */
  ghost predicate MasksAtTheirTypes(types: seq<int>, counts: seq<nat>)
    requires |counts| == |types| && AreSharingCounts(counts)
  {
    forall t | 0 <= t < NUM_CACHE_TYPES :: MaskBySubleaf(types, counts, t) == MaskByType(types, counts, |types|, t)
  }

  /** Every known cache is enumerated in the subleaf with the number of its type. */
  predicate InTypeOrder(types: seq<int>) {
    forall i | 0 <= i < |types| && types[i] != UNKNOWN_CACHE :: types[i] == i
  }

  /** Whatever the sharing counts are, masks are at the index of their type exactly in type order. */
  lemma {:induction false} MasksAtTheirTypesIff(types: seq<int>)
    requires forall i | 0 <= i < |types| :: UNKNOWN_CACHE <= types[i] < NUM_CACHE_TYPES
    requires forall i | NUM_CACHE_TYPES <= i < |types| :: types[i] == UNKNOWN_CACHE
    ensures (forall counts: seq<nat> | |counts| == |types| && AreSharingCounts(counts) ::
              MasksAtTheirTypes(types, counts))
      <==> InTypeOrder(types)
  {
    if InTypeOrder(types) {
      forall counts: seq<nat>, t: int | |counts| == |types| && AreSharingCounts(counts) && 0 <= t < NUM_CACHE_TYPES
        ensures MaskBySubleaf(types, counts, t) == MaskByType(types, counts, |types|, t)
      {
        InOrderMask(types, counts, |types|, t);
      }
    } else {
      var i :| 0 <= i < |types| && types[i] != UNKNOWN_CACHE && types[i] != i;
      var _ := OutOfOrderMask(types, i);
    }
  }

  lemma {:induction false} InOrderMask(types: seq<int>, counts: seq<nat>, n: nat, t: int)
    requires |counts| == |types| && AreSharingCounts(counts) && n <= |types|
    requires InTypeOrder(types) && 0 <= t < NUM_CACHE_TYPES
    ensures MaskByType(types, counts, n, t) == if t < n then MaskBySubleaf(types, counts, t) else 0
  {
    if n > 0 {
      InOrderMask(types, counts, n - 1, t);
    }
  }

  /** A cache in the wrong subleaf: with one sharing count there and another elsewhere the masks differ. */
  lemma {:induction false} OutOfOrderMask(types: seq<int>, i: nat) returns (counts: seq<nat>)
    requires i < |types| && i < NUM_CACHE_TYPES && types[i] != UNKNOWN_CACHE && types[i] != i
    ensures |counts| == |types| && AreSharingCounts(counts) && !MasksAtTheirTypes(types, counts)
  {
    counts := seq(|types|, j => if j == i then 1 else 2);
    MaskOfType(types, counts, |types|, i);
    assert SharingMask(1) != SharingMask(2);
    assert MaskBySubleaf(types, counts, i) != MaskByType(types, counts, |types|, i);
  }

  lemma {:induction false} MaskOfType(types: seq<int>, counts: seq<nat>, n: nat, t: int)
    requires |counts| == |types| && AreSharingCounts(counts) && n <= |types|
    requires forall j | 0 <= j < |types| && types[j] == t :: counts[j] == 2
    ensures MaskByType(types, counts, n, t) == 0 || MaskByType(types, counts, n, t) == SharingMask(2)
  {
    if n > 0 {
      MaskOfType(types, counts, n - 1, t);
    }
  }

  /** With the data cache in subleaf 0 and the instruction cache in subleaf 1 the two masks are exchanged. */
  lemma {:induction false} FirstLevelMasksExchanged(types: seq<int>, counts: seq<nat>)
    requires |counts| == |types| && AreSharingCounts(counts)
    requires |types| >= 2 && types[0] == L1D && types[1] == L1I
    requires forall i | 2 <= i < |types| :: types[i] != L1D && types[i] != L1I
    ensures MaskBySubleaf(types, counts, L1I) == MaskByType(types, counts, |types|, L1D)
    ensures MaskBySubleaf(types, counts, L1D) == MaskByType(types, counts, |types|, L1I)
  {
    OnlyFirstTwo(types, counts, |types|);
  }

  lemma {:induction false} OnlyFirstTwo(types: seq<int>, counts: seq<nat>, n: nat)
    requires |counts| == |types| && AreSharingCounts(counts) && 2 <= n <= |types|
    requires types[0] == L1D && types[1] == L1I
    requires forall i | 2 <= i < |types| :: types[i] != L1D && types[i] != L1I
    ensures MaskByType(types, counts, n, L1D) == SharingMask(counts[0])
    ensures MaskByType(types, counts, n, L1I) == SharingMask(counts[1])
  {
    if n > 2 {
      OnlyFirstTwo(types, counts, n - 1);
    } else {
      assert MaskByType(types, counts, 1, L1D) == SharingMask(counts[0]);
    }
  }

  // ----- cache IDs

  /** Two logical CPUs get one ID for a cache exactly when they lie in one aligned block of 2^k. */
  lemma {:induction false} SameCacheIff(a: uint32, b: uint32, n: nat)
    requires 1 <= n <= 4096
    ensures Masked(a, SharingMask(n)) == Masked(b, SharingMask(n))
      <==> a / Pow2(CountOrder(n)) == b / Pow2(CountOrder(n))
  {
    MaskedBySharing(a, n);
    MaskedBySharing(b, n);
    SameBlock(a, b, Pow2(CountOrder(n)));
  }

  lemma {:induction false} SameBlock(a: nat, b: nat, p: nat)
    requires p > 0
    ensures a - a % p == b - b % p <==> a / p == b / p
  {
    assert a == p * (a / p) + a % p && b == p * (b / p) + b % p;
    var d := a / p - b / p;
    assert p * d == (a - a % p) - (b - b % p);
    assert d >= 1 ==> p * d >= 1;
    assert d <= -1 ==> p * d <= -1;
  }

  lemma {:induction false} AndSharingMask(a: uint32, k: nat, mask: uint32)
    requires k <= 32 && mask == UINT32_RANGE - Pow2(k)
    ensures And(a, mask) == a - a % Pow2(k)
  {
    AndBlockMask32(a, k);
  }

  lemma {:induction false} MaskedBySharing(a: uint32, n: nat)
    requires 1 <= n <= 4096
    ensures And(a, SharingMask(n)) == a - a % Pow2(CountOrder(n))
  {
    SharingOrder(n);
    AndSharingMask(a, CountOrder(n), SharingMask(n));
  }

  function CacheIds(apicIds: seq<uint32>, mask: uint32): (ids: seq<int>)
    ensures |ids| == |apicIds| && forall i | 0 <= i < |ids| :: ids[i] == Masked(apicIds[i], mask)
  {
    seq(|apicIds|, i requires 0 <= i < |apicIds| => Masked(apicIds[i], mask))
  }

  /** The largest number of slots a cache shared by `n` logical CPUs can use. */
  function MaxSlots(n: nat): nat
    requires 1 <= n <= 4096
  {
    CountOrderBounds(n);
    if CountOrder(n) <= 8 then Pow2(8 - CountOrder(n)) else 1
  }

  /** A table fed through one sharing mask uses at most max(1, 2^(8-k)) slots. */
  lemma {:induction false} SlotsBound(apicIds: seq<uint32>, n: nat)
    requires 1 <= n <= 4096
    requires |apicIds| < UINT16_RANGE && AllIndexable(CacheIds(apicIds, SharingMask(n)))
    ensures |Occupied(TouchAll(CacheIds(apicIds, SharingMask(n))))| <= MaxSlots(n)
  {
    CountOrderBounds(n);
    var ids := CacheIds(apicIds, SharingMask(n));
    OccupiedAreResidues(ids);
    var c := MaxSlots(n);
    var m := Stride(n);
    forall r | r in Residues(ids)
      ensures r in Multiples(m, c)
    {
      var id :| id in ids && Residue(id) == r;
      var i :| 0 <= i < |ids| && ids[i] == id;
      var j := ResidueIsMultiple(apicIds[i], n);
      MultiplesContain(m, c, j);
    }
    MultiplesSize(m, c);
    SubsetSize(Residues(ids), Multiples(m, c));
  }

  ghost function Multiples(m: nat, c: nat): set<int> {
    if c == 0 then {} else Multiples(m, c - 1) + {(c - 1) * m}
  }

  lemma {:induction false} MultiplesSize(m: nat, c: nat)
    ensures |Multiples(m, c)| <= c
  {
    if c > 0 {
      MultiplesSize(m, c - 1);
    }
  }

  lemma {:induction false} MultiplesContain(m: nat, c: nat, j: nat)
    requires j < c
    ensures j * m in Multiples(m, c)
  {
    if j < c - 1 {
      MultiplesContain(m, c - 1, j);
    }
  }

  /** The distance between two slots a cache shared by `n` logical CPUs can use. */
  function Stride(n: nat): nat
    requires 1 <= n <= 4096
  {
    if CountOrder(n) <= 8 then Pow2(CountOrder(n)) else 256
  }

  lemma {:induction false} ResidueIsMultiple(a: uint32, n: nat) returns (j: nat)
    requires 1 <= n <= 4096
    ensures j < MaxSlots(n) && Residue(Masked(a, SharingMask(n))) == j * Stride(n)
  {
    ResidueOfMasked(a, n);
    if CountOrder(n) <= 8 {
      j := LowBlockResidue(a, CountOrder(n));
    } else {
      j := 0;
      HighBlockResidue(a, CountOrder(n));
    }
  }

  lemma {:induction false} HighBlockResidue(a: nat, k: nat)
    requires k >= 8
    ensures (a - a % Pow2(k)) % 256 == 0
  {
    Nested256(a, k);
    RemainderAtMost(a, Pow2(k));
    AlignedResidue(a, a % Pow2(k));
  }

  lemma {:induction false} LowBlockResidue(a: nat, k: nat) returns (j: nat)
    requires k <= 8
    ensures j < Pow2(8 - k)
    ensures (a - a % Pow2(k)) % 256 == j * Pow2(k)
  {
    Nested256(a, k);
    EightBits(k);
    j := QuotientBelow(a % 256, Pow2(k), Pow2(8 - k));
    RemainderAtMost(a, Pow2(k));
    AlignedResidue(a, a % Pow2(k));
  }

  lemma {:induction false} Nested256(x: nat, k: nat)
    ensures k >= 8 ==> (x % Pow2(k)) % 256 == x % 256
    ensures k <= 8 ==> (x % 256) % Pow2(k) == x % Pow2(k) && x % Pow2(k) <= x % 256
  {
    var eight: nat :| eight == 8;
    Pow2Constants();
    if k >= 8 {
      RemainderNested(x, eight, k);
    }
    if k <= 8 {
      RemainderNested(x, k, eight);
      RemainderAtMost(x % 256, Pow2(k));
    }
  }

  lemma {:induction false} EightBits(k: nat)
    requires k <= 8
    ensures Pow2(k) * Pow2(8 - k) == 256
  {
    var eight: nat :| eight == 8;
    Pow2Constants();
  }

  lemma {:induction false} RemainderAtMost(a: nat, m: nat)
    requires m > 0
    ensures 0 <= a % m <= a
  {
    assert a == m * (a / m) + a % m;
  }

  lemma {:induction false} AlignedResidue(a: nat, r: nat)
    requires r <= a
    ensures r <= a % 256 ==> (a - r) % 256 == a % 256 - r
    ensures r % 256 == a % 256 ==> (a - r) % 256 == 0
  {
  }

  /** The aligned part of a number below p * c is a multiple of p with a factor below c. */
  lemma {:induction false} QuotientBelow(x: nat, p: nat, c: nat) returns (q: nat)
    requires p > 0 && x < p * c
    ensures q < c && x - x % p == q * p
  {
    q := x / p;
    assert x == p * q + x % p;
    assert q >= c ==> p * q >= p * c;
  }

  lemma {:induction false} ResidueOfMasked(a: uint32, n: nat)
    requires 1 <= n <= 4096
    ensures Residue(Masked(a, SharingMask(n))) == (a - a % Pow2(CountOrder(n))) % 256
  {
    MaskedBySharing(a, n);
    ResidueOfInt32(And(a, SharingMask(n)));
  }

  lemma {:induction false} ResidueOfInt32(x: nat)
    requires x < UINT32_RANGE
    ensures Residue(Int32(x)) == x % 256
  {
  }
}

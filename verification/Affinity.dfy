/**
  The affinity mask: one bit per logical CPU in a byte array (`cpu_affinity_mask_t`).
 */
module Affinity {
  import opened Bits
  import opened Text

  const MASK_NCPUBITS := 8
  const MASK_SETSIZE := 8192

  predicate HasCpu(bytes: seq<uint8>, cpu: int) {
    && 0 <= cpu < MASK_NCPUBITS * |bytes|
    && Bit(bytes[cpu / MASK_NCPUBITS], cpu % MASK_NCPUBITS)
  }

  /** The logical CPUs whose bit is set. */
  function CpusOf(bytes: seq<uint8>): set<int> {
    set cpu | 0 <= cpu < MASK_NCPUBITS * |bytes| && HasCpu(bytes, cpu)
  }

  class AffinityMask {
    const bits: array<uint8>

    ghost predicate Valid() { bits.Length == MASK_SETSIZE }

    ghost function Cpus(): set<int>
      reads bits
    {
      CpusOf(bits[..])
    }

    constructor ()
      ensures Valid() && fresh(bits) && Cpus() == {}
    {
      bits := new uint8[MASK_SETSIZE](_ => 0);
      new;
      forall cpu | 0 <= cpu < MASK_NCPUBITS * MASK_SETSIZE
        ensures !HasCpu(bits[..], cpu)
      {
        BitZero(cpu % MASK_NCPUBITS);
      }
    }

    method SetBit(cpu: uint16)
      requires Valid()
      modifies bits
      ensures Cpus() == old(Cpus()) + {cpu}
    {
      var index, k := cpu / MASK_NCPUBITS, cpu % MASK_NCPUBITS;
      OrByte(bits[index], k);
      bits[index] := Or(bits[index], Pow2(k));
    }

    method ClearBit(cpu: uint16)
      requires Valid()
      modifies bits
      ensures Cpus() == old(Cpus()) - {cpu}
    {
      var index, k := cpu / MASK_NCPUBITS, cpu % MASK_NCPUBITS;
      ClearByte(bits[index], k);
      bits[index] := And(bits[index], Not32(Pow2(k)));
    }

    method GetBit(cpu: uint16) returns (r: bool)
      requires Valid()
      ensures r <==> cpu in Cpus()
    {
      AndPow2(bits[cpu / MASK_NCPUBITS], cpu % MASK_NCPUBITS);
      r := And(bits[cpu / MASK_NCPUBITS], Pow2(cpu % MASK_NCPUBITS)) != 0;
      assert r <==> HasCpu(bits[..], cpu);
    }

    method CopyFrom(src: AffinityMask)
      requires Valid() && src.Valid()
      modifies bits
      ensures bits[..] == old(src.bits[..]) && Cpus() == old(src.Cpus())
    {
      forall i | 0 <= i < MASK_SETSIZE {
        bits[i] := src.bits[i];
      }
      assert bits[..] == old(src.bits[..]);
    }
  }

  /** Setting a bit of a byte keeps it a byte. */
  lemma {:induction false} OrByte(b: uint8, k: nat)
    requires k < 8
    ensures Or(b, Pow2(k)) < BYTE_RANGE
    ensures forall i: nat :: Bit(Or(b, Pow2(k)), i) <==> Bit(b, i) || i == k
  {
    Pow2Constants();
    Pow2Monotone(k + 1, 8);
    OrBound(b, Pow2(k), 8);
    forall i: nat
      ensures Bit(Or(b, Pow2(k)), i) <==> Bit(b, i) || i == k
    {
      BitOr(b, Pow2(k), i);
      BitPow2(k, i);
    }
  }

  lemma {:induction false} ClearByte(b: uint8, k: nat)
    requires k < 8
    ensures Pow2(k) < UINT32_RANGE && And(b, Not32(Pow2(k))) < BYTE_RANGE
    ensures forall i: nat :: Bit(And(b, Not32(Pow2(k))), i) <==> Bit(b, i) && i != k
  {
    Pow2Constants();
    Pow2Monotone(k, 8);
    AndBound(b, Not32(Pow2(k)));
    forall i: nat
      ensures Bit(And(b, Not32(Pow2(k))), i) <==> Bit(b, i) && i != k
    {
      BitAnd(b, Not32(Pow2(k)), i);
      BitComplement(Pow2(k), 32, i);
      BitPow2(k, i);
      if i >= 8 { BitBeyond(b, 8, i); }
    }
  }

  // ----- the mask as text

  /** How many byte pairs the text form has: at least 4, else up to the highest non-zero byte. */
  function Pairs(bytes: seq<uint8>, n: nat): (p: nat)
    requires 4 <= n <= |bytes|
    ensures 4 <= p <= n
    ensures forall i | p <= i < n :: bytes[i] == 0
    ensures p == 4 || bytes[p - 1] != 0
  {
    if n == 4 || bytes[n - 1] != 0 then n else Pairs(bytes, n - 1)
  }

  /** Bytes n-1, .., 0 in hexadecimal, the highest first. */
  function HexDown(bytes: seq<uint8>, n: nat): (s: string)
    requires n <= |bytes|
    ensures |s| == 2 * n
  {
    if n == 0 then "" else Hex(bytes[n - 1], 2, true) + HexDown(bytes, n - 1)
  }

  /** The number whose base-256 digits are the bytes, the lowest first. */
  function Number(bytes: seq<uint8>): nat {
    if bytes == [] then 0 else bytes[0] + BYTE_RANGE * Number(bytes[1..])
  }

  /** Where the terminator goes: behind whole pairs, as many as the loop test lets through. */
  function TextEnd(bufferLen: nat, pairs: nat): nat {
    if 2 * pairs <= bufferLen then 2 * pairs else bufferLen / 2 * 2
  }

  /**
    The loop test leaves room for one character where two and a terminator are written. The terminator
    is inside the buffer exactly when the length is odd or the whole text is shorter than the buffer.
   */
  lemma {:induction false} TerminatorInsideIff(bufferLen: nat, pairs: nat)
    requires pairs > 0
    ensures TextEnd(bufferLen, pairs) < bufferLen <==> bufferLen % 2 == 1 || 2 * pairs < bufferLen
    ensures TextEnd(bufferLen, pairs) <= bufferLen
    ensures TextEnd(bufferLen, pairs) == 2 * pairs <==> 2 * pairs <= bufferLen
  {
  }

  /** For every mask a buffer of two characters is filled by one pair, and the terminator is behind it. */
  lemma {:induction false} TwoCharactersAreTooFew(bytes: seq<uint8>)
    requires |bytes| == MASK_SETSIZE
    ensures TextEnd(2, Pairs(bytes, MASK_SETSIZE)) == 2
  {
  }

  /** The 8193 characters of `affinity_mask_str` show the whole mask exactly when it has no CPU from 32768 on. */
  lemma {:induction false} StaticBufferShowsIff(bytes: seq<uint8>)
    requires |bytes| == MASK_SETSIZE
    ensures var p := Pairs(bytes, MASK_SETSIZE);
            TextEnd(MASK_SETSIZE + 1, p) == 2 * p <==> forall cpu | cpu in CpusOf(bytes) :: cpu < 32768
  {
    var p := Pairs(bytes, MASK_SETSIZE);
    if p > 4096 {
      var k := HighestBit(bytes[p - 1]);
      var cpu := MASK_NCPUBITS * (p - 1) + k;
      assert cpu / MASK_NCPUBITS == p - 1 && cpu % MASK_NCPUBITS == k;
      assert HasCpu(bytes, cpu);
      assert cpu in CpusOf(bytes) && cpu >= 32768;
    } else {
      forall cpu | cpu in CpusOf(bytes)
        ensures cpu < 32768
      {
        BitZero(cpu % MASK_NCPUBITS);
        assert bytes[cpu / MASK_NCPUBITS] != 0;
      }
    }
  }

  lemma {:induction false} HighestBit(b: uint8) returns (k: nat)
    requires b != 0
    ensures k < MASK_NCPUBITS && Bit(b, k)
  {
    if forall i: nat | i < MASK_NCPUBITS :: !Bit(b, i) {
      Pow2Constants();
      forall i: nat
        ensures Bit(b, i) <==> Bit(0, i)
      {
        BitZero(i);
        if i >= MASK_NCPUBITS { BitBeyond(b, MASK_NCPUBITS, i); }
      }
      SameBits(b, 0);
    }
    k :| k < MASK_NCPUBITS && Bit(b, k);
  }

  /**
    `affinity_mask_str_r` for a buffer of any length at the start of some memory: the text of the mask,
    cut to whole pairs, and a terminator that may be the cell behind the buffer.
   */
  method AffinityMaskStr(mask: AffinityMask, memory: array<char>, bufferLen: nat)
    requires mask.Valid() && bufferLen < memory.Length
    modifies memory
    ensures var p := Pairs(old(mask.bits[..]), MASK_SETSIZE);
            var end := TextEnd(bufferLen, p);
            && end <= bufferLen && end <= 2 * p && memory[end] == NUL
            && memory[..end] == HexDown(old(mask.bits[..]), p)[..end]
            && forall i | end < i < memory.Length :: memory[i] == old(memory[i])
  {
    ghost var bytes := mask.bits[..];
    ghost var p := Pairs(bytes, MASK_SETSIZE);
    ghost var text := HexDown(bytes, p);
    var maskIndex, strIndex, doPrint := MASK_SETSIZE - 1, 0, false;
    var more := true;
    while more && strIndex + 1 < bufferLen
      invariant -1 <= maskIndex < MASK_SETSIZE && (more <==> maskIndex >= 0)
      invariant strIndex == if doPrint then 2 * (p - 1 - maskIndex) else 0
      invariant if doPrint then maskIndex + 1 < p else p <= maskIndex + 1 && p == Pairs(bytes, maskIndex + 1)
      invariant strIndex <= bufferLen
      invariant memory[..strIndex] == text[..strIndex]
      invariant forall i | strIndex < i < memory.Length :: memory[i] == old(memory[i])
      decreases maskIndex
    {
      if doPrint || maskIndex < 4 || mask.bits[maskIndex] != 0 {
        NextPair(bytes, p, maskIndex);
        PrintPair(memory, strIndex, mask.bits[maskIndex]);
        doPrint := true;
        strIndex := strIndex + 2;
      }
      maskIndex := maskIndex - 1;
      more := maskIndex >= 0;
    }
    memory[strIndex] := NUL;
  }

  /** `snprintf(&buffer[index], 3, "%02X", b)` */
  method PrintPair(buffer: array<char>, index: nat, b: uint8)
    requires index + 2 < buffer.Length
    modifies buffer
    ensures buffer[..index + 2] == old(buffer[..index]) + Hex(b, 2, true) && buffer[index + 2] == NUL
    ensures forall i | index + 2 < i < buffer.Length :: buffer[i] == old(buffer[i])
  {
    var pair := Hex(b, 2, true);
    buffer[index], buffer[index + 1], buffer[index + 2] := pair[0], pair[1], NUL;
  }

  /** The text up to byte `j` is the text up to byte `j + 1` and the two digits of byte `j`. */
  lemma {:induction false} NextPair(bytes: seq<uint8>, n: nat, j: nat)
    requires j < n <= |bytes|
    ensures var i, text := 2 * (n - 1 - j), HexDown(bytes, n);
            i + 2 <= |text| && text[..i + 2] == text[..i] + Hex(bytes[j], 2, true)
  {
    if j < n - 1 {
      NextPair(bytes, n - 1, j);
      var i, pair, rest := 2 * (n - 2 - j), Hex(bytes[n - 1], 2, true), HexDown(bytes, n - 1);
      assert (pair + rest)[..i + 4] == pair + rest[..i + 2];
      assert (pair + rest)[..i + 2] == pair + rest[..i];
    }
  }

  /** The text form denotes the number the bytes form; no byte above it is non-zero. */
  lemma {:induction false} TextDenotesMask(bytes: seq<uint8>)
    requires |bytes| == MASK_SETSIZE
    ensures Value(HexDown(bytes, Pairs(bytes, MASK_SETSIZE)), 16) == Number(bytes)
    ensures IsNumeral(HexDown(bytes, Pairs(bytes, MASK_SETSIZE)), 16)
  {
    var p := Pairs(bytes, MASK_SETSIZE);
    HexDownDenotes(bytes, p);
    TrailingZeros(bytes, p);
  }

  lemma {:induction false} HexDownDenotes(bytes: seq<uint8>, n: nat)
    requires n <= |bytes|
    ensures Value(HexDown(bytes, n), 16) == Number(bytes[..n])
    ensures IsNumeral(HexDown(bytes, n), 16)
  {
    if n > 0 {
      HexDownDenotes(bytes, n - 1);
      PairDenotes(bytes[n - 1]);
      ValueConcat(Hex(bytes[n - 1], 2, true), HexDown(bytes, n - 1));
      NumberAppend(bytes[..n - 1], bytes[n - 1]);
      assert bytes[..n - 1] + [bytes[n - 1]] == bytes[..n];
    }
  }

  lemma {:induction false} PairDenotes(b: uint8)
    ensures Value(Hex(b, 2, true), 16) == b && IsNumeral(Hex(b, 2, true), 16)
  {
    assert Pow16(2) == 256;
    HexDenotes(b, 2, true);
  }

  lemma {:induction false} ValueConcat(a: string, b: string)
    ensures Value(a + b, 16) == Value(a, 16) * Pow16(|b|) + Value(b, 16)
  {
    if b == "" {
      assert a + b == a;
    } else {
      var front, c := b[..|b| - 1], b[|b| - 1];
      assert a + b == (a + front) + [c] && b == front + [c];
      ValueConcat(a, front);
      ValueAppend(a + front, c, 16);
      ValueAppend(front, c, 16);
      HornerStep(Value(a, 16), Pow16(|front|), Value(front, 16));
    }
  }

  lemma {:induction false} HornerStep(x: nat, p: nat, y: nat)
    ensures (x * p + y) * 16 == x * (16 * p) + y * 16
  {
  }

  lemma {:induction false} NumberAppend(bytes: seq<uint8>, b: uint8)
    ensures Number(bytes + [b]) == Number(bytes) + b * Pow16(2 * |bytes|)
  {
    if bytes == [] {
      assert bytes + [b] == [b];
    } else {
      var tail := bytes[1..];
      assert (bytes + [b])[1..] == tail + [b];
      NumberAppend(tail, b);
      Pow16Pair(|tail|);
      Scaled(Number(tail), b, Pow16(2 * |tail|));
    }
  }

  lemma {:induction false} Pow16Pair(n: nat)
    ensures Pow16(2 * (n + 1)) == 256 * Pow16(2 * n)
  {
    assert Pow16(2 * n + 2) == 16 * Pow16(2 * n + 1);
  }

  lemma {:induction false} Scaled(x: nat, b: nat, p: nat)
    ensures 256 * (x + b * p) == 256 * x + b * (256 * p)
  {
  }

  lemma {:induction false} TrailingZeros(bytes: seq<uint8>, p: nat)
    requires p <= |bytes| && forall i | p <= i < |bytes| :: bytes[i] == 0
    ensures Number(bytes) == Number(bytes[..p])
    decreases |bytes|
  {
    if p == |bytes| {
      assert bytes[..p] == bytes;
    } else {
      var front := bytes[..|bytes| - 1];
      assert bytes == front + [0] && front[..p] == bytes[..p];
      NumberAppend(front, 0);
      TrailingZeros(front, p);
    }
  }

  // ----- the text as a number, bit by bit

  lemma {:induction false} BitSplit(b: nat, y: nat, k: nat, i: nat)
    requires b < Pow2(k)
    ensures Bit(b + Pow2(k) * y, i) <==> if i < k then Bit(b, i) else Bit(y, i - k)
    decreases k
  {
    if k > 0 {
      var p := Pow2(k - 1);
      assert Pow2(k) * y == 2 * (p * y);
      if i > 0 {
        BitSplit(b / 2, y, k - 1, i - 1);
        assert (b + Pow2(k) * y) / 2 == b / 2 + p * y;
      }
    }
  }

  lemma {:induction false} NumberBit(bytes: seq<uint8>, cpu: nat)
    ensures Bit(Number(bytes), cpu) <==> HasCpu(bytes, cpu)
  {
    if bytes == [] {
      BitZero(cpu);
    } else {
      Pow2Constants();
      BitSplit(bytes[0], Number(bytes[1..]), 8, cpu);
      if cpu >= 8 {
        NumberBit(bytes[1..], cpu - 8);
        assert (cpu - 8) / 8 == cpu / 8 - 1 && (cpu - 8) % 8 == cpu % 8;
      }
    }
  }

  /** Bit `cpu` of the number in the text tells whether the CPU is in the mask; its letters are capitals. */
  lemma {:induction false} TextShowsCpu(bytes: seq<uint8>, cpu: nat)
    requires |bytes| == MASK_SETSIZE
    ensures var text := HexDown(bytes, Pairs(bytes, MASK_SETSIZE));
            && (Bit(Value(text, 16), cpu) <==> cpu in CpusOf(bytes))
            && forall c | c in text :: '0' <= c <= '9' || 'A' <= c <= 'F'
  {
    TextDenotesMask(bytes);
    NumberBit(bytes, cpu);
    HexDownIsUpper(bytes, Pairs(bytes, MASK_SETSIZE));
  }

  lemma {:induction false} HexDownIsUpper(bytes: seq<uint8>, n: nat)
    requires n <= |bytes|
    ensures forall c | c in HexDown(bytes, n) :: '0' <= c <= '9' || 'A' <= c <= 'F'
  {
    if n > 0 {
      HexDownIsUpper(bytes, n - 1);
      assert Hex(bytes[n - 1] / 16, 1, true) == "" + [HexDigit(bytes[n - 1] / 16 % 16, true)];
    }
  }
}

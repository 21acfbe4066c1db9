/** 64-bit processor affinity masks: single-core masks, low-core masks and
    the facts about their bits that the CPU throttler relies on. */
module Masks {

  const ALL_CORES: bv64 := 0xFFFF_FFFF_FFFF_FFFF

  /** Bit k of a mask, k given as a shift count. */
  predicate BitAt(m: bv64, k: bv8)
    requires k < 64
  {
    (m >> k) & 1 == 1
  }

  /** Whether bit k of a mask is set, that is whether core k is in it. */
  predicate Bit(m: bv64, k: nat)
    requires k < 64
  {
    BitAt(m, k as bv8)
  }

  // Facts about shifts by small amounts, proved on the bit-vectors themselves.

  lemma CastBack(i: nat)
    requires i < 64
    ensures (i as bv8) as int == i
  {
  }

  lemma CastEq(i: nat, k: nat)
    requires i < 64 && k < 64
    ensures (i as bv8) == (k as bv8) <==> i == k
  {
    CastBack(i);
    CastBack(k);
  }

  lemma CastSucc(i: nat)
    requires i < 63
    ensures (i as bv8) + 1 == (i + 1) as bv8
  {
    var b := i as bv8;
    CastBack(i);
    CastBack(i + 1);
    assert (b + 1) as int == b as int + 1;
  }

  lemma SingleBitBits(j: bv8, k: bv8)
    requires j < 64 && k < 64
    ensures BitAt((1 as bv64) << j, k) <==> k == j
  {
  }

  lemma OrBits(a: bv64, b: bv64, k: bv8)
    requires k < 64
    ensures BitAt(a | b, k) <==> BitAt(a, k) || BitAt(b, k)
  {
  }

  lemma LowBitsStep(j: bv8)
    requires j < 64
    ensures (((1 as bv64) << j) - 1) | ((1 as bv64) << j)
            == if j == 63 then ALL_CORES else ((1 as bv64) << (j + 1)) - 1
  {
  }

  lemma ConstantBits(k: bv8)
    requires k < 64
    ensures BitAt(ALL_CORES, k) && !BitAt(0, k)
  {
  }

  lemma AllCoresAbsorbs(x: bv64)
    ensures ALL_CORES | x == ALL_CORES
  {
  }

  /** `1 << j` for a core number below 64. */
  function SingleBit(j: nat): (r: bv64)
    requires j < 64
    ensures forall k :: 0 <= k < 64 ==> (Bit(r, k) <==> k == j)
  {
    forall k: nat | k < 64
      ensures Bit(OneShl(j), k) <==> k == j
    {
      SingleBitBits(j as bv8, k as bv8);
      CastEq(k, j);
    }
    OneShl(j)
  }

  function OneShl(j: nat): bv64
    requires j < 64
  {
    (1 as bv64) << (j as bv8)
  }

  /** `1UL << n`: a 64-bit shift uses only the low six bits of its count. */
  function ShiftedBit(n: nat): (r: bv64)
    ensures forall k :: 0 <= k < 64 ==> (Bit(r, k) <==> k == n % 64)
  {
    SingleBit(n % 64)
  }

  /** The mask with the lowest n bits set (none when n <= 0, all 64 when n >= 64). */
  function LowMask(n: int): bv64
  {
    if n <= 0 then 0 else if n >= 64 then ALL_CORES else ((1 as bv64) << (n as bv8)) - 1
  }

  /** Adding bit i to the lowest i bits gives the lowest i + 1 bits. */
  lemma LowMaskStep(i: nat)
    ensures LowMask(i) | ShiftedBit(i) == LowMask(i + 1)
  {
    if i >= 64 {
      AllCoresAbsorbs(ShiftedBit(i));
    } else if i == 0 {
      LowBitsStep(0);
    } else {
      LowBitsStep(i as bv8);
      if i < 63 { CastSucc(i); }
    }
  }

  lemma BitOr(a: bv64, b: bv64, k: nat)
    requires k < 64
    ensures Bit(a | b, k) <==> Bit(a, k) || Bit(b, k)
  {
    OrBits(a, b, k as bv8);
  }

  /** Bit k of LowMask(n) is set exactly when k < n, by induction on n. */
  lemma {:induction false} LowMaskBits(n: int)
    ensures forall k :: 0 <= k < 64 ==> (Bit(LowMask(n), k) <==> k < n)
    decreases n
  {
    if n <= 0 || n >= 64 {
      forall k: nat | k < 64
        ensures Bit(LowMask(n), k) <==> k < n
      {
        ConstantBits(k as bv8);
      }
    } else {
      var prev, bit, next := LowMask(n - 1), ShiftedBit(n - 1), LowMask(n);
      LowMaskBits(n - 1);
      LowMaskStep(n - 1);
      forall k: nat | k < 64
        ensures Bit(next, k) <==> k < n
      {
        OrStep(prev, bit, next, n, k);
      }
    }
  }

  /** One bit of the induction step of LowMaskBits, on the masks as values. */
  lemma OrStep(prev: bv64, bit: bv64, next: bv64, n: int, k: nat)
    requires k < 64 && next == prev | bit
    requires Bit(prev, k) <==> k < n - 1
    requires Bit(bit, k) <==> k == n - 1
    ensures Bit(next, k) <==> k < n
  {
    BitOr(prev, bit, k);
  }
}

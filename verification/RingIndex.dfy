/** Ring positions and the slots they select, shared by the ring-based protocols. */
module RingIndex {
  import Division

  datatype Option<+T> = None | Some(value: T)

  function Least(n: int, room: int): int { if n < room then n else room }

  /** The slot of a position: one lap less selects the same slot. */
  function At(p: nat, size: nat): (j: nat)
    requires 0 < size
    ensures j < size
    ensures p < size ==> j == p
  {
    if p < size then p else At(p - size, size)
  }

  /** Positions less than one ring apart select different slots. */
  lemma {:induction false} AtInjective(p: nat, q: nat, size: nat)
    requires 0 < size
    requires At(p, size) == At(q, size)
    requires p < q + size && q < p + size
    ensures p == q
    decreases p + q
  {
    if size <= p && size <= q {
      AtInjective(p - size, q - size, size);
    }
  }

  lemma AtPeriodic(p: nat, size: nat)
    requires 0 < size
    ensures At(p + size, size) == At(p, size)
  {
  }

  /** The slot index is the remainder, which for a power-of-two size is what masking computes. */
  lemma {:induction false} AtIsRemainder(p: nat, size: nat)
    requires 0 < size
    ensures At(p, size) == p % size
  {
    if size <= p {
      AtIsRemainder(p - size, size);
      RemainderPeriodic(p - size, size);
    }
  }

  lemma RemainderPeriodic(p: nat, size: nat)
    requires 0 < size
    ensures (p + size) % size == p % size
  {
    var q, r := p / size, p % size;
    assert p + size == (q + 1) * size + r;
    Division.DivisionUnique(p + size, size, q + 1, r);
  }

  /** Every slot is that of one position of a lap, wherever the lap starts. */
  lemma {:induction false} PositionOf(from: nat, k: nat, size: nat) returns (p: nat)
    requires k < size
    ensures from <= p < from + size && At(p, size) == k
  {
    if from == 0 {
      p := k;
    } else {
      p := PositionOf(from - 1, k, size);
      if p < from {
        AtPeriodic(p, size);
        p := p + size;
      }
    }
  }

  // ---------- the swizzled slot index of the pass-the-buck ring, with 64-byte cache lines ----------

  function Swizzle(x: bv32): bv32 {
    x ^ ((x & 7) << 3)
  }

  /** A mask of low-order ones: every set bit has the bit below it set. */
  predicate LowOnes(mask: bv32) {
    (mask >> 1) & mask == mask >> 1
  }

  lemma AndXor(a: bv32, b: bv32, m: bv32)
    ensures (a ^ b) & m == (a & m) ^ (b & m)
  {
  }

  lemma MaskedShift(x: bv32, m: bv32)
    requires (m >> 3) & m == m >> 3
    ensures (((x & m) & 7) << 3) & m == ((x & 7) << 3) & m
  {
  }

  lemma SwizzleMasked(x: bv32, m: bv32)
    requires (m >> 3) & m == m >> 3
    ensures Swizzle(x & m) & m == Swizzle(x) & m
  {
    AndXor(x & m, ((x & m) & 7) << 3, m);
    AndXor(x, (x & 7) << 3, m);
    MaskedShift(x, m);
    assert (x & m) & m == x & m;
  }

  lemma SwizzleInvolution(x: bv32)
    ensures Swizzle(Swizzle(x)) == x
  {
  }

  lemma ShiftedMask(mask: bv32)
    requires LowOnes(mask)
    ensures (mask >> 3) & mask == mask >> 3
  {
  }

  lemma SwizzleCongruent(x: bv32, y: bv32, m: bv32)
    requires (m >> 3) & m == m >> 3
    requires x & m == y & m
    ensures Swizzle(x) & m == Swizzle(y) & m
  {
    SwizzleMasked(x, m);
    SwizzleMasked(y, m);
  }

  lemma SwizzleInjective(x: bv32, y: bv32, m: bv32)
    requires (m >> 3) & m == m >> 3
    requires Swizzle(x) & m == Swizzle(y) & m
    ensures x & m == y & m
  {
    hide Swizzle;
    SwizzleCongruent(Swizzle(x), Swizzle(y), m);
    SwizzleInvolution(x);
    SwizzleInvolution(y);
  }

  /** Swizzling and then masking renames the slots: two indexes share a slot exactly when they are equal under the
      mask, so the ring may be modelled by the masked index alone. */
  lemma SwizzleRenames(x: bv32, y: bv32, mask: bv32)
    requires LowOnes(mask)
    ensures Swizzle(x) & mask == Swizzle(y) & mask <==> x & mask == y & mask
  {
    ShiftedMask(mask);
    hide *;
    if x & mask == y & mask {
      SwizzleCongruent(x, y, mask);
    } else if Swizzle(x) & mask == Swizzle(y) & mask {
      SwizzleInjective(x, y, mask);
    }
  }

  /** Initialisation indexes the ring with the swizzled index without masking it. That stays inside the ring for
      every slot exactly when the ring has one slot or at least 64. */
  lemma AllocInRange(mask: bv32)
    requires LowOnes(mask)
    ensures (forall i: bv32 :: i <= mask ==> Swizzle(i) <= mask) <==> mask == 0 || 63 <= mask
  {
    if mask != 0 && mask < 63 {
      assert Swizzle(1) == 9 && Swizzle(2) == 18 && Swizzle(4) == 36;
      assert mask == 1 || mask == 3 || mask == 7 || mask == 15 || mask == 31;
    }
  }
}

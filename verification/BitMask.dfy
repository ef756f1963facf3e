/** Unsigned machine words as numbers, seen bit by bit: shifts are multiplications and divisions by powers of two. */
module BitMask {
  import opened Division
  import opened Bits64

  /** Bit k of x. */
  predicate Bit(x: nat, k: nat)
    decreases k
  {
    if k == 0 then x % 2 == 1 else Bit(x / 2, k - 1)
  }

  /** a | b. */
  function Or(a: nat, b: nat): nat
    decreases a + b
  {
    if a + b == 0 then 0 else 2 * Or(a / 2, b / 2) + if a % 2 == 1 || b % 2 == 1 then 1 else 0
  }

  /** a & b. */
  function And(a: nat, b: nat): nat
    decreases a + b
  {
    if a + b == 0 then 0 else 2 * And(a / 2, b / 2) + if a % 2 == 1 && b % 2 == 1 then 1 else 0
  }

  /** a ^ b. */
  function Xor(a: nat, b: nat): nat
    decreases a + b
  {
    if a + b == 0 then 0 else 2 * Xor(a / 2, b / 2) + if a % 2 == b % 2 then 0 else 1
  }

  /** x << n, before truncation. */
  function ShiftLeft(x: nat, n: nat): nat { x * Pow2(n) }

  /** x >> n. */
  function ShiftRight(x: nat, n: nat): nat { Quotient(x, Pow2(n)) }

  /** (1 << n) - 1. */
  function Ones(n: nat): nat { ShiftLeft(1, n) - 1 }

  /** ~x in a word of w bits. */
  function Not(x: nat, w: nat): nat
    requires x < Pow2(w)
  {
    Pow2(w) - 1 - x
  }

  /** Count trailing zeros. */
  function Ctz(x: nat): (c: nat)
    requires 0 < x
    ensures Bit(x, c) && forall k: nat :: k < c ==> !Bit(x, k)
  {
    if x % 2 == 1 then 0 else 1 + Ctz(x / 2)
  }

  lemma {:induction false} OrBit(a: nat, b: nat, k: nat)
    ensures Bit(Or(a, b), k) <==> Bit(a, k) || Bit(b, k)
    decreases k
  {
    if a + b == 0 {
      ZeroBit(k);
    } else if k > 0 {
      OrBit(a / 2, b / 2, k - 1);
    }
  }

  lemma {:induction false} AndBit(a: nat, b: nat, k: nat)
    ensures Bit(And(a, b), k) <==> Bit(a, k) && Bit(b, k)
    decreases k
  {
    if a + b == 0 {
      ZeroBit(k);
    } else if k > 0 {
      AndBit(a / 2, b / 2, k - 1);
    }
  }

  lemma {:induction false} ZeroBit(k: nat)
    ensures !Bit(0, k)
  {
    if k > 0 {
      ZeroBit(k - 1);
    }
  }

  lemma {:induction false} OrBelow(a: nat, b: nat, w: nat)
    requires a < Pow2(w) && b < Pow2(w)
    ensures Or(a, b) < Pow2(w)
    decreases w
  {
    if w > 0 {
      OrBelow(a / 2, b / 2, w - 1);
    }
  }

  lemma {:induction false} ShiftLeftBit(x: nat, n: nat, k: nat)
    ensures Bit(ShiftLeft(x, n), k) <==> n <= k && Bit(x, k - n)
    decreases n
  {
    if n > 0 {
      var y := ShiftLeft(x, n - 1);
      assert ShiftLeft(x, n) == 2 * y;
      if k > 0 {
        assert 2 * y / 2 == y;
        ShiftLeftBit(x, n - 1, k - 1);
      }
    }
  }

  lemma HalveFirst(x: nat, p: nat)
    requires 0 < p
    ensures x / (2 * p) == x / 2 / p
  {
    var q, r := x / 2 / p, x / 2 % p;
    assert x == q * (2 * p) + (2 * r + x % 2) by {
      Divided(x / 2, p);
      Distribute(q, p, r, 2);
    }
    DivisionUnique(x, 2 * p, q, 2 * r + x % 2);
  }

  lemma {:induction false} ShiftRightBit(x: nat, n: nat, k: nat)
    ensures Bit(ShiftRight(x, n), k) <==> Bit(x, k + n)
    decreases n
  {
    if n > 0 {
      HalveFirst(x, Pow2(n - 1));
      ShiftRightBit(x / 2, n - 1, k);
    }
  }

  lemma ShiftRightBelow(x: nat, n: nat)
    ensures ShiftRight(x, n) <= x
  {
    Divided(x, Pow2(n));
    ProductGap(ShiftRight(x, n), 1, Pow2(n));
  }

  lemma {:induction false} OnesBit(n: nat, k: nat)
    ensures Bit(Ones(n), k) <==> k < n
    decreases n
  {
    if n == 0 {
      ZeroBit(k);
    } else {
      assert Ones(n) == 2 * Ones(n - 1) + 1;
      if k > 0 {
        OnesBit(n - 1, k - 1);
      }
    }
  }

  lemma {:induction false} NotBit(x: nat, w: nat, k: nat)
    requires x < Pow2(w) && k < w
    ensures Bit(Not(x, w), k) <==> !Bit(x, k)
    decreases w
  {
    if k > 0 {
      assert Not(x, w) / 2 == Not(x / 2, w - 1);
      NotBit(x / 2, w - 1, k - 1);
    }
  }

  lemma {:induction false} HighBit(x: nat, w: nat, k: nat)
    requires x < Pow2(w) && w <= k
    ensures !Bit(x, k)
    decreases w
  {
    if w == 0 {
      ZeroBit(k);
    } else {
      HighBit(x / 2, w - 1, k - 1);
    }
  }

  lemma OneBit(d: nat, k: nat)
    ensures Bit(ShiftLeft(1, d), k) <==> k == d
  {
    ShiftLeftBit(1, d, k);
    if d < k {
      HighBit(1, 1, k - d);
    }
  }

  lemma OneBelow(d: nat, w: nat)
    requires d < w
    ensures ShiftLeft(1, d) < Pow2(w)
  {
    PowMonotone(d + 1, w);
  }

  /** x | (1 << d) sets bit d. */
  function SetBit(x: nat, d: nat): nat { Or(x, ShiftLeft(1, d)) }

  lemma SetBitIs(x: nat, d: nat, k: nat)
    ensures Bit(SetBit(x, d), k) <==> Bit(x, k) || k == d
  {
    OrBit(x, ShiftLeft(1, d), k);
    OneBit(d, k);
  }

  /** x & ~(1 << d) clears bit d, in a word of 32 bits. */
  function ClearBit(x: nat, d: nat): nat
    requires d < 32
  {
    OneBelow(d, 32);
    And(x, Not(ShiftLeft(1, d), 32))
  }

  lemma ClearBitIs(x: nat, d: nat, k: nat)
    requires x < Pow2(32) && d < 32
    ensures Bit(ClearBit(x, d), k) <==> Bit(x, k) && k != d
  {
    hide Pow2, Bit, And, Not, ShiftLeft;
    OneBelow(d, 32);
    AndBit(x, Not(ShiftLeft(1, d), 32), k);
    if k < 32 {
      NotBit(ShiftLeft(1, d), 32, k);
      OneBit(d, k);
    } else {
      HighBit(x, 32, k);
    }
  }

  lemma {:induction false} NonZeroBit(x: nat, w: nat)
    requires forall k: nat :: w <= k ==> !Bit(x, k)
    ensures x < Pow2(w)
    decreases w
  {
    if w == 0 {
      assert 0 < x ==> Bit(x, Ctz(x));
    } else {
      forall k: nat | w - 1 <= k ensures !Bit(x / 2, k) {
        assert !Bit(x, k + 1);
      }
      NonZeroBit(x / 2, w - 1);
    }
  }

  /** x & (x - 1) clears the lowest set bit. */
  lemma ClearLowest(x: nat, k: nat)
    requires 0 < x
    ensures And(x, x - 1) < x
    ensures Bit(And(x, x - 1), k) <==> Bit(x, k) && k != Ctz(x)
  {
    AndAtMost(x, x - 1);
    AndBit(x, x - 1, k);
    Borrow(x, k);
  }

  lemma {:induction false} Borrow(x: nat, k: nat)
    requires 0 < x
    ensures Bit(x, k) && Bit(x - 1, k) <==> Bit(x, k) && k != Ctz(x)
    decreases k
  {
    if k > 0 {
      if x % 2 == 0 {
        assert (x - 1) / 2 == x / 2 - 1;
        Borrow(x / 2, k - 1);
      } else {
        assert (x - 1) / 2 == x / 2;
      }
    }
  }

  lemma {:induction false} AndAtMost(a: nat, b: nat)
    ensures And(a, b) <= b
    decreases a + b
  {
    if a + b > 0 {
      AndAtMost(a / 2, b / 2);
    }
  }

  lemma {:induction false} PowMonotone(a: nat, b: nat)
    requires a <= b
    ensures Pow2(a) <= Pow2(b)
  {
    if a < b {
      PowMonotone(a, b - 1);
    }
  }

  /** Count trailing ones, of a word with room above. */
  lemma TrailingOnes(x: nat, w: nat, wide: nat)
    requires x < Pow2(w) && w < wide
    ensures x < Pow2(wide) && 0 < Not(x, wide) && Ctz(Not(x, wide)) <= w
    ensures !Bit(x, Ctz(Not(x, wide))) && forall k: nat :: k < Ctz(Not(x, wide)) ==> Bit(x, k)
  {
    PowMonotone(w, wide - 1);
    var y := Not(x, wide);
    HighBit(x, w, w);
    NotBit(x, wide, w);
    var c := Ctz(y);
    NotBit(x, wide, c);
    forall k: nat | k < c ensures Bit(x, k) {
      NotBit(x, wide, k);
    }
  }

  // ---------- words of 32 bits ----------

  const Word: nat := 0x1_0000_0000

  function Wrap(x: int): (r: nat)
    ensures r < Word
  {
    x % Word
  }

  /** The difference of two truncated numbers is right when the true one is small. */
  lemma WrapDifference(a: nat, b: nat)
    requires a <= b < a + Word
    ensures Wrap(Wrap(b) - Wrap(a)) == b - a
  {
  }

  lemma WrapInjective(a: nat, b: nat)
    requires a <= b < a + Word && Wrap(a) == Wrap(b)
    ensures a == b
  {
    WrapDifference(a, b);
  }

  lemma WrapSum(a: nat, n: nat)
    ensures Wrap(Wrap(a) + n) == Wrap(a + n)
  {
  }

  lemma Pow2Word()
    ensures Pow2(32) == Word
  {
    PowAdd(16, 16);
    PowAdd(8, 8);
    PowAdd(4, 4);
    assert Pow2(4) == 16;
    assert Pow2(8) == 256;
    assert Pow2(16) == 0x1_0000;
  }
}

/** Prefixes of 64-bit keys. A right shift is a division by a power of two and a left shift a multiplication with the
    bits above 64 dropped, so the top bits of a key are a quotient. */
module Bits64 {
  import opened Division

  function Pow2(n: nat): (p: nat)
    ensures 1 <= p
  {
    if n == 0 then 1 else 2 * Pow2(n - 1)
  }

  lemma {:induction false} PowAdd(a: nat, b: nat)
    ensures Pow2(a + b) == Pow2(a) * Pow2(b)
  {
    if a > 0 {
      PowAdd(a - 1, b);
    }
  }

  /** The first len bits of a 64-bit key: key >> (64 - len). */
  function Top(key: nat, len: nat): nat
    requires len <= 64
  {
    Quotient(key, Pow2(64 - len))
  }

  /** (key << n) truncated to 64 bits. */
  function Shl(key: nat, n: nat): (r: nat)
    ensures r < Pow2(64)
  {
    key * Pow2(n) % Pow2(64)
  }

  /** Slot index at a level: (key >> (64 - stride)) & (2^stride - 1). */
  function Index(key: nat, stride: nat): (i: nat)
    requires stride <= 64
    ensures i < Pow2(stride)
  {
    Top(key, stride) % Pow2(stride)
  }

  /** Key and prefix agree on the first len bits. */
  predicate Matches(key: nat, pfx: nat, len: nat)
    requires len <= 64
  {
    Top(key, len) == Top(pfx, len)
  }

  /** No bit after the first len is set: (pfx & ~mask(len)) == 0. */
  predicate Aligned(pfx: nat, len: nat)
    requires len <= 64
  {
    pfx % Pow2(64 - len) == 0
  }

  // ---------- division ----------

  lemma Divided(n: nat, m: nat)
    requires 0 < m
    ensures n == (n / m) * m + n % m
  {
  }

  /** A quotient below the bound. */
  lemma QuotientBound(n: nat, m: nat, k: nat)
    requires 0 < m && n < k * m
    ensures n / m < k
  {
    Divided(n, m);
    ProductGap(m, k, n / m);
  }

  /** Dividing away a common factor. */
  lemma CommonFactor(b: nat, c: nat, f: nat)
    requires 0 < c && 0 < f
    ensures 0 < c * f && b * f / (c * f) == b / c
  {
    var q, r := b / c, b % c;
    Divided(b, c);
    assert b * f == q * (c * f) + r * f by {
      Distribute(q, c, r, f);
    }
    ProductGap(f, r, c);
    assert 0 < c * f by { ProductGap(f, 0, c); }
    DivisionUnique(b * f, c * f, q, r * f);
  }

  lemma Distribute(q: nat, c: nat, r: nat, f: nat)
    ensures (q * c + r) * f == q * (c * f) + r * f
  {
    assert (q * c + r) * f == (q * c) * f + r * f;
    assert (q * c) * f == q * (c * f);
  }

  lemma ShiftOut(a: nat, b: nat, B: nat, S: nat)
    requires b < B && 0 < S
    ensures 0 < B * S && (a * B + b) * S % (B * S) == b * S < B * S
  {
    Distribute(a, B, b, S);
    ProductGap(S, b, B);
    DivisionUnique((a * B + b) * S, B * S, a, b * S);
  }

  lemma TopPart(a: nat, b: nat, C: nat, M: nat)
    requires 0 < C && b < M * C
    ensures (a * (M * C) + b) / C == a * M + b / C && b / C < M
    ensures (a * (M * C) + b) % C == b % C
  {
    QuotientBound(b, C, M);
    Divided(b, C);
    Distribute(a, M, b / C, C);
    assert a * (M * C) + b == (a * M + b / C) * C + b % C;
    DivisionUnique(a * (M * C) + b, C, a * M + b / C, b % C);
  }

  // ---------- prefixes ----------

  /** A key is its first s bits and the rest, and shifting left by s leaves the rest. */
  lemma SplitKey(key: nat, s: nat) returns (a: nat, b: nat)
    requires key < Pow2(64) && s <= 64
    ensures a == Top(key, s) < Pow2(s) && b < Pow2(64 - s)
    ensures key == a * Pow2(64 - s) + b
    ensures Shl(key, s) == b * Pow2(s) < Pow2(64)
  {
    hide Pow2;
    PowSplit(64 - s, s, 64);
    var B, S := Pow2(64 - s), Pow2(s);
    a, b := SplitBy(key, B);
    QuotientBoundComm(key, B, S);
    ShiftOut(a, b, B, S);
  }

  lemma SplitBy(n: nat, m: nat) returns (a: nat, b: nat)
    requires 0 < m
    ensures a == Quotient(n, m) && b < m && n == a * m + b
  {
    a, b := n / m, n % m;
    Divided(n, m);
  }

  lemma QuotientBoundComm(n: nat, m: nat, k: nat)
    requires 0 < m && n < m * k
    ensures Quotient(n, m) < k
  {
    QuotientBound(n, m, k);
  }

  lemma IndexIsTop(key: nat, s: nat)
    requires key < Pow2(64) && s <= 64
    ensures Index(key, s) == Top(key, s) < Pow2(s)
  {
    var a, b := SplitKey(key, s);
    DivisionUnique(Top(key, s), Pow2(s), 0, Top(key, s));
  }

  lemma SplitQuotient(key: nat, a: nat, b: nat, B: nat, C: nat, M: nat, S: nat, D: nat)
    requires 0 < C && 0 < S && B == M * C && D == C * S
    requires key == a * B + b && b < B
    ensures 0 < D && key / C == a * M + b * S / D && b * S / D < M
  {
    CommonFactor(b, C, S);
    TopPart(a, b, C, M);
  }

  /** The first len bits are the first s bits followed by the first len - s of the shifted key. */
  lemma SplitTop(key: nat, s: nat, len: nat)
    requires key < Pow2(64) && s <= len <= 64
    ensures Top(key, len) == Top(key, s) * Pow2(len - s) + Top(Shl(key, s), len - s)
    ensures Top(Shl(key, s), len - s) < Pow2(len - s)
  {
    hide *;
    SplitTopAt(key, s, len, 64 - len, len - s, 64 - s, 64 - (len - s));
  }

  lemma SplitTopAt(key: nat, s: nat, len: nat, c: nat, m: nat, b: nat, d: nat)
    requires key < Pow2(64) && s <= len <= 64
    requires c == 64 - len && m == len - s && b == 64 - s && d == 64 - m
    ensures Top(key, len) == Top(key, s) * Pow2(m) + Top(Shl(key, s), m)
    ensures Top(Shl(key, s), m) < Pow2(m)
  {
    hide *;
    var top, rest := SplitKey(key, s);
    PowSplit(m, c, b);
    PowSplit(c, s, d);
    SplitQuotient(key, top, rest, Pow2(b), Pow2(c), Pow2(m), Pow2(s), Pow2(d));
    TopIs(key, len);
    TopIs(Shl(key, s), m);
  }

  lemma TopIs(key: nat, len: nat)
    requires len <= 64
    ensures Top(key, len) == key / Pow2(64 - len)
  {
  }

  /** A prefix longer than the stride: same slot, and the shifted key matches the shifted rest of the prefix. */
  lemma MatchBelow(key: nat, pfx: nat, len: nat, s: nat)
    requires key < Pow2(64) && pfx < Pow2(64) && s <= len <= 64
    ensures Matches(key, pfx, len) <==>
            Index(key, s) == Index(pfx, s) && Matches(Shl(key, s), Shl(pfx, s), len - s)
  {
    IndexIsTop(key, s);
    IndexIsTop(pfx, s);
    SplitTop(key, s, len);
    SplitTop(pfx, s, len);
    if Matches(key, pfx, len) {
      QuotientUnique(Pow2(len - s), Top(key, s), Top(Shl(key, s), len - s), Top(pfx, s), Top(Shl(pfx, s), len - s));
    }
  }

  /** A prefix no longer than the stride covers a run of whole slots. */
  lemma MatchRange(key: nat, pfx: nat, len: nat, s: nat)
    requires key < Pow2(64) && pfx < Pow2(64) && len <= s <= 64 && Aligned(pfx, len)
    ensures Index(pfx, s) + Pow2(s - len) <= Pow2(s)
    ensures Matches(key, pfx, len) <==> Index(pfx, s) <= Index(key, s) < Index(pfx, s) + Pow2(s - len)
  {
    IndexIsTop(key, s);
    IndexIsTop(pfx, s);
    IndexIsTop(pfx, len);
    SplitTop(key, len, s);
    SplitTop(pfx, len, s);
    AlignedShift(pfx, len, len);
    var M := Pow2(s - len);
    var q, k := Top(pfx, len), Top(key, len);
    assert Top(0, s - len) == 0 by { DivisionUnique(0, Pow2(64 - (s - len)), 0, 0); }
    assert Index(pfx, s) == q * M;
    PowAdd(len, s - len);
    ProductGap(M, q, Pow2(len));
    ProductGap(M, q, k);
    ProductGap(M, k, q);
  }

  /** Shifting an aligned prefix leaves the rest of it aligned, and nothing when the prefix ends within the stride. */
  lemma AlignedShift(pfx: nat, len: nat, s: nat)
    requires pfx < Pow2(64) && len <= 64 && s <= 64 && Aligned(pfx, len)
    ensures s < len ==> Aligned(Shl(pfx, s), len - s)
    ensures len <= s ==> Shl(pfx, s) == 0
  {
    hide *;
    if s < len {
      AlignedBeyond(pfx, len, s, 64 - len, len - s, 64 - s, 64 - (len - s));
    } else {
      var a, b := SplitKey(pfx, s);
      AlignedWithin(pfx, len, s, a, b);
    }
  }

  lemma PowSplit(a: nat, b: nat, c: nat)
    requires c == a + b
    ensures Pow2(c) == Pow2(a) * Pow2(b)
  {
    hide Pow2;
    PowAdd(a, b);
  }

  lemma AlignedBeyond(pfx: nat, len: nat, s: nat, c: nat, m: nat, b: nat, d: nat)
    requires pfx < Pow2(64) && s < len <= 64 && Aligned(pfx, len)
    requires c == 64 - len && m == len - s && b == 64 - s && d == 64 - m
    ensures Aligned(Shl(pfx, s), m)
  {
    hide *;
    var top, rest := SplitKey(pfx, s);
    PowSplit(m, c, b);
    PowSplit(c, s, d);
    AlignedIs(pfx, len);
    AlignedRest(pfx, top, rest, Pow2(b), Pow2(c), Pow2(m), Pow2(s), Pow2(d));
    AlignedIs(Shl(pfx, s), m);
  }

  lemma AlignedRest(pfx: nat, a: nat, b: nat, B: nat, C: nat, M: nat, S: nat, D: nat)
    requires 0 < C && 0 < S && B == M * C && D == C * S
    requires pfx == a * B + b && b < B && pfx % C == 0
    ensures 0 < D && b * S % D == 0
  {
    TopPart(a, b, C, M);
    MultipleScales(b, C, S);
  }

  lemma AlignedIs(pfx: nat, len: nat)
    requires len <= 64
    ensures Aligned(pfx, len) <==> pfx % Pow2(64 - len) == 0
  {
  }

  lemma AlignedWithin(pfx: nat, len: nat, s: nat, a: nat, b: nat)
    requires len <= s <= 64 && Aligned(pfx, len)
    requires pfx == a * Pow2(64 - s) + b && b < Pow2(64 - s)
    ensures b == 0
  {
    PowAdd(s - len, 64 - s);
    hide Pow2;
    assert 64 - len == s - len + (64 - s);
    MultipleOfMultiple(pfx, Pow2(s - len), Pow2(64 - s));
    DivisionUnique(pfx, Pow2(64 - s), a, b);
  }

  lemma MultipleScales(b: nat, C: nat, S: nat)
    requires 0 < C && 0 < S && b % C == 0
    ensures 0 < C * S && b * S % (C * S) == 0
  {
    Divided(b, C);
    Distribute(b / C, C, 0, S);
    ProductGap(S, 0, C);
    DivisionUnique(b * S, C * S, b / C, 0);
  }

  lemma MultipleOfMultiple(n: nat, F: nat, B: nat)
    requires 0 < F && 0 < B && 0 < F * B && n % (F * B) == 0
    ensures n % B == 0
  {
    Divided(n, F * B);
    var q := n / (F * B);
    assert n == (q * F) * B by {
      Distribute(q, F, 0, B);
    }
    DivisionUnique(n, B, q * F, 0);
  }
}

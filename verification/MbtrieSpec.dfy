/** The multi-bit trie as a value: what an update does to the slot that a key selects, and longest-prefix match. */
module MbtrieSpec {
  import opened Division
  import opened Bits64

  /** The word in a slot: an element address with the length tag in its low bits (prefix length minus one), or a
      sub-vector. Address 0 with tag 0 is the NULL word. */
  datatype Ptr = Leaf(elem: nat, tag: nat) | Vec(slots: seq<Ptr>)

  const NULL: Ptr := Leaf(0, 0)

  /** Level widths: each is at least 1 and less than 64 bits and together they are at most 64. */
  predicate ValidStrides(strides: seq<nat>) {
    && |strides| > 0
    && (forall d :: 0 <= d < |strides| ==> 1 <= strides[d] < 64)
    && MaxLen(strides, 0) <= 64
  }

  /** Bits consumed from level d on. */
  function MaxLen(strides: seq<nat>, d: nat): nat
    decreases |strides| - d
  {
    if d >= |strides| then 0 else strides[d] + MaxLen(strides, d + 1)
  }

  ghost predicate WellFormed(slots: seq<Ptr>, strides: seq<nat>, d: nat)
    decreases |strides| - d, 0
  {
    && d < |strides|
    && |slots| == Pow2(strides[d])
    && forall i :: 0 <= i < |slots| ==> WellFormedPtr(slots[i], strides, d + 1)
  }

  ghost predicate WellFormedPtr(p: Ptr, strides: seq<nat>, d: nat)
    decreases |strides| - d, 1
  {
    p.Vec? ==> d < |strides| && WellFormed(p.slots, strides, d)
  }

  /** The leaf word that a key selects. */
  ghost function Fetch(slots: seq<Ptr>, strides: seq<nat>, d: nat, key: nat): (p: Ptr)
    requires ValidStrides(strides) && WellFormed(slots, strides, d)
    ensures p.Leaf?
    decreases |strides| - d
  {
    hide Index, Shl, Pow2;
    var p := slots[Index(key, strides[d])];
    assert WellFormedPtr(p, strides, d + 1);
    if p.Leaf? then p else Fetch(p.slots, strides, d + 1, Shl(key, strides[d]))
  }

  // ---------- updates ----------

  /** An update of one leaf: it replaces the element `old` (nothing, for an insertion), and a less or equally specific
      element when there is a new one. */
  function Merge(cur: Ptr, old': nat, neu: Ptr, org: nat): (p: Ptr)
    requires cur.Leaf? && neu.Leaf?
    ensures p.Leaf?
  {
    if cur.elem == old' then neu
    else if Leaf(cur.elem, 0) != neu && neu != NULL && cur.tag + 1 <= org then neu
    else cur
  }

  /** An update request: the prefix with its original length, the element to replace and the new word. */
  datatype Update = Update(org: nat, old': nat, neu: Ptr)

  /** update_slot: the prefix covers the whole slot. */
  ghost function UpdSlot(p: Ptr, strides: seq<nat>, d: nat, u: Update): Ptr
    requires ValidStrides(strides) && WellFormedPtr(p, strides, d) && u.neu.Leaf?
    decreases |strides| - d, 1
  {
    if p.Vec? then Vec(UpdSlots(p.slots, strides, d, 0, 0, u)) else Merge(p, u.old', u.neu, u.org)
  }

  /** A leaf spread over a new sub-vector. */
  ghost function Expanded(p: Ptr, strides: seq<nat>, d: nat): (slots: seq<Ptr>)
    requires ValidStrides(strides) && WellFormedPtr(p, strides, d) && d < |strides|
    ensures WellFormed(slots, strides, d)
  {
    if p.Vec? then p.slots else seq(Pow2(strides[d]), _ => p)
  }

  /** Are all slots the same element? */
  predicate Uniform(slots: seq<Ptr>) {
    |slots| > 0 && slots[0].Leaf? && forall i :: 0 <= i < |slots| ==> slots[i] == slots[0]
  }

  function Collapsed(p: Ptr): Ptr { if p.Vec? && Uniform(p.slots) then p.slots[0] else p }

  predicate MayCollapse(u: Update)
    requires u.neu.Leaf?
  {
    u.neu == NULL || u.neu.tag + 1 < u.org
  }

  /** update_vec, then collapse_vec when elements were removed or replaced. */
  ghost function UpdVec(p: Ptr, strides: seq<nat>, d: nat, pfx: nat, len: nat, u: Update): Ptr
    requires ValidStrides(strides) && WellFormedPtr(p, strides, d) && d < |strides| && u.neu.Leaf?
    requires pfx < Pow2(64) && 0 < len <= 64 && len <= MaxLen(strides, d) && Aligned(pfx, len)
    decreases |strides| - d, 1
  {
    var q := Vec(UpdSlots(Expanded(p, strides, d), strides, d, pfx, len, u));
    if MayCollapse(u) then Collapsed(q) else q
  }

  /** The slots from idx up to idx + n updated. */
  ghost function UpdRange(slots: seq<Ptr>, strides: seq<nat>, d: nat, idx: nat, n: nat, u: Update): (slots': seq<Ptr>)
    requires ValidStrides(strides) && WellFormed(slots, strides, d) && u.neu.Leaf?
    ensures |slots'| == |slots|
    decreases |strides| - d, 0, 0
  {
    seq(|slots|, i requires 0 <= i < |slots| =>
          assert WellFormedPtr(slots[i], strides, d + 1);
          if idx <= i < idx + n then UpdSlot(slots[i], strides, d + 1, u) else slots[i])
  }

  lemma LevelBelow(strides: seq<nat>, d: nat, len: nat)
    requires ValidStrides(strides) && d < |strides| && strides[d] < len <= MaxLen(strides, d)
    ensures d + 1 < |strides| && len - strides[d] <= MaxLen(strides, d + 1)
  {
  }

  /** update_pfx. */
  ghost function UpdSlots(slots: seq<Ptr>, strides: seq<nat>, d: nat, pfx: nat, len: nat, u: Update): (slots': seq<Ptr>)
    requires ValidStrides(strides) && WellFormed(slots, strides, d) && u.neu.Leaf?
    requires pfx < Pow2(64) && len <= 64 && len <= MaxLen(strides, d) && Aligned(pfx, len)
    ensures |slots'| == |slots|
    decreases |strides| - d, 0, 1
  {
    hide Index, Shl, Pow2, Aligned, Merge, MaxLen;
    var stride := strides[d];
    var idx := Index(pfx, stride);
    if len <= stride then
      UpdRange(slots, strides, d, idx, Pow2(stride - len), u)
    else
      LevelBelow(strides, d, len);
      AlignedShift(pfx, len, stride);
      assert WellFormedPtr(slots[idx], strides, d + 1);
      slots[idx := UpdVec(slots[idx], strides, d + 1, Shl(pfx, stride), len - stride, u)]
  }

  lemma ZeroAligned()
    ensures Aligned(0, 0)
  {
  }

  lemma MatchesEmpty(key: nat, pfx: nat)
    requires key < Pow2(64) && pfx < Pow2(64)
    ensures Matches(key, pfx, 0)
  {
    DivisionUnique(key, Pow2(64), 0, key);
    DivisionUnique(pfx, Pow2(64), 0, pfx);
  }

  lemma {:induction false} SlotWellFormed(p: Ptr, strides: seq<nat>, d: nat, u: Update)
    requires ValidStrides(strides) && WellFormedPtr(p, strides, d) && u.neu.Leaf?
    ensures WellFormedPtr(UpdSlot(p, strides, d, u), strides, d)
    decreases |strides| - d, 1
  {
    if p.Vec? {
      ZeroAligned();
      SlotsWellFormed(p.slots, strides, d, 0, 0, u);
    }
  }

  lemma {:induction false} VecWellFormed(p: Ptr, strides: seq<nat>, d: nat, pfx: nat, len: nat, u: Update)
    requires ValidStrides(strides) && WellFormedPtr(p, strides, d) && d < |strides| && u.neu.Leaf?
    requires pfx < Pow2(64) && 0 < len <= 64 && len <= MaxLen(strides, d) && Aligned(pfx, len)
    ensures WellFormedPtr(UpdVec(p, strides, d, pfx, len, u), strides, d)
    decreases |strides| - d, 1
  {
    hide Index, Shl, Pow2, Aligned, Merge, MaxLen;
    SlotsWellFormed(Expanded(p, strides, d), strides, d, pfx, len, u);
  }

  lemma {:induction false} SlotsWellFormed(slots: seq<Ptr>, strides: seq<nat>, d: nat, pfx: nat, len: nat, u: Update)
    requires ValidStrides(strides) && WellFormed(slots, strides, d) && u.neu.Leaf?
    requires pfx < Pow2(64) && len <= 64 && len <= MaxLen(strides, d) && Aligned(pfx, len)
    ensures WellFormed(UpdSlots(slots, strides, d, pfx, len, u), strides, d)
    decreases |strides| - d, 0
  {
    hide Index, Shl, Pow2, Aligned, Merge, MaxLen, UpdSlot, UpdVec;
    var stride := strides[d];
    var idx := Index(pfx, stride);
    var slots' := UpdSlots(slots, strides, d, pfx, len, u);
    if len > stride {
      LevelBelow(strides, d, len);
      AlignedShift(pfx, len, stride);
      assert WellFormedPtr(slots[idx], strides, d + 1);
      VecWellFormed(slots[idx], strides, d + 1, Shl(pfx, stride), len - stride, u);
    }
    forall i | 0 <= i < |slots'| ensures WellFormedPtr(slots'[i], strides, d + 1) {
      assert WellFormedPtr(slots[i], strides, d + 1);
      SlotWellFormed(slots[i], strides, d + 1, u);
    }
  }

  ghost function FetchIn(p: Ptr, strides: seq<nat>, d: nat, key: nat): (q: Ptr)
    requires ValidStrides(strides) && WellFormedPtr(p, strides, d)
    ensures q.Leaf?
  {
    if p.Leaf? then p else Fetch(p.slots, strides, d, key)
  }

  lemma FetchBy(slots: seq<Ptr>, strides: seq<nat>, d: nat, key: nat)
    requires ValidStrides(strides) && WellFormed(slots, strides, d)
    ensures WellFormedPtr(slots[Index(key, strides[d])], strides, d + 1)
    ensures Fetch(slots, strides, d, key) == FetchIn(slots[Index(key, strides[d])], strides, d + 1, Shl(key, strides[d]))
  {
    hide Index, Shl, Pow2;
    assert WellFormedPtr(slots[Index(key, strides[d])], strides, d + 1);
  }

  lemma {:induction false} FetchSlot(p: Ptr, strides: seq<nat>, d: nat, u: Update, key: nat)
    requires ValidStrides(strides) && WellFormedPtr(p, strides, d) && u.neu.Leaf? && key < Pow2(64)
    ensures WellFormedPtr(UpdSlot(p, strides, d, u), strides, d)
    ensures FetchIn(UpdSlot(p, strides, d, u), strides, d, key)
         == Merge(FetchIn(p, strides, d, key), u.old', u.neu, u.org)
    decreases |strides| - d, 4
  {
    SlotWellFormed(p, strides, d, u);
    if p.Vec? {
      ZeroAligned();
      MatchesEmpty(key, 0);
      hide Index, Shl, Pow2, Merge, Matches, Fetch, UpdSlots;
      FetchUpdated(p.slots, strides, d, 0, 0, u, key);
    }
  }

  lemma {:induction false} FetchVec(p: Ptr, strides: seq<nat>, d: nat, pfx: nat, len: nat, u: Update, key: nat)
    requires ValidStrides(strides) && WellFormedPtr(p, strides, d) && d < |strides| && u.neu.Leaf?
    requires pfx < Pow2(64) && 0 < len <= 64 && len <= MaxLen(strides, d) && Aligned(pfx, len) && key < Pow2(64)
    ensures WellFormedPtr(UpdVec(p, strides, d, pfx, len, u), strides, d)
    ensures FetchIn(UpdVec(p, strides, d, pfx, len, u), strides, d, key)
         == if Matches(key, pfx, len) then Merge(FetchIn(p, strides, d, key), u.old', u.neu, u.org)
            else FetchIn(p, strides, d, key)
    decreases |strides| - d, 4
  {
    VecWellFormed(p, strides, d, pfx, len, u);
    var sub := Expanded(p, strides, d);
    ExpandedFetch(p, strides, d, key);
    hide Index, Shl, Pow2, Aligned, Merge, MaxLen, Matches, UpdSlots, Expanded;
    FetchUpdated(sub, strides, d, pfx, len, u, key);
    var q := UpdSlots(sub, strides, d, pfx, len, u);
    FetchBy(q, strides, d, key);
  }

  lemma ExpandedFetch(p: Ptr, strides: seq<nat>, d: nat, key: nat)
    requires ValidStrides(strides) && WellFormedPtr(p, strides, d) && d < |strides|
    ensures Fetch(Expanded(p, strides, d), strides, d, key) == FetchIn(p, strides, d, key)
  {
    hide Index, Shl, Pow2;
    FetchBy(Expanded(p, strides, d), strides, d, key);
  }

  /** The effect of an update, key by key: a key that matches the prefix has its leaf merged with the new element, any
      other key keeps its leaf; splitting and collapsing vectors is invisible. */
  lemma {:induction false} FetchUpdated(slots: seq<Ptr>, strides: seq<nat>, d: nat, pfx: nat, len: nat, u: Update, key: nat)
    requires ValidStrides(strides) && WellFormed(slots, strides, d) && u.neu.Leaf?
    requires pfx < Pow2(64) && len <= 64 && len <= MaxLen(strides, d) && Aligned(pfx, len) && key < Pow2(64)
    ensures WellFormed(UpdSlots(slots, strides, d, pfx, len, u), strides, d)
    ensures Fetch(UpdSlots(slots, strides, d, pfx, len, u), strides, d, key)
         == if Matches(key, pfx, len) then Merge(Fetch(slots, strides, d, key), u.old', u.neu, u.org)
            else Fetch(slots, strides, d, key)
    decreases |strides| - d, 3
  {
    IndexInRange(slots, strides, d, key);
    hide *;
    SlotsWellFormed(slots, strides, d, pfx, len, u);
    FetchBy(slots, strides, d, key);
    FetchBy(UpdSlots(slots, strides, d, pfx, len, u), strides, d, key);
    if len <= strides[d] {
      FetchRange(slots, strides, d, pfx, len, u, key, Index(key, strides[d]), Shl(key, strides[d]));
    } else {
      FetchBelow(slots, strides, d, pfx, len, u, key, Index(key, strides[d]), Shl(key, strides[d]));
    }
  }

  lemma FetchRange(slots: seq<Ptr>, strides: seq<nat>, d: nat, pfx: nat, len: nat, u: Update, key: nat, i: nat, rest: nat)
    requires ValidStrides(strides) && WellFormed(slots, strides, d) && u.neu.Leaf?
    requires pfx < Pow2(64) && len <= strides[d] && len <= MaxLen(strides, d) && Aligned(pfx, len) && key < Pow2(64)
    requires i == Index(key, strides[d]) && rest == Shl(key, strides[d])
    ensures i < |slots| && WellFormedPtr(slots[i], strides, d + 1)
    ensures WellFormedPtr(UpdSlots(slots, strides, d, pfx, len, u)[i], strides, d + 1)
    ensures FetchIn(UpdSlots(slots, strides, d, pfx, len, u)[i], strides, d + 1, rest)
         == if Matches(key, pfx, len) then Merge(FetchIn(slots[i], strides, d + 1, rest), u.old', u.neu, u.org)
            else FetchIn(slots[i], strides, d + 1, rest)
    decreases |strides| - d, 2
  {
    IndexInRange(slots, strides, d, key);
    hide *;
    MatchRange(key, pfx, len, strides[d]);
    UpdRangeAt(slots, strides, d, pfx, len, u, i);
    FetchSlotAt(slots, strides, d, u, key, i);
  }

  lemma IndexInRange(slots: seq<Ptr>, strides: seq<nat>, d: nat, key: nat)
    requires ValidStrides(strides) && WellFormed(slots, strides, d)
    ensures d < |strides| && strides[d] <= 64 && Index(key, strides[d]) < |slots|
  {
    hide Index, Pow2;
  }

  lemma UpdRangeAt(slots: seq<Ptr>, strides: seq<nat>, d: nat, pfx: nat, len: nat, u: Update, i: nat)
    requires ValidStrides(strides) && WellFormed(slots, strides, d) && u.neu.Leaf? && i < |slots|
    requires pfx < Pow2(64) && len <= strides[d] && len <= 64 && len <= MaxLen(strides, d) && Aligned(pfx, len)
    ensures WellFormedPtr(slots[i], strides, d + 1) && strides[d] <= 64
    ensures UpdSlots(slots, strides, d, pfx, len, u)[i]
         == if Index(pfx, strides[d]) <= i < Index(pfx, strides[d]) + Pow2(strides[d] - len)
            then UpdSlot(slots[i], strides, d + 1, u) else slots[i]
  {
    hide Index, Pow2, Aligned, UpdSlot, UpdVec, Merge;
  }

  lemma FetchBelow(slots: seq<Ptr>, strides: seq<nat>, d: nat, pfx: nat, len: nat, u: Update, key: nat, i: nat, rest: nat)
    requires ValidStrides(strides) && WellFormed(slots, strides, d) && u.neu.Leaf? && len <= 64
    requires pfx < Pow2(64) && strides[d] < len <= MaxLen(strides, d) && Aligned(pfx, len) && key < Pow2(64)
    requires i == Index(key, strides[d]) && rest == Shl(key, strides[d])
    ensures i < |slots| && WellFormedPtr(slots[i], strides, d + 1)
    ensures WellFormedPtr(UpdSlots(slots, strides, d, pfx, len, u)[i], strides, d + 1)
    ensures FetchIn(UpdSlots(slots, strides, d, pfx, len, u)[i], strides, d + 1, rest)
         == if Matches(key, pfx, len) then Merge(FetchIn(slots[i], strides, d + 1, rest), u.old', u.neu, u.org)
            else FetchIn(slots[i], strides, d + 1, rest)
    decreases |strides| - d, 2
  {
    var stride := strides[d];
    MatchBelow(key, pfx, len, stride);
    AlignedShift(pfx, len, stride);
    LevelBelow(strides, d, len);
    hide Fetch, Shl, Pow2, Aligned, Merge, MaxLen, Matches, UpdVec, UpdSlot, FetchIn, Top, Index;
    assert WellFormedPtr(slots[i], strides, d + 1);
    if i == Index(pfx, stride) {
      FetchVec(slots[i], strides, d + 1, Shl(pfx, stride), len - stride, u, Shl(key, stride));
    }
  }

  lemma FetchSlotAt(slots: seq<Ptr>, strides: seq<nat>, d: nat, u: Update, key: nat, i: nat)
    requires ValidStrides(strides) && WellFormed(slots, strides, d) && u.neu.Leaf? && key < Pow2(64)
    requires i < |slots|
    ensures WellFormedPtr(slots[i], strides, d + 1) && WellFormedPtr(UpdSlot(slots[i], strides, d + 1, u), strides, d + 1)
    ensures FetchIn(UpdSlot(slots[i], strides, d + 1, u), strides, d + 1, Shl(key, strides[d]))
         == Merge(FetchIn(slots[i], strides, d + 1, Shl(key, strides[d])), u.old', u.neu, u.org)
    decreases |strides| - d, 1
  {
    assert WellFormedPtr(slots[i], strides, d + 1);
    hide *;
    FetchSlot(slots[i], strides, d + 1, u, Shl(key, strides[d]));
  }
}

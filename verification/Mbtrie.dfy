/** The multi-bit trie as the code runs it in one thread: loops over slots, reference counts kept by every store, and
    lookups that walk down the vectors. A sub-vector is named by exactly one slot, so it is a value held in that slot. */
module Mbtrie {
  import opened Bits64
  import opened MbtrieSpec
  import opened LongestPrefix
  import opened TrieUpdate

  // ---------- slots naming an element ----------

  function CountPtr(p: Ptr, e: nat): nat
    decreases p, 1
  {
    if p.Leaf? then (if p.elem == e then 1 else 0) else CountSlots(p.slots, e)
  }

  function CountSlots(slots: seq<Ptr>, e: nat): nat
    decreases slots, 0
  {
    if slots == [] then 0 else CountPtr(slots[0], e) + CountSlots(slots[1..], e)
  }

  lemma {:induction false} CountAppend(a: seq<Ptr>, b: seq<Ptr>, e: nat)
    ensures CountSlots(a + b, e) == CountSlots(a, e) + CountSlots(b, e)
  {
    if a == [] {
      assert a + b == b;
    } else {
      assert (a + b)[1..] == a[1..] + b;
      CountAppend(a[1..], b, e);
    }
  }

  lemma CountStore(slots: seq<Ptr>, i: nat, p: Ptr, e: nat)
    requires i < |slots|
    ensures CountSlots(slots[i := p], e) == CountSlots(slots, e) - CountPtr(slots[i], e) + CountPtr(p, e)
  {
    assert slots == slots[..i] + ([slots[i]] + slots[i + 1..]);
    assert slots[i := p] == slots[..i] + ([p] + slots[i + 1..]);
    CountAppend(slots[..i], [slots[i]] + slots[i + 1..], e);
    CountAppend(slots[..i], [p] + slots[i + 1..], e);
  }

  lemma {:induction false} CountUniform(slots: seq<Ptr>, p: Ptr, e: nat)
    requires p.Leaf? && forall i :: 0 <= i < |slots| ==> slots[i] == p
    ensures CountSlots(slots, e) == if p.elem == e then |slots| else 0
  {
    if slots != [] {
      CountUniform(slots[1..], p, e);
    }
  }

  /** One more element to the run. */
  lemma CountExtend(slots: seq<Ptr>, i: nat, e: nat)
    requires i < |slots|
    ensures CountSlots(slots[..i + 1], e) == CountSlots(slots[..i], e) + CountPtr(slots[i], e)
  {
    assert slots[..i + 1] == slots[..i] + [slots[i]];
    CountAppend(slots[..i], [slots[i]], e);
  }

  lemma CountSingle(p: Ptr)
    ensures forall e: nat :: CountSlots([p], e) == CountPtr(p, e)
  {
    var one := [p];
    assert one[1..] == [];
  }

  lemma CountSplit(slots: seq<Ptr>, a: nat, b: nat)
    requires a <= b <= |slots|
    ensures forall e: nat :: CountSlots(slots[..b], e) == CountSlots(slots[..a], e) + CountSlots(slots[a..b], e)
  {
    forall e: nat ensures CountSlots(slots[..b], e) == CountSlots(slots[..a], e) + CountSlots(slots[a..b], e) {
      assert slots[..b] == slots[..a] + slots[a..b];
      CountAppend(slots[..a], slots[a..b], e);
    }
  }

  lemma CountStores(slots: seq<Ptr>, i: nat, p: Ptr)
    requires i < |slots|
    ensures forall e: nat :: CountSlots(slots[i := p], e) == CountSlots(slots, e) - CountPtr(slots[i], e) + CountPtr(p, e)
  {
    forall e: nat ensures CountSlots(slots[i := p], e) == CountSlots(slots, e) - CountPtr(slots[i], e) + CountPtr(p, e) {
      CountStore(slots, i, p, e);
    }
  }

  lemma CountAtLeast(slots: seq<Ptr>, i: nat, e: nat)
    requires i < |slots|
    ensures CountPtr(slots[i], e) <= CountSlots(slots[..i + 1], e) <= CountSlots(slots, e)
  {
    CountExtend(slots, i, e);
    assert slots[..i + 1] + slots[i + 1..] == slots;
    CountAppend(slots[..i + 1], slots[i + 1..], e);
  }

  lemma CountEachAtLeast(slots: seq<Ptr>, i: nat)
    requires i < |slots|
    ensures forall e: nat :: CountPtr(slots[i], e) <= CountSlots(slots, e)
  {
    forall e: nat ensures CountPtr(slots[i], e) <= CountSlots(slots, e) {
      CountAtLeast(slots, i, e);
    }
  }

  // ---------- call-backs ----------

  function Cnt(refcnt: map<nat, int>, e: nat): int { if e in refcnt then refcnt[e] else 0 }

  /** An element's count and the number of its call-backs before and after: there is one call-back when the count falls to
      zero, else none, and a count of zero stays. */
  predicate CallOk(r: int, n: int, r': int, n': int) {
    (r == 0 ==> r' == 0) && n' == n + if r != 0 && r' == 0 then 1 else 0
  }

  ghost predicate CallsOk(refcnt: map<nat, int>, freed: multiset<nat>, refcnt': map<nat, int>, freed': multiset<nat>) {
    forall e: nat :: e != 0 ==> CallOk(Cnt(refcnt, e), freed[e], Cnt(refcnt', e), freed'[e])
  }

  lemma CallsChain(r: map<nat, int>, f: multiset<nat>, r': map<nat, int>, f': multiset<nat>,
                   r'': map<nat, int>, f'': multiset<nat>)
    requires CallsOk(r, f, r', f') && CallsOk(r', f', r'', f'')
    ensures CallsOk(r, f, r'', f'')
  {
    forall e: nat | e != 0 ensures CallOk(Cnt(r, e), f[e], Cnt(r'', e), f''[e]) {
      assert CallOk(Cnt(r, e), f[e], Cnt(r', e), f'[e]) && CallOk(Cnt(r', e), f'[e], Cnt(r'', e), f''[e]);
      hide Cnt;
    }
  }

  function Holds(e: nat, first: nat, second: nat): nat { (if e == first then 1 else 0) + if e == second then 1 else 0 }

  class Trie {
    const strides: seq<nat>
    var base: seq<Ptr>
    var defaultPfx: nat
    var refcnt: map<nat, int>

    /** How often the call-back was made for each element. */
    var freed: multiset<nat>

    function Ref(e: nat): int
      reads this`refcnt
    {
      Cnt(refcnt, e)
    }

    /** Every slot below is counted, and the word about to be stored is held once more. */
    ghost predicate Counted(slots: seq<Ptr>, neu: Ptr)
      requires neu.Leaf?
      reads this`refcnt
    {
      forall e: nat :: e != 0 ==> CountSlots(slots, e) + CountPtr(neu, e) <= Ref(e)
    }

    ghost predicate CountedPtr(p: Ptr, neu: Ptr)
      requires neu.Leaf?
      reads this`refcnt
    {
      forall e: nat :: e != 0 ==> CountPtr(p, e) + CountPtr(neu, e) <= Ref(e)
    }

    ghost predicate Valid()
      reads this
    {
      ValidStrides(strides) && WellFormed(base, strides, 0)
    }

    /** An element is counted once for every slot that names it, and once more as the default. */
    ghost function Named(e: nat): nat
      reads this`base, this`defaultPfx
    {
      CountSlots(base, e) + if e == defaultPfx then 1 else 0
    }

    /** At rest an element is counted so, and besides only by others who refer to it. */
    ghost predicate RefsCover()
      reads this
    {
      forall e: nat :: e != 0 ==> Named(e) <= Ref(e)
    }

    ghost predicate RefsExact()
      reads this
    {
      forall e: nat :: e != 0 ==> Ref(e) == Named(e)
    }

    constructor (strides: seq<nat>)
      requires ValidStrides(strides)
      ensures this.strides == strides && Valid() && RefsExact()
      ensures Represents(base, defaultPfx, strides, [])
    {
      this.strides := strides;
      base := seq(Pow2(strides[0]), _ => NULL);
      defaultPfx := 0;
      refcnt := map[];
      freed := multiset{};
      new;
      EmptyRepresents(strides);
      forall e: nat | e != 0 ensures Ref(e) == CountSlots(base, e) {
        CountUniform(base, NULL, e);
      }
    }

    method IncrementRefcnt(elem: nat, val: nat)
      modifies this`refcnt
      ensures forall e: nat :: e != 0 ==> Ref(e) == old(Ref(e)) + (if e == elem then val else 0)
      ensures elem == 0 || 0 < old(Ref(elem)) ==> CallsOk(old(refcnt), freed, refcnt, freed)
    {
      if elem != 0 {
        refcnt := refcnt[elem := Ref(elem) + val];
      }
    }

    /** Whoever takes the last reference makes the call-back. */
    method DecrementRefcnt(elem: nat, val: nat)
      modifies this`refcnt, this`freed
      ensures forall e: nat :: e != 0 ==> Ref(e) == old(Ref(e)) - (if e == elem then val else 0)
      ensures freed == old(freed) + (if elem != 0 && Ref(elem) == 0 then multiset{elem} else multiset{})
      ensures elem == 0 || 0 < val <= old(Ref(elem)) ==> CallsOk(old(refcnt), old(freed), refcnt, freed)
    {
      if elem != 0 {
        refcnt := refcnt[elem := Ref(elem) - val];
        if Ref(elem) == 0 {
          freed := freed + multiset{elem};
        }
      }
    }

    /** A new vector with every slot set to the leaf; each slot takes a reference. */
    method AllocVec(depth: nat, elem: Ptr) returns (vec: seq<Ptr>)
      requires ValidStrides(strides) && depth < |strides| && elem.Leaf? && (elem.elem == 0 || 0 < Ref(elem.elem))
      modifies this`refcnt
      ensures vec == seq(Pow2(strides[depth]), _ => elem)
      ensures forall e: nat :: e != 0 ==> Ref(e) == old(Ref(e)) + CountSlots(vec, e)
      ensures CallsOk(old(refcnt), freed, refcnt, freed)
    {
      var nslots := Pow2(strides[depth]);
      IncrementRefcnt(elem.elem, nslots);
      vec := [];
      for i := 0 to nslots
        invariant |vec| == i && forall k :: 0 <= k < i ==> vec[k] == elem
      {
        vec := vec + [elem];
      }
      forall e: nat | e != 0 ensures CountSlots(vec, e) == if e == elem.elem then nslots else 0 {
        CountUniform(vec, elem, e);
      }
    }

    /** Drops the references of a run of slots with the same word, or of a sub-vector. */
    method FreeRun(depth: nat, vec: seq<Ptr>, last: nat, i: nat)
      requires ValidStrides(strides) && WellFormed(vec, strides, depth) && last < i <= |vec|
      requires vec[last].Vec? ==> i == last + 1
      requires forall k :: last <= k < i ==> vec[k] == vec[last]
      requires Counted(vec[last..i], NULL)
      modifies this`refcnt, this`freed
      ensures forall e: nat :: e != 0 ==> Ref(e) == old(Ref(e)) - CountSlots(vec[last..i], e)
      ensures CallsOk(old(refcnt), old(freed), refcnt, freed)
      decreases |strides| - depth, 0, 0
    {
      assert WellFormedPtr(vec[last], strides, depth + 1);
      if vec[last].Vec? {
        assert vec[last..i] == [vec[last]];
        CountSingle(vec[last]);
        FreeVec(depth + 1, vec[last].slots);
      } else {
        forall e: nat | e != 0 ensures CountSlots(vec[last..i], e) == if e == vec[last].elem then i - last else 0 {
          CountUniform(vec[last..i], vec[last], e);
        }
        DecrementRefcnt(vec[last].elem, i - last);
      }
    }

    /** Frees a vector and everything below it: every slot gives up its reference. Runs of equal words are dropped
        together; two slots never name the same sub-vector. */
    method FreeVec(depth: nat, vec: seq<Ptr>)
      requires ValidStrides(strides) && WellFormed(vec, strides, depth)
      requires Counted(vec, NULL)
      modifies this`refcnt, this`freed
      ensures forall e: nat :: e != 0 ==> Ref(e) == old(Ref(e)) - CountSlots(vec, e)
      ensures CallsOk(old(refcnt), old(freed), refcnt, freed)
      decreases |strides| - depth, 1
    {
      assert forall e: nat :: CountSlots(vec[..0], e) == 0;
      assert CallsOk(refcnt, freed, refcnt, freed);
      hide CountSlots, WellFormedPtr, CallsOk;
      var last := 0;
      var i := 1;
      while i < |vec|
        invariant last < i <= |vec|
        invariant vec[last].Vec? ==> i == last + 1
        invariant forall k :: last <= k < i ==> vec[k] == vec[last]
        invariant forall e: nat :: e != 0 ==> Ref(e) == old(Ref(e)) - CountSlots(vec[..last], e)
        invariant CallsOk(old(refcnt), old(freed), refcnt, freed)
      {
        if vec[i] != vec[last] || vec[i].Vec? {
          DropRun(depth, vec, last, i, old(refcnt), old(freed));
          last := i;
        }
        i := i + 1;
      }
      DropRun(depth, vec, last, |vec|, old(refcnt), old(freed));
      assert vec[..|vec|] == vec;
    }

    /** One run of those, with `r` and `f` as it was before the first. */
    method DropRun(depth: nat, vec: seq<Ptr>, last: nat, i: nat, ghost r: map<nat, int>, ghost f: multiset<nat>)
      requires ValidStrides(strides) && WellFormed(vec, strides, depth) && last < i <= |vec|
      requires vec[last].Vec? ==> i == last + 1
      requires forall k :: last <= k < i ==> vec[k] == vec[last]
      requires forall e: nat :: e != 0 ==> CountSlots(vec, e) <= Cnt(r, e) && Ref(e) == Cnt(r, e) - CountSlots(vec[..last], e)
      requires CallsOk(r, f, refcnt, freed)
      modifies this`refcnt, this`freed
      ensures forall e: nat :: e != 0 ==> Ref(e) == Cnt(r, e) - CountSlots(vec[..i], e)
      ensures CallsOk(r, f, refcnt, freed)
      decreases |strides| - depth, 0, 1
    {
      hide CountSlots, CallsOk, WellFormed;
      CountSplit(vec, last, i);
      CountSplit(vec, i, |vec|);
      assert vec[..|vec|] == vec;
      ghost var r', f' := refcnt, freed;
      FreeRun(depth, vec, last, i);
      CallsChain(r, f, r', f', refcnt, freed);
    }

    /** Swings a slot from one word to another: the new element takes a reference before the old one gives its up. */
    method SwingSlot(cur: Ptr, neu: Ptr) returns (p: Ptr)
      requires cur.Leaf? && neu.Leaf? && CountedPtr(cur, neu)
      modifies this`refcnt, this`freed
      ensures p == neu
      ensures forall e: nat :: e != 0 ==> Ref(e) == old(Ref(e)) + CountPtr(neu, e) - CountPtr(cur, e)
      ensures CallsOk(old(refcnt), old(freed), refcnt, freed)
    {
      hide CallsOk;
      IncrementRefcnt(neu.elem, 1);
      ghost var r', f' := refcnt, freed;
      DecrementRefcnt(cur.elem, 1);
      CallsChain(old(refcnt), old(freed), r', f', refcnt, freed);
      p := neu;
    }

    /** The prefix covers the whole slot. */
    method UpdateSlot(depth: nat, cur: Ptr, u: Update) returns (p: Ptr)
      requires ValidStrides(strides) && WellFormedPtr(cur, strides, depth) && u.neu.Leaf?
      requires CountedPtr(cur, u.neu)
      modifies this`refcnt, this`freed
      ensures p == UpdSlot(cur, strides, depth, u)
      ensures forall e: nat :: e != 0 ==> Ref(e) == old(Ref(e)) + CountPtr(p, e) - CountPtr(cur, e)
      ensures CallsOk(old(refcnt), old(freed), refcnt, freed)
      decreases |strides| - depth, 1
    {
      if cur.Vec? {
        ZeroAligned();
        var slots := UpdatePfx(depth, cur.slots, 0, 0, u);
        p := Vec(slots);
      } else if cur.elem == u.old' {
        p := SwingSlot(cur, u.neu);
      } else if Leaf(cur.elem, 0) != u.neu {
        if u.neu != NULL && u.org >= cur.tag + 1 {
          p := SwingSlot(cur, u.neu);
        } else {
          p := cur;
        }
      } else {
        p := cur;
      }
    }

    /** The vector below a slot; a leaf is spread over a new one. */
    method Expand(depth: nat, cur: Ptr) returns (vec: seq<Ptr>)
      requires ValidStrides(strides) && WellFormedPtr(cur, strides, depth) && depth < |strides|
      requires CountedPtr(cur, NULL)
      modifies this`refcnt, this`freed
      ensures vec == Expanded(cur, strides, depth)
      ensures forall e: nat :: e != 0 ==> Ref(e) == old(Ref(e)) + CountSlots(vec, e) - CountPtr(cur, e)
      ensures CallsOk(old(refcnt), old(freed), refcnt, freed)
    {
      if cur.Vec? {
        vec := cur.slots;
      } else {
        assert cur.elem != 0 ==> CountPtr(cur, cur.elem) == 1;
        vec := AllocVec(depth, cur);
        ghost var r', f' := refcnt, freed;
        DecrementRefcnt(cur.elem, 1);
        CallsChain(old(refcnt), old(freed), r', f', refcnt, freed);
      }
    }

    /** The prefix covers part of a slot: a leaf is first spread over a new sub-vector. */
    method UpdateVec(depth: nat, cur: Ptr, pfx: nat, len: nat, u: Update) returns (p: Ptr)
      requires ValidStrides(strides) && WellFormedPtr(cur, strides, depth) && depth < |strides| && u.neu.Leaf?
      requires pfx < Pow2(64) && 0 < len <= 64 && len <= MaxLen(strides, depth) && Aligned(pfx, len)
      requires CountedPtr(cur, u.neu)
      modifies this`refcnt, this`freed
      ensures p == Vec(UpdSlots(Expanded(cur, strides, depth), strides, depth, pfx, len, u))
      ensures forall e: nat :: e != 0 ==> Ref(e) == old(Ref(e)) + CountPtr(p, e) - CountPtr(cur, e)
      ensures CallsOk(old(refcnt), old(freed), refcnt, freed)
      decreases |strides| - depth, 1
    {
      hide CallsOk;
      var vec := Expand(depth, cur);
      ghost var r', f' := refcnt, freed;
      vec := UpdatePfx(depth, vec, pfx, len, u);
      CallsChain(old(refcnt), old(freed), r', f', refcnt, freed);
      p := Vec(vec);
    }

    /** A sub-vector whose slots all hold the same element is replaced by that element. */
    method CollapseVec(depth: nat, cur: Ptr) returns (p: Ptr)
      requires ValidStrides(strides) && WellFormedPtr(cur, strides, depth)
      requires CountedPtr(cur, NULL)
      modifies this`refcnt, this`freed
      ensures p == Collapsed(cur)
      ensures forall e: nat :: e != 0 ==> Ref(e) == old(Ref(e)) + CountPtr(p, e) - CountPtr(cur, e)
      ensures CallsOk(old(refcnt), old(freed), refcnt, freed)
    {
      p := cur;
      if cur.Vec? && cur.slots[0].Leaf? {
        var elem := cur.slots[0];
        var i := 0;
        while i < |cur.slots|
          invariant 0 <= i <= |cur.slots|
          invariant forall k :: 0 <= k < i ==> cur.slots[k] == elem
          invariant p == cur && refcnt == old(refcnt) && freed == old(freed)
        {
          if cur.slots[i] != elem {
            return;
          }
          i := i + 1;
        }
        CountAtLeast(cur.slots, 0, elem.elem);
        IncrementRefcnt(elem.elem, 1);
        ghost var r', f' := refcnt, freed;
        FreeVec(depth, cur.slots);
        CallsChain(old(refcnt), old(freed), r', f', refcnt, freed);
        p := elem;
      }
    }

    /** Updates a run of whole slots. */
    method UpdateRun(depth: nat, slots: seq<Ptr>, idx: nat, nslots: nat, u: Update) returns (vec: seq<Ptr>)
      requires ValidStrides(strides) && WellFormed(slots, strides, depth) && u.neu.Leaf? && idx + nslots <= |slots|
      requires Counted(slots, u.neu)
      modifies this`refcnt, this`freed
      ensures vec == UpdRange(slots, strides, depth, idx, nslots, u)
      ensures forall e: nat :: e != 0 ==> Ref(e) == old(Ref(e)) + CountSlots(vec, e) - CountSlots(slots, e)
      ensures CallsOk(old(refcnt), old(freed), refcnt, freed)
      decreases |strides| - depth, 0, 0
    {
      assert CallsOk(refcnt, freed, refcnt, freed);
      hide CountSlots, CountPtr, CallsOk, Cnt;
      vec := slots;
      for i := 0 to nslots
        invariant |vec| == |slots|
        invariant forall k :: 0 <= k < |slots| ==>
                    vec[k] == if idx <= k < idx + i then UpdatedAt(slots, depth, k, u) else slots[k]
        invariant forall e: nat :: e != 0 ==> Ref(e) == old(Ref(e)) + CountSlots(vec, e) - CountSlots(slots, e)
        invariant CallsOk(old(refcnt), old(freed), refcnt, freed)
      {
        assert WellFormedPtr(slots[idx + i], strides, depth + 1);
        CountEachAtLeast(vec, idx + i);
        ghost var r', f' := refcnt, freed;
        var p := UpdateSlot(depth + 1, vec[idx + i], u);
        CallsChain(old(refcnt), old(freed), r', f', refcnt, freed);
        CountStores(vec, idx + i, p);
        vec := vec[idx + i := p];
      }
      assert vec == UpdRange(slots, strides, depth, idx, nslots, u);
    }

    ghost function UpdatedAt(slots: seq<Ptr>, depth: nat, k: nat, u: Update): Ptr
      requires ValidStrides(strides) && WellFormed(slots, strides, depth) && k < |slots| && u.neu.Leaf?
    {
      assert WellFormedPtr(slots[k], strides, depth + 1);
      UpdSlot(slots[k], strides, depth + 1, u)
    }

    /** Updates the vector below a slot and collapses it when elements were removed or replaced. */
    method UpdateBelow(depth: nat, cur: Ptr, pfx: nat, len: nat, u: Update) returns (p: Ptr)
      requires ValidStrides(strides) && WellFormedPtr(cur, strides, depth) && depth < |strides| && u.neu.Leaf?
      requires pfx < Pow2(64) && 0 < len <= 64 && len <= MaxLen(strides, depth) && Aligned(pfx, len)
      requires CountedPtr(cur, u.neu)
      modifies this`refcnt, this`freed
      ensures p == UpdVec(cur, strides, depth, pfx, len, u)
      ensures forall e: nat :: e != 0 ==> Ref(e) == old(Ref(e)) + CountPtr(p, e) - CountPtr(cur, e)
      ensures CallsOk(old(refcnt), old(freed), refcnt, freed)
      decreases |strides| - depth, 2
    {
      assert forall e: nat :: e != 0 ==> CountPtr(NULL, e) == 0;
      hide CountPtr, Pow2, Aligned, CallsOk, Cnt, Collapsed, UpdSlots, Expanded, MaxLen;
      p := UpdateVec(depth, cur, pfx, len, u);
      if u.neu == NULL || u.neu.tag + 1 < u.org {
        SlotsWellFormed(Expanded(cur, strides, depth), strides, depth, pfx, len, u);
        ghost var r', f' := refcnt, freed;
        p := CollapseVec(depth, p);
        CallsChain(old(refcnt), old(freed), r', f', refcnt, freed);
      }
    }

    /** Updates a vector: a run of whole slots, or one slot on the next level. */
    method UpdatePfx(depth: nat, slots: seq<Ptr>, pfx: nat, len: nat, u: Update) returns (vec: seq<Ptr>)
      requires ValidStrides(strides) && WellFormed(slots, strides, depth) && u.neu.Leaf?
      requires pfx < Pow2(64) && len <= 64 && len <= MaxLen(strides, depth) && Aligned(pfx, len)
      requires Counted(slots, u.neu)
      modifies this`refcnt, this`freed
      ensures vec == UpdSlots(slots, strides, depth, pfx, len, u)
      ensures forall e: nat :: e != 0 ==> Ref(e) == old(Ref(e)) + CountSlots(vec, e) - CountSlots(slots, e)
      ensures CallsOk(old(refcnt), old(freed), refcnt, freed)
      decreases |strides| - depth, 0, 1
    {
      hide CountSlots, CountPtr, Index, Shl, Pow2, Aligned, CallsOk, Cnt;
      var stride := strides[depth];
      var idx := Index(pfx, stride);
      if len <= stride {
        MatchRange(pfx, pfx, len, stride);
        vec := UpdateRun(depth, slots, idx, Pow2(stride - len), u);
      } else {
        LevelBelow(strides, depth, len);
        AlignedShift(pfx, len, stride);
        assert WellFormedPtr(slots[idx], strides, depth + 1);
        CountEachAtLeast(slots, idx);
        var p := UpdateBelow(depth + 1, slots[idx], Shl(pfx, stride), len - stride, u);
        CountStores(slots, idx, p);
        vec := slots[idx := p];
      }
    }

    /** The old default's call-back is made when that was its last reference. */
    method ReplaceDefault(neu: nat)
      requires RefsCover()
      modifies this`defaultPfx, this`refcnt, this`freed
      ensures defaultPfx == neu
      ensures forall e: nat :: e != 0 ==> Ref(e) - Named(e) == old(Ref(e) - Named(e))
      ensures forall e: nat :: e != 0 ==> freed[e] == old(freed[e]) + if 0 < old(Ref(e)) && Ref(e) == 0 then 1 else 0
    {
      hide CountSlots;
      var cur := defaultPfx;
      IncrementRefcnt(neu, 1);
      defaultPfx := neu;
      DecrementRefcnt(cur, 1);
    }

    /** Lets go of two elements held once each (or one held twice): whoever then has no reference left is called back. */
    method LetGo(first: nat, second: nat)
      requires forall e: nat :: e != 0 ==> Holds(e, first, second) <= Ref(e)
      modifies this`refcnt, this`freed
      ensures forall e: nat :: e != 0 ==> Ref(e) == old(Ref(e)) - Holds(e, first, second)
      ensures forall e: nat :: e != 0 ==>
                freed[e] == old(freed[e]) + if 0 < Holds(e, first, second) && Ref(e) == 0 then 1 else 0
    {
      DecrementRefcnt(first, 1);
      DecrementRefcnt(second, 1);
    }

    /** The update of the whole trie, for which the new element is held once. */
    method UpdateBase(pfx: nat, len: nat, u: Update)
      requires ValidStrides(strides) && WellFormed(base, strides, 0) && u.neu.Leaf?
      requires forall e: nat :: e != 0 ==> CountSlots(base, e) + (if e == u.neu.elem then 1 else 0) <= Ref(e)
      requires pfx < Pow2(64) && 0 < len <= 64 && len <= MaxLen(strides, 0) && Aligned(pfx, len)
      modifies this`base, this`refcnt, this`freed
      ensures WellFormed(base, strides, 0) && base == UpdSlots(old(base), strides, 0, pfx, len, u)
      ensures forall e: nat :: e != 0 ==> Ref(e) == old(Ref(e)) + CountSlots(base, e) - CountSlots(old(base), e)
      ensures forall e: nat :: e != 0 ==> CallOk(old(Ref(e)), old(freed[e]), Ref(e), freed[e])
    {
      assert Counted(base, u.neu);
      SlotsWellFormed(base, strides, 0, pfx, len, u);
      base := UpdatePfx(0, base, pfx, len, u);
    }

    /** Updates the trie under a prefix while holding the element to remove and the new one, so that neither is called back
        before the end. */
    method UpdateHeld(pfx: nat, len: nat, old': nat, word: Ptr)
      requires ValidStrides(strides) && WellFormed(base, strides, 0) && word.Leaf?
      requires forall e: nat :: e != 0 ==> CountSlots(base, e) <= Ref(e)
      requires pfx < Pow2(64) && 0 < len <= 64 && len <= MaxLen(strides, 0) && Aligned(pfx, len)
      modifies this`base, this`refcnt, this`freed
      ensures WellFormed(base, strides, 0) && base == UpdSlots(old(base), strides, 0, pfx, len, Update(len, old', word))
      ensures forall e: nat :: e != 0 ==> Ref(e) == old(Ref(e)) + CountSlots(base, e) - CountSlots(old(base), e)
      ensures forall e: nat :: e != 0 ==>
                freed[e] == old(freed[e]) + if (0 < old(Ref(e)) || e == old' || e == word.elem) && Ref(e) == 0 then 1 else 0
    {
      hide CountSlots, UpdSlots, Cnt, CallsOk, Aligned, Pow2, MaxLen, WellFormed, ValidStrides;
      IncrementRefcnt(old', 1);
      IncrementRefcnt(word.elem, 1);
      UpdateBase(pfx, len, Update(len, old', word));
      LetGo(word.elem, old');
    }

    /** Which calls are refused: nothing to insert, prefix too long, or bits set after the prefix. */
    predicate Refused(pfx: nat, len: nat, old': nat, neu: nat) {
      (old' == 0 && neu == 0) || len > MaxLen(strides, 0) || len > 64 || !Aligned(pfx, len)
    }

    /** Removes `old'` under a prefix and puts `neu` in its place; an insertion removes nothing. An element is called back
        exactly once, at the end of its last reference; besides, the element to remove and a new one that is not stored
        are called back although nothing referred to them before. */
    method Remove(pfx: nat, len: nat, old': nat, neu: nat)
      requires Valid() && RefsCover() && pfx < Pow2(64)
      modifies this`base, this`defaultPfx, this`refcnt, this`freed
      ensures Valid() && RefsCover()
      ensures forall e: nat :: e != 0 ==> Ref(e) - Named(e) == old(Ref(e) - Named(e))
      ensures old(RefsExact()) ==> RefsExact()
      ensures Refused(pfx, len, old', neu) ==> base == old(base) && defaultPfx == old(defaultPfx) && freed == old(freed)
      ensures !Refused(pfx, len, old', neu) && len == 0 ==> base == old(base) && defaultPfx == neu
      ensures !Refused(pfx, len, old', neu) && len > 0 ==>
                && defaultPfx == old(defaultPfx)
                && base == UpdSlots(old(base), strides, 0, pfx, len, Update(len, old', NewWord(neu, len, defaultPfx)))
      ensures !Refused(pfx, len, old', neu) && len > 0 ==> forall key :: 0 <= key < Pow2(64) ==>
                KeyUpdated(old(base), base, strides, defaultPfx, pfx, len, old', neu, key)
      ensures !Refused(pfx, len, old', neu) ==> forall e: nat :: e != 0 ==>
                var held := 0 < len && (e == old' || (e == neu && neu != old(defaultPfx)));
                freed[e] == old(freed[e]) + if (0 < old(Ref(e)) || held) && Ref(e) == 0 then 1 else 0
    {
      hide UpdSlots, CountSlots, WellFormed, Aligned, Pow2, KeyUpdated, MaxLen, ValidStrides;
      if Refused(pfx, len, old', neu) {
        return;
      }
      forall e: nat | e != 0 ensures CountSlots(base, e) <= Ref(e) {
        assert Named(e) <= Ref(e);
      }
      if len > 0 {
        EveryKeyUpdated(pfx, len, old', neu);
      }
      if len == 0 {
        ReplaceDefault(neu);
      } else {
        UpdateHeld(pfx, len, old', NewWord(neu, len, defaultPfx));
      }
    }

    lemma EveryKeyUpdated(pfx: nat, len: nat, old': nat, neu: nat)
      requires Valid() && pfx < Pow2(64) && !Refused(pfx, len, old', neu) && len > 0
      ensures var slots' := UpdSlots(base, strides, 0, pfx, len, Update(len, old', NewWord(neu, len, defaultPfx)));
              && WellFormed(slots', strides, 0)
              && forall key :: 0 <= key < Pow2(64) ==>
                   KeyUpdated(base, slots', strides, defaultPfx, pfx, len, old', neu, key)
    {
      hide UpdSlots, Pow2, KeyUpdated, Aligned;
      UpdatedKey(base, strides, defaultPfx, pfx, len, old', neu, 0);
      forall key | 0 <= key < Pow2(64)
        ensures var slots' := UpdSlots(base, strides, 0, pfx, len, Update(len, old', NewWord(neu, len, defaultPfx)));
                KeyUpdated(base, slots', strides, defaultPfx, pfx, len, old', neu, key)
      {
        UpdatedKey(base, strides, defaultPfx, pfx, len, old', neu, key);
      }
    }

    method Insert(pfx: nat, len: nat, elem: nat, ghost h: seq<Route>)
      requires Valid() && RefsCover() && pfx < Pow2(64)
      requires Represents(base, defaultPfx, strides, h)
      modifies this`base, this`defaultPfx, this`refcnt, this`freed
      ensures Valid() && RefsCover()
      ensures old(RefsExact()) ==> RefsExact()
      ensures var r := Route(pfx, len, elem);
              if !ValidRoute(r, MaxLen(strides, 0)) then base == old(base) && defaultPfx == old(defaultPfx)
              else len == 0 || elem != old(defaultPfx) ==> Represents(base, defaultPfx, strides, h + [r])
    {
      var r := Route(pfx, len, elem);
      if ValidRoute(r, MaxLen(strides, 0)) {
        if len == 0 {
          DefaultRepresents(base, defaultPfx, strides, h, r);
        } else if elem != defaultPfx {
          InsertRepresents(base, defaultPfx, strides, h, r);
        }
      }
      Remove(pfx, len, 0, elem);
    }

    /** Walks down the vectors. */
    method LookupKey(key: nat) returns (elem: nat)
      requires Valid() && key < Pow2(64)
      ensures elem == Lookup(base, defaultPfx, strides, key)
    {
      var vec, k, depth := base, key, 0;
      while true
        invariant WellFormed(vec, strides, depth)
        invariant Fetch(vec, strides, depth, k) == Fetch(base, strides, 0, key)
        decreases |strides| - depth
      {
        var ptr := vec[Index(k, strides[depth])];
        FetchBy(vec, strides, depth, k);
        if ptr.Leaf? {
          return if ptr.elem == 0 then defaultPfx else ptr.elem;
        }
        vec, k, depth := ptr.slots, Shl(k, strides[depth]), depth + 1;
      }
    }

    /** Gives up the reference of a slot of the first level. */
    method FreeSlot(ptr: Ptr)
      requires ValidStrides(strides) && WellFormedPtr(ptr, strides, 1) && CountedPtr(ptr, NULL)
      modifies this`refcnt, this`freed
      ensures forall e: nat :: e != 0 ==> Ref(e) == old(Ref(e)) - CountPtr(ptr, e)
      ensures CallsOk(old(refcnt), old(freed), refcnt, freed)
    {
      if ptr.Vec? {
        FreeVec(1, ptr.slots);
      } else if ptr != NULL {
        assert ptr.elem != 0 ==> CountPtr(ptr, ptr.elem) == 1;
        DecrementRefcnt(ptr.elem, 1);
      }
    }

    /** Releases everything. The default element keeps the reference it has as the default; every other one is called back
        once, unless others refer to it. */
    method Free()
      requires Valid() && RefsCover()
      modifies this`refcnt, this`freed
      ensures forall e: nat :: e != 0 ==> Ref(e) == old(Ref(e)) - CountSlots(base, e)
      ensures old(RefsExact()) ==> forall e: nat :: e != 0 ==> Ref(e) == if e == defaultPfx then 1 else 0
      ensures forall e: nat :: e != 0 ==> freed[e] == old(freed[e]) + if 0 < old(Ref(e)) && Ref(e) == 0 then 1 else 0
    {
      assert forall e: nat :: CountSlots(base[..0], e) == 0;
      forall e: nat | e != 0 ensures CountSlots(base, e) <= Cnt(refcnt, e) {
        assert Named(e) <= Ref(e);
      }
      hide CountSlots, CountPtr;
      for i := 0 to |base|
        invariant forall e: nat :: e != 0 ==> Ref(e) == old(Ref(e)) - CountSlots(base[..i], e)
        invariant CallsOk(old(refcnt), old(freed), refcnt, freed)
      {
        FreeNext(i, old(refcnt), old(freed));
      }
      assert base[..|base|] == base;
    }

    /** One slot of those, with `r` and `f` as it was before the first. */
    method FreeNext(i: nat, ghost r: map<nat, int>, ghost f: multiset<nat>)
      requires Valid() && i < |base|
      requires forall e: nat :: e != 0 ==> CountSlots(base, e) <= Cnt(r, e) && Ref(e) == Cnt(r, e) - CountSlots(base[..i], e)
      requires CallsOk(r, f, refcnt, freed)
      modifies this`refcnt, this`freed
      ensures forall e: nat :: e != 0 ==> Ref(e) == Cnt(r, e) - CountSlots(base[..i + 1], e)
      ensures CallsOk(r, f, refcnt, freed)
    {
      assert WellFormedPtr(base[i], strides, 1);
      assert forall e: nat :: e != 0 ==> CountPtr(NULL, e) == 0;
      forall e: nat
        ensures CountSlots(base[..i + 1], e) == CountSlots(base[..i], e) + CountPtr(base[i], e) <= CountSlots(base, e)
      {
        CountExtend(base, i, e);
        CountAtLeast(base, i, e);
      }
      hide CountSlots, CountPtr, CallsOk, WellFormed;
      ghost var r', f' := refcnt, freed;
      FreeSlot(base[i]);
      CallsChain(r, f, r', f', refcnt, freed);
    }

    /** What is known of key i, which was `key` at first: its bit is in the mask and its cursor is on its way to the
        leaf, or it has been reported. */
    ghost predicate Tracked(key: nat, depth: nat, pending: bool, c: Cursor, k: nat, result: nat, success: bool)
      requires Valid()
      reads this
    {
      var leaf := Fetch(base, strides, 0, key);
      if pending then
        && k < Pow2(64) && !success
        && WellFormed(c.vec, strides, depth) && c.idx == Index(k, strides[depth])
        && Fetch(c.vec, strides, depth, k) == leaf
      else
        && success == Success(leaf, defaultPfx)
        && (success ==> result == Reported(leaf, defaultPfx))
    }

    ghost predicate AllTracked(org: seq<nat>, depth: nat, mask: seq<bool>, cursors: seq<Cursor>, keys: seq<nat>,
                               results: seq<nat>, bm: seq<bool>)
      requires Valid()
      reads this
    {
      && |org| == |mask| == |cursors| == |keys| == |results| == |bm|
      && forall i :: 0 <= i < |org| ==> Tracked(org[i], depth, mask[i], cursors[i], keys[i], results[i], bm[i])
    }

    /** One pending key: load its pointer, go down one level or report. */
    method ParseKey(depth: nat, c: Cursor, key: nat, result: nat, success: bool, ghost org: nat)
      returns (pending: bool, c': Cursor, key': nat, result': nat, success': bool)
      requires Valid() && depth < |strides| && Tracked(org, depth, true, c, key, result, success)
      ensures Tracked(org, depth + 1, pending, c', key', result', success')
      ensures depth + 1 == |strides| ==> !pending
    {
      pending, c', key', result', success' := false, c, key, result, success;
      var ptr := c.vec[c.idx];
      FetchBy(c.vec, strides, depth, key);
      if ptr.Vec? {
        pending := true;
        key' := Shl(key, strides[depth]);
        c' := Cursor(ptr.slots, Index(key', strides[depth + 1]));
      } else if ptr != NULL {
        result', success' := ptr.elem, true;
      } else if defaultPfx != 0 {
        result', success' := defaultPfx, true;
      }
    }

    /** One round: load every pending pointer, go down one level or report. */
    method ParseData(depth: nat, mask: seq<bool>, cursors: seq<Cursor>, keys: array<nat>, results: seq<nat>,
                     bm: seq<bool>, ghost org: seq<nat>)
      returns (next: seq<bool>, cursors': seq<Cursor>, results': seq<nat>, bm': seq<bool>)
      requires Valid() && depth < |strides|
      requires AllTracked(org, depth, mask, cursors, keys[..], results, bm)
      modifies keys
      ensures AllTracked(org, depth + 1, next, cursors', keys[..], results', bm')
      ensures depth + 1 == |strides| ==> forall i :: 0 <= i < |next| ==> !next[i]
    {
      hide Tracked, ValidStrides, WellFormed;
      next, cursors', results', bm' := seq(|mask|, _ => false), cursors, results, bm;
      for i := 0 to |mask|
        invariant |next| == |cursors'| == |results'| == |bm'| == |mask| == keys.Length
        invariant forall j :: 0 <= j < i ==> Tracked(org[j], depth + 1, next[j], cursors'[j], keys[j], results'[j], bm'[j])
        invariant forall j :: i <= j < |mask| ==> Tracked(org[j], depth, mask[j], cursors'[j], keys[j], results'[j], bm'[j])
        invariant forall j :: i <= j < |mask| ==> !next[j]
        invariant depth + 1 == |strides| ==> forall j :: 0 <= j < |mask| ==> !next[j]
      {
        assert Tracked(org[i], depth, mask[i], cursors'[i], keys[i], results'[i], bm'[i]);
        DoneStays(org[i], depth, cursors'[i], keys[i], results'[i], bm'[i]);
        if mask[i] {
          var pending, c, key, result, success := ParseKey(depth, cursors'[i], keys[i], results'[i], bm'[i], org[i]);
          next, cursors', results', bm' := next[i := pending], cursors'[i := c], results'[i := result], bm'[i := success];
          keys[i] := key;
        }
      }
    }

    lemma DoneStays(key: nat, depth: nat, c: Cursor, k: nat, result: nat, success: bool)
      requires Valid() && depth < |strides|
      ensures Tracked(key, depth, false, c, k, result, success) ==> Tracked(key, depth + 1, false, c, k, result, success)
    {
    }

    /** Looks up at most 64 keys together. Each key's bit and result follow from its leaf, and where no leaf is a tagged
        NULL standing before a default, they are what the single lookup returns. */
    method LookupVec(keys: array<nat>) returns (results: seq<nat>, bm: seq<bool>)
      requires Valid() && forall i :: 0 <= i < keys.Length ==> keys[i] < Pow2(64)
      modifies keys
      ensures |results| == |bm| == keys.Length
      ensures 64 < keys.Length ==> forall i :: 0 <= i < keys.Length ==> !bm[i]
      ensures keys.Length <= 64 ==> forall i :: 0 <= i < keys.Length ==>
                var leaf := Fetch(base, strides, 0, old(keys[i]));
                bm[i] == Success(leaf, defaultPfx) && (bm[i] ==> results[i] == Reported(leaf, defaultPfx))
    {
      var num := keys.Length;
      ghost var org := keys[..];
      results, bm := seq(num, _ => 0), seq(num, _ => false);
      if num > 64 || num == 0 {
        return;
      }
      var cursors := seq(num, i requires 0 <= i < num reads this, keys => Cursor(base, Index(keys[i], strides[0])));
      var mask := seq(num, _ => true);
      var depth := 0;
      assert AllTracked(org, 0, mask, cursors, keys[..], results, bm);
      while true in mask
        invariant AllTracked(org, depth, mask, cursors, keys[..], results, bm)
        invariant depth <= |strides| && (depth == |strides| ==> forall i :: 0 <= i < |mask| ==> !mask[i])
        decreases |strides| - depth
      {
        mask, cursors, results, bm := ParseData(depth, mask, cursors, keys, results, bm, org);
        depth := depth + 1;
      }
      forall i | 0 <= i < num
        ensures bm[i] == Success(Fetch(base, strides, 0, org[i]), defaultPfx)
        ensures bm[i] ==> results[i] == Reported(Fetch(base, strides, 0, org[i]), defaultPfx)
      {
        assert mask[i] in mask;
        assert Tracked(org[i], depth, mask[i], cursors[i], keys[..][i], results[i], bm[i]);
      }
    }
  }

  // ---------- lookup of several keys ----------

  /** Where the next word of a key is. */
  datatype Cursor = Cursor(vec: seq<Ptr>, idx: nat)

  /** Does the vectored lookup report success for this leaf, and with which element? A NULL word stands for the default;
      a word that only carries a length tag does not. */
  function Reported(p: Ptr, defaultPfx: nat): nat
    requires p.Leaf?
  {
    if p != NULL then p.elem else defaultPfx
  }

  predicate Success(p: Ptr, defaultPfx: nat)
    requires p.Leaf?
  {
    p != NULL || defaultPfx != 0
  }

  /** The element that the vectored lookup hands out for a leaf, 0 when it reports no success. */
  function HandedOut(p: Ptr, defaultPfx: nat): nat
    requires p.Leaf?
  {
    if Success(p, defaultPfx) then Reported(p, defaultPfx) else 0
  }

  /** After insertions only, the vectored lookup and the single lookup agree on every key. */
  lemma InsertionsAgree(slots: seq<Ptr>, defaultPfx: nat, strides: seq<nat>, h: seq<Route>, key: nat)
    requires Represents(slots, defaultPfx, strides, h) && key < Pow2(64)
    ensures HandedOut(Fetch(slots, strides, 0, key), defaultPfx) == Lookup(slots, defaultPfx, strides, key)
    ensures HandedOut(Fetch(slots, strides, 0, key), defaultPfx) == Answer(h, key)
  {
    LookupIsLongestPrefix(slots, defaultPfx, strides, h, key);
    assert Fetch(slots, strides, 0, key) == LeafFor(h, key);
    var b := Best(h, key);
    if b != -1 {
      assert ValidRoute(h[b], MaxLen(strides, 0));
    }
  }

  /** Removing an element without a replacement makes the two lookups differ on the keys that lose it exactly when there
      is a default and the prefix is longer than one bit: the word left behind is a tagged NULL, which the single lookup
      reads as the default and the vectored one hands out as the element 0. */
  lemma RemovalAgreesIff(slots: seq<Ptr>, defaultPfx: nat, strides: seq<nat>, pfx: nat, len: nat, elem: nat, key: nat)
    requires ValidStrides(strides) && WellFormed(slots, strides, 0) && elem != 0
    requires pfx < Pow2(64) && 0 < len <= 64 && len <= MaxLen(strides, 0) && Aligned(pfx, len)
    requires key < Pow2(64) && Matches(key, pfx, len) && Fetch(slots, strides, 0, key).elem == elem
    ensures var u := Update(len, elem, NewWord(0, len, defaultPfx));
            var slots' := UpdSlots(slots, strides, 0, pfx, len, u);
            && WellFormed(slots', strides, 0)
            && Lookup(slots', defaultPfx, strides, key) == defaultPfx
            && (HandedOut(Fetch(slots', strides, 0, key), defaultPfx) == Lookup(slots', defaultPfx, strides, key)
                <==> defaultPfx == 0 || len == 1)
  {
    var u := Update(len, elem, NewWord(0, len, defaultPfx));
    hide UpdSlots, Fetch, Matches, WellFormed, Aligned;
    FetchUpdated(slots, strides, 0, pfx, len, u, key);
  }

  /** The disagreement is real: with one level of 8 bits, a default 1 and a route 2 of more than one bit, removing that
      route makes the single lookup of key 0 return the default and the vectored one the element 0, with success. */
  lemma RemovalDisagrees(h: seq<Route>, n: nat, strides: seq<nat>) returns (slots: seq<Ptr>, slots': seq<Ptr>)
    requires 1 < n <= 8 && h == [Route(0, 0, 1), Route(0, n, 2)] && strides == [8]
    ensures Represents(slots, 1, strides, h) && n <= MaxLen(strides, 0) && Aligned(0, n)
    ensures slots' == UpdSlots(slots, strides, 0, 0, n, Update(n, 2, NewWord(0, n, 1))) && WellFormed(slots', strides, 0)
    ensures Lookup(slots', 1, strides, 0) == 1
    ensures var leaf := Fetch(slots', strides, 0, 0); Success(leaf, 1) && Reported(leaf, 1) == 0
  {
    hide *;
    OneLevel(strides);
    ExampleValid(h, n);
    ExampleDefault(h, n);
    ExampleAnswer(h, n);
    ZeroPrefix(n);
    FilledRepresents(strides, h);
    slots := Filled(strides, h);
    LookupIsLongestPrefix(slots, 1, strides, h, 0);
    slots' := AfterRemoval(slots, strides, h, n);
  }

  lemma AfterRemoval(slots: seq<Ptr>, strides: seq<nat>, h: seq<Route>, n: nat) returns (slots': seq<Ptr>)
    requires Represents(slots, 1, strides, h) && ValidStrides(strides) && WellFormed(slots, strides, 0)
    requires 1 < n <= 64 && n <= MaxLen(strides, 0) && Aligned(0, n) && Matches(0, 0, n) && 0 < Pow2(64)
    requires Lookup(slots, 1, strides, 0) == 2
    ensures slots' == UpdSlots(slots, strides, 0, 0, n, Update(n, 2, NewWord(0, n, 1))) && WellFormed(slots', strides, 0)
    ensures Lookup(slots', 1, strides, 0) == 1
    ensures var leaf := Fetch(slots', strides, 0, 0); Success(leaf, 1) && Reported(leaf, 1) == 0
  {
    hide Pow2, Aligned, Matches, UpdSlots, Fetch, Represents, WellFormed, MaxLen;
    RemovalAgreesIff(slots, 1, strides, 0, n, 2, 0);
    slots' := UpdSlots(slots, strides, 0, 0, n, Update(n, 2, NewWord(0, n, 1)));
  }
}

/** The lax reorder buffer, worked on by one thread at a time: what inserting and retiring do to the window, as functions,
    and the class that does it in place with an output vector. */
module LaxRob {
  import opened RingIndex

  datatype Elem = Elem(id: nat, sn: nat)

  /** An element that has been output; `late` ones were behind the window when they came. */
  datatype Item = Item(elem: Elem, late: bool)

  /** The window starts at `oldest`; slots hold the elements of one sequence number, latest first. */
  datatype Core = Core(oldest: nat, slots: seq<seq<Elem>>, out: seq<Item>)

  function Items(list: seq<Elem>, late: bool): (r: seq<Item>)
    ensures |r| == |list| && forall k :: 0 <= k < |r| ==> r[k] == Item(list[k], late)
  {
    seq(|list|, k requires 0 <= k < |list| => Item(list[k], late))
  }

  // ---------- what the operations do ----------

  function RetireOne(c: Core): (c': Core)
    requires |c.slots| > 0
    ensures |c'.slots| == |c.slots|
  {
    var slot := At(c.oldest, |c.slots|);
    Core(c.oldest + 1, c.slots[slot := []], c.out + Items(c.slots[slot], false))
  }

  function RetireMany(c: Core, n: nat): (c': Core)
    requires |c.slots| > 0
    ensures |c'.slots| == |c.slots|
    decreases n
  {
    if n == 0 then c else RetireOne(RetireMany(c, n - 1))
  }

  /** One pass over the ring is enough, however far the window moves. */
  function RetireSlots(c: Core, n: nat): (c': Core)
    requires |c.slots| > 0
    ensures |c'.slots| == |c.slots|
  {
    if n <= |c.slots| then RetireMany(c, n)
    else
      var all := RetireMany(c, |c.slots|);
      all.(oldest := all.oldest + (n - |c.slots|))
  }

  function InsertElem(c: Core, e: Elem): (c': Core)
    requires |c.slots| > 0
    ensures |c'.slots| == |c.slots|
  {
    var size := |c.slots|;
    if e.sn < c.oldest then c.(out := c.out + Items([e], true))
    else if e.sn >= c.oldest + size then
      var moved := RetireSlots(c, e.sn - (c.oldest + size - 1));
      moved.(slots := moved.slots[At(e.sn, size) := [e]])
    else c.(slots := c.slots[At(e.sn, size) := [e] + c.slots[At(e.sn, size)]])
  }

  function InsertAll(c: Core, list: seq<Elem>): (c': Core)
    requires |c.slots| > 0
    ensures |c'.slots| == |c.slots|
    decreases |list|
  {
    if list == [] then c else InsertElem(InsertAll(c, list[..|list| - 1]), list[|list| - 1])
  }

  // ---------- what they keep ----------

  /** Every slot holds only elements of the window that select it. */
  ghost predicate WindowOk(oldest: nat, slots: seq<seq<Elem>>) {
    |slots| > 0 && forall k :: 0 <= k < |slots| ==> SlotOk(oldest, slots, k)
  }

  ghost predicate SlotOk(oldest: nat, slots: seq<seq<Elem>>, k: nat)
    requires k < |slots|
  {
    forall e :: e in slots[k] ==> oldest <= e.sn < oldest + |slots| && At(e.sn, |slots|) == k
  }

  /** Elements that were not late come out in the order of sequence numbers, before the window. */
  ghost predicate OutOk(oldest: nat, out: seq<Item>) {
    && (forall k :: 0 <= k < |out| && !out[k].late ==> out[k].elem.sn < oldest)
    && forall j, k :: 0 <= j < k < |out| && !out[j].late && !out[k].late ==> out[j].elem.sn <= out[k].elem.sn
  }

  ghost predicate Valid(c: Core) { WindowOk(c.oldest, c.slots) && OutOk(c.oldest, c.out) }

  /** How often an element has been output, lies in the slots, or either. */
  function OutTimes(out: seq<Item>, e: Elem): nat {
    if out == [] then 0 else OutTimes(out[..|out| - 1], e) + if out[|out| - 1].elem == e then 1 else 0
  }

  function SlotTimes(slots: seq<seq<Elem>>, e: Elem): nat {
    if slots == [] then 0 else SlotTimes(slots[..|slots| - 1], e) + multiset(slots[|slots| - 1])[e]
  }

  function Times(c: Core, e: Elem): nat { OutTimes(c.out, e) + SlotTimes(c.slots, e) }

  /** In a valid window, the slot of the oldest position holds exactly that position's elements. */
  lemma OldestSlot(c: Core, e: Elem)
    requires Valid(c) && e in c.slots[At(c.oldest, |c.slots|)]
    ensures e.sn == c.oldest
  {
    assert SlotOk(c.oldest, c.slots, At(c.oldest, |c.slots|));
    AtInjective(e.sn, c.oldest, |c.slots|);
  }

  lemma RetireOneValid(c: Core)
    requires Valid(c)
    ensures Valid(RetireOne(c))
  {
    var slot := At(c.oldest, |c.slots|);
    var c' := RetireOne(c);
    forall e | e in c.slots[slot] ensures e.sn == c.oldest {
      OldestSlot(c, e);
    }
    forall k | 0 <= k < |c'.slots| ensures SlotOk(c'.oldest, c'.slots, k) {
      assert SlotOk(c.oldest, c.slots, k);
      forall e | e in c'.slots[k] ensures e.sn != c.oldest {
        assert k != slot;
      }
    }
    RetiredInOrder(c.out, c.oldest, c.slots[slot]);
  }

  lemma RetiredInOrder(out: seq<Item>, oldest: nat, list: seq<Elem>)
    requires OutOk(oldest, out) && forall k :: 0 <= k < |list| ==> list[k].sn == oldest
    ensures OutOk(oldest + 1, out + Items(list, false))
  {
  }

  lemma RetireOneKeeps(c: Core, e: Elem)
    requires |c.slots| > 0
    ensures Times(RetireOne(c), e) == Times(c, e)
  {
    var slot := At(c.oldest, |c.slots|);
    OutAppend(c.out, c.slots[slot], false, e);
    SlotUpdate(c.slots, slot, [], e);
  }

  lemma {:induction false} OutAppend(out: seq<Item>, list: seq<Elem>, late: bool, e: Elem)
    ensures OutTimes(out + Items(list, late), e) == OutTimes(out, e) + multiset(list)[e]
  {
    var all := out + Items(list, late);
    if list == [] {
      assert all == out;
    } else {
      var n := |list| - 1;
      OutAppend(out, list[..n], late, e);
      LastTimes(list, e);
      assert all[..|all| - 1] == out + Items(list[..n], late);
      assert all[|all| - 1] == Items(list, late)[n];
    }
  }

  lemma LastTimes(list: seq<Elem>, e: Elem)
    requires list != []
    ensures multiset(list)[e] == multiset(list[..|list| - 1])[e] + One(list[|list| - 1], e)
  {
    assert list == list[..|list| - 1] + [list[|list| - 1]];
  }

  lemma {:induction false} SlotUpdate(slots: seq<seq<Elem>>, k: nat, list: seq<Elem>, e: Elem)
    requires k < |slots|
    ensures SlotTimes(slots[k := list], e) + multiset(slots[k])[e] == SlotTimes(slots, e) + multiset(list)[e]
  {
    var n := |slots| - 1;
    if k < n {
      assert slots[k := list][..n] == slots[..n][k := list];
      SlotUpdate(slots[..n], k, list, e);
    } else {
      assert slots[k := list][..n] == slots[..n];
    }
  }

  lemma {:induction false} RetireManyValid(c: Core, n: nat)
    requires Valid(c)
    ensures Valid(RetireMany(c, n)) && RetireMany(c, n).oldest == c.oldest + n
    decreases n
  {
    if n > 0 {
      RetireManyValid(c, n - 1);
      RetireOneValid(RetireMany(c, n - 1));
    }
  }

  lemma {:induction false} RetireManyKeeps(c: Core, n: nat, e: Elem)
    requires |c.slots| > 0
    ensures Times(RetireMany(c, n), e) == Times(c, e)
    decreases n
  {
    if n > 0 {
      RetireManyKeeps(c, n - 1, e);
      RetireOneKeeps(RetireMany(c, n - 1), e);
    }
  }

  /** Positions that have been retired leave their slots empty until the window comes round. */
  lemma {:induction false} RetiredEmpty(c: Core, n: nat, p: nat)
    requires |c.slots| > 0 && n <= |c.slots| && c.oldest <= p < c.oldest + n
    ensures RetireMany(c, n).slots[At(p, |c.slots|)] == [] && RetireMany(c, n).oldest == c.oldest + n
    decreases n
  {
    if p == c.oldest + n - 1 {
      if n > 1 {
        RetiredEmpty(c, n - 1, c.oldest);
      }
    } else {
      RetiredEmpty(c, n - 1, p);
    }
  }

  lemma AllRetired(c: Core, k: nat)
    requires |c.slots| > 0 && k < |c.slots|
    ensures RetireMany(c, |c.slots|).slots[k] == []
  {
    var p := PositionOf(c.oldest, k, |c.slots|);
    RetiredEmpty(c, |c.slots|, p);
  }

  /** Moving the window by any distance loses nothing and keeps the order; a whole lap or more leaves it empty. */
  lemma RetireSlotsValid(c: Core, n: nat)
    requires Valid(c)
    ensures Valid(RetireSlots(c, n)) && RetireSlots(c, n).oldest == c.oldest + n
    ensures forall e :: Times(RetireSlots(c, n), e) == Times(c, e)
    ensures |c.slots| <= n ==> forall k :: 0 <= k < |c.slots| ==> RetireSlots(c, n).slots[k] == []
  {
    var size := |c.slots|;
    RetireManyValid(c, if n <= size then n else size);
    forall e ensures Times(RetireSlots(c, n), e) == Times(c, e) {
      RetireManyKeeps(c, if n <= size then n else size, e);
    }
    if size <= n {
      forall k | 0 <= k < size ensures RetireSlots(c, n).slots[k] == [] {
        AllRetired(c, k);
      }
    }
  }

  /** The slot a new element beyond the window goes to is empty once the window has moved. */
  lemma MovedSlotEmpty(c: Core, e: Elem)
    requires Valid(c) && c.oldest + |c.slots| <= e.sn
    ensures var moved := RetireSlots(c, e.sn - (c.oldest + |c.slots| - 1));
            moved.oldest <= e.sn < moved.oldest + |c.slots| && moved.slots[At(e.sn, |c.slots|)] == []
  {
    var size := |c.slots|;
    var delta := e.sn - (c.oldest + size - 1);
    RetireSlotsValid(c, delta);
    if delta <= size {
      RetiredEmpty(c, delta, e.sn - size);
      AtPeriodic(e.sn - size, size);
    }
  }

  /** Retiring outputs elements as not late. */
  lemma {:induction false} RetiresInTime(c: Core, n: nat)
    requires |c.slots| > 0
    ensures var out := RetireMany(c, n).out; c.out <= out && forall k :: |c.out| <= k < |out| ==> !out[k].late
    decreases n
  {
    if n > 0 {
      RetiresInTime(c, n - 1);
    }
  }

  /** Only stragglers are output out of order: an insertion outputs its element as late exactly when its number is before
      the window, and whatever else it outputs is not late. */
  lemma OnlyStragglersAreLate(c: Core, x: Elem)
    requires |c.slots| > 0
    ensures var out := InsertElem(c, x).out;
            if x.sn < c.oldest then out == c.out + [Item(x, true)]
            else c.out <= out && forall k :: |c.out| <= k < |out| ==> !out[k].late
  {
    var size := |c.slots|;
    if c.oldest + size <= x.sn {
      var n := x.sn - (c.oldest + size - 1);
      RetiresInTime(c, if n <= size then n else size);
    }
  }

  /** An insertion moves the window just as far as its element needs to be its last one. */
  lemma MovesJustEnough(c: Core, x: Elem)
    requires Valid(c)
    ensures |c.slots| > 0
    ensures InsertElem(c, x).oldest == if x.sn < c.oldest + |c.slots| then c.oldest else x.sn + 1 - |c.slots|
  {
    if c.oldest + |c.slots| <= x.sn {
      RetireSlotsValid(c, x.sn - (c.oldest + |c.slots| - 1));
    }
  }

  function One(x: Elem, e: Elem): nat { if x == e then 1 else 0 }

  /** An insertion adds exactly its element and keeps the window and the order. */
  lemma InsertElemValid(c: Core, x: Elem, e: Elem)
    requires Valid(c)
    ensures Valid(InsertElem(c, x)) && Times(InsertElem(c, x), e) == Times(c, e) + One(x, e)
  {
    if x.sn < c.oldest {
      InsertLate(c, x, e);
    } else {
      assert |c.slots| > 0;
      hide Valid, Times, RetireSlots;
      if x.sn >= c.oldest + |c.slots| {
        InsertBeyond(c, x, e);
      } else {
        SlotPut(c, x, e);
      }
    }
  }

  lemma InsertLate(c: Core, x: Elem, e: Elem)
    requires Valid(c) && x.sn < c.oldest
    ensures Valid(InsertElem(c, x)) && Times(InsertElem(c, x), e) == Times(c, e) + One(x, e)
  {
    hide WindowOk, SlotTimes, OutTimes;
    OutAppend(c.out, [x], true, e);
  }

  lemma InsertBeyond(c: Core, x: Elem, e: Elem)
    requires Valid(c) && |c.slots| > 0 && c.oldest + |c.slots| <= x.sn
    ensures Valid(InsertElem(c, x)) && Times(InsertElem(c, x), e) == Times(c, e) + One(x, e)
  {
    hide Valid, Times, RetireSlots;
    var delta := x.sn - (c.oldest + |c.slots| - 1);
    var moved := RetireSlots(c, delta);
    RetireSlotsValid(c, delta);
    MovedSlotEmpty(c, x);
    SlotPut(moved, x, e);
    assert [x] + [] == [x];
  }

  lemma SlotPut(c: Core, x: Elem, e: Elem)
    requires Valid(c) && c.oldest <= x.sn < c.oldest + |c.slots|
    ensures var c' := c.(slots := c.slots[At(x.sn, |c.slots|) := [x] + c.slots[At(x.sn, |c.slots|)]]);
            Valid(c') && Times(c', e) == Times(c, e) + One(x, e)
  {
    var slot := At(x.sn, |c.slots|);
    var list := [x] + c.slots[slot];
    SlotUpdate(c.slots, slot, list, e);
    var slots' := c.slots[slot := list];
    forall k | 0 <= k < |slots'| ensures SlotOk(c.oldest, slots', k) {
      assert SlotOk(c.oldest, c.slots, k);
    }
    hide OutOk;
  }

  lemma {:induction false} InsertAllValid(c: Core, list: seq<Elem>, e: Elem)
    requires Valid(c)
    ensures Valid(InsertAll(c, list)) && Times(InsertAll(c, list), e) == Times(c, e) + multiset(list)[e]
    decreases |list|
  {
    assert |c.slots| > 0;
    hide Valid, Times, InsertElem;
    if list != [] {
      var n := |list| - 1;
      InsertAllValid(c, list[..n], e);
      InsertElemValid(InsertAll(c, list[..n]), list[n], e);
      LastTimes(list, e);
    }
  }

  /** Flushing a whole window outputs everything: what was put in has been output, as often as it was put in. */
  lemma FlushOutputsAll(c: Core, n: nat, e: Elem)
    requires Valid(c) && |c.slots| <= n
    ensures OutTimes(RetireSlots(c, n).out, e) == Times(c, e)
  {
    RetireSlotsValid(c, n);
    EmptySlots(RetireSlots(c, n).slots, e);
    assert Times(RetireSlots(c, n), e) == Times(c, e);
  }

  lemma {:induction false} EmptySlots(slots: seq<seq<Elem>>, e: Elem)
    requires forall k :: 0 <= k < |slots| ==> slots[k] == []
    ensures SlotTimes(slots, e) == 0
  {
    if slots != [] {
      EmptySlots(slots[..|slots| - 1], e);
    }
  }

  // ---------- in place ----------

  function Plain(out: seq<Item>): (r: seq<Elem>)
    ensures |r| == |out|
  {
    seq(|out|, k requires 0 <= k < |out| => out[k].elem)
  }

  function Flat(calls: seq<seq<Elem>>): seq<Elem> {
    if calls == [] then [] else Flat(calls[..|calls| - 1]) + calls[|calls| - 1]
  }

  lemma FlatNext(calls: seq<seq<Elem>>, vec: seq<Elem>)
    ensures Flat(calls + [vec]) == Flat(calls) + vec
  {
    assert (calls + [vec])[..|calls|] == calls;
  }

  lemma PlainNext(out: seq<Item>, list: seq<Elem>, late: bool)
    ensures Plain(out + Items(list, late)) == Plain(out) + list
  {
  }

  /** The buffer with its output vector. `core` is the state it stands for; the call-backs' vectors so far and the
      buffered rest are the output. */
  class Rob {
    const ring: array<seq<Elem>>
    const vec: array<Elem>
    var oldest: nat
    var nvec: nat
    var calls: seq<seq<Elem>>
    ghost var core: Core

    constructor (size: nat, vecsz: nat)
      requires 0 < size && 0 < vecsz
      ensures Ok() && fresh(ring) && fresh(vec) && core == Core(0, seq(size, _ => []), []) && calls == []
    {
      ring := new seq<Elem>[size](_ => []);
      vec := new Elem[vecsz](_ => Elem(0, 0));
      oldest, nvec, calls := 0, 0, [];
      core := Core(0, seq(size, _ => []), []);
      new;
      assert ring[..] == core.slots;
    }

    ghost predicate Ok()
      reads this, ring, vec
    {
      && 0 < ring.Length && 0 < vec.Length && nvec < vec.Length && (ring as object) != (vec as object)
      && core.oldest == oldest && core.slots == ring[..] && Plain(core.out) == Flat(calls) + vec[..nvec]
    }

    /** Outputs the elements of a list. */
    method RetireList(list: seq<Elem>, ghost late: bool)
      requires Ok()
      modifies this`nvec, this`calls, this`core, vec
      ensures Ok() && core == old(core).(out := old(core).out + Items(list, late))
    {
      ghost var was := core;
      for i := 0 to |list|
        invariant Ok() && core == was.(out := was.out + Items(list[..i], late))
      {
        Output(list[i]);
        core := was.(out := was.out + Items(list[..i + 1], late));
        assert Plain(core.out) == Plain(was.out + Items(list[..i], late)) + [list[i]] by {
          PlainNext(was.out, list[..i], late);
          PlainNext(was.out, list[..i + 1], late);
        }
      }
      assert list[..|list|] == list;
    }

    /** Adds one element to the vector, and calls back with the vector when it is full. */
    method Output(e: Elem)
      requires 0 < vec.Length && nvec < vec.Length
      modifies this`nvec, this`calls, vec
      ensures nvec < vec.Length && Flat(calls) + vec[..nvec] == old(Flat(calls) + vec[..nvec]) + [e]
    {
      vec[nvec] := e;
      nvec := nvec + 1;
      assert vec[..nvec] == old(vec[..nvec]) + [e];
      if nvec == vec.Length {
        FlatNext(calls, vec[..nvec]);
        calls := calls + [vec[..nvec]];
        nvec := 0;
      }
    }

    method RetireAt()
      requires Ok()
      modifies this, ring, vec
      ensures Ok() && core == RetireOne(old(core))
    {
      ghost var was := core;
      var slot := oldest % ring.Length;
      AtIsRemainder(oldest, ring.Length);
      var list := ring[slot];
      if |list| > 0 {
        ring[slot] := [];
        core := core.(slots := ring[..]);
        RetireList(list, false);
      }
      oldest := oldest + 1;
      core := core.(oldest := oldest);
      assert core.slots == was.slots[slot := []];
      assert core.out == was.out + Items(list, false);
    }

    method Retire(nslots: nat)
      requires Ok()
      modifies this, ring, vec
      ensures Ok() && core == RetireSlots(old(core), nslots)
    {
      var nretire := if nslots > ring.Length then ring.Length else nslots;
      for i := 0 to nretire
        invariant Ok() && core == RetireMany(old(core), i)
      {
        RetireAt();
      }
      oldest := oldest + (nslots - nretire);
      core := core.(oldest := oldest);
    }

    method Flush()
      requires Ok()
      modifies this`nvec, this`calls
      ensures Ok() && nvec == 0
    {
      if nvec != 0 {
        FlatNext(calls, vec[..nvec]);
        calls := calls + [vec[..nvec]];
        nvec := 0;
      }
    }

    method InsertOne(e: Elem)
      requires Ok() && Valid(core)
      modifies this, ring, vec
      ensures Ok() && core == InsertElem(old(core), e)
    {
      var size := ring.Length;
      AtIsRemainder(e.sn, size);
      if e.sn < oldest {
        RetireList([e], true);
      } else if e.sn >= oldest + size {
        MovedSlotEmpty(core, e);
        Retire(e.sn - (oldest + size - 1));
        assert oldest <= e.sn < oldest + size && ring[e.sn % size] == [];
        ring[e.sn % size] := [e];
        core := core.(slots := core.slots[e.sn % size := [e]]);
      } else {
        core := core.(slots := core.slots[e.sn % size := [e] + ring[e.sn % size]]);
        ring[e.sn % size] := [e] + ring[e.sn % size];
      }
    }

    method InsertElems(list: seq<Elem>)
      requires Ok() && Valid(core)
      modifies this, ring, vec
      ensures Ok() && nvec == 0 && core == InsertAll(old(core), list) && Valid(core)
    {
      ghost var was := core;
      for i := 0 to |list|
        invariant Ok() && core == InsertAll(was, list[..i]) && Valid(core)
      {
        InsertElemValid(core, list[i], list[i]);
        InsertOne(list[i]);
        assert list[..i + 1][..i] == list[..i];
      }
      assert list[..|list|] == list;
      Flush();
    }
  }
}

/** The cuckoo hash table, in place, used by one thread: every element lies in one of its two buckets or in the cellar, and
    making room moves elements between their two buckets without losing any. The change counters and move tags, which
    only concurrent callers use, are not kept. */
module Cuckoo {
  import opened RingIndex
  import opened BitMask
  import opened HashCells

  const BktSize: nat := 6

  datatype Slot = Slot(sig: nat, elem: Option<Elem>)

  datatype Bucket = Bucket(cellar: bool, slots: seq<Slot>)

  // ---------- the two buckets of an element ----------

  /** Multiplication by 2^64 / phi in a 64-bit word. */
  function Scramble(x: nat): nat { x * 11400714819323198485 % 0x1_0000_0000_0000_0000 }

  /** The index that a hash selects among n: three xor-shifts in a 64-bit word, then the low 32 bits times n, shifted right
      by 32. */
  function RingMod(hash: nat, n: nat): (i: nat)
    requires 0 < n
    ensures i < n
  {
    var a := Xor(hash, ShiftLeft(hash, 13) % 0x1_0000_0000_0000_0000);
    var b := Xor(a, ShiftRight(a, 7));
    var c := Xor(b, ShiftLeft(b, 17) % 0x1_0000_0000_0000_0000);
    FastRange(c % 0x1_0000_0000, n)
  }

  function FastRange(word: nat, n: nat): (i: nat)
    requires 0 < n && word < 0x1_0000_0000
    ensures i < n
  {
    ProductBelow(word, 0x1_0000_0000, n);
    word * n / 0x1_0000_0000
  }

  lemma ProductBelow(word: nat, range: nat, n: nat)
    requires word < range && 0 < n
    ensures word * n / range < n
  {
    assert word * n <= (range - 1) * n == range * n - n;
    SmallerFactor(word * n / range, n, range);
  }

  lemma SmallerFactor(a: int, b: int, c: int)
    requires 0 < c && a * c < b * c
    ensures a < b
  {
  }

  function Home(e: Elem, n: nat): (b: nat)
    requires 0 < n
    ensures b < n
  {
    RingMod(e.hash, n)
  }

  /** hash >> 16, truncated to 16 bits. */
  function Sig(hash: nat): nat { hash / 0x1_0000 % 0x1_0000 }

  function Second(e: Elem, n: nat): (b: nat)
    requires 2 <= n
    ensures b < n && b != Home(e, n)
  {
    var b := RingMod(Scramble(e.hash), n);
    if b == Home(e, n) then RingAdd(b, 1, n) else b
  }

  function Sibling(e: Elem, n: nat, b: nat): (r: nat)
    requires 2 <= n
    ensures r < n
  {
    if Home(e, n) != b then Home(e, n) else Second(e, n)
  }

  predicate Belongs(e: Elem, n: nat, b: nat)
    requires 2 <= n
  {
    b == Home(e, n) || b == Second(e, n)
  }

  /** The sibling is the other one of the element's two distinct buckets, so going there twice leads back. */
  lemma SiblingInvolution(e: Elem, n: nat, b: nat)
    requires 2 <= n && Belongs(e, n, b)
    ensures Belongs(e, n, Sibling(e, n, b)) && Sibling(e, n, b) != b
    ensures Sibling(e, n, Sibling(e, n, b)) == b
  {
  }

  // ---------- the layout ----------

  /** An element whose first bucket is b is in the cellar. */
  ghost predicate InCellar(cells: seq<Cell>, n: nat, b: nat)
    requires 0 < n
  {
    exists i :: 0 <= i < |cells| && cells[i].elem.Some? && Home(cells[i].elem.value, n) == b
  }

  ghost predicate SlotOk(bs: seq<Bucket>, b: nat, i: nat)
    requires 2 <= |bs| && b < |bs| && i < |bs[b].slots|
  {
    var s := bs[b].slots[i];
    s.elem.Some? ==> s.sig == Sig(s.elem.value.hash) && Belongs(s.elem.value, |bs|, b)
  }

  ghost predicate BucketOk(bs: seq<Bucket>, b: nat)
    requires 2 <= |bs| && b < |bs|
  {
    |bs[b].slots| == BktSize && forall i :: 0 <= i < BktSize ==> SlotOk(bs, b, i)
  }

  ghost predicate TableOk(bs: seq<Bucket>, cells: seq<Cell>) {
    && 2 <= |bs| && (forall b :: 0 <= b < |bs| ==> BucketOk(bs, b))
    && (forall i :: 0 <= i < |cells| && cells[i].elem.Some? ==> cells[i].hash == cells[i].elem.value.hash)
    && forall b :: 0 <= b < |bs| ==> (bs[b].cellar <==> InCellar(cells, |bs|, b))
  }

  function SlotTimes(slots: seq<Slot>, e: Elem): nat {
    if slots == [] then 0 else SlotTimes(slots[..|slots| - 1], e) + Is(slots[|slots| - 1].elem, e)
  }

  function BucketTimes(bs: seq<Bucket>, e: Elem): nat {
    if bs == [] then 0 else BucketTimes(bs[..|bs| - 1], e) + SlotTimes(bs[|bs| - 1].slots, e)
  }

  function Times(bs: seq<Bucket>, cells: seq<Cell>, e: Elem): nat { BucketTimes(bs, e) + CellTimes(cells, e) }

  function SetSlot(bs: seq<Bucket>, b: nat, i: nat, s: Slot): (r: seq<Bucket>)
    requires b < |bs| && i < |bs[b].slots|
    ensures |r| == |bs|
  {
    bs[b := bs[b].(slots := bs[b].slots[i := s])]
  }

  lemma {:induction false} SlotsUpdate(slots: seq<Slot>, i: nat, s: Slot, e: Elem)
    requires i < |slots|
    ensures SlotTimes(slots[i := s], e) + Is(slots[i].elem, e) == SlotTimes(slots, e) + Is(s.elem, e)
  {
    var n := |slots| - 1;
    if i < n {
      assert slots[i := s][..n] == slots[..n][i := s];
      SlotsUpdate(slots[..n], i, s, e);
    } else {
      assert slots[i := s][..n] == slots[..n];
    }
  }

  lemma {:induction false} BucketUpdate(bs: seq<Bucket>, b: nat, bkt: Bucket, e: Elem)
    requires b < |bs|
    ensures BucketTimes(bs[b := bkt], e) + SlotTimes(bs[b].slots, e) == BucketTimes(bs, e) + SlotTimes(bkt.slots, e)
  {
    var n := |bs| - 1;
    if b < n {
      assert bs[b := bkt][..n] == bs[..n][b := bkt];
      BucketUpdate(bs[..n], b, bkt, e);
    } else {
      assert bs[b := bkt][..n] == bs[..n];
    }
  }

  lemma {:induction false} SlotsHave(slots: seq<Slot>, e: Elem)
    ensures 0 < SlotTimes(slots, e) <==> exists i :: 0 <= i < |slots| && slots[i].elem == Some(e)
  {
    if slots != [] {
      SlotsHave(slots[..|slots| - 1], e);
    }
  }

  ghost predicate Holds(bs: seq<Bucket>, b: nat, e: Elem) {
    b < |bs| && exists i :: 0 <= i < |bs[b].slots| && bs[b].slots[i].elem == Some(e)
  }

  lemma {:induction false} BucketsHave(bs: seq<Bucket>, e: Elem)
    ensures 0 < BucketTimes(bs, e) <==> exists b: nat :: Holds(bs, b, e)
  {
    if bs != [] {
      var rest := bs[..|bs| - 1];
      BucketsHave(rest, e);
      SlotsHave(bs[|bs| - 1].slots, e);
      assert forall b: nat :: b < |rest| ==> (Holds(rest, b, e) <==> Holds(bs, b, e));
      assert Holds(bs, |bs| - 1, e) <==> 0 < SlotTimes(bs[|bs| - 1].slots, e);
    }
  }

  /** An element's two buckets and the cellar, if its first bucket says so, are the only places to look for it. */
  lemma OnlyThere(bs: seq<Bucket>, cells: seq<Cell>, e: Elem)
    requires TableOk(bs, cells)
    ensures 0 < Times(bs, cells, e) <==>
            || Holds(bs, Home(e, |bs|), e) || Holds(bs, Second(e, |bs|), e)
            || (bs[Home(e, |bs|)].cellar && exists i :: 0 <= i < |cells| && cells[i].elem == Some(e))
  {
    BucketsHave(bs, e);
    CellHas(cells, e);
    forall b: nat | Holds(bs, b, e) ensures Belongs(e, |bs|, b) {
      assert BucketOk(bs, b);
      var i :| 0 <= i < |bs[b].slots| && bs[b].slots[i].elem == Some(e);
      assert SlotOk(bs, b, i);
    }
    hide RingMod, Scramble;
  }

  /** Writing a slot with an element that belongs there, or emptying it. */
  lemma SlotSet(bs: seq<Bucket>, cells: seq<Cell>, b: nat, i: nat, s: Slot)
    requires TableOk(bs, cells) && b < |bs| && i < BktSize
    requires s.elem.Some? ==> s.sig == Sig(s.elem.value.hash) && Belongs(s.elem.value, |bs|, b)
    ensures BucketOk(bs, b) && TableOk(SetSlot(bs, b, i, s), cells)
    ensures forall e :: BucketTimes(SetSlot(bs, b, i, s), e) + Is(bs[b].slots[i].elem, e) == BucketTimes(bs, e) + Is(s.elem, e)
  {
    assert BucketOk(bs, b);
    var bs' := SetSlot(bs, b, i, s);
    forall c | 0 <= c < |bs'| ensures BucketOk(bs', c) {
      assert BucketOk(bs, c);
      forall j | 0 <= j < BktSize ensures SlotOk(bs', c, j) {
        assert SlotOk(bs, c, j);
      }
    }
    forall e ensures BucketTimes(bs', e) + Is(bs[b].slots[i].elem, e) == BucketTimes(bs, e) + Is(s.elem, e) {
      SlotsUpdate(bs[b].slots, i, s, e);
      BucketUpdate(bs, b, bs'[b], e);
    }
  }

  /** Marking a home bucket as the cells say. */
  lemma CellSet(bs: seq<Bucket>, cells: seq<Cell>, i: nat, c: Cell, b: nat)
    requires TableOk(bs, cells) && i < |cells| && b < |bs|
    requires cells[i].elem.Some? ==> Home(cells[i].elem.value, |bs|) == b
    requires c.elem.Some? ==> c.hash == c.elem.value.hash && Home(c.elem.value, |bs|) == b
    ensures var cells' := cells[i := c];
            var bs' := bs[b := bs[b].(cellar := InCellar(cells', |bs|, b))];
            && TableOk(bs', cells')
            && forall e :: Times(bs', cells', e) + Is(cells[i].elem, e) == Times(bs, cells, e) + Is(c.elem, e)
  {
    var cells' := cells[i := c];
    var bs' := bs[b := bs[b].(cellar := InCellar(cells', |bs|, b))];
    forall h | 0 <= h < |bs'| ensures BucketOk(bs', h) {
      assert BucketOk(bs, h);
      forall j | 0 <= j < BktSize ensures SlotOk(bs', h, j) {
        assert SlotOk(bs, h, j);
      }
    }
    forall h | 0 <= h < |bs'| ensures bs'[h].cellar <==> InCellar(cells', |bs|, h) {
      if h != b && InCellar(cells, |bs|, h) {
        var j :| 0 <= j < |cells| && cells[j].elem.Some? && Home(cells[j].elem.value, |bs|) == h;
        assert cells'[j].elem.Some?;
      }
    }
    forall e ensures Times(bs', cells', e) + Is(cells[i].elem, e) == Times(bs, cells, e) + Is(c.elem, e) {
      BucketUpdate(bs, b, bs'[b], e);
      CellUpdate(cells, i, c, e);
    }
  }

  ghost predicate Full(bs: seq<Bucket>, b: nat) {
    b < |bs| && forall i :: 0 <= i < |bs[b].slots| ==> bs[b].slots[i].elem.Some?
  }

  /** The element in a slot could only go to a full bucket. */
  ghost predicate NoWayOut(bs: seq<Bucket>, b: nat, i: nat) {
    && 2 <= |bs| && b < |bs| && i < |bs[b].slots| && bs[b].slots[i].elem.Some?
    && Full(bs, Sibling(bs[b].slots[i].elem.value, |bs|, b))
  }

  /** The bucket is full, and so is the other bucket of each of its elements. */
  ghost predicate Stuck(bs: seq<Bucket>, b: nat) {
    b < |bs| && |bs[b].slots| == BktSize && forall i :: 0 <= i < BktSize ==> NoWayOut(bs, b, i)
  }

  predicate Wanted(o: Option<Elem>, key: nat, hash: nat) { o.Some? && o.value.key == key && o.value.hash == hash }

  /** The slots of a bucket have the signatures of their elements. */
  lemma SlotsOf(bs: seq<Bucket>, cells: seq<Cell>, b: nat)
    requires TableOk(bs, cells) && b < |bs|
    ensures |bs[b].slots| == BktSize
    ensures forall i :: 0 <= i < BktSize && bs[b].slots[i].elem.Some? ==>
              bs[b].slots[i].sig == Sig(bs[b].slots[i].elem.value.hash)
  {
    assert BucketOk(bs, b);
    forall i | 0 <= i < BktSize && bs[b].slots[i].elem.Some?
      ensures bs[b].slots[i].sig == Sig(bs[b].slots[i].elem.value.hash)
    {
      assert SlotOk(bs, b, i);
    }
  }

  // ---------- the table ----------

  class Table {
    const buckets: array<Bucket>
    const cells: array<Cell>

    constructor (nbkts: nat, ncells: nat)
      requires 2 <= nbkts
      ensures Ok() && fresh(buckets) && fresh(cells) && buckets.Length == nbkts && cells.Length == ncells
      ensures forall e :: Count(e) == 0
    {
      buckets := new Bucket[nbkts](_ => Bucket(false, seq(BktSize, _ => Slot(0, None))));
      cells := new Cell[ncells](_ => Cell(0, None));
      new;
      forall e ensures Count(e) == 0 {
        BucketsHave(buckets[..], e);
        CellHas(cells[..], e);
      }
    }

    ghost predicate Ok()
      reads this, buckets, cells
    {
      (buckets as object) != (cells as object) && TableOk(buckets[..], cells[..])
    }

    ghost function Count(e: Elem): nat
      reads this, buckets, cells
    {
      Times(buckets[..], cells[..], e)
    }

    method FindNull(b: nat) returns (found: bool, i: nat)
      requires Ok() && b < buckets.Length
      ensures found ==> i < BktSize == |buckets[b].slots| && buckets[b].slots[i].elem == None
      ensures found <==> !Full(buckets[..], b)
    {
      assert BucketOk(buckets[..], b);
      i := 0;
      while i < BktSize
        invariant 0 <= i <= BktSize && forall j :: 0 <= j < i ==> buckets[b].slots[j].elem.Some?
      {
        if buckets[b].slots[i].elem == None {
          return true, i;
        }
        i := i + 1;
      }
      return false, 0;
    }

    /** Writes a slot. */
    method Write(b: nat, i: nat, s: Slot)
      requires Ok() && b < buckets.Length && i < BktSize
      requires s.elem.Some? ==> s.sig == Sig(s.elem.value.hash) && Belongs(s.elem.value, buckets.Length, b)
      modifies buckets
      ensures Ok() && |old(buckets[b].slots)| == BktSize
      ensures buckets[..] == SetSlot(old(buckets[..]), b, i, s)
      ensures forall e :: Count(e) + Is(old(buckets[b].slots[i].elem), e) == old(Count(e)) + Is(s.elem, e)
    {
      SlotSet(buckets[..], cells[..], b, i, s);
      ghost var bs := buckets[..];
      buckets[b] := buckets[b].(slots := buckets[b].slots[i := s]);
      assert buckets[..] == SetSlot(bs, b, i, s);
    }

    /** Moves one element of the bucket to its other bucket, if any of them has room there. */
    method MakeRoom(b: nat) returns (ok: bool, i: nat)
      requires Ok() && b < buckets.Length
      modifies buckets
      ensures Ok() && forall e :: Count(e) == old(Count(e))
      ensures ok ==> i < BktSize == |buckets[b].slots| && buckets[b].slots[i].elem == None
      ensures !ok ==> buckets[..] == old(buckets[..]) && Stuck(buckets[..], b)
    {
      hide RingMod, Scramble;
      assert BucketOk(buckets[..], b);
      i := 0;
      while i < BktSize
        invariant 0 <= i <= BktSize && buckets[..] == old(buckets[..]) && Ok()
        invariant forall j :: 0 <= j < i ==> NoWayOut(buckets[..], b, j)
      {
        assert SlotOk(buckets[..], b, i);
        var elem := buckets[b].slots[i].elem;
        if elem == None {
          return true, i;
        }
        var e := elem.value;
        var dst := Sibling(e, buckets.Length, b);
        SiblingInvolution(e, buckets.Length, b);
        var found, j := FindNull(dst);
        if found {
          ghost var bs := buckets[..];
          Write(dst, j, Slot(Sig(e.hash), Some(e)));
          assert buckets[..][b] == bs[b];
          Write(b, i, buckets[b].slots[i].(elem := None));
          assert buckets[..][b].slots[i].elem == None;
          return true, i;
        }
        i := i + 1;
      }
      return false, 0;
    }

    /** The first free cell from a position on, round the cellar. */
    method FindFree(start: nat) returns (found: bool, idx: nat)
      requires start < cells.Length
      ensures found ==> idx < cells.Length && cells[idx].elem == None
      ensures !found ==> forall i :: 0 <= i < cells.Length ==> cells[i].elem.Some?
    {
      var n, seen := cells.Length, 0;
      idx := start;
      while true
        invariant 0 <= seen < n && idx == RingAdd(start, seen, n)
        invariant forall k :: 0 <= k < seen ==> cells[RingAdd(start, k, n)].elem.Some?
        decreases n - seen
      {
        if cells[idx].elem == None {
          return true, idx;
        }
        idx := RingAdd(idx, if n == 1 then 0 else 1, n);
        seen := seen + 1;
        if idx == start {
          forall i | 0 <= i < n ensures cells[i].elem.Some? {
            RingInverse(start, i, 0, n);
          }
          return false, 0;
        }
      }
    }

    method InsertCell(e: Elem) returns (ok: bool)
      requires Ok()
      modifies buckets, cells
      ensures Ok() && forall x :: Count(x) == old(Count(x)) + if ok && x == e then 1 else 0
      ensures !ok ==> buckets[..] == old(buckets[..]) && forall i :: 0 <= i < cells.Length ==> cells[i].elem.Some?
    {
      AtLeastTwo(buckets[..], cells[..]);
      hide Times, TableOk, RingMod, BucketOk, SlotOk, Belongs;
      if cells.Length == 0 {
        return false;
      }
      var idx;
      ok, idx := FindFree(Home(e, cells.Length));
      if ok {
        var b := Home(e, buckets.Length);
        ghost var bs, cs := buckets[..], cells[..];
        CellSet(bs, cs, idx, Cell(e.hash, Some(e)), b);
        cells[idx] := Cell(e.hash, Some(e));
        assert cells[..] == cs[idx := Cell(e.hash, Some(e))];
        assert cells[..][idx].elem.Some? && InCellar(cells[..], buckets.Length, b);
        buckets[b] := buckets[b].(cellar := true);
        assert buckets[..] == bs[b := bs[b].(cellar := true)];
      }
    }

    /** Puts an element into one of its buckets, making room there if asked to. */
    method InsertInto(b: nat, e: Elem, move: bool) returns (ok: bool)
      requires Ok() && b < buckets.Length && Belongs(e, buckets.Length, b)
      modifies buckets
      ensures Ok() && forall x :: Count(x) == old(Count(x)) + if ok && x == e then 1 else 0
      ensures !ok ==> buckets[..] == old(buckets[..]) && (move ==> Stuck(buckets[..], b))
    {
      hide Belongs;
      var i;
      if move {
        ok, i := MakeRoom(b);
      } else {
        ok, i := FindNull(b);
      }
      if ok {
        Write(b, i, Slot(Sig(e.hash), Some(e)));
      }
    }

    /** Inserts into the first bucket with room, or made room, or into the cellar. When even that fails, the table is as
        it was, and nothing could have been moved. */
    method Insert(e: Elem) returns (ok: bool)
      requires Ok()
      modifies buckets, cells
      ensures Ok() && forall x :: Count(x) == old(Count(x)) + if ok && x == e then 1 else 0
      ensures !ok ==> buckets[..] == old(buckets[..])
                      && Stuck(buckets[..], Home(e, buckets.Length)) && Stuck(buckets[..], Second(e, buckets.Length))
                      && forall i :: 0 <= i < cells.Length ==> cells[i].elem.Some?
    {
      var b0, b1 := Home(e, buckets.Length), Second(e, buckets.Length);
      assert Belongs(e, buckets.Length, b0) && Belongs(e, buckets.Length, b1);
      hide RingMod, Scramble, Belongs, Stuck, Times;
      ok := InsertInto(b0, e, false);
      if !ok {
        ok := InsertInto(b1, e, false);
      }
      if !ok {
        ok := InsertInto(b0, e, true);
      }
      if !ok {
        ok := InsertInto(b1, e, true);
      }
      if !ok {
        ok := InsertCell(e);
      }
    }

    // ---------- removal ----------

    method RemoveFrom(b: nat, e: Elem) returns (ok: bool)
      requires Ok() && b < buckets.Length
      modifies buckets
      ensures Ok() && forall x :: Count(x) + (if ok && x == e then 1 else 0) == old(Count(x))
      ensures ok == Holds(old(buckets[..]), b, e)
      ensures !ok ==> buckets[..] == old(buckets[..])
    {
      assert BucketOk(buckets[..], b);
      var i := 0;
      while i < BktSize
        invariant 0 <= i <= BktSize && buckets[..] == old(buckets[..]) && Ok()
        invariant forall j :: 0 <= j < i ==> buckets[b].slots[j].elem != Some(e)
      {
        if buckets[b].slots[i].elem == Some(e) {
          Write(b, i, buckets[b].slots[i].(elem := None));
          return true;
        }
        i := i + 1;
      }
      return false;
    }

    /** The first cell from a position on that holds the element. */
    method FindCell(start: nat, e: Elem) returns (found: bool, idx: nat)
      requires start < cells.Length
      ensures found ==> idx < cells.Length && cells[idx].elem == Some(e)
      ensures !found ==> forall i :: 0 <= i < cells.Length ==> cells[i].elem != Some(e)
    {
      var n, seen := cells.Length, 0;
      idx := start;
      while true
        invariant 0 <= seen < n && idx == RingAdd(start, seen, n)
        invariant forall k :: 0 <= k < seen ==> cells[RingAdd(start, k, n)].elem != Some(e)
        decreases n - seen
      {
        if cells[idx].elem == Some(e) {
          return true, idx;
        }
        idx := RingAdd(idx, if n == 1 then 0 else 1, n);
        seen := seen + 1;
        if idx == start {
          forall i | 0 <= i < n ensures cells[i].elem != Some(e) {
            RingInverse(start, i, 0, n);
          }
          return false, 0;
        }
      }
    }

    method RemoveCell(e: Elem) returns (ok: bool)
      requires Ok()
      modifies buckets, cells
      ensures Ok() && forall x :: Count(x) + (if ok && x == e then 1 else 0) == old(Count(x))
      ensures ok == exists i :: 0 <= i < cells.Length && old(cells[..])[i].elem == Some(e)
    {
      AtLeastTwo(buckets[..], cells[..]);
      hide Times, TableOk, RingMod, InCellar, BucketOk, SlotOk, Belongs;
      if cells.Length == 0 {
        return false;
      }
      var idx;
      ok, idx := FindCell(Home(e, cells.Length), e);
      if ok {
        var b := Home(e, buckets.Length);
        ghost var bs, cs := buckets[..], cells[..];
        CellSet(bs, cs, idx, cs[idx].(elem := None), b);
        cells[idx] := cells[idx].(elem := None);
        assert cells[..] == cs[idx := cs[idx].(elem := None)];
        UpdateCellar(b);
        assert cs[idx].elem == Some(e);
      }
    }

    /** Recomputes the cellar bit of a bucket. */
    method UpdateCellar(b: nat)
      requires b < buckets.Length
      modifies buckets
      ensures buckets[..] == old(buckets[..])[b := old(buckets[b]).(cellar := InCellar(cells[..], buckets.Length, b))]
    {
      var cellar, i := false, 0;
      while i < cells.Length
        invariant 0 <= i <= cells.Length && !cellar
        invariant forall j :: 0 <= j < i && cells[j].elem.Some? ==> Home(cells[j].elem.value, buckets.Length) != b
      {
        if cells[i].elem.Some? && Home(cells[i].elem.value, buckets.Length) == b {
          assert cells[..][i].elem.Some?;
          cellar := true;
          break;
        }
        i := i + 1;
      }
      buckets[b] := buckets[b].(cellar := cellar);
    }

    /** Removes one occurrence of an element, and fails only if there is none. */
    method Remove(e: Elem) returns (ok: bool)
      requires Ok()
      modifies buckets, cells
      ensures Ok() && ok == (0 < old(Count(e)))
      ensures forall x :: Count(x) == old(Count(x)) - if ok && x == e then 1 else 0
    {
      OnlyThere(buckets[..], cells[..], e);
      hide RingMod, Scramble, TableOk;
      assert 2 <= buckets.Length by { AtLeastTwo(buckets[..], cells[..]); }
      var b0 := Home(e, buckets.Length);
      ok := RemoveFrom(b0, e);
      if !ok {
        ok := RemoveFrom(Second(e, buckets.Length), e);
      }
      if !ok && buckets[b0].cellar {
        ok := RemoveCell(e);
      }
    }

    // ---------- lookup ----------

    method SearchBucket(b: nat, key: nat, hash: nat) returns (r: Option<Elem>)
      requires Ok() && b < buckets.Length
      ensures r.Some? ==> r.value.key == key && r.value.hash == hash && Holds(buckets[..], b, r.value)
      ensures r.None? ==> forall e: Elem :: e.key == key && e.hash == hash ==> !Holds(buckets[..], b, e)
    {
      SlotsOf(buckets[..], cells[..], b);
      hide RingMod, TableOk, Belongs, Times;
      var i := 0;
      while i < BktSize
        invariant 0 <= i <= BktSize
        invariant forall j :: 0 <= j < i ==> !Wanted(buckets[b].slots[j].elem, key, hash)
      {
        assert buckets[..][b] == buckets[b];
        var s := buckets[b].slots[i];
        if s.sig == Sig(hash) && s.elem.Some? && s.elem.value.hash == hash && s.elem.value.key == key {
          return s.elem;
        }
        i := i + 1;
      }
      return None;
    }

    method SearchCellar(key: nat, hash: nat) returns (r: Option<Elem>)
      requires Ok()
      ensures r.Some? ==> r.value.key == key && r.value.hash == hash && exists i :: 0 <= i < cells.Length && cells[i].elem == r
      ensures r.None? ==> forall i, e: Elem :: 0 <= i < cells.Length && e.key == key && e.hash == hash ==>
                cells[i].elem != Some(e)
    {
      hide RingMod;
      if cells.Length == 0 {
        return None;
      }
      var n := cells.Length;
      var start := Home(Elem(0, key, hash), n);
      var idx, seen := start, 0;
      while true
        invariant 0 <= seen < n && idx == RingAdd(start, seen, n)
        invariant forall k, e: Elem :: 0 <= k < seen && e.key == key && e.hash == hash ==>
                    cells[RingAdd(start, k, n)].elem != Some(e)
        decreases n - seen
      {
        assert cells[..][idx] == cells[idx];
        if cells[idx].hash == hash && cells[idx].elem.Some? && cells[idx].elem.value.key == key {
          return cells[idx].elem;
        }
        idx := RingAdd(idx, if n == 1 then 0 else 1, n);
        seen := seen + 1;
        if idx == start {
          forall i, e: Elem | 0 <= i < n && e.key == key && e.hash == hash ensures cells[i].elem != Some(e) {
            RingInverse(start, i, 0, n);
          }
          return None;
        }
      }
    }

    /** Finds an element of that key and hash if one is stored, and never anything else. */
    method Lookup(key: nat, hash: nat) returns (r: Option<Elem>)
      requires Ok()
      ensures r.Some? ==> r.value.key == key && r.value.hash == hash && 0 < Count(r.value)
      ensures r.None? ==> forall e :: 0 < Count(e) ==> !(e.key == key && e.hash == hash)
    {
      AtLeastTwo(buckets[..], cells[..]);
      hide RingMod, Scramble, TableOk;
      var any := Elem(0, key, hash);
      var b0 := Home(any, buckets.Length);
      r := SearchBucket(b0, key, hash);
      if r.None? {
        r := SearchBucket(Second(any, buckets.Length), key, hash);
        if r.None? && buckets[b0].cellar {
          r := SearchCellar(key, hash);
        }
      }
      if r.Some? {
        BucketsHave(buckets[..], r.value);
        CellHas(cells[..], r.value);
      } else {
        forall e | 0 < Count(e) ensures !(e.key == key && e.hash == hash) {
          OnlyThere(buckets[..], cells[..], e);
        }
      }
    }
  }

  lemma AtLeastTwo(bs: seq<Bucket>, cells: seq<Cell>)
    requires TableOk(bs, cells)
    ensures 2 <= |bs|
  {
  }
}

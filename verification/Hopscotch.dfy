/** The hopscotch hash table, in place, used by one thread: insertion with displacement and the cellar, lookup and removal
    refine the bag of stored elements. The change counters, which only concurrent readers use, are not kept. */
module Hopscotch {
  import opened RingIndex
  import opened BitMask
  import opened HashCells
  import opened HopscotchSpec

  class Table {
    const buckets: array<Bucket>
    const cells: array<Cell>

    constructor (nbkts: nat, ncells: nat)
      requires BitmapBits <= nbkts
      ensures Ok() && fresh(buckets) && fresh(cells) && buckets.Length == nbkts && cells.Length == ncells
      ensures forall e :: Count(e) == 0
    {
      buckets := new Bucket[nbkts](_ => Bucket(0, 0, false, None));
      cells := new Cell[ncells](_ => Cell(0, None));
      new;
      forall k: nat ensures !Bit(0, k) {
        ZeroBit(k);
      }
      forall e ensures Count(e) == 0 {
        BucketHas(buckets[..], e);
        CellHas(cells[..], e);
      }
    }

    ghost predicate Ok()
      reads this, buckets, cells
    {
      (buckets as object) != (cells as object) && TableOk(buckets[..], cells[..])
    }

    /** How often an element is in the table. */
    ghost function Count(e: Elem): nat
      reads this, buckets, cells
    {
      Times(buckets[..], cells[..], e)
    }

    // ---------- insertion into buckets ----------

    method FindEmpty(bix: nat) returns (found: bool, empty: nat)
      requires bix < buckets.Length
      ensures found ==> empty < buckets.Length && buckets[empty].elem == None
      ensures !found ==> forall i :: 0 <= i < buckets.Length ==> buckets[i].elem.Some?
    {
      var n := buckets.Length;
      var idx, seen := bix, 0;
      while true
        invariant 0 <= seen < n && idx == RingAdd(bix, seen, n)
        invariant forall k :: 0 <= k < seen ==> buckets[RingAdd(bix, k, n)].elem.Some?
        decreases n - seen
      {
        if buckets[idx].elem == None {
          return true, idx;
        }
        idx := RingAdd(idx, if n == 1 then 0 else 1, n);
        seen := seen + 1;
        if idx == bix {
          forall i | 0 <= i < n ensures buckets[i].elem.Some? {
            RingInverse(bix, i, 0, n);
          }
          return false, 0;
        }
      }
    }

    /** An element that may move to the empty bucket: bit `bit` of a home bucket `dist` before it, with the bit in front.
        The home bucket farthest away comes first, and of its bits the lowest; without such a bit there is none. */
    method FindMoveCandidate(empty: nat) returns (found: bool, home: nat, bit: nat, dist: nat)
      requires BucketsOk(buckets[..]) && empty < buckets.Length
      ensures found ==> home < buckets.Length && Bit(buckets[home].bitmap, bit) && bit < dist < BitmapBits
                        && dist == RingSub(empty, home, buckets.Length)
      ensures found ==> NoCandidate(buckets[..], empty, dist + 1) && forall k: nat :: k < bit ==> !Bit(buckets[home].bitmap, k)
      ensures !found ==> NoCandidate(buckets[..], empty, 1)
    {
      hide Bit, NoCandidate, Ctz, HomeOk, PlacedOk;
      var n := buckets.Length;
      dist := BitmapBits - 1;
      NoneBeyond(buckets[..], empty);
      while dist != 0
        invariant 0 <= dist < BitmapBits && NoCandidate(buckets[..], empty, dist + 1)
      {
        home := RingSub(empty, dist, n);
        FarFrom(buckets[..], empty, dist);
        var bitmap := buckets[home].bitmap;
        if bitmap != 0 {
          bit := Ctz(bitmap);
          if bit < dist {
            return true, home, bit, dist;
          }
        } else {
          forall k: nat ensures !Bit(0, k) {
            ZeroBit(k);
          }
        }
        NoneAt(buckets[..], empty, dist);
        dist := dist - 1;
      }
      return false, 0, 0, 0;
    }

    /** Moves an element into the empty bucket: afterwards a bucket in front of it is empty, closer to whatever lies at
        least a neighbourhood before. */
    method MoveElem(empty: nat) returns (ok: bool, empty': nat)
      requires Ok() && empty < buckets.Length && buckets[empty].elem == None
      modifies buckets
      ensures Ok() && forall e :: Count(e) == old(Count(e))
      ensures ok ==> empty' < buckets.Length && buckets[empty'].elem == None
      ensures ok ==> 0 < RingSub(empty, empty', buckets.Length) < BitmapBits
      ensures !ok ==> buckets[..] == old(buckets[..]) && NoCandidate(buckets[..], empty, 1)
    {
      var found, home, src, dst := FindMoveCandidate(empty);
      if !found {
        return false, 0;
      }
      ghost var bs := buckets[..];
      TakenIsOk(bs, home, src);
      var n := buckets.Length;
      var srcIdx := RingAdd(home, src, n);
      var elem := buckets[srcIdx].elem;
      MovedIsOk(bs, cells[..], home, src, empty);
      buckets[empty] := buckets[empty].(elem := elem, sig := buckets[srcIdx].sig);
      buckets[home] := buckets[home].(bitmap := SetBit(ClearBit(buckets[home].bitmap, src), dst));
      buckets[srcIdx] := buckets[srcIdx].(elem := None);
      assert buckets[..] == Moved(bs, home, src, empty) by { MovedIs(bs, home, src, empty); }
      return true, srcIdx;
    }

    method InsertBkt(e: Elem) returns (ok: bool)
      requires Ok()
      modifies buckets
      ensures Ok()
      ensures forall x :: Count(x) == old(Count(x)) + if ok && x == e then 1 else 0
      ensures !ok ==> Stuck(buckets[..], Home(e, buckets.Length))
    {
      var n := buckets.Length;
      var bix := Home(e, n);
      var found, empty: nat := FindEmpty(bix);
      if !found {
        return false;
      }
      while RingSub(empty, bix, n) >= BitmapBits
        invariant Ok() && empty < n && buckets[empty].elem == None
        invariant forall x :: Count(x) == old(Count(x))
        decreases RingSub(empty, bix, n)
      {
        var moved, empty' := MoveElem(empty);
        if !moved {
          return false;
        }
        empty := empty';
      }
      PlacedIsOk(buckets[..], empty, e);
      PlacedTable(buckets[..], cells[..], empty, e);
      ghost var bs := buckets[..];
      buckets[empty] := buckets[empty].(elem := Some(e), sig := Sig(e.hash));
      buckets[bix] := buckets[bix].(bitmap := SetBit(buckets[bix].bitmap, RingSub(empty, bix, n)));
      assert buckets[..] == Placed(bs, empty, e);
      return true;
    }

    // ---------- the cellar ----------

    /** Any free cell will do, searched from where the hash points. */
    method InsertCell(e: Elem) returns (ok: bool)
      requires Ok()
      modifies buckets, cells
      ensures Ok() && forall x :: Count(x) == old(Count(x)) + if ok && x == e then 1 else 0
      ensures !ok ==> buckets[..] == old(buckets[..]) && forall i :: 0 <= i < cells.Length ==> cells[i].elem.Some?
    {
      if cells.Length == 0 {
        return false;
      }
      var n := cells.Length;
      var start := Home(e, n);
      var idx, seen := start, 0;
      while true
        invariant 0 <= seen < n && idx == RingAdd(start, seen, n)
        invariant buckets[..] == old(buckets[..]) && cells[..] == old(cells[..]) && Ok()
        invariant forall k :: 0 <= k < seen ==> cells[RingAdd(start, k, n)].elem.Some?
        decreases n - seen
      {
        if cells[idx].elem == None {
          var bix := Home(e, buckets.Length);
          CellPut(buckets[..], cells[..], idx, e);
          ghost var bs, cs := buckets[..], cells[..];
          cells[idx] := Cell(e.hash, Some(e));
          buckets[bix] := buckets[bix].(cellar := true);
          assert cells[..] == cs[idx := Cell(e.hash, Some(e))];
          assert buckets[..] == bs[bix := bs[bix].(cellar := true)];
          return true;
        }
        idx := RingAdd(idx, if n == 1 then 0 else 1, n);
        seen := seen + 1;
        if idx == start {
          forall i | 0 <= i < n ensures cells[i].elem.Some? {
            RingInverse(start, i, 0, n);
          }
          return false;
        }
      }
    }

    /** An element that finds no bucket, even after displacing others, goes to the cellar. */
    method Insert(e: Elem) returns (ok: bool)
      requires Ok()
      modifies buckets, cells
      ensures Ok() && forall x :: Count(x) == old(Count(x)) + if ok && x == e then 1 else 0
      ensures !ok ==> Stuck(buckets[..], Home(e, buckets.Length)) && forall i :: 0 <= i < cells.Length ==> cells[i].elem.Some?
    {
      ok := InsertBkt(e);
      if !ok {
        ok := InsertCell(e);
      }
    }

    // ---------- removal ----------

    method RemoveBkt(e: Elem) returns (ok: bool)
      requires Ok()
      modifies buckets
      ensures Ok() && forall x :: Count(x) + (if ok && x == e then 1 else 0) == old(Count(x))
      ensures !ok ==> buckets[..] == old(buckets[..])
                      && forall i :: 0 <= i < buckets.Length ==> buckets[i].elem != Some(e)
    {
      var n := buckets.Length;
      var bix := Home(e, n);
      assert HomeOk(buckets[..], bix);
      var bitmap := buckets[bix].bitmap;
      ghost var bs := buckets[..];
      while bitmap != 0
        invariant buckets[..] == bs && Ok()
        invariant forall k: nat :: Bit(bitmap, k) ==> Bit(bs[bix].bitmap, k)
        invariant forall k: nat :: Bit(bs[bix].bitmap, k) && !Bit(bitmap, k) ==>
                    Named(bs, bix, k) && bs[RingAdd(bix, k, n)].elem != Some(e)
        decreases bitmap
      {
        var bit := Ctz(bitmap);
        TakenIsOk(bs, bix, bit);
        var idx := RingAdd(bix, bit, n);
        if buckets[idx].elem == Some(e) {
          TakenTable(bs, cells[..], bix, bit);
          buckets[bix] := buckets[bix].(bitmap := ClearBit(buckets[bix].bitmap, bit));
          buckets[idx] := buckets[idx].(elem := None);
          assert buckets[..] == Taken(bs, bix, bit);
          return true;
        }
        forall k: nat ensures Bit(And(bitmap, bitmap - 1), k) <==> Bit(bitmap, k) && k != bit {
          ClearLowest(bitmap, k);
        }
        ClearLowest(bitmap, 0);
        assert Named(bs, bix, bit);
        bitmap := And(bitmap, bitmap - 1);
      }
      forall k: nat ensures !Bit(0, k) {
        ZeroBit(k);
      }
      NotStored(bs, bix, e);
      return false;
    }

    /** Recomputes the cellar bit of a home bucket. */
    method UpdateCellar(bix: nat)
      requires bix < buckets.Length
      modifies buckets
      ensures buckets[..] ==
              old(buckets[..])[bix := old(buckets[bix]).(cellar := InCellar(cells[..], buckets.Length, bix))]
    {
      var cellar := false;
      var i := 0;
      while i < cells.Length
        invariant 0 <= i <= cells.Length
        invariant !cellar
        invariant forall j :: 0 <= j < i && cells[j].elem.Some? ==> Home(cells[j].elem.value, buckets.Length) != bix
      {
        if cells[i].elem.Some? && Home(cells[i].elem.value, buckets.Length) == bix {
          assert cells[..][i].elem.Some?;
          cellar := true;
          break;
        }
        i := i + 1;
      }
      buckets[bix] := buckets[bix].(cellar := cellar);
    }

    method RemoveCell(e: Elem) returns (ok: bool)
      requires Ok()
      modifies buckets, cells
      ensures Ok() && forall x :: Count(x) + (if ok && x == e then 1 else 0) == old(Count(x))
      ensures !ok ==> buckets[..] == old(buckets[..]) && cells[..] == old(cells[..])
                      && forall i :: 0 <= i < cells.Length ==> cells[i].elem != Some(e)
    {
      if cells.Length == 0 {
        return false;
      }
      var n := cells.Length;
      var start := Home(e, n);
      var idx, seen := start, 0;
      while true
        invariant 0 <= seen < n && idx == RingAdd(start, seen, n)
        invariant buckets[..] == old(buckets[..]) && cells[..] == old(cells[..]) && Ok()
        invariant forall k :: 0 <= k < seen ==> cells[RingAdd(start, k, n)].elem != Some(e)
        decreases n - seen
      {
        if cells[idx].elem == Some(e) {
          CellTaken(buckets[..], cells[..], idx);
          ghost var bs, cs := buckets[..], cells[..];
          cells[idx] := cells[idx].(elem := None);
          assert cells[..] == cs[idx := cs[idx].(elem := None)];
          UpdateCellar(Home(e, buckets.Length));
          return true;
        }
        idx := RingAdd(idx, if n == 1 then 0 else 1, n);
        seen := seen + 1;
        if idx == start {
          forall i | 0 <= i < n ensures cells[i].elem != Some(e) {
            RingInverse(start, i, 0, n);
          }
          return false;
        }
      }
    }

    /** Removes one occurrence of an element, and fails only if there is none. */
    method Remove(e: Elem) returns (ok: bool)
      requires Ok()
      modifies buckets, cells
      ensures Ok() && ok == (0 < old(Count(e)))
      ensures forall x :: Count(x) == old(Count(x)) - if ok && x == e then 1 else 0
    {
      BucketHas(buckets[..], e);
      CellHas(cells[..], e);
      ok := RemoveBkt(e);
      if !ok {
        ok := RemoveCell(e);
      }
    }

    // ---------- lookup ----------

    method SearchCellar(key: nat, hash: nat) returns (r: Option<Elem>)
      requires Ok()
      ensures r.Some? ==> r.value.key == key && exists i :: 0 <= i < cells.Length && cells[i].elem == r
      ensures r.None? ==> forall i :: 0 <= i < cells.Length && cells[i].elem.Some? ==>
                !(cells[i].elem.value.key == key && cells[i].elem.value.hash == hash)
    {
      if cells.Length == 0 {
        return None;
      }
      var n := cells.Length;
      var start := Home(Elem(0, key, hash), n);
      var idx, seen := start, 0;
      while true
        invariant 0 <= seen < n && idx == RingAdd(start, seen, n)
        invariant forall k :: 0 <= k < seen && cells[RingAdd(start, k, n)].elem.Some? ==>
                    !(cells[RingAdd(start, k, n)].elem.value.key == key && cells[RingAdd(start, k, n)].elem.value.hash == hash)
        decreases n - seen
      {
        assert cells[..][idx] == cells[idx];
        if cells[idx].hash == hash {
          var elem := cells[idx].elem;
          if elem.Some? && elem.value.key == key {
            return elem;
          }
        }
        idx := RingAdd(idx, if n == 1 then 0 else 1, n);
        seen := seen + 1;
        if idx == start {
          forall i | 0 <= i < n && cells[i].elem.Some?
            ensures !(cells[i].elem.value.key == key && cells[i].elem.value.hash == hash)
          {
            RingInverse(start, i, 0, n);
          }
          return None;
        }
      }
    }

    /** Finds an element with the key if one is stored under that key and hash, and never anything else. */
    method Lookup(key: nat, hash: nat) returns (r: Option<Elem>)
      requires Ok()
      ensures r.Some? ==> r.value.key == key && 0 < Count(r.value)
      ensures r.None? ==> forall e :: 0 < Count(e) ==> !(e.key == key && e.hash == hash)
    {
      var n := buckets.Length;
      var bix := Home(Elem(0, key, hash), n);
      assert HomeOk(buckets[..], bix);
      ghost var bs := buckets[..];
      var bitmap := buckets[bix].bitmap;
      while bitmap != 0
        invariant forall k: nat :: Bit(bitmap, k) ==> Bit(bs[bix].bitmap, k)
        invariant forall k: nat :: Bit(bs[bix].bitmap, k) && !Bit(bitmap, k) ==>
                    Named(bs, bix, k) && !Wanted(bs[RingAdd(bix, k, n)].elem, key, hash)
        decreases bitmap
      {
        var bit := Ctz(bitmap);
        assert Named(bs, bix, bit);
        var idx := RingAdd(bix, bit, n);
        assert PlacedOk(bs, idx);
        var elem := buckets[idx].elem;
        if elem.Some? && buckets[idx].sig == Sig(hash) && elem.value.key == key {
          BucketHas(bs, elem.value);
          return elem;
        }
        forall k: nat ensures Bit(And(bitmap, bitmap - 1), k) <==> Bit(bitmap, k) && k != bit {
          ClearLowest(bitmap, k);
        }
        ClearLowest(bitmap, 0);
        bitmap := And(bitmap, bitmap - 1);
      }
      forall k: nat ensures !Bit(0, k) {
        ZeroBit(k);
      }
      r := None;
      if buckets[bix].cellar {
        r := SearchCellar(key, hash);
      }
      if r.Some? {
        CellHas(cells[..], r.value);
      } else {
        forall e | 0 < Count(e) ensures !(e.key == key && e.hash == hash) {
          NotFound(bs, cells[..], bix, key, hash, e);
        }
      }
    }
  }

  // ---------- what a search of the bitmap tells ----------

  ghost predicate Wanted(elem: Option<Elem>, key: nat, hash: nat) {
    elem.Some? && elem.value.key == key && elem.value.hash == hash
  }

  /** An element none of whose home's bits names it is in no bucket. */
  lemma NotStored(bs: seq<Bucket>, b: nat, e: Elem)
    requires BucketsOk(bs) && b == Home(e, |bs|)
    requires forall k: nat :: Bit(bs[b].bitmap, k) ==> k < BitmapBits && bs[RingAdd(b, k, |bs|)].elem != Some(e)
    ensures forall i :: 0 <= i < |bs| ==> bs[i].elem != Some(e)
  {
    forall i | 0 <= i < |bs| ensures bs[i].elem != Some(e) {
      assert PlacedOk(bs, i);
      RingInverse(b, i, 0, |bs|);
    }
  }

  lemma NotFound(bs: seq<Bucket>, cells: seq<Cell>, b: nat, key: nat, hash: nat, e: Elem)
    requires TableOk(bs, cells) && b == Home(Elem(0, key, hash), |bs|) && 0 < Times(bs, cells, e)
    requires forall k: nat :: Bit(bs[b].bitmap, k) ==> k < BitmapBits && !Wanted(bs[RingAdd(b, k, |bs|)].elem, key, hash)
    requires !bs[b].cellar || forall i :: 0 <= i < |cells| && cells[i].elem.Some? ==> !Wanted(cells[i].elem, key, hash)
    ensures !(e.key == key && e.hash == hash)
  {
    BucketHas(bs, e);
    CellHas(cells, e);
    if e.key == key && e.hash == hash {
      NotStored(bs, b, e);
      var i :| 0 <= i < |cells| && cells[i].elem == Some(e);
      assert InCellar(cells, |bs|, b);
    }
  }

  // ---------- the cellar ----------

  lemma CellPut(bs: seq<Bucket>, cells: seq<Cell>, i: nat, e: Elem)
    requires TableOk(bs, cells) && i < |cells| && cells[i].elem == None
    ensures var b := Home(e, |bs|);
            var bs', cells' := bs[b := bs[b].(cellar := true)], cells[i := Cell(e.hash, Some(e))];
            && TableOk(bs', cells')
            && forall x :: Times(bs', cells', x) == Times(bs, cells, x) + if x == e then 1 else 0
  {
    var b := Home(e, |bs|);
    var bs', cells' := bs[b := bs[b].(cellar := true)], cells[i := Cell(e.hash, Some(e))];
    SameBuckets(bs, bs', b);
    forall h | 0 <= h < |bs'| ensures bs'[h].cellar <==> InCellar(cells', |bs|, h) {
      if InCellar(cells, |bs|, h) {
        var j :| 0 <= j < |cells| && cells[j].elem.Some? && Home(cells[j].elem.value, |bs|) == h;
        assert cells'[j].elem.Some?;
      }
      if h == b {
        assert cells'[i].elem.Some?;
      }
    }
    forall x ensures Times(bs', cells', x) == Times(bs, cells, x) + if x == e then 1 else 0 {
      BucketUpdate(bs, b, bs'[b], x);
      CellUpdate(cells, i, cells'[i], x);
    }
  }

  /** Only a cellar bit differs. */
  lemma SameBuckets(bs: seq<Bucket>, bs': seq<Bucket>, b: nat)
    requires BucketsOk(bs) && b < |bs| == |bs'| && bs' == bs[b := bs[b].(cellar := bs'[b].cellar)]
    ensures BucketsOk(bs')
  {
    forall h | 0 <= h < |bs'| ensures HomeOk(bs', h) {
      assert HomeOk(bs, h);
      forall k: nat | Bit(bs'[h].bitmap, k) ensures Named(bs', h, k) {
        assert Named(bs, h, k);
      }
    }
    forall i | 0 <= i < |bs'| ensures PlacedOk(bs', i) {
      assert PlacedOk(bs, i);
    }
  }

  lemma CellTaken(bs: seq<Bucket>, cells: seq<Cell>, i: nat)
    requires TableOk(bs, cells) && i < |cells| && cells[i].elem.Some?
    ensures var e := cells[i].elem.value;
            var b, cells' := Home(e, |bs|), cells[i := cells[i].(elem := None)];
            var bs' := bs[b := bs[b].(cellar := InCellar(cells', |bs|, b))];
            && TableOk(bs', cells')
            && forall x :: Times(bs', cells', x) + (if x == e then 1 else 0) == Times(bs, cells, x)
  {
    var e := cells[i].elem.value;
    var b, cells' := Home(e, |bs|), cells[i := cells[i].(elem := None)];
    var bs' := bs[b := bs[b].(cellar := InCellar(cells', |bs|, b))];
    SameBuckets(bs, bs', b);
    forall h | 0 <= h < |bs'| ensures bs'[h].cellar <==> InCellar(cells', |bs|, h) {
      if h != b {
        if InCellar(cells, |bs|, h) {
          var j :| 0 <= j < |cells| && cells[j].elem.Some? && Home(cells[j].elem.value, |bs|) == h;
          assert cells'[j].elem.Some?;
        }
      }
    }
    forall x ensures Times(bs', cells', x) + (if x == e then 1 else 0) == Times(bs, cells, x) {
      BucketUpdate(bs, b, bs'[b], x);
      CellUpdate(cells, i, cells'[i], x);
    }
  }

  // ---------- the effects ----------

  function Moved(bs: seq<Bucket>, b: nat, k: nat, dst: nat): (r: seq<Bucket>)
    requires b < |bs| && k < BitmapBits <= |bs| && dst < |bs| && bs[RingAdd(b, k, |bs|)].elem.Some?
    ensures |r| == |bs|
  {
    Placed(Taken(bs, b, k), dst, bs[RingAdd(b, k, |bs|)].elem.value)
  }

  /** The cellar bits and the number of elements after placing one. */
  lemma PlacedTable(bs: seq<Bucket>, cells: seq<Cell>, i: nat, e: Elem)
    requires 0 < |bs| && i < |bs| && bs[i].elem == None && CellarOk(bs, cells)
    ensures CellarOk(Placed(bs, i, e), cells)
    ensures forall x :: BucketTimes(Placed(bs, i, e), x) == BucketTimes(bs, x) + if x == e then 1 else 0
  {
    hide SetBit;
    var written := Write(bs, i, Some(e), Sig(e.hash));
    var b := Home(e, |bs|);
    forall x ensures BucketTimes(Placed(bs, i, e), x) == BucketTimes(bs, x) + if x == e then 1 else 0 {
      BucketUpdate(bs, i, written[i], x);
      BucketUpdate(written, b, Placed(bs, i, e)[b], x);
    }
  }

  lemma TakenTable(bs: seq<Bucket>, cells: seq<Cell>, b: nat, k: nat)
    requires b < |bs| && k < BitmapBits <= |bs| && CellarOk(bs, cells) && bs[RingAdd(b, k, |bs|)].elem.Some?
    ensures CellarOk(Taken(bs, b, k), cells)
    ensures forall x :: BucketTimes(Taken(bs, b, k), x) + Is(bs[RingAdd(b, k, |bs|)].elem, x) == BucketTimes(bs, x)
  {
    hide ClearBit;
    var i := RingAdd(b, k, |bs|);
    var cleared := SetMap(bs, b, ClearBit(bs[b].bitmap, k));
    forall x ensures BucketTimes(Taken(bs, b, k), x) + Is(bs[i].elem, x) == BucketTimes(bs, x) {
      BucketUpdate(bs, b, cleared[b], x);
      BucketUpdate(cleared, i, Taken(bs, b, k)[i], x);
    }
  }

  lemma MovedIsOk(bs: seq<Bucket>, cells: seq<Cell>, b: nat, k: nat, dst: nat)
    requires TableOk(bs, cells) && b < |bs| && Bit(bs[b].bitmap, k) && dst < |bs| && bs[dst].elem == None
    requires k < RingSub(dst, b, |bs|) < BitmapBits
    ensures bs[RingAdd(b, k, |bs|)].elem.Some? && TableOk(Moved(bs, b, k, dst), cells)
    ensures forall x :: BucketTimes(Moved(bs, b, k, dst), x) == BucketTimes(bs, x)
  {
    hide HomeOk, PlacedOk, CellarOk, Bit, Taken, Placed, Home;
    TakenIsOk(bs, b, k);
    TakenTable(bs, cells, b, k);
    var e := bs[RingAdd(b, k, |bs|)].elem.value;
    TakenEmpty(bs, b, k, dst);
    PlacedIsOk(Taken(bs, b, k), dst, e);
    PlacedTable(Taken(bs, b, k), cells, dst, e);
  }

  lemma TakenEmpty(bs: seq<Bucket>, b: nat, k: nat, dst: nat)
    requires BucketsOk(bs) && b < |bs| && Bit(bs[b].bitmap, k) && k < BitmapBits && dst < |bs| && bs[dst].elem == None
    ensures Taken(bs, b, k)[dst].elem == None
    ensures bs[RingAdd(b, k, |bs|)].elem.Some? && Home(bs[RingAdd(b, k, |bs|)].elem.value, |bs|) == b
  {
    hide Bit, ClearBit;
    assert HomeOk(bs, b);
    assert Named(bs, b, k);
  }

  /** The three stores of a move. */
  lemma MovedIs(bs: seq<Bucket>, b: nat, k: nat, dst: nat)
    requires BucketsOk(bs) && b < |bs| && Bit(bs[b].bitmap, k) && k < BitmapBits && dst < |bs| && bs[dst].elem == None
    requires k < RingSub(dst, b, |bs|) < BitmapBits && bs[RingAdd(b, k, |bs|)].elem.Some?
    ensures var src := RingAdd(b, k, |bs|);
            var one := bs[dst := bs[dst].(elem := bs[src].elem, sig := bs[src].sig)];
            var two := one[b := one[b].(bitmap := SetBit(ClearBit(one[b].bitmap, k), RingSub(dst, b, |bs|)))];
            two[src := two[src].(elem := None)] == Moved(bs, b, k, dst)
  {
    hide Bit, ClearBit, SetBit, Sig;
    assert HomeOk(bs, b);
    assert Named(bs, b, k);
    assert PlacedOk(bs, RingAdd(b, k, |bs|));
    hide Home;
  }
}

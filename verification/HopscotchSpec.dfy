/** The layout of a hopscotch table: every element lies in the neighbourhood of its home bucket, which names it by one bit
    of its bitmap, or in the cellar; and what placing, moving and removing an element do to that. */
module HopscotchSpec {
  import opened RingIndex
  import opened Bits64
  import opened BitMask
  import opened HashCells

  const BitmapBits: nat := 24

  /** A bucket: the bitmap and cellar bit of the elements at home here, and the element stored here with its signature. */
  datatype Bucket = Bucket(bitmap: nat, sig: nat, cellar: bool, elem: Option<Elem>)

  /** (hash >> 16) & 0xFF. */
  function Sig(hash: nat): nat { ShiftRight(hash, 16) % 256 }

  /** The home bucket. */
  function Home(e: Elem, n: nat): (h: nat)
    requires 0 < n
    ensures h < n
  {
    e.hash % n
  }

  // ---------- the layout ----------

  /** The bits of a home bucket name buckets of its neighbourhood that hold elements at home here. */
  ghost predicate HomeOk(bs: seq<Bucket>, b: nat)
    requires b < |bs| && BitmapBits <= |bs|
  {
    && bs[b].bitmap < Pow2(32)
    && forall k: nat :: Bit(bs[b].bitmap, k) ==> Named(bs, b, k)
  }

  ghost predicate Named(bs: seq<Bucket>, b: nat, k: nat)
    requires b < |bs| && BitmapBits <= |bs|
  {
    && k < BitmapBits
    && var elem := bs[RingAdd(b, k, |bs|)].elem;
       elem.Some? && Home(elem.value, |bs|) == b
  }

  /** An element has its signature beside it and its bit at home. */
  ghost predicate PlacedOk(bs: seq<Bucket>, i: nat)
    requires i < |bs|
  {
    bs[i].elem.Some? ==>
      && bs[i].sig == Sig(bs[i].elem.value.hash)
      && var b := Home(bs[i].elem.value, |bs|); Bit(bs[b].bitmap, RingSub(i, b, |bs|))
  }

  ghost predicate BucketsOk(bs: seq<Bucket>) {
    && BitmapBits <= |bs|
    && (forall b :: 0 <= b < |bs| ==> HomeOk(bs, b))
    && forall i :: 0 <= i < |bs| ==> PlacedOk(bs, i)
  }

  /** An element at home in bucket b is in the cellar. */
  ghost predicate InCellar(cells: seq<Cell>, n: nat, b: nat)
    requires 0 < n
  {
    exists i :: 0 <= i < |cells| && cells[i].elem.Some? && Home(cells[i].elem.value, n) == b
  }

  /** A cell remembers its element's hash; a home bucket's cellar bit tells whether one of its elements is in the cellar. */
  ghost predicate CellarOk(bs: seq<Bucket>, cells: seq<Cell>)
    requires 0 < |bs|
  {
    && (forall i :: 0 <= i < |cells| && cells[i].elem.Some? ==> cells[i].hash == cells[i].elem.value.hash)
    && forall b :: 0 <= b < |bs| ==> (bs[b].cellar <==> InCellar(cells, |bs|, b))
  }

  ghost predicate TableOk(bs: seq<Bucket>, cells: seq<Cell>) { BucketsOk(bs) && CellarOk(bs, cells) }

  function BucketTimes(bs: seq<Bucket>, e: Elem): nat {
    if bs == [] then 0 else BucketTimes(bs[..|bs| - 1], e) + Is(bs[|bs| - 1].elem, e)
  }

  function Times(bs: seq<Bucket>, cells: seq<Cell>, e: Elem): nat { BucketTimes(bs, e) + CellTimes(cells, e) }

  lemma {:induction false} BucketUpdate(bs: seq<Bucket>, i: nat, b: Bucket, e: Elem)
    requires i < |bs|
    ensures BucketTimes(bs[i := b], e) + Is(bs[i].elem, e) == BucketTimes(bs, e) + Is(b.elem, e)
  {
    var n := |bs| - 1;
    if i < n {
      assert bs[i := b][..n] == bs[..n][i := b];
      BucketUpdate(bs[..n], i, b, e);
    } else {
      assert bs[i := b][..n] == bs[..n];
    }
  }

  /** An element is stored at least once exactly when a bucket or a cell holds it. */
  lemma {:induction false} BucketHas(bs: seq<Bucket>, e: Elem)
    ensures 0 < BucketTimes(bs, e) <==> exists i :: 0 <= i < |bs| && bs[i].elem == Some(e)
  {
    if bs != [] {
      BucketHas(bs[..|bs| - 1], e);
    }
  }

  /** Each occupied bucket is named by exactly one home bitmap bit, within the neighbourhood. */
  lemma NamedOnce(bs: seq<Bucket>, i: nat, b: nat, k: nat)
    requires BucketsOk(bs) && i < |bs| && b < |bs| && k < BitmapBits && RingAdd(b, k, |bs|) == i
    ensures Bit(bs[b].bitmap, k) <==> bs[i].elem.Some? && Home(bs[i].elem.value, |bs|) == b
    ensures bs[i].elem.Some? ==> RingSub(i, Home(bs[i].elem.value, |bs|), |bs|) < BitmapBits
  {
    assert HomeOk(bs, b) && PlacedOk(bs, i);
    RingInverse(b, i, k, |bs|);
    if bs[i].elem.Some? {
      var h := Home(bs[i].elem.value, |bs|);
      assert HomeOk(bs, h);
      assert Named(bs, h, RingSub(i, h, |bs|));
    }
    assert Bit(bs[b].bitmap, k) ==> Named(bs, b, k);
  }

  // ---------- when displacement ends ----------

  /** No home bucket at least `from` and less than a neighbourhood before the empty bucket names a bucket in front of it. */
  ghost predicate NoCandidate(bs: seq<Bucket>, empty: nat, from: nat)
    requires empty < |bs| && BitmapBits <= |bs|
  {
    forall d: nat, k: nat :: from <= d < BitmapBits && Bit(bs[RingSub(empty, d, |bs|)].bitmap, k) ==> d <= k
  }

  lemma NoneBeyond(bs: seq<Bucket>, empty: nat)
    requires empty < |bs| && BitmapBits <= |bs|
    ensures NoCandidate(bs, empty, BitmapBits)
  {
  }

  lemma NoneAt(bs: seq<Bucket>, empty: nat, d: nat)
    requires empty < |bs| && d < BitmapBits <= |bs| && NoCandidate(bs, empty, d + 1)
    requires forall k: nat :: Bit(bs[RingSub(empty, d, |bs|)].bitmap, k) ==> d <= k
    ensures NoCandidate(bs, empty, d)
  {
    hide Bit;
  }

  /** Stepping back from a bucket and measuring the distance again. */
  lemma FarFrom(bs: seq<Bucket>, empty: nat, d: nat)
    requires empty < |bs| && d < BitmapBits <= |bs|
    ensures RingSub(empty, RingSub(empty, d, |bs|), |bs|) == d
  {
  }

  /** An element at home in bucket b finds no place: all buckets are full, or an empty one lies outside the neighbourhood
      and nothing can be moved into it. */
  ghost predicate Stuck(bs: seq<Bucket>, b: nat)
    requires b < |bs| && BitmapBits <= |bs|
  {
    || (forall i :: 0 <= i < |bs| ==> bs[i].elem.Some?)
    || exists i :: 0 <= i < |bs| && bs[i].elem == None && RingSub(i, b, |bs|) >= BitmapBits && NoCandidate(bs, i, 1)
  }

  // ---------- changes ----------

  /** Set the element and signature of bucket i. */
  function Write(bs: seq<Bucket>, i: nat, elem: Option<Elem>, sig: nat): (r: seq<Bucket>)
    requires i < |bs|
    ensures |r| == |bs|
  {
    bs[i := bs[i].(elem := elem, sig := sig)]
  }

  function SetMap(bs: seq<Bucket>, b: nat, bitmap: nat): (r: seq<Bucket>)
    requires b < |bs|
    ensures |r| == |bs|
  {
    bs[b := bs[b].(bitmap := bitmap)]
  }

  /** Put an element into an empty bucket of its neighbourhood. */
  function Placed(bs: seq<Bucket>, i: nat, e: Elem): (r: seq<Bucket>)
    requires i < |bs|
    ensures |r| == |bs|
  {
    var b := Home(e, |bs|);
    var written := Write(bs, i, Some(e), Sig(e.hash));
    SetMap(written, b, SetBit(written[b].bitmap, RingSub(i, b, |bs|)))
  }

  lemma SetBitBelow(x: nat, d: nat)
    requires x < Pow2(32) && d < 32
    ensures SetBit(x, d) < Pow2(32)
  {
    hide Pow2, Or, ShiftLeft;
    OneBelow(d, 32);
    OrBelow(x, ShiftLeft(1, d), 32);
  }

  lemma PlacedIsOk(bs: seq<Bucket>, i: nat, e: Elem)
    requires BucketsOk(bs) && i < |bs| && bs[i].elem == None && RingSub(i, Home(e, |bs|), |bs|) < BitmapBits
    ensures BucketsOk(Placed(bs, i, e))
  {
    hide Pow2, Bit, SetBit, Home, Sig;
    var n := |bs|;
    var b := Home(e, n);
    var d := RingSub(i, b, n);
    var bs' := Placed(bs, i, e);
    forall k: nat ensures Bit(bs'[b].bitmap, k) <==> Bit(bs[b].bitmap, k) || k == d {
      SetBitIs(bs[b].bitmap, d, k);
    }
    forall h | 0 <= h < n ensures HomeOk(bs', h) {
      assert HomeOk(bs, h);
      if h == b {
        SetBitBelow(bs[b].bitmap, d);
      }
      forall k: nat | Bit(bs'[h].bitmap, k) ensures Named(bs', h, k) {
        if h == b && k == d {
          RingInverse(b, i, k, n);
        } else {
          assert Named(bs, h, k);
        }
      }
    }
    forall j | 0 <= j < n ensures PlacedOk(bs', j) {
      assert PlacedOk(bs, j);
    }
  }

  /** Take the element named by bit k of home bucket b out. */
  function Taken(bs: seq<Bucket>, b: nat, k: nat): (r: seq<Bucket>)
    requires b < |bs| && k < BitmapBits <= |bs|
    ensures |r| == |bs|
  {
    var i := RingAdd(b, k, |bs|);
    var cleared := SetMap(bs, b, ClearBit(bs[b].bitmap, k));
    Write(cleared, i, None, cleared[i].sig)
  }

  lemma {:induction false} ClearBitBelow(x: nat, d: nat)
    requires x < Pow2(32) && d < 32
    ensures ClearBit(x, d) < Pow2(32)
  {
    hide Pow2, And, Not;
    OneBelow(d, 32);
    AndAtMost(x, Not(ShiftLeft(1, d), 32));
    assert Not(ShiftLeft(1, d), 32) < Pow2(32) by { NotBelow(ShiftLeft(1, d), 32); }
  }

  lemma NotBelow(x: nat, w: nat)
    requires x < Pow2(w)
    ensures Not(x, w) < Pow2(w)
  {
  }

  lemma TakenIsOk(bs: seq<Bucket>, b: nat, k: nat)
    requires BucketsOk(bs) && b < |bs| && Bit(bs[b].bitmap, k)
    ensures k < BitmapBits && BucketsOk(Taken(bs, b, k))
    ensures bs[RingAdd(b, k, |bs|)].elem.Some?
  {
    hide Pow2, Bit, ClearBit, Home, Sig;
    assert HomeOk(bs, b);
    assert Named(bs, b, k);
    var n := |bs|;
    var i := RingAdd(b, k, n);
    var bs' := Taken(bs, b, k);
    forall k': nat ensures Bit(bs'[b].bitmap, k') <==> Bit(bs[b].bitmap, k') && k' != k {
      ClearBitIs(bs[b].bitmap, k, k');
    }
    forall h | 0 <= h < n ensures HomeOk(bs', h) {
      assert HomeOk(bs, h);
      if h == b {
        ClearBitBelow(bs[b].bitmap, k);
      }
      forall k': nat | Bit(bs'[h].bitmap, k') ensures Named(bs', h, k') {
        assert Named(bs, h, k');
        if RingAdd(h, k', n) == i {
          RingInverse(h, i, k', n);
          RingInverse(b, i, k, n);
        }
      }
    }
    forall j | 0 <= j < n ensures PlacedOk(bs', j) {
      assert PlacedOk(bs, j);
      if j != i && bs[j].elem.Some? && Home(bs[j].elem.value, n) == b {
        RingInverse(b, j, k, n);
      }
    }
  }
}

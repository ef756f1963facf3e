/** IPv4 fragments (the flags and offset of section 3.1 of RFC 791): sorting them, what a complete datagram is, and the
    sums by which a slot guesses that it has one. */
module Fragments {
  /** A fragment with its flags and offset word and its length in bytes. */
  datatype Frag = Frag(id: nat, hash: nat, arrival: nat, info: nat, len: nat)

  /** The low 13 bits count units of eight bytes; bit 13 says that more fragments follow. */
  function Off(f: Frag): nat { f.info % 0x2000 * 8 }

  predicate More(f: Frag) { f.info / 0x2000 % 2 == 1 }

  const SizeMax: nat := 0x3FFF

  function Oct(bytes: nat): nat { (bytes + 7) / 8 }

  /** The datagram's size in octets as far as this fragment knows. */
  function TotOct(f: Frag): nat { if More(f) then SizeMax else Oct(Off(f) + f.len) }

  function Min(a: nat, b: nat): nat { if a < b then a else b }

  // ---------- datagrams ----------

  /** One hash, from offset zero, each fragment starting where the one before ends, and more to come after all but the
      last. */
  ghost predicate Datagram(d: seq<Frag>) {
    && d != [] && Off(d[0]) == 0 && !More(d[|d| - 1])
    && (forall i :: 0 <= i < |d| ==> d[i].hash == d[0].hash)
    && forall i :: 0 <= i < |d| - 1 ==> Follows(d, i)
  }

  ghost predicate Follows(d: seq<Frag>, i: nat)
    requires i + 1 < |d|
  {
    More(d[i]) && Off(d[i + 1]) == Off(d[i]) + d[i].len
  }

  /** A datagram as a sender makes it: no empty fragment, and of a size that fits the length field. */
  ghost predicate Proper(d: seq<Frag>) {
    && Datagram(d) && (forall f :: f in d ==> 0 < f.len)
    && Off(d[|d| - 1]) + d[|d| - 1].len <= 65535
  }

  // ---------- sorting ----------

  /** Strictly before in the order of hashes and then offsets. */
  predicate Less(a: Frag, b: Frag) { a.hash < b.hash || (a.hash == b.hash && Off(a) < Off(b)) }

  ghost predicate Ascending(s: seq<Frag>) { forall i, j :: 0 <= i < j < |s| ==> !Less(s[j], s[i]) }

  /** Sorted insertion: behind all that are strictly before. */
  function Insert(s: seq<Frag>, f: Frag): (r: seq<Frag>)
    ensures |r| == |s| + 1
  {
    if s != [] && Less(s[0], f) then [s[0]] + Insert(s[1..], f) else [f] + s
  }

  function Sorted(s: seq<Frag>): (r: seq<Frag>)
    ensures |r| == |s|
  {
    if s == [] then [] else Insert(Sorted(s[..|s| - 1]), s[|s| - 1])
  }

  lemma {:induction false} InsertTimes(s: seq<Frag>, f: Frag, x: Frag)
    ensures multiset(Insert(s, f))[x] == multiset(s)[x] + if x == f then 1 else 0
  {
    if s != [] && Less(s[0], f) {
      InsertTimes(s[1..], f, x);
      assert s == [s[0]] + s[1..];
    }
  }

  lemma {:induction false} InsertAscends(s: seq<Frag>, f: Frag)
    requires Ascending(s)
    ensures Ascending(Insert(s, f))
  {
    if s != [] && Less(s[0], f) {
      InsertAscends(s[1..], f);
      var rest := Insert(s[1..], f);
      forall k | 0 <= k < |rest| ensures !Less(rest[k], s[0]) {
        InsertTimes(s[1..], f, rest[k]);
        assert rest[k] in multiset(rest);
      }
    }
  }

  /** Sorting gives an ascending list of the same fragments. */
  lemma {:induction false} SortedIs(s: seq<Frag>)
    ensures Ascending(Sorted(s)) && multiset(Sorted(s)) == multiset(s)
  {
    if s != [] {
      var n := |s| - 1;
      SortedIs(s[..n]);
      InsertAscends(Sorted(s[..n]), s[n]);
      assert s == s[..n] + [s[n]];
      forall x ensures multiset(Sorted(s))[x] == multiset(s)[x] {
        InsertTimes(Sorted(s[..n]), s[n], x);
      }
    }
  }

  lemma SameSize(s: seq<Frag>, d: seq<Frag>)
    requires multiset(s) == multiset(d)
    ensures |s| == |d| && forall x :: x in s <==> x in d
  {
    assert |s| == |multiset(s)|;
    assert |d| == |multiset(d)|;
    forall x ensures x in s <==> x in d {
      assert x in multiset(s) <==> x in multiset(d);
    }
  }

  /** An ascending list is determined by its fragments when no two of them are equal in the order. */
  lemma {:induction false} AscendingUnique(s: seq<Frag>, d: seq<Frag>)
    requires Ascending(s) && multiset(s) == multiset(d)
    requires forall i, j :: 0 <= i < j < |d| ==> Less(d[i], d[j])
    ensures s == d
  {
    SameSize(s, d);
    if d != [] {
      FirstSame(s, d);
      RestTimes(s);
      RestTimes(d);
      AscendingUnique(s[1..], d[1..]);
      assert s == [s[0]] + s[1..] && d == [d[0]] + d[1..];
    }
  }

  lemma FirstSame(s: seq<Frag>, d: seq<Frag>)
    requires Ascending(s) && s != [] && d != [] && multiset(s) == multiset(d)
    requires forall j :: 0 < j < |d| ==> Less(d[0], d[j])
    ensures s[0] == d[0]
  {
    assert s[0] in multiset(d) && d[0] in multiset(s);
    var i :| 0 <= i < |s| && s[i] == d[0];
    var j :| 0 <= j < |d| && d[j] == s[0];
  }

  lemma RestTimes(s: seq<Frag>)
    requires s != []
    ensures multiset(s[1..]) == multiset(s) - multiset{s[0]}
  {
    assert s == [s[0]] + s[1..];
  }

  // ---------- sums ----------

  /** The octets of all fragments of a list. */
  function Octs(s: seq<Frag>): nat { if s == [] then 0 else Octs(s[..|s| - 1]) + Oct(s[|s| - 1].len) }

  /** The smallest datagram size any fragment of a list knows. */
  function Tot(s: seq<Frag>): nat { if s == [] then SizeMax else Min(Tot(s[..|s| - 1]), TotOct(s[|s| - 1])) }

  lemma {:induction false} SumsAppend(a: seq<Frag>, b: seq<Frag>)
    ensures Octs(a + b) == Octs(a) + Octs(b) && Tot(a + b) == Min(Tot(a), Tot(b))
  {
    if b == [] {
      assert a + b == a;
      TotAtMost(a);
    } else {
      assert (a + b)[..|a + b| - 1] == a + b[..|b| - 1];
      SumsAppend(a, b[..|b| - 1]);
    }
  }

  lemma {:induction false} TotAtMost(s: seq<Frag>)
    ensures Tot(s) <= SizeMax
  {
    if s != [] {
      TotAtMost(s[..|s| - 1]);
    }
  }

  function Without(d: seq<Frag>, k: nat): (r: seq<Frag>)
    requires k < |d|
    ensures |r| == |d| - 1
  {
    d[..k] + d[k + 1..]
  }

  lemma WithoutIs(d: seq<Frag>, k: nat)
    requires k < |d|
    ensures multiset(d) == multiset(Without(d, k)) + multiset{d[k]}
    ensures Octs(d) == Octs(Without(d, k)) + Oct(d[k].len)
    ensures forall f :: f in Without(d, k) ==> f in d
  {
    hide Octs, Tot;
    var l, m, r := d[..k], [d[k]], d[k + 1..];
    assert d == l + (m + r);
    SumsAppend(l, m + r);
    SumsAppend(m, r);
    SumsAppend(l, r);
    OneSum(d[k]);
  }

  lemma OneSum(f: Frag)
    ensures Octs([f]) == Oct(f.len)
  {
    assert [f][..0] == [];
  }

  /** Part of a list of non-empty fragments: short of an octet for each one missing. */
  lemma {:induction false} PartSum(s: seq<Frag>, d: seq<Frag>)
    requires multiset(s) <= multiset(d) && forall f :: f in d ==> 0 < f.len
    ensures |s| <= |d| && Octs(s) + (|d| - |s|) <= Octs(d)
    ensures |s| == |d| ==> Octs(s) == Octs(d)
  {
    if s == [] {
      NonEmptySum(d);
    } else {
      var n := |s| - 1;
      var x := s[n];
      assert s == s[..n] + [x];
      assert x in multiset(s);
      assert x in d;
      var k :| 0 <= k < |d| && d[k] == x;
      WithoutIs(d, k);
      hide Without;
      assert multiset(s) == multiset(s[..n]) + multiset{x};
      Cancel(multiset(s[..n]), multiset(Without(d, k)), x);
      PartSum(s[..n], Without(d, k));
    }
  }

  lemma Cancel(a: multiset<Frag>, b: multiset<Frag>, x: Frag)
    requires a + multiset{x} <= b + multiset{x}
    ensures a <= b
  {
    forall y ensures a[y] <= b[y] {
      assert (a + multiset{x})[y] <= (b + multiset{x})[y];
    }
  }

  lemma {:induction false} NonEmptySum(d: seq<Frag>)
    requires forall f :: f in d ==> 0 < f.len
    ensures |d| <= Octs(d)
  {
    if d != [] {
      NonEmptySum(d[..|d| - 1]);
    }
  }

  /** The first fragments of a datagram cover the octets before the next one. */
  lemma {:induction false} Covered(d: seq<Frag>, k: nat)
    requires Datagram(d) && k < |d|
    ensures Octs(d[..k]) * 8 == Off(d[k])
  {
    if k > 0 {
      Covered(d, k - 1);
      assert d[..k][..k - 1] == d[..k - 1];
      assert Follows(d, k - 1);
      assert d[k - 1].len % 8 == 0 by { assert Off(d[k]) % 8 == 0 && Off(d[k - 1]) % 8 == 0; }
    }
  }

  lemma DatagramSum(d: seq<Frag>)
    requires Datagram(d)
    ensures Octs(d) == Oct(Off(d[|d| - 1]) + d[|d| - 1].len) == TotOct(d[|d| - 1])
  {
    Covered(d, |d| - 1);
  }

  /** Only the last fragment of a datagram knows its size. */
  lemma {:induction false} PartTot(s: seq<Frag>, d: seq<Frag>)
    requires Proper(d) && forall f :: f in s ==> f in d
    ensures Tot(s) == if d[|d| - 1] in s then Octs(d) else SizeMax
  {
    DatagramSum(d);
    if s != [] {
      var f := s[|s| - 1];
      PartTot(s[..|s| - 1], d);
      assert f in s;
      var k :| 0 <= k < |d| && d[k] == f;
      if k < |d| - 1 {
        assert Follows(d, k);
      }
      assert s == s[..|s| - 1] + [f];
    }
  }

  /** The guess is right for the fragments of one proper datagram: the sum reaches the size exactly when all are there. */
  lemma CompleteIff(s: seq<Frag>, d: seq<Frag>)
    requires Proper(d) && multiset(s) <= multiset(d)
    ensures Min(SizeMax, Octs(s)) >= Tot(s) <==> |s| == |d|
  {
    forall f | f in s ensures f in d {
      assert f in multiset(s);
    }
    PartSum(s, d);
    PartTot(s, d);
    DatagramSum(d);
    if |s| == |d| {
      Full(s, d);
    }
  }

  lemma Full(s: seq<Frag>, d: seq<Frag>)
    requires multiset(s) <= multiset(d) && |s| == |d| && d != []
    ensures multiset(s) == multiset(d) && d[|d| - 1] in s
  {
    assert |multiset(d) - multiset(s)| == 0;
    assert multiset(d) == multiset(s) + (multiset(d) - multiset(s));
    assert d[|d| - 1] in multiset(d);
  }

  /** Sorting all fragments of a proper datagram gives the datagram, whatever their order of arrival. */
  lemma SortsToDatagram(s: seq<Frag>, d: seq<Frag>)
    requires Proper(d) && multiset(s) == multiset(d)
    ensures Sorted(s) == d
  {
    SortedIs(s);
    forall i, j | 0 <= i < j < |d| ensures Less(d[i], d[j]) {
      OffsetsRise(d, i, j);
    }
    AscendingUnique(Sorted(s), d);
  }

  lemma {:induction false} OffsetsRise(d: seq<Frag>, i: nat, j: nat)
    requires Proper(d) && i < j < |d|
    ensures Off(d[i]) < Off(d[j])
    decreases j
  {
    assert Follows(d, j - 1);
    assert d[j - 1] in d;
    if i < j - 1 {
      OffsetsRise(d, i, j - 1);
    }
  }
}

/** The fragment table used by one thread: fragments wait in the slot their hash selects until the slot's sums say that a
    datagram may be complete. Linked lists of fragments are sequences here. */
module Reassemble {
  import opened Division
  import opened Bits64
  import opened BitMask
  import opened Fragments

  /** A slot: its fragments, latest first, the saturated sum of their octets, the least total size any of them knows, and
      a bound on their arrival times. */
  datatype Slot = Slot(earliest: nat, acc: nat, tot: nat, head: seq<Frag>)

  const NullSlot: Slot := Slot(0, 0, SizeMax, [])

  /** The upper bits of the 32-bit hash. */
  function SlotIndex(hash: nat, shift: nat): nat { ShiftRight(hash % Word, shift) }

  lemma IndexInTable(hash: nat, shift: nat)
    requires shift <= 32
    ensures SlotIndex(hash, shift) < Pow2(32 - shift)
  {
    PowAdd(32 - shift, shift);
    Pow2Word();
    hide Pow2;
    QuotientBound(hash % Word, Pow2(shift), Pow2(32 - shift));
  }

  /** One bit less shifted out: the slot is one of the two that the old one becomes. */
  lemma IndexSplits(hash: nat, shift: nat)
    requires 0 < shift
    ensures SlotIndex(hash, shift - 1) / 2 == SlotIndex(hash, shift)
  {
    var x, p := hash % Word, Pow2(shift - 1);
    Halved(x, p);
  }

  lemma Halved(x: nat, p: nat)
    requires 0 < p
    ensures x / p / 2 == x / (2 * p)
  {
    var q, r := x / p / 2, x / p % 2;
    Divided(x, p);
    assert x == q * (2 * p) + (r * p + x % p) by {
      Distribute(q, 2, r, p);
    }
    ProductGap(p, r, 2);
    DivisionUnique(x, 2 * p, q, r * p + x % p);
  }

  /** The size of the doubled table fits in 32 bits exactly when the table has less than 2^31 slots; otherwise it is zero. */
  lemma DoubledSizeIff(log: nat)
    requires log <= 31
    ensures Wrap(2 * Pow2(log)) == (if log < 31 then Pow2(log + 1) else 0)
  {
    Pow2Word();
    if log < 31 {
      PowMonotone(log + 1, 31);
      assert Pow2(32) == 2 * Pow2(31);
    }
  }

  // ---------- slots and counts ----------

  ghost predicate SlotOk(s: Slot, i: nat, shift: nat) {
    && s.acc == Min(SizeMax, Octs(s.head)) && s.tot == Tot(s.head)
    && forall f :: f in s.head ==> SlotIndex(f.hash, shift) == i && s.earliest <= f.arrival
  }

  function SlotTimes(slots: seq<Slot>, f: Frag): nat {
    if slots == [] then 0 else SlotTimes(slots[..|slots| - 1], f) + multiset(slots[|slots| - 1].head)[f]
  }

  function ListTimes(lists: seq<seq<Frag>>, f: Frag): nat {
    if lists == [] then 0 else ListTimes(lists[..|lists| - 1], f) + multiset(lists[|lists| - 1])[f]
  }

  lemma {:induction false} SlotUpdate(slots: seq<Slot>, i: nat, s: Slot, f: Frag)
    requires i < |slots|
    ensures SlotTimes(slots[i := s], f) + multiset(slots[i].head)[f] == SlotTimes(slots, f) + multiset(s.head)[f]
  {
    var n := |slots| - 1;
    if i < n {
      assert slots[i := s][..n] == slots[..n][i := s];
      SlotUpdate(slots[..n], i, s, f);
    } else {
      assert slots[i := s][..n] == slots[..n];
    }
  }

  lemma ListNext(lists: seq<seq<Frag>>, l: seq<Frag>, f: Frag)
    ensures ListTimes(lists + [l], f) == ListTimes(lists, f) + multiset(l)[f]
  {
    assert (lists + [l])[..|lists|] == lists;
  }

  lemma {:induction false} EmptyTimes(slots: seq<Slot>, f: Frag)
    requires forall i :: 0 <= i < |slots| ==> slots[i].head == []
    ensures SlotTimes(slots, f) == 0
  {
    if slots != [] {
      EmptyTimes(slots[..|slots| - 1], f);
    }
  }

  ghost predicate AllDatagrams(lists: seq<seq<Frag>>) { forall k :: 0 <= k < |lists| ==> Datagram(lists[k]) }

  // ---------- the list methods ----------

  lemma {:induction false} InsertedAt(s: seq<Frag>, f: Frag, k: nat)
    requires k <= |s| && (forall j :: 0 <= j < k ==> Less(s[j], f)) && (k < |s| ==> !Less(s[k], f))
    ensures Insert(s, f) == s[..k] + [f] + s[k..]
    decreases k
  {
    if k > 0 {
      InsertedAt(s[1..], f, k - 1);
      assert s[1..][..k - 1] == s[1..k] && s[1..][k - 1..] == s[k..];
      assert s[..k] == [s[0]] + s[1..k];
    }
  }

  /** Adds the fragments one by one, each behind those strictly before it. */
  method SortFrags(list: seq<Frag>) returns (sorted: seq<Frag>)
    ensures sorted == Sorted(list)
  {
    sorted := [];
    for i := 0 to |list|
      invariant sorted == Sorted(list[..i])
    {
      var frag, k := list[i], 0;
      while k < |sorted| && Less(sorted[k], frag)
        invariant 0 <= k <= |sorted| && forall j :: 0 <= j < k ==> Less(sorted[j], frag)
      {
        k := k + 1;
      }
      InsertedAt(sorted, frag, k);
      assert list[..i + 1][..i] == list[..i];
      hide Insert;
      sorted := sorted[..k] + [frag] + sorted[k..];
    }
    assert list[..|list|] == list;
  }

  datatype Verdict = Complete | Missing | Broken

  /** Follows one datagram from its first fragment: complete up to k, a fragment missing, or broken at k. */
  method Scan(list: seq<Frag>, h: nat) returns (v: Verdict, k: nat)
    requires h <= |list|
    ensures v.Complete? ==> h <= k < |list| && Datagram(list[h..k + 1])
    ensures v.Broken? ==> h <= k < |list|
    ensures Datagram(list) && h == 0 ==> v.Complete? && k == |list| - 1
  {
    hide Datagram, Off, More;
    k := h;
    var expected: nat := 0;
    while k < |list|
      invariant h <= k <= |list|
      invariant Datagram(list) && h == 0 && k == |list| ==> list == []
      invariant Unbroken(list, h, k, expected)
    {
      if Datagram(list) && h == 0 {
        GoesOn(list, k, expected);
      }
      if Off(list[k]) != expected {
        return Missing, k;
      }
      if k + 1 == |list| || list[k + 1].hash != list[k].hash {
        if More(list[k]) {
          return Broken, k;
        }
        DatagramFound(list, h, k);
        return Complete, k;
      }
      if !More(list[k]) {
        return Broken, k;
      }
      if Off(list[k + 1]) > Off(list[k]) + list[k].len {
        return Broken, k;
      }
      expected := expected + list[k].len;
      k := k + 1;
    }
    if Datagram(list) {
      NotEmpty(list);
    }
    return Missing, k;
  }

  /** In a datagram nothing stops the scan before the end. */
  lemma GoesOn(list: seq<Frag>, k: nat, expected: nat)
    requires Datagram(list) && k < |list| && Unbroken(list, 0, k, expected)
    ensures Off(list[k]) == expected && (k + 1 == |list| <==> !More(list[k]))
    ensures k + 1 < |list| ==> list[k + 1].hash == list[k].hash && Off(list[k + 1]) == Off(list[k]) + list[k].len
  {
    assert k + 1 < |list| ==> Follows(list, k);
    assert 0 < k ==> Follows(list, k - 1);
  }

  lemma NotEmpty(list: seq<Frag>)
    requires Datagram(list)
    ensures list != []
  {
  }

  /** The fragments from h up to k belong together, without a gap so far. */
  ghost predicate Unbroken(list: seq<Frag>, h: nat, k: nat, expected: nat) {
    && h <= k <= |list|
    && (forall j :: h <= j < k ==> list[j].hash == list[h].hash && More(list[j]))
    && (k < |list| ==> list[k].hash == list[h].hash)
    && (forall j :: h <= j < k - 1 ==> Off(list[j + 1]) == Off(list[j]) + list[j].len)
    && if k == h then expected == 0 else Off(list[h]) == 0 && expected == Off(list[k - 1]) + list[k - 1].len
  }

  /** Looks for a complete datagram: found in list[h..k + 1]. What is passed over behind a broken one are the fragments
      whose hash equals the low 32 bits of the broken one's hash. */
  method IsComplete(list: seq<Frag>) returns (found: bool, h: nat, k: nat)
    ensures found ==> h <= k < |list| && Datagram(list[h..k + 1])
    ensures Datagram(list) ==> found && h == 0 && k == |list| - 1
  {
    h := 0;
    while true
      invariant h <= |list| && (Datagram(list) ==> h == 0)
      decreases |list| - h
    {
      var v;
      v, k := Scan(list, h);
      if v.Complete? {
        return true, h, k;
      }
      if v.Missing? {
        return false, 0, 0;
      }
      var hash := list[k].hash % Word;
      while k + 1 < |list| && list[k + 1].hash == hash
        invariant h <= k < |list|
      {
        k := k + 1;
      }
      h := k + 1;
    }
  }

  lemma DatagramFound(list: seq<Frag>, h: nat, k: nat)
    requires h <= k < |list| && Off(list[h]) == 0 && !More(list[k])
    requires forall j :: h <= j <= k ==> list[j].hash == list[h].hash
    requires forall j :: h <= j < k ==> More(list[j]) && Off(list[j + 1]) == Off(list[j]) + list[j].len
    ensures Datagram(list[h..k + 1])
  {
    var d := list[h..k + 1];
    forall i | 0 <= i < |d| - 1 ensures Follows(d, i) {
      assert d[i] == list[h + i];
    }
  }

  /** Sum, total size and earliest arrival of a list. */
  method Recompute(list: seq<Frag>, now: nat) returns (acc: nat, tot: nat, earliest: nat)
    ensures acc == Min(SizeMax, Octs(list)) && tot == Tot(list) && earliest <= now
    ensures forall f :: f in list ==> earliest <= f.arrival
  {
    acc, tot, earliest := 0, SizeMax, now;
    for i := 0 to |list|
      invariant acc == Min(SizeMax, Octs(list[..i])) && tot == Tot(list[..i]) && earliest <= now
      invariant forall j :: 0 <= j < i ==> earliest <= list[j].arrival
    {
      assert list[..i + 1][..i] == list[..i];
      acc := Min(SizeMax, acc + Oct(list[i].len));
      tot := Min(tot, TotOct(list[i]));
      earliest := Min(earliest, list[i].arrival);
    }
    assert list[..|list|] == list;
  }

  /** Takes the fragments that arrived before the time out of a list; they come out in reverse. */
  method FindStale(list: seq<Frag>, time: nat) returns (young: seq<Frag>, stale: seq<Frag>)
    ensures forall f :: multiset(young)[f] + multiset(stale)[f] == multiset(list)[f]
    ensures (forall f :: f in young ==> time <= f.arrival && f in list) && forall f :: f in stale ==> f.arrival < time
  {
    young, stale := [], [];
    for i := 0 to |list|
      invariant forall f :: multiset(young)[f] + multiset(stale)[f] == multiset(list[..i])[f]
      invariant forall f :: f in young ==> time <= f.arrival && f in list
      invariant forall f :: f in stale ==> f.arrival < time
    {
      assert list[..i + 1] == list[..i] + [list[i]];
      if list[i].arrival < time {
        stale := [list[i]] + stale;
      } else {
        young := young + [list[i]];
      }
    }
    assert list[..|list|] == list;
  }

  ghost predicate AllBefore(list: seq<Frag>, time: nat) { forall f :: f in list ==> f.arrival < time }

  /** The lists handed out as stale since have only fragments that arrived before the time. */
  ghost predicate OnlyStaleAdded(stale: seq<seq<Frag>>, stale': seq<seq<Frag>>, time: nat) {
    stale <= stale' && forall k :: |stale| <= k < |stale'| ==> AllBefore(stale'[k], time)
  }

  // ---------- the table ----------

  class Table {
    var slots: array<Slot>
    var shift: nat

    /** The slots in use, all but while a table is being extended. */
    ghost var ready: nat
    var complete: seq<seq<Frag>>
    var stale: seq<seq<Frag>>

    constructor (log: nat)
      requires 0 < log <= 31
      ensures Ok() && InUse() && fresh(slots) && slots.Length == Pow2(log) && complete == [] && stale == []
      ensures forall f :: Count(f) == 0
    {
      slots := new Slot[Pow2(log)](_ => NullSlot);
      shift, ready := 32 - log, Pow2(log);
      complete, stale := [], [];
      new;
      assert slots[..ready] == slots[..];
      forall f ensures Count(f) == 0 {
        EmptyTimes(slots[..], f);
      }
    }

    /** Every slot has only fragments that its hash selects, and its sums are right; every list handed out is a datagram. */
    ghost predicate Ok()
      reads this, slots
    {
      && shift < 32 && slots.Length == Pow2(32 - shift) && ready <= slots.Length
      && (forall i :: 0 <= i < ready ==> SlotOk(slots[i], i, shift))
      && AllDatagrams(complete)
    }

    ghost predicate InUse()
      reads this
    {
      ready == slots.Length
    }

    /** How often a fragment is in the table or has been handed out. */
    ghost function Count(f: Frag): nat
      reads this, slots
    {
      (if ready <= slots.Length then SlotTimes(slots[..ready], f) else 0) + ListTimes(complete, f) + ListTimes(stale, f)
    }

    /** Hands out complete datagrams as long as there are some. */
    method HandOut(list: seq<Frag>) returns (rest: seq<Frag>)
      requires AllDatagrams(complete)
      modifies this`complete
      ensures AllDatagrams(complete)
      ensures forall f :: multiset(rest)[f] + ListTimes(complete, f) == multiset(list)[f] + old(ListTimes(complete, f))
      ensures |rest| <= |list| && (|rest| == |list| ==> rest == list && complete == old(complete))
      ensures forall f :: f in rest ==> f in list
      ensures Datagram(list) ==> rest == [] && complete == old(complete) + [list]
    {
      hide Datagram, ListTimes;
      if Datagram(list) {
        NotEmpty(list);
      }
      rest := list;
      while rest != []
        invariant AllDatagrams(complete) && |rest| <= |list| && forall f :: f in rest ==> f in list
        invariant |rest| == |list| ==> rest == list && complete == old(complete)
        invariant Datagram(list) ==> (rest == list && complete == old(complete))
                                     || (rest == [] && complete == old(complete) + [list])
        invariant forall f :: multiset(rest)[f] + ListTimes(complete, f) == multiset(list)[f] + old(ListTimes(complete, f))
        decreases |rest|
      {
        var found, h, k := IsComplete(rest);
        if !found {
          break;
        }
        var dg := rest[h..k + 1];
        var rest' := rest[..h] + rest[k + 1..];
        CutOut(rest, h, k);
        forall f ensures ListTimes(complete + [dg], f) == ListTimes(complete, f) + multiset(dg)[f] {
          ListNext(complete, dg, f);
        }
        complete := complete + [dg];
        rest := rest';
      }
    }

    /** Replaces a slot. */
    method Put(i: nat, s: Slot)
      requires Ok() && i < ready && SlotOk(s, i, shift)
      modifies slots
      ensures Ok() && slots[..] == old(slots[..])[i := s]
      ensures forall f :: Count(f) + multiset(old(slots[i].head))[f] == old(Count(f)) + multiset(s.head)[f]
    {
      ghost var was := slots[..];
      slots[i] := s;
      assert slots[..] == was[i := s];
      assert slots[..ready] == was[..ready][i := s];
      forall f
        ensures SlotTimes(slots[..ready], f) + multiset(was[i].head)[f] == SlotTimes(was[..ready], f) + multiset(s.head)[f]
      {
        SlotUpdate(was[..ready], i, s, f);
      }
    }

    /** Writes the merged list back. */
    method Store(i: nat, frag: seq<Frag>, earliest: nat)
      requires Ok() && i < ready && (forall f :: f in frag ==> SlotIndex(f.hash, shift) == i && earliest <= f.arrival)
      modifies slots
      ensures Ok() && forall j :: 0 <= j < slots.Length && j != i ==> slots[j] == old(slots[j])
      ensures slots[i].head == frag + old(slots[i].head)
      ensures forall f :: Count(f) == old(Count(f)) + multiset(frag)[f]
    {
      var was := slots[i];
      SumsAppend(frag, was.head);
      MergedTimes(frag, was.head);
      Put(i, Slot(if was.head != [] then Min(was.earliest, earliest) else earliest,
                  Min(SizeMax, Octs(frag + was.head)), Tot(frag + was.head), frag + was.head));
    }

    /** Takes everything out of the slot, sorts it together with the new fragments and hands out what is complete. */
    method TakeOut(i: nat, frag: seq<Frag>) returns (rest: seq<Frag>)
      requires Ok() && i < ready
      modifies slots, this`complete
      ensures Ok() && slots[..] == old(slots[..])[i := NullSlot] && stale == old(stale)
      ensures forall f :: multiset(rest)[f] + Count(f) == old(Count(f)) + multiset(frag)[f]
      ensures forall f :: f in rest ==> f in frag || f in old(slots[i].head)
      ensures var merged := frag + old(slots[i].head);
              && |rest| <= |merged| && (|rest| == |merged| ==> complete == old(complete))
              && (Datagram(Sorted(merged)) ==> rest == [] && complete == old(complete) + [Sorted(merged)])
    {
      var merged := frag + slots[i].head;
      MergedTimes(frag, slots[i].head);
      Put(i, NullSlot);
      SortedSame(merged);
      hide Datagram, Sorted, SlotTimes, ListTimes, SlotOk;
      var sorted := SortFrags(merged);
      rest := HandOut(sorted);
    }

    /** One try to add fragments to their slot: when the sums do not reach the size, or nothing could be handed out before
        and nothing has come since, merges them; else takes everything out and hands out what is complete. */
    method TryInsert(i: nat, frag: seq<Frag>, now: nat, again: bool) returns (merged: bool, rest: seq<Frag>, nothing: bool)
      requires Ok() && i < ready && frag != [] && forall f :: f in frag ==> SlotIndex(f.hash, shift) == i
      modifies slots, this`complete
      ensures Ok() && forall j :: 0 <= j < slots.Length && j != i ==> slots[j] == old(slots[j])
      ensures forall f :: multiset(rest)[f] + Count(f) == old(Count(f)) + multiset(frag)[f]
      ensures var all := frag + old(slots[i].head);
              && merged == (Min(SizeMax, Octs(all)) < Tot(all) || (again && old(slots[i].head) == []))
              && if merged then slots[i].head == all && complete == old(complete) && rest == []
                 else
                   && slots[i].head == [] && (forall f :: f in rest ==> f in all) && |rest| <= |all|
                   && nothing == (|rest| == |all|)
                   && (Datagram(Sorted(all)) ==> rest == [] && complete == old(complete) + [Sorted(all)])
    {
      hide Datagram, Sorted, Octs, Tot, SlotIndex, SlotTimes, ListTimes;
      var acc, tot, earliest := Recompute(frag, now);
      var was := slots[i];
      SlotSums(was, i, shift);
      SumsAppend(frag, was.head);
      var acc' := Min(SizeMax, was.acc + acc);
      var tot' := Min(was.tot, tot);
      merged := acc' < tot' || (again && was.head == []);
      if merged {
        Store(i, frag, earliest);
        rest, nothing := [], false;
      } else {
        rest := TakeOut(i, frag);
        nothing := |rest| == |frag| + |was.head|;
      }
    }

    /** Puts back what is left, trying again as long as something is handed out. */
    method PutBack(i: nat, list: seq<Frag>, now: nat, nothing: bool)
      requires Ok() && i < ready && list != [] && slots[i].head == []
      requires forall f :: f in list ==> SlotIndex(f.hash, shift) == i
      modifies slots, this`complete
      ensures Ok() && forall j :: 0 <= j < slots.Length && j != i ==> slots[j] == old(slots[j])
      ensures forall f :: Count(f) == old(Count(f)) + multiset(list)[f]
      ensures forall f :: f in slots[i].head ==> f in list
    {
      hide Datagram, Sorted, Octs, Tot, SlotIndex, SlotTimes, ListTimes, SlotOk;
      var frag, again, merged := list, nothing, false;
      while !merged && frag != []
        invariant Ok() && i < ready && (!merged ==> slots[i].head == [])
        invariant forall j :: 0 <= j < slots.Length && j != i ==> slots[j] == old(slots[j])
        invariant forall f :: multiset(frag)[f] + Count(f) == old(Count(f)) + multiset(list)[f]
        invariant forall f :: f in frag || f in slots[i].head ==> f in list
        invariant merged ==> frag == []
        decreases |frag|, if again then 0 else 1
      {
        merged, frag, again := TryInsert(i, frag, now, again);
      }
    }

    /** Adds fragments to their slot. When the sums say so, takes everything out, hands out the complete datagrams and
        puts the rest back. */
    method InsertFrags(i: nat, list: seq<Frag>)
      requires Ok() && i < ready && list != [] && forall f :: f in list ==> SlotIndex(f.hash, shift) == i
      modifies slots, this`complete
      ensures Ok() && forall j :: 0 <= j < slots.Length && j != i ==> slots[j] == old(slots[j])
      ensures forall f :: Count(f) == old(Count(f)) + multiset(list)[f]
      ensures forall f :: f in slots[i].head ==> f in list || f in old(slots[i].head)
      ensures var all := list + old(slots[i].head);
              if Min(SizeMax, Octs(all)) < Tot(all) then slots[i].head == all && complete == old(complete)
              else Datagram(Sorted(all)) ==> slots[i].head == [] && complete == old(complete) + [Sorted(all)]
    {
      InSlot(slots[i], i, shift);
      hide Datagram, Sorted, Octs, Tot, SlotIndex, SlotTimes, ListTimes, SlotOk;
      var now := list[0].arrival;
      ghost var all := list + slots[i].head;
      assert forall f :: f in all ==> SlotIndex(f.hash, shift) == i;
      var merged, frag, again := TryInsert(i, list, now, false);
      if !merged && frag != [] {
        PutBack(i, frag, now, again);
      }
    }

    /** Inserts a list stretch by stretch of equal hashes. */
    method SplitAndInsert(list: seq<Frag>)
      requires Ok() && forall f :: f in list ==> SlotIndex(f.hash, shift) < ready
      modifies slots, this`complete
      ensures Ok() && forall f :: Count(f) == old(Count(f)) + multiset(list)[f]
      ensures forall i :: 0 <= i < slots.Length && (forall f :: f in list ==> SlotIndex(f.hash, shift) != i) ==>
                slots[i] == old(slots[i])
    {
      var k := 0;
      while k < |list|
        invariant 0 <= k <= |list| && Ok()
        invariant forall f :: Count(f) == old(Count(f)) + multiset(list[..k])[f]
        invariant forall i :: 0 <= i < slots.Length && (forall f :: f in list ==> SlotIndex(f.hash, shift) != i) ==>
                    slots[i] == old(slots[i])
      {
        var next := k + 1;
        while next < |list| && list[next].hash == list[k].hash
          invariant k < next <= |list| && forall j :: k <= j < next ==> list[j].hash == list[k].hash
        {
          next := next + 1;
        }
        assert list[..next] == list[..k] + list[k..next];
        InsertFrags(SlotIndex(list[k].hash, shift), list[k..next]);
        k := next;
      }
      assert list[..|list|] == list;
    }

    /** Inserts one fragment. For the fragments of one proper datagram, alone in their slot, the datagram is handed out
        exactly when the last of them comes, whatever their order. */
    method InsertFrag(f: Frag)
      requires Ok() && InUse()
      modifies slots, this`complete
      ensures Ok() && forall x :: Count(x) == old(Count(x)) + multiset([f])[x]
      ensures var i := SlotIndex(f.hash, shift);
              && i < slots.Length
              && var all := [f] + old(slots[i].head);
                 forall d :: Proper(d) && multiset(all) <= multiset(d) ==>
                   if |all| == |d| then slots[i].head == [] && complete == old(complete) + [d]
                   else slots[i].head == all && complete == old(complete)
    {
      var i := SlotIndex(f.hash, shift);
      IndexInTable(f.hash, shift);
      ghost var all := [f] + slots[i].head;
      forall d | Proper(d) && multiset(all) <= multiset(d)
        ensures (Min(SizeMax, Octs(all)) < Tot(all) <==> |all| != |d|) && (|all| == |d| ==> Sorted(all) == d)
        ensures Datagram(d)
      {
        LastOne(all, d);
      }
      hide Proper, Octs, Tot, Sorted, SlotIndex, SlotTimes, ListTimes, SlotOk, Datagram;
      OnlyOne(f, i, shift);
      InsertFrags(i, [f]);
    }

    /** Swaps in the null slot and parts what was there. */
    method PartSlot(i: nat, time: nat) returns (young: seq<Frag>, old': seq<Frag>)
      requires Ok() && i < ready
      modifies slots
      ensures Ok() && slots[i] == NullSlot && forall j :: 0 <= j < slots.Length && j != i ==> slots[j] == old(slots[j])
      ensures forall f :: Count(f) + multiset(young)[f] + multiset(old')[f] == old(Count(f))
      ensures forall f :: f in young ==> time <= f.arrival && SlotIndex(f.hash, shift) == i
      ensures AllBefore(old', time)
    {
      var was := slots[i];
      assert SlotOk(was, i, shift);
      Put(i, NullSlot);
      young, old' := FindStale(was.head, time);
    }

    /** Takes the stale fragments out of a slot and puts the others back. */
    method ExpireSlot(i: nat, time: nat)
      requires Ok() && i < ready
      modifies slots, this`complete, this`stale
      ensures Ok() && forall f :: Count(f) == old(Count(f))
      ensures forall j :: 0 <= j < slots.Length && j != i ==> slots[j] == old(slots[j])
      ensures forall f :: f in slots[i].head ==> time <= f.arrival
      ensures OnlyStaleAdded(old(stale), stale, time)
    {
      Fresh(slots[i], i, shift);
      hide SlotTimes, ListTimes, SlotOk, SlotIndex, Count, AllDatagrams, AllBefore;
      if slots[i].head != [] && slots[i].earliest < time {
        var young, old' := PartSlot(i, time);
        Rejoin(i, young);
        GiveStale(old', time);
      }
    }

    /** Puts back what is not stale. */
    method Rejoin(i: nat, young: seq<Frag>)
      requires Ok() && i < ready && slots[i].head == [] && forall f :: f in young ==> SlotIndex(f.hash, shift) == i
      modifies slots, this`complete
      ensures Ok() && forall f :: Count(f) == old(Count(f)) + multiset(young)[f]
      ensures forall j :: 0 <= j < slots.Length && j != i ==> slots[j] == old(slots[j])
      ensures forall f :: f in slots[i].head ==> f in young
    {
      hide SlotTimes, ListTimes, SlotOk, SlotIndex, Count, AllDatagrams, Sorted, Datagram, Octs, Tot;
      if young != [] {
        InsertFrags(i, young);
      }
    }

    method GiveStale(list: seq<Frag>, ghost time: nat)
      requires Ok() && AllBefore(list, time)
      modifies this`stale
      ensures Ok() && OnlyStaleAdded(old(stale), stale, time)
      ensures forall f :: Count(f) == old(Count(f)) + multiset(list)[f]
    {
      forall f ensures ListTimes(stale + [list], f) == ListTimes(stale, f) + multiset(list)[f] {
        ListNext(stale, list, f);
      }
      if list != [] {
        stale := stale + [list];
      }
    }

    /** Hands out as stale nothing that is not, and leaves nothing stale behind. */
    method Expire(time: nat)
      requires Ok() && InUse()
      modifies slots, this`complete, this`stale
      ensures Ok() && forall f :: Count(f) == old(Count(f))
      ensures forall i, f :: 0 <= i < slots.Length && f in slots[i].head ==> time <= f.arrival
      ensures OnlyStaleAdded(old(stale), stale, time)
    {
      hide SlotTimes, ListTimes, SlotOk, AllBefore;
      var i := slots.Length;
      while i > 0
        invariant 0 <= i <= slots.Length && Ok() && forall f :: Count(f) == old(Count(f))
        invariant forall j, f :: i <= j < slots.Length && f in slots[j].head ==> time <= f.arrival
        invariant OnlyStaleAdded(old(stale), stale, time)
      {
        i := i - 1;
        ExpireSlot(i, time);
      }
    }

    /** Clears the two slots of the new table that a slot of the old one becomes, which nothing has been put into before,
        and moves its fragments there, or hands them out. */
    method MigrateSlot(source: array<Slot>, i: nat)
      requires Ok() && source != slots && i < source.Length && ready == 2 * i && slots.Length == 2 * source.Length
      requires SlotOk(source[i], i, shift + 1)
      modifies slots, this`complete, this`ready
      ensures Ok() && ready == 2 * i + 2
      ensures forall f :: Count(f) == old(Count(f)) + multiset(source[i].head)[f]
      ensures forall j :: 0 <= j < slots.Length && j != 2 * i && j != 2 * i + 1 ==> slots[j] == old(slots[j])
    {
      hide Octs, Tot;
      ghost var was := slots[..];
      slots[2 * i], slots[2 * i + 1] := NullSlot, NullSlot;
      ready := 2 * i + 2;
      assert SlotOk(NullSlot, 2 * i, shift) && SlotOk(NullSlot, 2 * i + 1, shift) by { NullOk(shift); }
      assert slots[..2 * i] == was[..2 * i];
      forall f ensures SlotTimes(slots[..ready], f) == SlotTimes(was[..2 * i], f) {
        TwoEmpty(slots[..ready], f);
        assert slots[..ready][..2 * i] == slots[..2 * i];
      }
      forall f | f in source[i].head ensures SlotIndex(f.hash, shift) == 2 * i || SlotIndex(f.hash, shift) == 2 * i + 1 {
        IndexSplits(f.hash, shift + 1);
      }
      hide SlotTimes, ListTimes, SlotOk, SlotIndex;
      if source[i].head != [] {
        SplitAndInsert(source[i].head);
      }
    }

    /** Migrates every slot of the old table. */
    method MigrateAll(source: array<Slot>)
      requires Ok() && source != slots && ready == 0 && slots.Length == 2 * source.Length
      requires AllOk(source[..], shift + 1)
      modifies slots, this`complete, this`ready
      ensures Ok() && InUse() && forall f :: Count(f) == old(Count(f)) + SlotTimes(source[..], f)
    {
      hide SlotTimes, ListTimes, SlotOk, Count;
      ghost var was := source[..];
      NoSlots(was);
      for i := 0 to source.Length
        invariant Ok() && source[..] == was && ready == 2 * i
        invariant forall f :: Count(f) == old(Count(f)) + SlotTimes(was[..i], f)
      {
        NextSlot(was, i);
        SlotOfAll(was, i, shift + 1);
        MigrateSlot(source, i);
      }
      assert was[..source.Length] == was;
    }

    /** Doubles the table, slot by slot: every fragment moves to one of the two slots that its old one becomes, or is handed
        out. */
    method Extend() returns (ok: bool)
      requires Ok() && InUse() && shift != 1
      modifies this`slots, this`shift, this`complete, this`ready, slots
      ensures Ok() && InUse() && ok == (old(shift) != 0) && forall f :: Count(f) == old(Count(f))
      ensures ok ==> fresh(slots) && slots.Length == 2 * old(slots.Length) == Wrap(2 * old(slots.Length))
      ensures !ok ==> slots == old(slots) && slots[..] == old(slots[..]) && complete == old(complete)
    {
      if shift == 0 {
        return false;
      }
      var source := slots;
      assert AllOk(source[..], shift);
      assert source[..ready] == source[..];
      hide SlotTimes, ListTimes, SlotOk, AllOk, AllDatagrams;
      DoubledSizeIff(32 - shift);
      slots := new Slot[2 * source.Length];
      shift, ready := shift - 1, 0;
      NoSlots(slots[..]);
      MigrateAll(source);
      return true;
    }
  }

  ghost predicate AllOk(slots: seq<Slot>, shift: nat) { forall i :: 0 <= i < |slots| ==> SlotOk(slots[i], i, shift) }

  lemma SlotOfAll(slots: seq<Slot>, i: nat, shift: nat)
    requires AllOk(slots, shift) && i < |slots|
    ensures SlotOk(slots[i], i, shift)
  {
  }

  lemma NoSlots(slots: seq<Slot>)
    ensures forall f :: SlotTimes(slots[..0], f) == 0
  {
  }

  lemma SlotSums(s: Slot, i: nat, shift: nat)
    requires SlotOk(s, i, shift)
    ensures s.acc == Min(SizeMax, Octs(s.head)) && s.tot == Tot(s.head)
  {
  }

  lemma Fresh(s: Slot, i: nat, shift: nat)
    requires SlotOk(s, i, shift)
    ensures forall f :: f in s.head ==> s.earliest <= f.arrival
  {
  }

  lemma InSlot(s: Slot, i: nat, shift: nat)
    requires SlotOk(s, i, shift)
    ensures forall f :: f in s.head ==> SlotIndex(f.hash, shift) == i
  {
  }

  lemma NullOk(shift: nat)
    ensures forall i: nat :: SlotOk(NullSlot, i, shift)
  {
  }

  lemma TwoEmpty(slots: seq<Slot>, f: Frag)
    requires 2 <= |slots| && slots[|slots| - 1].head == [] && slots[|slots| - 2].head == []
    ensures SlotTimes(slots, f) == SlotTimes(slots[..|slots| - 2], f)
  {
    var n := |slots|;
    assert slots[..n - 1][..n - 2] == slots[..n - 2];
  }

  lemma NextSlot(slots: seq<Slot>, i: nat)
    requires i < |slots|
    ensures forall f :: SlotTimes(slots[..i + 1], f) == SlotTimes(slots[..i], f) + multiset(slots[i].head)[f]
  {
    assert slots[..i + 1][..i] == slots[..i];
  }

  lemma OnlyOne(f: Frag, i: nat, shift: nat)
    requires SlotIndex(f.hash, shift) == i
    ensures forall x :: x in [f] ==> SlotIndex(x.hash, shift) == i
  {
  }

  /** The sums of a slot reach the size exactly when the last fragment of a proper datagram is there, and then sorting
      gives the datagram. */
  lemma LastOne(all: seq<Frag>, d: seq<Frag>)
    requires Proper(d) && multiset(all) <= multiset(d)
    ensures Min(SizeMax, Octs(all)) < Tot(all) <==> |all| != |d|
    ensures |all| == |d| ==> Sorted(all) == d
    ensures Datagram(d)
  {
    CompleteIff(all, d);
    if |all| == |d| {
      Full(all, d);
      SortsToDatagram(all, d);
    }
  }

  lemma SortedSame(s: seq<Frag>)
    ensures forall f :: multiset(Sorted(s))[f] == multiset(s)[f]
    ensures forall f :: f in Sorted(s) <==> f in s
  {
    SortedIs(s);
    SameSize(Sorted(s), s);
  }

  lemma CutOut(s: seq<Frag>, h: nat, k: nat)
    requires h <= k < |s|
    ensures forall f :: multiset(s)[f] == multiset(s[..h] + s[k + 1..])[f] + multiset(s[h..k + 1])[f]
    ensures forall f :: f in s[..h] + s[k + 1..] ==> f in s
    ensures |s[..h] + s[k + 1..]| < |s|
    ensures h == 0 && k == |s| - 1 ==> s[h..k + 1] == s && s[..h] + s[k + 1..] == []
  {
    assert s == s[..h] + s[h..k + 1] + s[k + 1..];
  }

  lemma MergedTimes(a: seq<Frag>, b: seq<Frag>)
    ensures forall f :: multiset(a + b)[f] == multiset(a)[f] + multiset(b)[f]
  {
  }
}

/** Longest-prefix match over a history of insertions, and what inserting does to a trie that stands for one. */
module LongestPrefix {
  import opened Bits64
  import opened MbtrieSpec

  datatype Route = Route(pfx: nat, len: nat, elem: nat)

  predicate ValidRoute(r: Route, maxlen: nat) {
    r.pfx < Pow2(64) && r.len <= maxlen && r.len <= 64 && Aligned(r.pfx, r.len) && r.elem != 0
  }

  predicate ValidHistory(h: seq<Route>, maxlen: nat) {
    forall i :: 0 <= i < |h| ==> ValidRoute(h[i], maxlen)
  }

  predicate Covers(r: Route, key: nat)
    requires r.len <= 64
  {
    Matches(key, r.pfx, r.len)
  }

  /** Index of the route to use for a key, -1 when none covers it. */
  function Best(h: seq<Route>, key: nat): (b: int)
    requires forall i :: 0 <= i < |h| ==> h[i].len <= 64
    ensures -1 <= b < |h|
  {
    if h == [] then -1
    else
      var n := |h| - 1;
      var b := Best(h[..n], key);
      if Covers(h[n], key) && (b == -1 || h[b].len <= h[n].len) then n else b
  }

  /** The chosen route covers the key, no covering route is longer, and among the longest it is the latest. */
  lemma {:induction false} BestIsLongestLatest(h: seq<Route>, key: nat)
    requires forall i :: 0 <= i < |h| ==> h[i].len <= 64
    ensures var b := Best(h, key);
            && (b == -1 <==> forall i :: 0 <= i < |h| ==> !Covers(h[i], key))
            && (b != -1 ==> Covers(h[b], key) && forall i :: 0 <= i < |h| && Covers(h[i], key) ==>
                  h[i].len < h[b].len || (h[i].len == h[b].len && i <= b))
  {
    if h != [] {
      var n := |h| - 1;
      BestIsLongestLatest(h[..n], key);
      assert forall i :: 0 <= i < n ==> h[..n][i] == h[i];
      hide Covers;
    }
  }

  /** What a lookup should return: the best route's element, 0 when no route covers the key. */
  function Answer(h: seq<Route>, key: nat): nat
    requires forall i :: 0 <= i < |h| ==> h[i].len <= 64
  {
    var b := Best(h, key);
    if b == -1 then 0 else h[b].elem
  }

  /** The element of the latest route of length 0. */
  function DefaultOf(h: seq<Route>): nat {
    if h == [] then 0
    else if h[|h| - 1].len == 0 then h[|h| - 1].elem
    else DefaultOf(h[..|h| - 1])
  }

  /** The leaf word that a key selects after these insertions. */
  function LeafFor(h: seq<Route>, key: nat): Ptr
    requires forall i :: 0 <= i < |h| ==> h[i].len <= 64
  {
    var b := Best(h, key);
    if b == -1 || h[b].len == 0 then NULL else Leaf(h[b].elem, h[b].len - 1)
  }

  lemma {:induction false} DefaultIsBest(h: seq<Route>, key: nat, maxlen: nat)
    requires ValidHistory(h, maxlen) && key < Pow2(64)
    ensures var b := Best(h, key); b == -1 || h[b].len == 0 ==> Answer(h, key) == DefaultOf(h)
  {
    hide Matches, Aligned, Pow2;
    if h != [] {
      var n := |h| - 1;
      var b := Best(h[..n], key);
      assert b != -1 ==> h[..n][b] == h[b];
      DefaultIsBest(h[..n], key, maxlen);
      MatchesEmpty(key, h[n].pfx);
    }
  }

  /** The trie answers as the history of insertions demands. */
  ghost predicate Represents(slots: seq<Ptr>, defaultPfx: nat, strides: seq<nat>, h: seq<Route>) {
    && ValidStrides(strides) && WellFormed(slots, strides, 0)
    && ValidHistory(h, MaxLen(strides, 0))
    && defaultPfx == DefaultOf(h)
    && forall key :: 0 <= key < Pow2(64) ==> Fetch(slots, strides, 0, key) == LeafFor(h, key)
  }

  /** p64_mbtrie_lookup. */
  ghost function Lookup(slots: seq<Ptr>, defaultPfx: nat, strides: seq<nat>, key: nat): nat
    requires ValidStrides(strides) && WellFormed(slots, strides, 0)
  {
    var p := Fetch(slots, strides, 0, key);
    if p.elem == 0 then defaultPfx else p.elem
  }

  /** A trie that represents a history looks up the longest prefix, the latest among equals, for every key. */
  lemma LookupIsLongestPrefix(slots: seq<Ptr>, defaultPfx: nat, strides: seq<nat>, h: seq<Route>, key: nat)
    requires Represents(slots, defaultPfx, strides, h) && key < Pow2(64)
    ensures Lookup(slots, defaultPfx, strides, key) == Answer(h, key)
  {
    DefaultIsBest(h, key, MaxLen(strides, 0));
    assert Fetch(slots, strides, 0, key) == LeafFor(h, key);
    var b := Best(h, key);
    if b != -1 {
      assert ValidRoute(h[b], MaxLen(strides, 0));
    }
  }

  // ---------- insertion ----------

  /** The word an operation writes: the default element is represented by NULL, any other carries its length. */
  function NewWord(elem: nat, len: nat, defaultPfx: nat): Ptr
    requires len > 0
  {
    if elem == defaultPfx then NULL else Leaf(elem, len - 1)
  }

  lemma BestAppend(h: seq<Route>, r: Route, key: nat)
    requires r.len <= 64 && forall i :: 0 <= i < |h| ==> h[i].len <= 64
    ensures Best(h + [r], key)
         == if Covers(r, key) && (Best(h, key) == -1 || h[Best(h, key)].len <= r.len) then |h| else Best(h, key)
  {
    assert (h + [r])[..|h|] == h;
    hide Covers;
  }

  lemma LeafAppend(h: seq<Route>, r: Route, key: nat, maxlen: nat, cur: Ptr)
    requires ValidHistory(h, maxlen) && ValidRoute(r, maxlen) && r.len > 0 && cur == LeafFor(h, key)
    ensures ValidHistory(h + [r], maxlen)
    ensures LeafFor(h + [r], key)
         == if Matches(key, r.pfx, r.len) then Merge(cur, 0, Leaf(r.elem, r.len - 1), r.len) else cur
  {
    BestAppend(h, r, key);
    hide Matches, Aligned;
    var b := Best(h, key);
    if b != -1 {
      assert ValidRoute(h[b], maxlen);
    }
  }

  /** Inserting a proper prefix whose element is not the current default extends the history. */
  lemma InsertRepresents(slots: seq<Ptr>, defaultPfx: nat, strides: seq<nat>, h: seq<Route>, r: Route)
    requires Represents(slots, defaultPfx, strides, h)
    requires ValidRoute(r, MaxLen(strides, 0)) && r.len > 0 && r.elem != defaultPfx
    ensures Represents(UpdSlots(slots, strides, 0, r.pfx, r.len, Update(r.len, 0, NewWord(r.elem, r.len, defaultPfx))),
                       defaultPfx, strides, h + [r])
  {
    var u := Update(r.len, 0, NewWord(r.elem, r.len, defaultPfx));
    var slots' := UpdSlots(slots, strides, 0, r.pfx, r.len, u);
    SlotsWellFormed(slots, strides, 0, r.pfx, r.len, u);
    assert (h + [r])[..|h|] == h;
    assert ValidHistory(h + [r], MaxLen(strides, 0));
    hide Fetch, UpdSlots, LeafFor, Merge, Matches, WellFormed, Pow2;
    forall key | 0 <= key < Pow2(64) ensures Fetch(slots', strides, 0, key) == LeafFor(h + [r], key) {
      FetchUpdated(slots, strides, 0, r.pfx, r.len, u, key);
      LeafAppend(h, r, key, MaxLen(strides, 0), Fetch(slots, strides, 0, key));
    }
  }

  /** Replacing the default extends the history with a prefix of length 0. */
  lemma DefaultRepresents(slots: seq<Ptr>, defaultPfx: nat, strides: seq<nat>, h: seq<Route>, r: Route)
    requires Represents(slots, defaultPfx, strides, h)
    requires ValidRoute(r, MaxLen(strides, 0)) && r.len == 0
    ensures Represents(slots, r.elem, strides, h + [r])
  {
    assert (h + [r])[..|h|] == h;
    forall key | 0 <= key < Pow2(64) ensures Fetch(slots, strides, 0, key) == LeafFor(h + [r], key) {
      BestAppend(h, r, key);
      assert Best(h, key) != -1 ==> (h + [r])[Best(h, key)] == h[Best(h, key)];
    }
  }

  /** Inserting the current default element as a longer prefix changes no leaf. */
  lemma DefaultInsertIgnored(slots: seq<Ptr>, defaultPfx: nat, strides: seq<nat>, r: Route, key: nat)
    requires ValidStrides(strides) && WellFormed(slots, strides, 0) && key < Pow2(64)
    requires ValidRoute(r, MaxLen(strides, 0)) && r.len > 0 && r.elem == defaultPfx
    ensures var u := Update(r.len, 0, NewWord(r.elem, r.len, defaultPfx));
            var slots' := UpdSlots(slots, strides, 0, r.pfx, r.len, u);
            && WellFormed(slots', strides, 0)
            && Lookup(slots', defaultPfx, strides, key) == Lookup(slots, defaultPfx, strides, key)
  {
    var u := Update(r.len, 0, NewWord(r.elem, r.len, defaultPfx));
    hide UpdSlots, Fetch, Matches, WellFormed;
    FetchUpdated(slots, strides, 0, r.pfx, r.len, u, key);
  }

  predicate NotShadowed(h: seq<Route>, r: Route, key: nat)
    requires r.len <= 64 && forall i :: 0 <= i < |h| ==> h[i].len <= 64
  {
    Covers(r, key) ==> Answer(h, key) == r.elem || (Best(h, key) != -1 && r.len < h[Best(h, key)].len)
  }

  function InsertUpdate(r: Route, defaultPfx: nat): Update
    requires r.len > 0
  {
    Update(r.len, 0, NewWord(r.elem, r.len, defaultPfx))
  }

  lemma InsertedKey(slots: seq<Ptr>, defaultPfx: nat, strides: seq<nat>, h: seq<Route>, r: Route, key: nat)
    requires Represents(slots, defaultPfx, strides, h) && key < Pow2(64)
    requires ValidRoute(r, MaxLen(strides, 0)) && r.len > 0
    ensures var slots' := UpdSlots(slots, strides, 0, r.pfx, r.len, InsertUpdate(r, defaultPfx));
            && WellFormed(slots', strides, 0) && ValidHistory(h + [r], MaxLen(strides, 0))
            && (Lookup(slots', defaultPfx, strides, key) == Answer(h + [r], key)
                <==> r.elem != defaultPfx || NotShadowed(h, r, key))
  {
    hide UpdSlots, WellFormed, Pow2, Fetch, LeafFor, Aligned, MaxLen, ValidStrides;
    SlotsWellFormed(slots, strides, 0, r.pfx, r.len, InsertUpdate(r, defaultPfx));
    assert ValidHistory(h + [r], MaxLen(strides, 0));
    if r.elem != defaultPfx {
      InsertRepresents(slots, defaultPfx, strides, h, r);
      hide Represents, Lookup, Answer;
      LookupIsLongestPrefix(UpdSlots(slots, strides, 0, r.pfx, r.len, InsertUpdate(r, defaultPfx)), defaultPfx, strides,
                            h + [r], key);
    } else {
      DefaultInsertIgnored(slots, defaultPfx, strides, r, key);
      LookupIsLongestPrefix(slots, defaultPfx, strides, h, key);
      hide Represents, Lookup, Covers, ValidRoute;
      BestAppend(h, r, key);
      assert Best(h, key) != -1 ==> (h + [r])[Best(h, key)] == h[Best(h, key)];
    }
  }

  /** One insertion is answered as demanded for every key if and only if the element is not the current default, or no
      key under the prefix is answered by another element through a prefix that is not longer. */
  lemma InsertCorrectIff(slots: seq<Ptr>, defaultPfx: nat, strides: seq<nat>, h: seq<Route>, r: Route)
    requires Represents(slots, defaultPfx, strides, h)
    requires ValidRoute(r, MaxLen(strides, 0)) && r.len > 0
    ensures var slots' := UpdSlots(slots, strides, 0, r.pfx, r.len, InsertUpdate(r, defaultPfx));
            && WellFormed(slots', strides, 0) && ValidHistory(h + [r], MaxLen(strides, 0))
            && ((forall key :: 0 <= key < Pow2(64) ==> Lookup(slots', defaultPfx, strides, key) == Answer(h + [r], key))
                <==> r.elem != defaultPfx || forall key :: 0 <= key < Pow2(64) ==> NotShadowed(h, r, key))
  {
    hide UpdSlots, WellFormed, Pow2, Fetch, LeafFor, Lookup, Answer, NotShadowed, Aligned, MaxLen, ValidStrides, DefaultOf;
    var slots' := UpdSlots(slots, strides, 0, r.pfx, r.len, InsertUpdate(r, defaultPfx));
    InsertedKey(slots, defaultPfx, strides, h, r, 0);
    forall key | 0 <= key < Pow2(64)
      ensures Lookup(slots', defaultPfx, strides, key) == Answer(h + [r], key)
              <==> r.elem != defaultPfx || NotShadowed(h, r, key)
    {
      InsertedKey(slots, defaultPfx, strides, h, r, key);
    }
  }

  // ---------- every history ----------

  /** Inserting a history into an empty trie. */
  ghost function Filled(strides: seq<nat>, h: seq<Route>): (slots: seq<Ptr>)
    requires ValidStrides(strides) && ValidHistory(h, MaxLen(strides, 0))
    ensures WellFormed(slots, strides, 0)
  {
    if h == [] then seq(Pow2(strides[0]), _ => NULL)
    else
      var r := h[|h| - 1];
      var slots := Filled(strides, h[..|h| - 1]);
      if r.len == 0 then slots
      else
        var u := InsertUpdate(r, DefaultOf(h[..|h| - 1]));
        SlotsWellFormed(slots, strides, 0, r.pfx, r.len, u);
        UpdSlots(slots, strides, 0, r.pfx, r.len, u)
  }

  /** No insertion of the element that is the default at that moment. */
  predicate NeverDefault(h: seq<Route>) {
    forall i :: 0 <= i < |h| && h[i].len > 0 ==> h[i].elem != DefaultOf(h[..i])
  }

  lemma FilledStep(strides: seq<nat>, h: seq<Route>, r: Route)
    requires ValidStrides(strides) && ValidHistory(h, MaxLen(strides, 0)) && ValidRoute(r, MaxLen(strides, 0))
    ensures ValidHistory(h + [r], MaxLen(strides, 0))
    ensures Filled(strides, h + [r])
         == if r.len == 0 then Filled(strides, h)
            else UpdSlots(Filled(strides, h), strides, 0, r.pfx, r.len, InsertUpdate(r, DefaultOf(h)))
    ensures DefaultOf(h + [r]) == if r.len == 0 then r.elem else DefaultOf(h)
  {
    assert (h + [r])[..|h|] == h;
    hide UpdSlots, ValidRoute;
  }

  lemma {:induction false} FilledRepresents(strides: seq<nat>, h: seq<Route>)
    requires ValidStrides(strides) && ValidHistory(h, MaxLen(strides, 0)) && NeverDefault(h)
    ensures Represents(Filled(strides, h), DefaultOf(h), strides, h)
  {
    if h == [] {
      EmptyRepresents(strides);
    } else {
      var n := |h| - 1;
      var init, r := h[..n], h[n];
      assert forall i :: 0 <= i < n ==> init[..i] == h[..i] && init[i] == h[i];
      assert NeverDefault(init) && h == init + [r];
      assert ValidRoute(r, MaxLen(strides, 0));
      hide Represents, UpdSlots, ValidRoute, Filled, DefaultOf, MaxLen;
      FilledRepresents(strides, init);
      FilledStep(strides, init, r);
      if r.len == 0 {
        DefaultRepresents(Filled(strides, init), DefaultOf(init), strides, init, r);
      } else {
        InsertRepresents(Filled(strides, init), DefaultOf(init), strides, init, r);
      }
    }
  }

  /** After any sequence of insertions, never of the current default element, every lookup is a longest-prefix match. */
  lemma EveryHistory(strides: seq<nat>, h: seq<Route>, key: nat)
    requires ValidStrides(strides) && ValidHistory(h, MaxLen(strides, 0)) && NeverDefault(h) && key < Pow2(64)
    ensures Lookup(Filled(strides, h), DefaultOf(h), strides, key) == Answer(h, key)
  {
    hide Represents, Lookup, Answer, Filled, DefaultOf, MaxLen;
    FilledRepresents(strides, h);
    LookupIsLongestPrefix(Filled(strides, h), DefaultOf(h), strides, h, key);
  }

  lemma EmptyRepresents(strides: seq<nat>)
    requires ValidStrides(strides)
    ensures Represents(Filled(strides, []), 0, strides, [])
  {
    var slots := Filled(strides, []);
    forall key | 0 <= key < Pow2(64) ensures Fetch(slots, strides, 0, key) == LeafFor([], key) {
      hide Index, Shl;
      assert slots[Index(key, strides[0])] == NULL;
    }
  }

  lemma ZeroRoute(r: Route)
    requires r.pfx == 0 && r.len <= 8 && r.elem != 0
    ensures ValidRoute(r, 8) && Covers(r, 0)
  {
    hide Pow2;
  }

  lemma OneLevel(strides: seq<nat>)
    requires strides == [8]
    ensures ValidStrides(strides) && MaxLen(strides, 0) == 8
  {
    assert MaxLen(strides, 1) == 0;
  }

  /** The trie after an insertion. */
  ghost function Inserted(slots: seq<Ptr>, strides: seq<nat>, defaultPfx: nat, r: Route): (slots': seq<Ptr>)
    requires ValidStrides(strides) && WellFormed(slots, strides, 0) && ValidRoute(r, MaxLen(strides, 0)) && r.len > 0
  {
    hide Pow2;
    UpdSlots(slots, strides, 0, r.pfx, r.len, InsertUpdate(r, defaultPfx))
  }

  lemma ExampleValid(h: seq<Route>, n: nat)
    requires 0 < n <= 8 && h == [Route(0, 0, 1), Route(0, n, 2)]
    ensures ValidHistory(h, 8) && Covers(h[0], 0) && Covers(h[1], 0)
  {
    hide ValidRoute, Covers, Pow2, Aligned, Top;
    ZeroRoute(h[0]);
    ZeroRoute(h[1]);
  }

  lemma ExampleDefault(h: seq<Route>, n: nat)
    requires 0 < n <= 8 && h == [Route(0, 0, 1), Route(0, n, 2)]
    ensures NeverDefault(h) && DefaultOf(h) == 1
  {
    var first := h[..1];
    assert first == [h[0]];
    assert DefaultOf(first) == 1;
    assert DefaultOf(h) == 1;
    hide DefaultOf;
    forall i | 0 <= i < |h| && h[i].len > 0 ensures h[i].elem != DefaultOf(h[..i]) {
      assert i == 1;
    }
  }

  lemma ExampleBest(h: seq<Route>, r: Route)
    requires h == [Route(0, 0, 1), Route(0, 1, 2)] && r == Route(0, 2, 1)
    ensures Answer(h + [r], 0) == 1
  {
    hide Covers, ValidRoute, Pow2, Aligned, Top;
    ExampleValid(h, 1);
    ZeroRoute(r);
    var none, first: seq<Route> := [], [h[0]];
    assert first == none + [h[0]] && h == first + [h[1]];
    assert Best(none, 0) == -1;
    hide Best;
    BestAppend(none, h[0], 0);
    BestAppend(first, h[1], 0);
    BestAppend(h, r, 0);
  }

  /** The exception is real: with one level of 8 bits, a default 1, a route 2 of length 1 and then the default element
      inserted for the longer prefix of length 2, the lookup answers 2. */
  lemma InsertingDefaultFails(h: seq<Route>, r: Route, strides: seq<nat>) returns (slots: seq<Ptr>)
    requires h == [Route(0, 0, 1), Route(0, 1, 2)] && r == Route(0, 2, 1) && strides == [8]
    ensures ValidStrides(strides) && ValidHistory(h + [r], MaxLen(strides, 0)) && ValidRoute(r, MaxLen(strides, 0))
    ensures NeverDefault(h) && DefaultOf(h) == 1 && Represents(slots, 1, strides, h)
    ensures Answer(h + [r], 0) == 1
    ensures WellFormed(Inserted(slots, strides, 1, r), strides, 0)
    ensures Lookup(Inserted(slots, strides, 1, r), 1, strides, 0) == 2
  {
    hide Pow2, Covers, NeverDefault, DefaultOf, UpdSlots, Lookup, Best, Answer, ValidRoute, Aligned, Top, Represents;
    OneLevel(strides);
    ExampleValid(h, 1);
    ExampleDefault(h, 1);
    ExampleBest(h, r);
    ExampleAnswer(h, 1);
    ZeroRoute(r);
    FilledRepresents(strides, h);
    slots := Filled(strides, h);
    hide Filled;
    LookupIsLongestPrefix(slots, 1, strides, h, 0);
    ExampleIgnored(slots, strides, h, r);
  }

  lemma ExampleIgnored(slots: seq<Ptr>, strides: seq<nat>, h: seq<Route>, r: Route)
    requires Represents(slots, 1, strides, h) && r.elem == 1 && 0 < r.len && ValidRoute(r, MaxLen(strides, 0))
    ensures ValidStrides(strides) && WellFormed(slots, strides, 0)
    ensures WellFormed(Inserted(slots, strides, 1, r), strides, 0)
    ensures Lookup(Inserted(slots, strides, 1, r), 1, strides, 0) == Lookup(slots, 1, strides, 0)
  {
    hide Pow2, UpdSlots, Lookup, Aligned;
    DefaultInsertIgnored(slots, 1, strides, r, 0);
  }

  lemma ExampleAnswer(h: seq<Route>, n: nat)
    requires 0 < n <= 8 && h == [Route(0, 0, 1), Route(0, n, 2)]
    ensures Answer(h, 0) == 2
  {
    hide Covers, ValidRoute, Pow2, Aligned, Top;
    ExampleValid(h, n);
    var none, first: seq<Route> := [], [h[0]];
    assert first == none + [h[0]] && h == first + [h[1]];
    assert Best(none, 0) == -1;
    hide Best;
    BestAppend(none, h[0], 0);
    BestAppend(first, h[1], 0);
  }
}

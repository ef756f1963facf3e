/** What an insertion or a removal does to each lookup, of any trie. */
module TrieUpdate {
  import opened Bits64
  import opened MbtrieSpec
  import opened LongestPrefix

  /** The update that a removal of `old'` makes, with `neu` in its place or nothing; an insertion removes nothing. */
  function RemovalUpdate(len: nat, old': nat, neu: nat, defaultPfx: nat): Update
    requires len > 0
  {
    Update(len, old', NewWord(neu, len, defaultPfx))
  }

  /** One key, before and after. Outside the prefix nothing changes. Inside it, a key that named the removed element is
      answered by the replacement, or by the default when there is none. A key that named another element keeps its leaf
      when that is of a longer prefix, or when the replacement is the default, or when there is no replacement and the
      prefix has one bit; else it is answered by the replacement, or by the default when there is none. */
  ghost predicate KeyUpdated(slots: seq<Ptr>, slots': seq<Ptr>, strides: seq<nat>, defaultPfx: nat, pfx: nat, len: nat,
                             old': nat, neu: nat, key: nat)
    requires ValidStrides(strides) && WellFormed(slots, strides, 0) && WellFormed(slots', strides, 0)
    requires key < Pow2(64) && pfx < Pow2(64) && 0 < len <= 64
  {
    var leaf, leaf' := Fetch(slots, strides, 0, key), Fetch(slots', strides, 0, key);
    var answer := if neu == 0 then defaultPfx else neu;
    if !Matches(key, pfx, len) then leaf' == leaf
    else if leaf.elem == old' then Lookup(slots', defaultPfx, strides, key) == answer
    else if len < leaf.tag + 1 || neu == defaultPfx || (neu == 0 && len == 1) then leaf' == leaf
    else Lookup(slots', defaultPfx, strides, key) == answer
  }

  lemma UpdatedKey(slots: seq<Ptr>, strides: seq<nat>, defaultPfx: nat, pfx: nat, len: nat, old': nat, neu: nat, key: nat)
    requires ValidStrides(strides) && WellFormed(slots, strides, 0) && key < Pow2(64)
    requires pfx < Pow2(64) && 0 < len <= 64 && len <= MaxLen(strides, 0) && Aligned(pfx, len)
    ensures var slots' := UpdSlots(slots, strides, 0, pfx, len, RemovalUpdate(len, old', neu, defaultPfx));
            WellFormed(slots', strides, 0)
            && KeyUpdated(slots, slots', strides, defaultPfx, pfx, len, old', neu, key)
  {
    hide UpdSlots, Fetch, Matches, WellFormed, Aligned, Pow2, MaxLen;
    FetchUpdated(slots, strides, 0, pfx, len, RemovalUpdate(len, old', neu, defaultPfx), key);
  }

  /** Removing an element without a replacement should change the keys only that name it. For a key under the prefix that
      names another element it is so exactly when there is no default, or the prefix has one bit, or the key's own prefix
      is longer, or the default answers anyway. */
  lemma RemovalSparesIff(slots: seq<Ptr>, strides: seq<nat>, defaultPfx: nat, pfx: nat, len: nat, elem: nat, key: nat)
    requires ValidStrides(strides) && WellFormed(slots, strides, 0) && elem != 0
    requires pfx < Pow2(64) && 0 < len <= 64 && len <= MaxLen(strides, 0) && Aligned(pfx, len)
    requires key < Pow2(64) && Matches(key, pfx, len) && Fetch(slots, strides, 0, key).elem != elem
    ensures var slots' := UpdSlots(slots, strides, 0, pfx, len, RemovalUpdate(len, elem, 0, defaultPfx));
            && WellFormed(slots', strides, 0)
            && (Lookup(slots', defaultPfx, strides, key) == Lookup(slots, defaultPfx, strides, key)
                <==> defaultPfx == 0 || len == 1 || len < Fetch(slots, strides, 0, key).tag + 1
                     || Lookup(slots, defaultPfx, strides, key) == defaultPfx)
  {
    hide UpdSlots, Fetch, Matches, WellFormed, Aligned, Pow2, MaxLen;
    FetchUpdated(slots, strides, 0, pfx, len, RemovalUpdate(len, elem, 0, defaultPfx), key);
  }

  /** It is not always so: with one level of 8 bits, a default 1 and a route 2, removing the element 3, which was never
      inserted, under a prefix of more than one bit and no fewer than the route's takes the route from key 0. */
  lemma RemovalTakesOthers(h: seq<Route>, m: nat, n: nat, strides: seq<nat>) returns (slots: seq<Ptr>, slots': seq<Ptr>)
    requires 0 < m <= n <= 8 && 1 < n && h == [Route(0, 0, 1), Route(0, m, 2)] && strides == [8]
    ensures Represents(slots, 1, strides, h) && n <= MaxLen(strides, 0) && Aligned(0, n)
    ensures slots' == UpdSlots(slots, strides, 0, 0, n, RemovalUpdate(n, 3, 0, 1)) && WellFormed(slots', strides, 0)
    ensures Lookup(slots, 1, strides, 0) == 2 && Lookup(slots', 1, strides, 0) == 1
  {
    hide *;
    OneLevel(strides);
    ExampleValid(h, m);
    ExampleDefault(h, m);
    ExampleAnswer(h, m);
    ZeroPrefix(n);
    FilledRepresents(strides, h);
    slots := Filled(strides, h);
    LookupIsLongestPrefix(slots, 1, strides, h, 0);
    ShortTag(slots, strides, h, m);
    slots' := TakenAway(slots, strides, n);
  }

  lemma ZeroPrefix(n: nat)
    requires 0 < n <= 64
    ensures 0 < Pow2(64) && Aligned(0, n) && Matches(0, 0, n)
  {
    hide Pow2;
  }

  lemma ShortTag(slots: seq<Ptr>, strides: seq<nat>, h: seq<Route>, m: nat)
    requires Represents(slots, 1, strides, h) && 0 < Pow2(64) && Answer(h, 0) == 2
    requires 0 < m && h == [Route(0, 0, 1), Route(0, m, 2)]
    ensures ValidStrides(strides) && WellFormed(slots, strides, 0) && Fetch(slots, strides, 0, 0) == Leaf(2, m - 1)
  {
    hide Pow2, Fetch, WellFormed, ValidStrides, MaxLen;
    assert Fetch(slots, strides, 0, 0) == LeafFor(h, 0);
  }

  lemma TakenAway(slots: seq<Ptr>, strides: seq<nat>, n: nat) returns (slots': seq<Ptr>)
    requires ValidStrides(strides) && WellFormed(slots, strides, 0) && 0 < Pow2(64)
    requires 1 < n <= 64 && n <= MaxLen(strides, 0) && Aligned(0, n) && Matches(0, 0, n)
    requires Fetch(slots, strides, 0, 0).elem == 2 && Fetch(slots, strides, 0, 0).tag < n
    ensures slots' == UpdSlots(slots, strides, 0, 0, n, RemovalUpdate(n, 3, 0, 1)) && WellFormed(slots', strides, 0)
    ensures Lookup(slots', 1, strides, 0) == 1
  {
    hide Pow2, Aligned, Matches, UpdSlots, Fetch, WellFormed, MaxLen;
    UpdatedKey(slots, strides, 1, 0, n, 3, 0, 0);
    slots' := UpdSlots(slots, strides, 0, 0, n, RemovalUpdate(n, 3, 0, 1));
  }
}

/** The set-associative hash table, in place, used by one thread. Every link holds the next element and that element's
    hash, so an element's hash is in its predecessor; a bucket has four list heads, any of which may hold a first element,
    but only elements at home at a head are chained behind. */
module HashTable {
  import opened RingIndex

  const BktSize: nat := 4

  /** A link: next element, its hash, and the removal mark of the element that contains the link. */
  datatype Link = Link(hash: nat, next: Option<nat>, marked: bool)

  /** The link at the end of a chain. Inserting there expects exactly this value. */
  const End: Link := Link(0, None, false)

  function Bucket(hash: nat, nbkts: nat): (b: nat)
    requires 0 < nbkts
    ensures b < nbkts
  {
    hash / BktSize % nbkts
  }

  /** The list head an element is at home at. */
  function HomeHead(hash: nat, nbkts: nat): (h: nat)
    requires 0 < nbkts
    ensures h < BktSize * nbkts && h / BktSize == Bucket(hash, nbkts) && h % BktSize == hash % BktSize
  {
    BktSize * Bucket(hash, nbkts) + hash % BktSize
  }

  // ---------- the layout ----------

  ghost predicate LinkOk(link: Link, chain: seq<nat>, k: nat, hashes: seq<nat>) {
    if k < |chain| then chain[k] < |hashes| && link == Link(hashes[chain[k]], Some(chain[k]), false) else link == End
  }

  /** The elements chained from head h, through their links. */
  ghost predicate ChainOk(heads: seq<Link>, elems: seq<Link>, h: nat, chain: seq<nat>, hashes: seq<nat>)
    requires h < |heads|
  {
    && LinkOk(heads[h], chain, 0, hashes)
    && forall k :: 0 <= k < |chain| ==> chain[k] < |elems| && LinkOk(elems[chain[k]], chain, k + 1, hashes)
  }

  /** All of them are of the head's bucket, and all but the first are at home at the head. */
  ghost predicate HomeOk(h: nat, chain: seq<nat>, hashes: seq<nat>, nbkts: nat)
    requires 0 < nbkts
  {
    forall k :: 0 <= k < |chain| ==>
      && chain[k] < |hashes| && Bucket(hashes[chain[k]], nbkts) == h / BktSize
      && (0 < k ==> HomeHead(hashes[chain[k]], nbkts) == h)
  }

  ghost predicate InChain(chains: seq<seq<nat>>, h: nat, k: nat, id: nat) {
    h < |chains| && k < |chains[h]| && chains[h][k] == id
  }

  ghost predicate Stored(chains: seq<seq<nat>>, id: nat) { exists h: nat, k: nat :: InChain(chains, h, k, id) }

  /** No element is in two places. */
  ghost predicate OncePer(chains: seq<seq<nat>>) {
    forall h: nat, k: nat, h': nat, k': nat, id :: InChain(chains, h, k, id) && InChain(chains, h', k', id) ==>
      h == h' && k == k'
  }

  ghost predicate TableOk(heads: seq<Link>, elems: seq<Link>, chains: seq<seq<nat>>, hashes: seq<nat>, nbkts: nat) {
    && 0 < nbkts && |heads| == |chains| == BktSize * nbkts && |hashes| == |elems|
    && (forall h :: 0 <= h < |heads| ==> ChainOk(heads, elems, h, chains[h], hashes) && HomeOk(h, chains[h], hashes, nbkts))
    && OncePer(chains)
  }

  ghost predicate IsFirst(heads: seq<Link>, b: nat, i: nat, hash: nat, id: nat) {
    BktSize * b + i < |heads| && heads[BktSize * b + i] == Link(hash, Some(id), false)
  }

  ghost predicate NotFirst(heads: seq<Link>, b: nat, hash: nat, id: nat) {
    forall i :: 0 <= i < BktSize ==> !IsFirst(heads, b, i, hash, id)
  }

  /** Every stored element is findable: it is first at some head of its bucket, where the head has its hash, or it is
      chained at its home head. */
  lemma Findable(heads: seq<Link>, elems: seq<Link>, chains: seq<seq<nat>>, hashes: seq<nat>, nbkts: nat, id: nat)
    requires TableOk(heads, elems, chains, hashes, nbkts) && Stored(chains, id)
    ensures id < |hashes|
    ensures var b, home := Bucket(hashes[id], nbkts), HomeHead(hashes[id], nbkts);
            || (exists i :: 0 <= i < BktSize && IsFirst(heads, b, i, hashes[id], id))
            || id in chains[home]
  {
    var h: nat, k: nat :| InChain(chains, h, k, id);
    assert ChainOk(heads, elems, h, chains[h], hashes) && HomeOk(h, chains[h], hashes, nbkts);
    if k == 0 {
      var b, i := Bucket(hashes[id], nbkts), h % BktSize;
      assert h == BktSize * b + i;
      assert IsFirst(heads, b, i, hashes[id], id);
    }
  }

  /** One that is first at no head is chained at its home head. */
  lemma FoundAtHome(heads: seq<Link>, elems: seq<Link>, chains: seq<seq<nat>>, hashes: seq<nat>, nbkts: nat, id: nat)
    requires TableOk(heads, elems, chains, hashes, nbkts) && id < |hashes|
    ensures Stored(chains, id) && NotFirst(heads, Bucket(hashes[id], nbkts), hashes[id], id) ==>
              id in chains[HomeHead(hashes[id], nbkts)]
  {
    if Stored(chains, id) {
      Findable(heads, elems, chains, hashes, nbkts, id);
    }
  }

  /** Clearing a stored element's own link, which an insertion does before it can notice that the element is already there,
      is harmless exactly when the element is the last of its chain; otherwise what is chained behind it is cut off. */
  lemma ClearedLinkOk(heads: seq<Link>, elems: seq<Link>, chains: seq<seq<nat>>, hashes: seq<nat>, nbkts: nat,
                      h: nat, k: nat, id: nat)
    requires TableOk(heads, elems, chains, hashes, nbkts) && InChain(chains, h, k, id)
    ensures id < |elems|
    ensures TableOk(heads, elems[id := End], chains, hashes, nbkts) <==> k == |chains[h]| - 1
  {
    assert ChainOk(heads, elems, h, chains[h], hashes) && LinkOk(elems[chains[h][k]], chains[h], k + 1, hashes);
    hide OncePer, HomeOk;
    if k == |chains[h]| - 1 {
      assert elems[id := End] == elems;
    } else {
      assert !LinkOk(elems[id := End][chains[h][k]], chains[h], k + 1, hashes);
    }
  }

  // ---------- changes ----------

  /** Set the link that leads to position k of the chain of head h. */
  function SetHead(heads: seq<Link>, h: nat, k: nat, link: Link): (r: seq<Link>)
    requires h < |heads|
    ensures |r| == |heads|
  {
    if k == 0 then heads[h := link] else heads
  }

  function SetElem(elems: seq<Link>, chain: seq<nat>, k: nat, link: Link): (r: seq<Link>)
    requires k <= |chain| && (0 < k ==> chain[k - 1] < |elems|)
    ensures |r| == |elems|
  {
    if k == 0 then elems else elems[chain[k - 1] := link]
  }

  /** Linking a new element at the end of a chain. */
  lemma Appended(heads: seq<Link>, elems: seq<Link>, chains: seq<seq<nat>>, hashes: seq<nat>, nbkts: nat, h: nat, id: nat,
                 hash: nat)
    requires TableOk(heads, elems, chains, hashes, nbkts) && h < |heads| && id < |elems| && !Stored(chains, id)
    requires Bucket(hash, nbkts) == h / BktSize && (chains[h] != [] ==> HomeHead(hash, nbkts) == h)
    requires elems[id] == End
    ensures var n, link := |chains[h]|, Link(hash, Some(id), false);
            && (0 < n ==> chains[h][n - 1] < |elems|)
            && TableOk(SetHead(heads, h, n, link), SetElem(elems, chains[h], n, link), chains[h := chains[h] + [id]],
                       hashes[id := hash], nbkts)
    ensures forall x :: Stored(chains[h := chains[h] + [id]], x) <==> Stored(chains, x) || x == id
  {
    hide ChainOk, HomeOk, OncePer, Stored, SetElem, Bucket, HomeHead;
    assert ChainOk(heads, elems, h, chains[h], hashes);
    LastInTable(heads, elems, h, chains[h], hashes);
    var n, link := |chains[h]|, Link(hash, Some(id), false);
    var heads', elems' := SetHead(heads, h, n, link), SetElem(elems, chains[h], n, link);
    var chains', hashes' := chains[h := chains[h] + [id]], hashes[id := hash];
    forall g | 0 <= g < |heads'|
      ensures ChainOk(heads', elems', g, chains'[g], hashes') && HomeOk(g, chains'[g], hashes', nbkts)
    {
      AppendedChain(heads, elems, chains, hashes, nbkts, h, id, hash, g);
    }
    AppendedOnce(chains, h, id);
  }

  lemma LastInTable(heads: seq<Link>, elems: seq<Link>, h: nat, chain: seq<nat>, hashes: seq<nat>)
    requires h < |heads| && ChainOk(heads, elems, h, chain, hashes)
    ensures 0 < |chain| ==> chain[|chain| - 1] < |elems|
  {
  }

  /** Head g after the append at head h. */
  lemma AppendedChain(heads: seq<Link>, elems: seq<Link>, chains: seq<seq<nat>>, hashes: seq<nat>, nbkts: nat, h: nat, id: nat,
                      hash: nat, g: nat)
    requires TableOk(heads, elems, chains, hashes, nbkts) && h < |heads| && id < |elems| && !Stored(chains, id)
    requires Bucket(hash, nbkts) == h / BktSize && (chains[h] != [] ==> HomeHead(hash, nbkts) == h)
    requires elems[id] == End && g < |heads| && (0 < |chains[h]| ==> chains[h][|chains[h]| - 1] < |elems|)
    ensures var n, link := |chains[h]|, Link(hash, Some(id), false);
            var chains', hashes' := chains[h := chains[h] + [id]], hashes[id := hash];
            && ChainOk(SetHead(heads, h, n, link), SetElem(elems, chains[h], n, link), g, chains'[g], hashes')
            && HomeOk(g, chains'[g], hashes', nbkts)
  {
    hide ChainOk, HomeOk, OncePer, Stored, Bucket, HomeHead;
    assert ChainOk(heads, elems, g, chains[g], hashes) && HomeOk(g, chains[g], hashes, nbkts);
    NotChained(chains, g, id);
    if g == h {
      LastIsOnce(chains, h);
      ExtendedChain(heads, elems, h, chains[h], hashes, id, hash);
      ExtendedHome(h, chains[h], hashes, nbkts, id, hash);
    } else {
      var n, link := |chains[h]|, Link(hash, Some(id), false);
      if 0 < n {
        NotInOther(chains, g, h, n - 1);
      }
      OtherChain(heads, elems, SetHead(heads, h, n, link), SetElem(elems, chains[h], n, link), g, chains[g], hashes,
                 hashes[id := hash]);
      OtherHome(g, chains[g], hashes, hashes[id := hash], nbkts);
    }
  }

  lemma NotInOther(chains: seq<seq<nat>>, g: nat, h: nat, k: nat)
    requires OncePer(chains) && g < |chains| && h < |chains| && g != h && k < |chains[h]|
    ensures chains[h][k] !in chains[g]
  {
    forall j | 0 <= j < |chains[g]| ensures chains[g][j] != chains[h][k] {
      assert InChain(chains, g, j, chains[g][j]) && InChain(chains, h, k, chains[h][k]);
    }
  }

  lemma LastIsOnce(chains: seq<seq<nat>>, h: nat)
    requires OncePer(chains) && h < |chains|
    ensures forall k :: 0 <= k < |chains[h]| - 1 ==> chains[h][k] != chains[h][|chains[h]| - 1]
  {
    if chains[h] != [] {
      NotBefore(chains, h, |chains[h]| - 1);
    }
  }

  lemma ExtendedChain(heads: seq<Link>, elems: seq<Link>, h: nat, chain: seq<nat>, hashes: seq<nat>, id: nat, hash: nat)
    requires h < |heads| && ChainOk(heads, elems, h, chain, hashes) && id < |elems| == |hashes| && id !in chain
    requires elems[id] == End && forall k :: 0 <= k < |chain| - 1 ==> chain[k] != chain[|chain| - 1]
    ensures var n, link := |chain|, Link(hash, Some(id), false);
            && (0 < n ==> chain[n - 1] < |elems|)
            && ChainOk(SetHead(heads, h, n, link), SetElem(elems, chain, n, link), h, chain + [id], hashes[id := hash])
  {
    var n, link := |chain|, Link(hash, Some(id), false);
    var elems', chain', hashes' := SetElem(elems, chain, n, link), chain + [id], hashes[id := hash];
    forall k | 0 <= k < |chain'| ensures chain'[k] < |elems'| && LinkOk(elems'[chain'[k]], chain', k + 1, hashes') {
      if k < n {
        assert LinkOk(elems[chain[k]], chain, k + 1, hashes);
      }
    }
  }

  lemma ExtendedHome(h: nat, chain: seq<nat>, hashes: seq<nat>, nbkts: nat, id: nat, hash: nat)
    requires 0 < nbkts && HomeOk(h, chain, hashes, nbkts) && id < |hashes| && id !in chain
    requires Bucket(hash, nbkts) == h / BktSize && (chain != [] ==> HomeHead(hash, nbkts) == h)
    ensures HomeOk(h, chain + [id], hashes[id := hash], nbkts)
  {
    hide Bucket, HomeHead;
  }

  lemma OtherChain(heads: seq<Link>, elems: seq<Link>, heads': seq<Link>, elems': seq<Link>, g: nat, chain: seq<nat>,
                   hashes: seq<nat>, hashes': seq<nat>)
    requires g < |heads| == |heads'| && |elems'| == |elems| && |hashes'| == |hashes| && ChainOk(heads, elems, g, chain, hashes)
    requires heads'[g] == heads[g]
    requires forall j :: 0 <= j < |chain| && chain[j] < |elems| ==> elems'[chain[j]] == elems[chain[j]]
    requires forall j :: 0 <= j < |chain| && chain[j] < |hashes| ==> hashes'[chain[j]] == hashes[chain[j]]
    ensures ChainOk(heads', elems', g, chain, hashes')
  {
    forall k | 0 <= k < |chain| ensures chain[k] < |elems'| && LinkOk(elems'[chain[k]], chain, k + 1, hashes') {
      assert LinkOk(elems[chain[k]], chain, k + 1, hashes);
    }
  }

  lemma OtherHome(g: nat, chain: seq<nat>, hashes: seq<nat>, hashes': seq<nat>, nbkts: nat)
    requires 0 < nbkts && |hashes'| == |hashes| && HomeOk(g, chain, hashes, nbkts)
    requires forall j :: 0 <= j < |chain| && chain[j] < |hashes| ==> hashes'[chain[j]] == hashes[chain[j]]
    ensures HomeOk(g, chain, hashes', nbkts)
  {
    hide Bucket, HomeHead;
  }

  lemma AppendedOnce(chains: seq<seq<nat>>, h: nat, id: nat)
    requires OncePer(chains) && h < |chains| && !Stored(chains, id)
    ensures OncePer(chains[h := chains[h] + [id]])
    ensures forall x :: Stored(chains[h := chains[h] + [id]], x) <==> Stored(chains, x) || x == id
  {
    var chains' := chains[h := chains[h] + [id]];
    forall g: nat, k: nat, x | InChain(chains', g, k, x)
      ensures InChain(chains, g, k, x) || (g == h && k == |chains[h]| && x == id)
    {
    }
    forall g: nat, k: nat, x | InChain(chains, g, k, x) ensures InChain(chains', g, k, x) {
    }
    assert InChain(chains', h, |chains[h]|, id);
    hide InChain;
    forall x ensures Stored(chains', x) <==> Stored(chains, x) || x == id {
    }
  }

  /** Unlinking the element at position k of a chain, with its own link as it is. */
  lemma Unlinked(heads: seq<Link>, elems: seq<Link>, chains: seq<seq<nat>>, hashes: seq<nat>, nbkts: nat, h: nat, k: nat)
    requires TableOk(heads, elems, chains, hashes, nbkts) && h < |heads| && k < |chains[h]|
    ensures var chain := chains[h];
            && chain[k] < |elems| && !elems[chain[k]].marked && (0 < k ==> chain[k - 1] < |elems|)
            && var marked := elems[chain[k] := elems[chain[k]].(marked := true)];
               TableOk(SetHead(heads, h, k, elems[chain[k]]), SetElem(marked, chain, k, elems[chain[k]]),
                       chains[h := chain[..k] + chain[k + 1..]], hashes, nbkts)
    ensures forall x :: Stored(chains[h := chains[h][..k] + chains[h][k + 1..]], x) <==> Stored(chains, x) && x != chains[h][k]
  {
    var chain := chains[h];
    var id := chain[k];
    assert ChainOk(heads, elems, h, chain, hashes) && HomeOk(h, chain, hashes, nbkts);
    var marked := elems[id := elems[id].(marked := true)];
    var heads', elems' := SetHead(heads, h, k, elems[id]), SetElem(marked, chain, k, elems[id]);
    var chain' := chain[..k] + chain[k + 1..];
    var chains' := chains[h := chain'];
    hide Bucket, HomeHead;
    assert InChain(chains, h, k, id);
    assert 0 < k ==> InChain(chains, h, k - 1, chain[k - 1]);
    forall g, j | 0 <= g < |heads| && 0 <= j < |chains[g]| && !(g == h && (j == k || j == k - 1))
      ensures chains[g][j] != id && (0 < k ==> chains[g][j] != chain[k - 1])
    {
      assert InChain(chains, g, j, chains[g][j]);
    }
    forall g | 0 <= g < |heads'|
      ensures ChainOk(heads', elems', g, chains'[g], hashes) && HomeOk(g, chains'[g], hashes, nbkts)
    {
      assert ChainOk(heads, elems, g, chains[g], hashes) && HomeOk(g, chains[g], hashes, nbkts);
      if g == h {
        UnlinkedChain(heads, elems, heads', elems', h, chain, k, hashes);
        UnlinkedHome(h, chain, k, hashes, nbkts);
      } else {
        SameChain(heads, elems, heads', elems', g, chains[g], hashes);
      }
    }
    UnlinkedOnce(chains, h, k);
  }

  lemma SameChain(heads: seq<Link>, elems: seq<Link>, heads': seq<Link>, elems': seq<Link>, g: nat, chain: seq<nat>,
                  hashes: seq<nat>)
    requires g < |heads| == |heads'| && |elems'| == |elems| && ChainOk(heads, elems, g, chain, hashes)
    requires heads'[g] == heads[g] && forall j :: 0 <= j < |chain| ==> elems'[chain[j]] == elems[chain[j]]
    ensures ChainOk(heads', elems', g, chain, hashes)
  {
  }

  lemma UnlinkedHome(h: nat, chain: seq<nat>, k: nat, hashes: seq<nat>, nbkts: nat)
    requires 0 < nbkts && k < |chain| && HomeOk(h, chain, hashes, nbkts)
    ensures HomeOk(h, chain[..k] + chain[k + 1..], hashes, nbkts)
  {
    var chain' := chain[..k] + chain[k + 1..];
    forall j | 0 <= j < |chain'| ensures chain'[j] == chain[if j < k then j else j + 1] {
    }
  }

  lemma UnlinkedChain(heads: seq<Link>, elems: seq<Link>, heads': seq<Link>, elems': seq<Link>, h: nat, chain: seq<nat>,
                      k: nat, hashes: seq<nat>)
    requires h < |heads| == |heads'| && |elems'| == |elems| && k < |chain| && ChainOk(heads, elems, h, chain, hashes)
    requires forall j :: 0 <= j < |chain| && j != k && j != k - 1 ==> elems'[chain[j]] == elems[chain[j]]
    requires heads'[h] == (if k == 0 then elems[chain[k]] else heads[h])
    requires 0 < k ==> elems'[chain[k - 1]] == elems[chain[k]]
    ensures ChainOk(heads', elems', h, chain[..k] + chain[k + 1..], hashes)
  {
    hide LinkOk;
    var chain' := chain[..k] + chain[k + 1..];
    LinkShift(elems[chain[k]], chain, k, k + 1, hashes);
    if 0 < k {
      LinkShift(heads[h], chain, k, 0, hashes);
    }
    forall j | 0 <= j < |chain'| ensures chain'[j] < |elems'| && LinkOk(elems'[chain'[j]], chain', j + 1, hashes) {
      var i := if j < k then j else j + 1;
      assert chain'[j] == chain[i];
      if i + 1 != k {
        LinkShift(elems[chain[i]], chain, k, i + 1, hashes);
      }
    }
  }

  lemma LinkShift(link: Link, chain: seq<nat>, k: nat, p: nat, hashes: seq<nat>)
    requires k < |chain| && p != k && LinkOk(link, chain, p, hashes)
    ensures LinkOk(link, chain[..k] + chain[k + 1..], if p < k then p else p - 1, hashes)
  {
  }

  lemma UnlinkedOnce(chains: seq<seq<nat>>, h: nat, k: nat)
    requires OncePer(chains) && h < |chains| && k < |chains[h]|
    ensures OncePer(chains[h := chains[h][..k] + chains[h][k + 1..]])
    ensures forall x :: Stored(chains[h := chains[h][..k] + chains[h][k + 1..]], x) <==> Stored(chains, x) && x != chains[h][k]
  {
    var chains' := chains[h := chains[h][..k] + chains[h][k + 1..]];
    forall g: nat, j: nat, x | InChain(chains', g, j, x)
      ensures InChain(chains, g, if g == h && k <= j then j + 1 else j, x) && x != chains[h][k]
    {
      assert InChain(chains, g, if g == h && k <= j then j + 1 else j, x);
      assert InChain(chains, h, k, chains[h][k]);
    }
    forall x | Stored(chains, x) && x != chains[h][k] ensures Stored(chains', x) {
      var g: nat, j: nat :| InChain(chains, g, j, x);
      assert InChain(chains', g, if g == h && k < j then j - 1 else j, x);
    }
    forall g: nat, j: nat, g': nat, j': nat, x | InChain(chains', g, j, x) && InChain(chains', g', j', x)
      ensures g == g' && j == j'
    {
      assert InChain(chains, g, if g == h && k <= j then j + 1 else j, x);
      assert InChain(chains, g', if g' == h && k <= j' then j' + 1 else j', x);
    }
  }

  /** The link of an element that is not stored may be overwritten. */
  lemma FreeElem(heads: seq<Link>, elems: seq<Link>, chains: seq<seq<nat>>, hashes: seq<nat>, nbkts: nat, id: nat, link: Link)
    requires TableOk(heads, elems, chains, hashes, nbkts) && id < |elems| && !Stored(chains, id)
    ensures TableOk(heads, elems[id := link], chains, hashes, nbkts)
  {
    forall h | 0 <= h < |heads| ensures ChainOk(heads, elems[id := link], h, chains[h], hashes) {
      assert ChainOk(heads, elems, h, chains[h], hashes);
      forall k | 0 <= k < |chains[h]| ensures chains[h][k] != id {
        assert InChain(chains, h, k, chains[h][k]);
      }
    }
  }

  // ---------- inserting an element that is stored already ----------

  /** Where a link is: in a head or in an element. */
  datatype Place = Head(h: nat) | After(id: nat)

  predicate IsPlace(heads: seq<Link>, elems: seq<Link>, a: Place) {
    if a.Head? then a.h < |heads| else a.id < |elems|
  }

  function LinkAt(heads: seq<Link>, elems: seq<Link>, a: Place): Link
    requires IsPlace(heads, elems, a)
  {
    if a.Head? then heads[a.h] else elems[a.id]
  }

  /** A head or a stored element leads to this element. */
  ghost predicate LeadsTo(heads: seq<Link>, elems: seq<Link>, chains: seq<seq<nat>>, a: Place, id: nat) {
    && IsPlace(heads, elems, a) && LinkAt(heads, elems, a).next == Some(id) && (a.After? ==> Stored(chains, a.id))
  }

  /** The element that a link leads to is chained there. */
  lemma LeadsInto(heads: seq<Link>, elems: seq<Link>, chains: seq<seq<nat>>, hashes: seq<nat>, nbkts: nat, a: Place, id: nat)
    returns (h: nat, k: nat)
    requires TableOk(heads, elems, chains, hashes, nbkts) && LeadsTo(heads, elems, chains, a, id)
    ensures InChain(chains, h, k, id)
    ensures if a.Head? then h == a.h && k == 0 else 0 < k && InChain(chains, h, k - 1, a.id)
  {
    hide OncePer, HomeOk, Bucket, HomeHead;
    if a.Head? {
      h, k := a.h, 0;
      assert ChainOk(heads, elems, h, chains[h], hashes);
    } else {
      var g: nat, j: nat :| InChain(chains, g, j, a.id);
      h, k := g, j + 1;
      assert ChainOk(heads, elems, h, chains[h], hashes) && LinkOk(elems[chains[h][j]], chains[h], k, hashes);
    }
  }

  /** And something leads to every stored element. */
  lemma LedTo(heads: seq<Link>, elems: seq<Link>, chains: seq<seq<nat>>, hashes: seq<nat>, nbkts: nat, id: nat)
    returns (a: Place, h: nat, k: nat)
    requires TableOk(heads, elems, chains, hashes, nbkts) && Stored(chains, id)
    ensures LeadsTo(heads, elems, chains, a, id) && InChain(chains, h, k, id)
    ensures a == if k == 0 then Head(h) else After(chains[h][k - 1])
  {
    h, k :| InChain(chains, h, k, id);
    assert ChainOk(heads, elems, h, chains[h], hashes);
    if k == 0 {
      a := Head(h);
    } else {
      a := After(chains[h][k - 1]);
      assert LinkOk(elems[chains[h][k - 1]], chains[h], k, hashes) && InChain(chains, h, k - 1, chains[h][k - 1]);
    }
  }

  ghost predicate SameStored(chains: seq<seq<nat>>, chains': seq<seq<nat>>) {
    forall x :: Stored(chains, x) <==> Stored(chains', x)
  }

  /** The links are those of a table that holds the same elements. */
  ghost predicate Intact(heads: seq<Link>, elems: seq<Link>, chains: seq<seq<nat>>, nbkts: nat) {
    exists chains', hashes' :: TableOk(heads, elems, chains', hashes', nbkts) && SameStored(chains, chains')
  }

  /** Only one link leads to an element. */
  lemma OneWay(heads: seq<Link>, elems: seq<Link>, chains: seq<seq<nat>>, hashes: seq<nat>, nbkts: nat, a: Place, b: Place,
               id: nat)
    requires TableOk(heads, elems, chains, hashes, nbkts)
    requires LeadsTo(heads, elems, chains, a, id) && LeadsTo(heads, elems, chains, b, id)
    ensures a == b
  {
    hide TableOk, LeadsTo;
    var h, k := LeadsInto(heads, elems, chains, hashes, nbkts, a, id);
    var g, j := LeadsInto(heads, elems, chains, hashes, nbkts, b, id);
    InOnePlace(heads, elems, chains, hashes, nbkts, h, k, g, j, id);
  }

  lemma InOnePlace(heads: seq<Link>, elems: seq<Link>, chains: seq<seq<nat>>, hashes: seq<nat>, nbkts: nat,
                   h: nat, k: nat, g: nat, j: nat, id: nat)
    requires TableOk(heads, elems, chains, hashes, nbkts) && InChain(chains, h, k, id) && InChain(chains, g, j, id)
    ensures h == g && k == j
  {
  }

  lemma SameLeads(heads: seq<Link>, elems: seq<Link>, chains: seq<seq<nat>>, chains': seq<seq<nat>>, a: Place, id: nat)
    requires SameStored(chains, chains')
    ensures LeadsTo(heads, elems, chains, a, id) <==> LeadsTo(heads, elems, chains', a, id)
  {
    hide Stored;
  }

  /** Two links that lead to one element do not make a table. */
  lemma Twice(heads: seq<Link>, elems: seq<Link>, chains: seq<seq<nat>>, nbkts: nat, a: Place, b: Place, id: nat)
    requires a != b && LeadsTo(heads, elems, chains, a, id) && LeadsTo(heads, elems, chains, b, id)
    ensures !Intact(heads, elems, chains, nbkts)
  {
    hide TableOk, SameStored, LeadsTo;
    if chains', hashes' :| TableOk(heads, elems, chains', hashes', nbkts) && SameStored(chains, chains') {
      SameLeads(heads, elems, chains, chains', a, id);
      SameLeads(heads, elems, chains, chains', b, id);
      OneWay(heads, elems, chains', hashes', nbkts, a, b, id);
    }
  }

  /** Nor does a table lack a link to one of its elements. */
  lemma Orphan(heads: seq<Link>, elems: seq<Link>, chains: seq<seq<nat>>, nbkts: nat, id: nat)
    requires Stored(chains, id) && forall a :: !LeadsTo(heads, elems, chains, a, id)
    ensures !Intact(heads, elems, chains, nbkts)
  {
    hide TableOk, Stored, LeadsTo;
    if chains', hashes' :| TableOk(heads, elems, chains', hashes', nbkts) && SameStored(chains, chains') {
      var a, h, k := LedTo(heads, elems, chains', hashes', nbkts, id);
      SameLeads(heads, elems, chains, chains', a, id);
    }
  }

  /** Clearing the link of a stored element that is not the last of its chain leaves nothing that leads to what is behind. */
  lemma CutOff(heads: seq<Link>, elems: seq<Link>, chains: seq<seq<nat>>, hashes: seq<nat>, nbkts: nat, h: nat, k: nat, id: nat)
    requires TableOk(heads, elems, chains, hashes, nbkts) && InChain(chains, h, k, id) && k + 1 < |chains[h]| && id < |elems|
    ensures !Intact(heads, elems[id := End], chains, nbkts)
  {
    var x, elems' := chains[h][k + 1], elems[id := End];
    assert InChain(chains, h, k + 1, x);
    forall a: Place ensures !LeadsTo(heads, elems', chains, a, x) {
      if LeadsTo(heads, elems', chains, a, x) {
        NothingLeads(heads, elems, chains, hashes, nbkts, h, k, id, a);
      }
    }
    Orphan(heads, elems', chains, nbkts, x);
  }

  lemma NothingLeads(heads: seq<Link>, elems: seq<Link>, chains: seq<seq<nat>>, hashes: seq<nat>, nbkts: nat, h: nat, k: nat,
                     id: nat, a: Place)
    requires TableOk(heads, elems, chains, hashes, nbkts) && InChain(chains, h, k, id) && k + 1 < |chains[h]| && id < |elems|
    requires LeadsTo(heads, elems, chains, a, chains[h][k + 1])
    ensures a == After(id)
  {
    var x := chains[h][k + 1];
    assert InChain(chains, h, k + 1, x) && h < |chains| && chains[h][k] == id;
    hide *;
    var g, j := LeadsInto(heads, elems, chains, hashes, nbkts, a, x);
    InOnePlace(heads, elems, chains, hashes, nbkts, h, k + 1, g, j, x);
    if a.After? {
      Chained(chains, h, k, a.id);
    }
  }

  lemma Chained(chains: seq<seq<nat>>, h: nat, k: nat, id: nat)
    requires InChain(chains, h, k, id)
    ensures h < |chains| && k < |chains[h]| && chains[h][k] == id
  {
  }

  /** A second link to a stored element, from a head or element that was the end of a chain. */
  lemma LinkedTwice(heads: seq<Link>, elems: seq<Link>, heads': seq<Link>, elems': seq<Link>, chains: seq<seq<nat>>,
                    hashes: seq<nat>, nbkts: nat, a: Place, id: nat)
    requires TableOk(heads, elems, chains, hashes, nbkts) && Stored(chains, id)
    requires |heads'| == |heads| && |elems'| == |elems| && IsPlace(heads, elems, a)
    requires forall b :: IsPlace(heads, elems, b) && b != a && b != After(id) ==>
                           LinkAt(heads', elems', b) == LinkAt(heads, elems, b)
    requires LeadsTo(heads', elems', chains, a, id) && LinkAt(heads, elems, a).next != Some(id)
    ensures !Intact(heads', elems', chains, nbkts)
  {
    var b, h, k := LedTo(heads, elems, chains, hashes, nbkts, id);
    hide TableOk, Stored, InChain;
    if b == After(id) {
      NotBehindItself(heads, elems, chains, hashes, nbkts, h, k, id);
    }
    assert LinkAt(heads', elems', b) == LinkAt(heads, elems, b);
    Twice(heads', elems', chains, nbkts, a, b, id);
  }

  lemma NotBehindItself(heads: seq<Link>, elems: seq<Link>, chains: seq<seq<nat>>, hashes: seq<nat>, nbkts: nat,
                        h: nat, k: nat, id: nat)
    requires TableOk(heads, elems, chains, hashes, nbkts) && InChain(chains, h, k, id) && 0 < k
    ensures chains[h][k - 1] != id
  {
    assert InChain(chains, h, k - 1, chains[h][k - 1]);
  }

  /** An empty head takes a stored element a second time. */
  lemma InsertedInHead(heads: seq<Link>, elems: seq<Link>, chains: seq<seq<nat>>, hashes: seq<nat>, nbkts: nat, h: nat,
                       id: nat, link: Link)
    requires TableOk(heads, elems, chains, hashes, nbkts) && Stored(chains, id) && id < |elems|
    requires h < |heads| && heads[h].next.None? && link.next == Some(id)
    ensures !Intact(heads[h := link], elems[id := End], chains, nbkts)
  {
    hide TableOk, Stored;
    LinkedTwice(heads, elems, heads[h := link], elems[id := End], chains, hashes, nbkts, Head(h), id);
  }

  /** And so does the end of another chain. */
  lemma InsertedAtEnd(heads: seq<Link>, elems: seq<Link>, chains: seq<seq<nat>>, hashes: seq<nat>, nbkts: nat, h: nat,
                      id: nat, link: Link)
    requires TableOk(heads, elems, chains, hashes, nbkts) && Stored(chains, id) && id < |elems|
    requires h < |chains| && chains[h] != [] && id !in chains[h] && link.next == Some(id)
    ensures chains[h][|chains[h]| - 1] < |elems|
    ensures !Intact(heads, elems[id := End][chains[h][|chains[h]| - 1] := link], chains, nbkts)
  {
    var n := |chains[h]| - 1;
    var last := chains[h][n];
    assert ChainOk(heads, elems, h, chains[h], hashes) && LinkOk(elems[chains[h][n]], chains[h], n + 1, hashes);
    assert InChain(chains, h, n, last);
    hide TableOk, InChain;
    LinkedTwice(heads, elems, heads, elems[id := End][last := link], chains, hashes, nbkts, After(last), id);
  }

  /** No head of the bucket is empty, and the element is the last of the chain that is its home by the hash given. */
  ghost predicate Harmless(heads: seq<Link>, chains: seq<seq<nat>>, nbkts: nat, id: nat, hash: nat)
    requires 0 < nbkts && |heads| == |chains| == BktSize * nbkts
  {
    && BucketFull(heads, Bucket(hash, nbkts))
    && var chain := chains[HomeHead(hash, nbkts)];
       chain != [] && chain[|chain| - 1] == id
  }

  predicate BucketFull(heads: seq<Link>, b: nat)
    requires BktSize * b + BktSize <= |heads|
  {
    forall i :: 0 <= i < BktSize ==> Taken(heads, b, i)
  }

  predicate Taken(heads: seq<Link>, b: nat, i: nat)
    requires BktSize * b + i < |heads|
  {
    heads[BktSize * b + i].next.Some?
  }

  /** The way from a head once an element's own link has been cleared. */
  lemma ClearedWalk(heads: seq<Link>, elems: seq<Link>, chains: seq<seq<nat>>, hashes: seq<nat>, nbkts: nat, h: nat, id: nat)
    returns (walk: seq<nat>)
    requires TableOk(heads, elems, chains, hashes, nbkts) && h < |heads| && id < |elems|
    ensures walk <= chains[h] && ChainOk(heads, elems[id := End], h, walk, hashes)
    ensures if id in chains[h] then walk != [] && walk[|walk| - 1] == id && id !in walk[..|walk| - 1] else walk == chains[h]
  {
    var chain := chains[h];
    assert ChainOk(heads, elems, h, chain, hashes);
    assert OncePer(chains) && h < |chains|;
    hide TableOk, ChainOk, OncePer;
    if id in chain {
      var k: nat :| k < |chain| && chain[k] == id;
      walk := chain[..k + 1];
      NotBefore(chains, h, k);
      ClearedChain(heads, elems, h, chain, hashes, k);
    } else {
      walk := chain;
      OtherChain(heads, elems, heads, elems[id := End], h, chain, hashes, hashes);
    }
  }

  lemma NotBefore(chains: seq<seq<nat>>, h: nat, k: nat)
    requires OncePer(chains) && h < |chains| && k < |chains[h]|
    ensures forall j :: 0 <= j < k ==> chains[h][j] != chains[h][k]
  {
    forall j | 0 <= j < k ensures chains[h][j] != chains[h][k] {
      assert InChain(chains, h, j, chains[h][j]) && InChain(chains, h, k, chains[h][k]);
    }
  }

  lemma ClearedChain(heads: seq<Link>, elems: seq<Link>, h: nat, chain: seq<nat>, hashes: seq<nat>, k: nat)
    requires h < |heads| && ChainOk(heads, elems, h, chain, hashes) && k < |chain|
    requires forall j :: 0 <= j < k ==> chain[j] != chain[k]
    ensures chain[k] < |elems| && ChainOk(heads, elems[chain[k] := End], h, chain[..k + 1], hashes)
  {
    var walk, elems' := chain[..k + 1], elems[chain[k] := End];
    forall j | 0 <= j < |walk| ensures walk[j] < |elems'| && LinkOk(elems'[walk[j]], walk, j + 1, hashes) {
      assert LinkOk(elems[chain[j]], chain, j + 1, hashes);
    }
  }

  lemma EmptyHeads(heads: seq<Link>, elems: seq<Link>, chains: seq<seq<nat>>, hashes: seq<nat>, nbkts: nat)
    requires TableOk(heads, elems, chains, hashes, nbkts)
    ensures |heads| == |chains| && forall h :: 0 <= h < |heads| && heads[h].next.None? ==> heads[h] == End && chains[h] == []
  {
    forall h | 0 <= h < |heads| && heads[h].next.None? ensures heads[h] == End && chains[h] == [] {
      assert ChainOk(heads, elems, h, chains[h], hashes);
    }
  }

  lemma HomeTaken(heads: seq<Link>, elems: seq<Link>, chains: seq<seq<nat>>, hashes: seq<nat>, nbkts: nat, hash: nat)
    requires TableOk(heads, elems, chains, hashes, nbkts) && BucketFull(heads, Bucket(hash, nbkts))
    ensures chains[HomeHead(hash, nbkts)] != []
  {
    var home := HomeHead(hash, nbkts);
    assert home == BktSize * Bucket(hash, nbkts) + hash % BktSize && Taken(heads, Bucket(hash, nbkts), hash % BktSize);
    assert ChainOk(heads, elems, home, chains[home], hashes);
  }

  lemma NotChained(chains: seq<seq<nat>>, h: nat, id: nat)
    requires h < |chains| && !Stored(chains, id)
    ensures id !in chains[h]
  {
    if id in chains[h] {
      var k: nat :| k < |chains[h]| && chains[h][k] == id;
      IsStored(chains, h, k);
    }
  }

  lemma AbsentInserted(heads: seq<Link>, elems: seq<Link>, chains: seq<seq<nat>>, hashes: seq<nat>, nbkts: nat, h: nat,
                       id: nat, hash: nat)
    requires TableOk(heads, elems, chains, hashes, nbkts) && h < |heads| && id < |elems| && !Stored(chains, id)
    requires Bucket(hash, nbkts) == h / BktSize && (chains[h] != [] ==> HomeHead(hash, nbkts) == h)
    ensures var n, link := |chains[h]|, Link(hash, Some(id), false);
            && (0 < n ==> chains[h][n - 1] < |elems|)
            && TableOk(SetHead(heads, h, n, link), SetElem(elems[id := End], chains[h], n, link),
                       chains[h := chains[h] + [id]], hashes[id := hash], nbkts)
    ensures forall x :: Stored(chains[h := chains[h] + [id]], x) <==> Stored(chains, x) || x == id
  {
    hide TableOk, Stored;
    FreeElem(heads, elems, chains, hashes, nbkts, id, End);
    Sizes(heads, elems, chains, hashes, nbkts);
    Appended(heads, elems[id := End], chains, hashes, nbkts, h, id, hash);
  }

  /** What an insertion stores once the element's own link has been cleared: into an empty head of the bucket, or else at
      the end of the way from the home head, or nothing when the element is met there. */
  ghost predicate Stores(heads: seq<Link>, elems: seq<Link>, nbkts: nat, id: nat, hash: nat, i: nat, walk: seq<nat>,
                         heads': seq<Link>, elems': seq<Link>)
    requires 0 < nbkts && |heads| == BktSize * nbkts
  {
    var b, home, link := Bucket(hash, nbkts), HomeHead(hash, nbkts), Link(hash, Some(id), false);
    && (forall k :: 0 <= k < |walk| ==> walk[k] < |elems|)
    && if !BucketFull(heads, b) then
         i < BktSize && !Taken(heads, b, i) && heads' == heads[BktSize * b + i := link] && elems' == elems
       else if id in walk then heads' == heads && elems' == elems
       else heads' == SetHead(heads, home, |walk|, link) && elems' == SetElem(elems, walk, |walk|, link)
  }

  /** What an insertion has done to the links when the element was there. */
  lemma PresentInserted(heads: seq<Link>, elems: seq<Link>, chains: seq<seq<nat>>, hashes: seq<nat>, nbkts: nat,
                        id: nat, hash: nat, i: nat, walk: seq<nat>, heads': seq<Link>, elems': seq<Link>)
    requires TableOk(heads, elems, chains, hashes, nbkts) && Stored(chains, id) && id < |elems|
    requires var chain := chains[HomeHead(hash, nbkts)];
             if id in chain then walk != [] && walk[|walk| - 1] == id else walk == chain
    requires Stores(heads, elems[id := End], nbkts, id, hash, i, walk, heads', elems')
    ensures Intact(heads', elems', chains, nbkts) <==> Harmless(heads, chains, nbkts, id, hash)
    ensures Harmless(heads, chains, nbkts, id, hash) ==> id in walk && heads' == heads && elems' == elems
  {
    var b, home, link := Bucket(hash, nbkts), HomeHead(hash, nbkts), Link(hash, Some(id), false);
    Sizes(heads, elems, chains, hashes, nbkts);
    hide TableOk, Stored, Intact, Bucket, HomeHead;
    if !BucketFull(heads, b) {
      InsertedInHead(heads, elems, chains, hashes, nbkts, BktSize * b + i, id, link);
    } else {
      HomeTaken(heads, elems, chains, hashes, nbkts, hash);
      var chain := chains[home];
      if id in chain {
        var k: nat :| k < |chain| && chain[k] == id;
        MetAgain(heads, elems, chains, hashes, nbkts, home, k, id);
      } else {
        InsertedAtEnd(heads, elems, chains, hashes, nbkts, home, id, link);
      }
    }
  }

  /** The element of an insertion that was not there: it is in the table and nothing else has changed. */
  lemma AbsentStores(heads: seq<Link>, elems: seq<Link>, chains: seq<seq<nat>>, hashes: seq<nat>, nbkts: nat,
                     id: nat, hash: nat, i: nat, heads': seq<Link>, elems': seq<Link>) returns (h: nat)
    requires TableOk(heads, elems, chains, hashes, nbkts) && !Stored(chains, id) && id < |elems|
    requires Stores(heads, elems[id := End], nbkts, id, hash, i, chains[HomeHead(hash, nbkts)], heads', elems')
    ensures h < |chains| && TableOk(heads', elems', chains[h := chains[h] + [id]], hashes[id := hash], nbkts)
    ensures forall x :: Stored(chains[h := chains[h] + [id]], x) <==> Stored(chains, x) || x == id
  {
    var b, home := Bucket(hash, nbkts), HomeHead(hash, nbkts);
    Sizes(heads, elems, chains, hashes, nbkts);
    EmptyHeads(heads, elems, chains, hashes, nbkts);
    NotChained(chains, home, id);
    hide TableOk, Stored;
    h := if BucketFull(heads, b) then home else BktSize * b + i;
    AbsentInserted(heads, elems, chains, hashes, nbkts, h, id, hash);
  }

  /** An element met in its home chain: nothing is inserted, but its link has been cleared. */
  lemma MetAgain(heads: seq<Link>, elems: seq<Link>, chains: seq<seq<nat>>, hashes: seq<nat>, nbkts: nat, h: nat, k: nat, id: nat)
    requires TableOk(heads, elems, chains, hashes, nbkts) && h < |chains| && k < |chains[h]| && chains[h][k] == id && id < |elems|
    ensures Intact(heads, elems[id := End], chains, nbkts) <==> chains[h][|chains[h]| - 1] == id
    ensures chains[h][|chains[h]| - 1] == id ==> elems[id := End] == elems
  {
    var n := |chains[h]| - 1;
    assert InChain(chains, h, k, id) && InChain(chains, h, n, chains[h][n]);
    if k < n {
      CutOff(heads, elems, chains, hashes, nbkts, h, k, id);
    } else {
      assert ChainOk(heads, elems, h, chains[h], hashes) && LinkOk(elems[chains[h][k]], chains[h], k + 1, hashes);
      assert elems[id := End] == elems;
      hide TableOk;
      assert SameStored(chains, chains);
    }
  }

  // ---------- the table ----------

  class Table {
    const nbkts: nat
    const heads: array<Link>
    const elems: array<Link>
    const keys: seq<nat>
    ghost var chains: seq<seq<nat>>
    ghost var hashes: seq<nat>

    constructor (nbkts: nat, keys: seq<nat>)
      requires 0 < nbkts
      ensures Ok() && fresh(heads) && fresh(elems) && this.keys == keys && forall id :: !Contains(id)
    {
      this.nbkts, this.keys := nbkts, keys;
      heads := new Link[BktSize * nbkts](_ => End);
      elems := new Link[|keys|](_ => End);
      chains := seq(BktSize * nbkts, _ => []);
      hashes := seq(|keys|, _ => 0);
      new;
      forall h | 0 <= h < heads.Length
        ensures ChainOk(heads[..], elems[..], h, chains[h], hashes) && HomeOk(h, chains[h], hashes, nbkts)
      {
      }
    }

    ghost predicate Ok()
      reads this, heads, elems
    {
      heads != elems && |keys| == elems.Length && TableOk(heads[..], elems[..], chains, hashes, nbkts)
    }

    ghost predicate Contains(id: nat)
      reads this
    {
      Stored(chains, id)
    }

    /** The link that leads to position k of a chain: a head, or the one in the element before. */
    ghost predicate Leads(h: nat, k: nat, prnt: Option<nat>)
      reads this
    {
      && h < |chains| && k <= |chains[h]|
      && prnt == if k == 0 then None else Some(chains[h][k - 1])
    }

    method Read(h: nat, prnt: Option<nat>, ghost k: nat) returns (link: Link)
      requires Ok() && h < heads.Length && Leads(h, k, prnt)
      ensures LinkOk(link, chains[h], k, hashes)
      ensures if k < |chains[h]| then link.next == Some(chains[h][k]) && chains[h][k] < elems.Length else link == End
    {
      assert ChainOk(heads[..], elems[..], h, chains[h], hashes);
      if prnt.None? {
        link := heads[h];
        assert link == heads[..][h];
      } else {
        link := elems[prnt.value];
        assert link == elems[..][chains[h][k - 1]];
      }
    }

    /** The end of the way from a head. */
    ghost predicate AtEnd(h: nat, walk: seq<nat>, prnt: Option<nat>)
      reads this, heads, elems
    {
      && heads != elems && h < heads.Length && ChainOk(heads[..], elems[..], h, walk, hashes)
      && prnt == if walk == [] then None else Some(walk[|walk| - 1])
    }

    /** Swaps an element in for the end of the way from a head; the link there is what the compare-and-swap expects. */
    method InsertNode(h: nat, prnt: Option<nat>, id: nat, hash: nat, ghost walk: seq<nat>)
      requires AtEnd(h, walk, prnt)
      modifies heads, elems
      ensures var link := Link(hash, Some(id), false);
              && heads[..] == SetHead(old(heads[..]), h, |walk|, link)
              && (forall k :: 0 <= k < |walk| ==> walk[k] < elems.Length)
              && elems[..] == SetElem(old(elems[..]), walk, |walk|, link)
    {
      assert walk != [] ==> LinkOk(elems[..][walk[|walk| - 1]], walk, |walk|, hashes);
      var was := if prnt.None? then heads[h] else elems[prnt.value];
      assert was == End;
      ghost var hs, es := heads[..], elems[..];
      if prnt.None? {
        heads[h] := Link(hash, Some(id), false);
      } else {
        elems[prnt.value] := Link(hash, Some(id), false);
      }
      assert heads[..] == SetHead(hs, h, |walk|, Link(hash, Some(id), false));
      assert elems[..] == SetElem(es, walk, |walk|, Link(hash, Some(id), false));
    }

    /** The first empty head of a bucket takes the element, whether at home there or not. */
    method BucketInsert(b: nat, id: nat, hash: nat) returns (ok: bool, ghost i: nat)
      requires heads != elems && heads.Length == BktSize * nbkts && b < nbkts
      requires forall h :: 0 <= h < heads.Length && heads[h].next.None? ==> heads[h] == End
      modifies heads, elems
      ensures elems[..] == old(elems[..]) && ok == !BucketFull(old(heads[..]), b)
      ensures ok ==> i < BktSize && !Taken(old(heads[..]), b, i) && forall j :: 0 <= j < i ==> Taken(old(heads[..]), b, j)
      ensures heads[..] == if ok then old(heads[..])[BktSize * b + i := Link(hash, Some(id), false)] else old(heads[..])
    {
      var k := 0;
      i := 0;
      while k < BktSize
        invariant 0 <= k <= BktSize && heads[..] == old(heads[..]) && elems[..] == old(elems[..])
        invariant forall j :: 0 <= j < k ==> Taken(old(heads[..]), b, j)
      {
        assert heads[..][BktSize * b + k] == heads[BktSize * b + k];
        if heads[BktSize * b + k].next == None {
          assert !Taken(old(heads[..]), b, k);
          InsertNode(BktSize * b + k, None, id, hash, []);
          return true, k;
        }
        k := k + 1;
      }
      return false, 0;
    }

    /** Walks to the end of the home chain, which takes the element, unless it is met on the way. */
    method ListInsert(h: nat, id: nat, hash: nat, ghost walk: seq<nat>) returns (present: bool)
      requires heads != elems && h < heads.Length && ChainOk(heads[..], elems[..], h, walk, hashes)
      requires id in walk ==> walk[|walk| - 1] == id && id !in walk[..|walk| - 1]
      modifies heads, elems
      ensures present == (id in walk) && forall k :: 0 <= k < |walk| ==> walk[k] < elems.Length
      ensures var link := Link(hash, Some(id), false);
              && heads[..] == (if present then old(heads[..]) else SetHead(old(heads[..]), h, |walk|, link))
              && elems[..] == (if present then old(elems[..]) else SetElem(old(elems[..]), walk, |walk|, link))
    {
      hide LinkOk, SetHead, SetElem;
      ghost var k := 0;
      var prnt: Option<nat> := None;
      var link := ReadLink(h, prnt, walk, k);
      while link.next.Some?
        invariant k <= |walk| && prnt == (if k == 0 then None else Some(walk[k - 1])) && id !in walk[..k]
        invariant if k < |walk| then link.next == Some(walk[k]) else link == End
        invariant heads[..] == old(heads[..]) && elems[..] == old(elems[..])
        decreases |walk| - k
      {
        if link.next == Some(id) {
          return true;
        }
        SkipsOne(walk, k, id);
        prnt := link.next;
        k := k + 1;
        link := ReadLink(h, prnt, walk, k);
      }
      assert walk[..k] == walk;
      InsertNode(h, prnt, id, hash, walk);
      return false;
    }

    method ReadLink(h: nat, prnt: Option<nat>, ghost walk: seq<nat>, ghost k: nat) returns (link: Link)
      requires heads != elems && h < heads.Length && ChainOk(heads[..], elems[..], h, walk, hashes)
      requires k <= |walk| && prnt == if k == 0 then None else Some(walk[k - 1])
      ensures if k < |walk| then link.next == Some(walk[k]) && walk[k] < elems.Length else link == End
    {
      assert k > 0 ==> LinkOk(elems[..][walk[k - 1]], walk, k, hashes);
      link := if prnt.None? then heads[h] else elems[prnt.value];
    }

    /** Inserts at the first empty head of the bucket, or else at the end of the chain of the home head. The element's own
        link is cleared first. An element that is stored already is reported only when it is met in the home chain; the
        links stay those of a table of the same elements exactly when, besides, it is the last there. */
    method Insert(id: nat, hash: nat) returns (present: bool)
      requires Ok() && id < elems.Length
      modifies heads, elems, this`chains, this`hashes
      ensures !old(Contains(id)) ==> !present && Ok() && hashes == old(hashes)[id := hash]
                                     && forall x :: Contains(x) <==> old(Contains(x)) || x == id
      ensures old(Contains(id)) ==> chains == old(chains) && hashes == old(hashes)
      ensures old(Contains(id)) ==>
                (Intact(heads[..], elems[..], chains, nbkts) <==> old(Harmless(heads[..], chains, nbkts, id, hash)))
      ensures old(Contains(id)) && old(Harmless(heads[..], chains, nbkts, id, hash)) ==>
                present && heads[..] == old(heads[..]) && elems[..] == old(elems[..])
    {
      ghost var hs, es := heads[..], elems[..];
      Sizes(hs, es, chains, hashes, nbkts);
      EmptyHeads(hs, es, chains, hashes, nbkts);
      elems[id] := End;
      assert elems[..] == es[id := End];
      ghost var walk := ClearedWalk(hs, es, chains, hashes, nbkts, HomeHead(hash, nbkts), id);
      hide Bucket, HomeHead, TableOk, Stored, ChainOk, Stores, Intact, Harmless;
      ghost var i;
      present, i := StoreLink(id, hash, walk);
      if old(Contains(id)) {
        PresentInserted(hs, es, chains, hashes, nbkts, id, hash, i, walk, heads[..], elems[..]);
      } else {
        NotChained(chains, HomeHead(hash, nbkts), id);
        ghost var h := AbsentStores(hs, es, chains, hashes, nbkts, id, hash, i, heads[..], elems[..]);
        chains, hashes := chains[h := chains[h] + [id]], hashes[id := hash];
      }
    }

    method StoreLink(id: nat, hash: nat, ghost walk: seq<nat>) returns (present: bool, ghost i: nat)
      requires heads != elems && 0 < nbkts && heads.Length == BktSize * nbkts
      requires forall h :: 0 <= h < heads.Length && heads[h].next.None? ==> heads[h] == End
      requires ChainOk(heads[..], elems[..], HomeHead(hash, nbkts), walk, hashes)
      requires id in walk ==> walk[|walk| - 1] == id && id !in walk[..|walk| - 1]
      modifies heads, elems
      ensures Stores(old(heads[..]), old(elems[..]), nbkts, id, hash, i, walk, heads[..], elems[..])
      ensures present == (BucketFull(old(heads[..]), Bucket(hash, nbkts)) && id in walk)
    {
      assert forall k :: 0 <= k < |walk| ==> walk[k] < elems.Length;
      hide Bucket, HomeHead, ChainOk;
      var ok;
      ok, i := BucketInsert(Bucket(hash, nbkts), id, hash);
      if ok {
        present := false;
      } else {
        present := ListInsert(HomeHead(hash, nbkts), id, hash, walk);
      }
    }

    /** Marks an element and swings its predecessor's link past it, hash and all; the link is what the compare-and-swap
        expects. */
    method RemoveNode(h: nat, prnt: Option<nat>, id: nat, hash: nat, ghost k: nat)
      requires Ok() && h < heads.Length && Leads(h, k, prnt) && k < |chains[h]| && chains[h][k] == id && id < elems.Length
      requires id < |hashes| && hashes[id] == hash
      modifies heads, elems, this`chains
      ensures Ok() && forall x :: Contains(x) <==> old(Contains(x)) && x != id
    {
      var was := Read(h, prnt, k);
      assert was == Link(hash, Some(id), false);
      ghost var hs, es, chain := heads[..], elems[..], chains[h];
      Unlinked(hs, es, chains, hashes, nbkts, h, k);
      assert 0 < k ==> chain[k - 1] != id by {
        assert InChain(chains, h, k, id);
        if 0 < k {
          assert InChain(chains, h, k - 1, chain[k - 1]);
        }
      }
      elems[id] := elems[id].(marked := true);
      var link := elems[id].(marked := false);
      if prnt.None? {
        heads[h] := link;
      } else {
        elems[prnt.value] := link;
      }
      assert link == es[id];
      assert heads[..] == SetHead(hs, h, k, es[id]);
      assert elems[..] == SetElem(es[id := es[id].(marked := true)], chain, k, es[id]);
      chains := chains[h := chain[..k] + chain[k + 1..]];
    }

    /** Removes an element, given its hash, and fails only if it is not there. */
    method Remove(id: nat, hash: nat) returns (ok: bool)
      requires Ok() && id < elems.Length && hashes[id] == hash
      modifies heads, elems, this`chains
      ensures Ok() && ok == old(Contains(id)) && forall x :: Contains(x) <==> old(Contains(x)) && x != id
    {
      Sizes(heads[..], elems[..], chains, hashes, nbkts);
      FoundAtHome(heads[..], elems[..], chains, hashes, nbkts, id);
      hide Bucket, HomeHead, TableOk, Stored, NotFirst, ChainOk, LinkOk, OncePer;
      var b, home := Bucket(hash, nbkts), HomeHead(hash, nbkts);
      var found, i := FindHead(b, id, hash);
      if found {
        IsStored(chains, BktSize * b + i, 0);
        RemoveNode(BktSize * b + i, None, id, hash, 0);
        return true;
      }
      ok := RemoveFromList(home, id, hash);
    }

    /** Whether an element is the first at a head of its bucket. */
    method FindHead(b: nat, id: nat, hash: nat) returns (found: bool, i: nat)
      requires Ok() && b < nbkts
      ensures found ==> i < BktSize && Leads(BktSize * b + i, 0, None) && chains[BktSize * b + i] != []
      ensures found ==> chains[BktSize * b + i][0] == id
      ensures !found ==> NotFirst(heads[..], b, hash, id)
    {
      Sizes(heads[..], elems[..], chains, hashes, nbkts);
      hide TableOk, ChainOk, OncePer;
      i := 0;
      while i < BktSize
        invariant 0 <= i <= BktSize && forall j :: 0 <= j < i ==> !IsFirst(heads[..], b, j, hash, id)
      {
        var h := BktSize * b + i;
        var link := Read(h, None, 0);
        if link.next == Some(id) {
          return true, i;
        }
        HeadIs(heads[..], elems[..], chains, hashes, nbkts, h, link);
        assert !IsFirst(heads[..], b, i, hash, id);
        i := i + 1;
      }
      return false, 0;
    }

    method RemoveFromList(h: nat, id: nat, hash: nat) returns (ok: bool)
      requires Ok() && h < heads.Length && id < elems.Length && (Contains(id) ==> id in chains[h])
      requires id < |hashes| && hashes[id] == hash
      modifies heads, elems, this`chains
      ensures Ok() && ok == old(Contains(id)) && forall x :: Contains(x) <==> old(Contains(x)) && x != id
    {
      Sizes(heads[..], elems[..], chains, hashes, nbkts);
      hide TableOk, Stored;
      var found, prnt;
      ghost var k;
      found, prnt, k := Find(h, id);
      if !found {
        return false;
      }
      IsStored(chains, h, k);
      RemoveNode(h, prnt, id, hash, k);
      return true;
    }

    /** Walks a chain until the element that leads to the wanted one. */
    method Find(h: nat, id: nat) returns (found: bool, prnt: Option<nat>, ghost k: nat)
      requires Ok() && h < heads.Length
      ensures if found then Leads(h, k, prnt) && k < |chains[h]| && chains[h][k] == id else id !in chains[h]
    {
      Sizes(heads[..], elems[..], chains, hashes, nbkts);
      hide TableOk, Stored, LinkOk;
      prnt, k := None, 0;
      var link := Read(h, prnt, k);
      while link.next.Some? && link.next != Some(id)
        invariant Leads(h, k, prnt) && id !in chains[h][..k]
        invariant if k < |chains[h]| then link.next == Some(chains[h][k]) else link == End
        decreases |chains[h]| - k
      {
        SkipsOne(chains[h], k, id);
        prnt := link.next;
        k := k + 1;
        link := Read(h, prnt, k);
      }
      assert k == |chains[h]| ==> chains[h][..k] == chains[h];
      found := link.next.Some?;
    }

    // ---------- lookup ----------

    method ListLookup(h: nat, key: nat) returns (r: Option<nat>)
      requires Ok() && h < heads.Length
      ensures r.Some? ==> Contains(r.value) && r.value < |keys| && keys[r.value] == key
      ensures r.None? ==> Lacks(chains[h], keys, key)
    {
      Sizes(heads[..], elems[..], chains, hashes, nbkts);
      NothingLacks(chains[h][..0], keys, key);
      hide TableOk, Stored, Lacks, LinkOk;
      ghost var k := 0;
      r := None;
      var link := Read(h, None, k);
      while link.next.Some?
        invariant k <= |chains[h]| && Lacks(chains[h][..k], keys, key)
        invariant if k < |chains[h]| then link.next == Some(chains[h][k]) && chains[h][k] < |keys| else link == End
        decreases |chains[h]| - k
      {
        var id := link.next.value;
        if keys[id] == key {
          IsStored(chains, h, k);
          return Some(id);
        }
        LacksMore(chains[h], k, keys, key);
        k := k + 1;
        link := Read(h, Some(id), k);
      }
      assert chains[h][..k] == chains[h];
    }

    /** Finds an element with the key if one is stored under that key and hash, and never anything else. */
    method Lookup(key: nat, hash: nat) returns (r: Option<nat>)
      requires Ok()
      ensures r.Some? ==> Contains(r.value) && r.value < |keys| && keys[r.value] == key
      ensures r.None? ==> forall id: nat :: Contains(id) && id < |keys| && keys[id] == key ==> hashes[id] != hash
    {
      var b, home := Bucket(hash, nbkts), HomeHead(hash, nbkts);
      Sizes(heads[..], elems[..], chains, hashes, nbkts);
      hide Bucket, HomeHead, TableOk, Stored;
      var i := 0;
      while i < BktSize
        invariant 0 <= i <= BktSize
        invariant forall j, id: nat :: 0 <= j < i && id < |keys| && keys[id] == key ==> !IsFirst(heads[..], b, j, hash, id)
      {
        var h := BktSize * b + i;
        var link := Read(h, None, 0);
        if link.hash == hash && link.next.Some? && keys[link.next.value] == key {
          IsStored(chains, h, 0);
          return link.next;
        }
        HeadIs(heads[..], elems[..], chains, hashes, nbkts, h, link);
        i := i + 1;
      }
      r := ListLookup(home, key);
      if r.None? {
        forall id: nat | Contains(id) && id < |keys| && keys[id] == key ensures hashes[id] != hash {
          Findable(heads[..], elems[..], chains, hashes, nbkts, id);
        }
      }
    }
  }

  lemma SkipsOne(chain: seq<nat>, k: nat, id: nat)
    requires k < |chain| && id !in chain[..k] && chain[k] != id
    ensures id !in chain[..k + 1]
  {
    assert chain[..k + 1] == chain[..k] + [chain[k]];
  }

  ghost predicate Lacks(ids: seq<nat>, keys: seq<nat>, key: nat) {
    forall id :: id in ids && id < |keys| ==> keys[id] != key
  }

  lemma NothingLacks(ids: seq<nat>, keys: seq<nat>, key: nat)
    requires ids == []
    ensures Lacks(ids, keys, key)
  {
  }

  lemma LacksMore(ids: seq<nat>, k: nat, keys: seq<nat>, key: nat)
    requires k < |ids| && Lacks(ids[..k], keys, key) && (ids[k] < |keys| ==> keys[ids[k]] != key)
    ensures Lacks(ids[..k + 1], keys, key)
  {
    assert ids[..k + 1] == ids[..k] + [ids[k]];
  }

  lemma IsStored(chains: seq<seq<nat>>, h: nat, k: nat)
    requires h < |chains| && k < |chains[h]|
    ensures Stored(chains, chains[h][k])
  {
    assert InChain(chains, h, k, chains[h][k]);
  }

  lemma Sizes(heads: seq<Link>, elems: seq<Link>, chains: seq<seq<nat>>, hashes: seq<nat>, nbkts: nat)
    requires TableOk(heads, elems, chains, hashes, nbkts)
    ensures 0 < nbkts && |heads| == |chains| == BktSize * nbkts && |hashes| == |elems|
  {
  }

  /** A link is determined by its place in the chain. */
  lemma HeadIs(heads: seq<Link>, elems: seq<Link>, chains: seq<seq<nat>>, hashes: seq<nat>, nbkts: nat, h: nat, link: Link)
    requires TableOk(heads, elems, chains, hashes, nbkts) && h < |heads| && LinkOk(link, chains[h], 0, hashes)
    ensures heads[h] == link
  {
    assert ChainOk(heads, elems, h, chains[h], hashes);
  }
}

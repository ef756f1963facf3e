/** Building the descriptor of a multi-word compare-and-swap: entries are inserted in place in address order, and a
    repeated address is refused. */
module McasDescriptor {
  datatype Entry = Entry(loc: nat, exp: nat, neu: nat)

  predicate Ascending(es: seq<Entry>) {
    forall i, j :: 0 <= i < j < |es| ==> es[i].loc < es[j].loc
  }

  /** Insertion before the first larger address. */
  function Insert(es: seq<Entry>, e: Entry): seq<Entry> {
    if es == [] || e.loc < es[0].loc then [e] + es else [es[0]] + Insert(es[1..], e)
  }

  predicate HasLoc(es: seq<Entry>, loc: nat) {
    exists i :: 0 <= i < |es| && es[i].loc == loc
  }

  /** Where an entry is inserted: after all entries with smaller addresses, before all with larger ones. */
  predicate InsertPoint(es: seq<Entry>, e: Entry, k: nat) {
    && k <= |es|
    && (forall i :: 0 <= i < k ==> es[i].loc < e.loc)
    && (forall i :: k <= i < |es| ==> e.loc < es[i].loc)
  }

  lemma {:induction false} InsertAt(es: seq<Entry>, e: Entry, k: nat)
    requires InsertPoint(es, e, k)
    ensures Insert(es, e) == es[..k] + [e] + es[k..]
  {
    if k > 0 {
      assert InsertPoint(es[1..], e, k - 1);
      InsertAt(es[1..], e, k - 1);
      assert es[..k] == [es[0]] + es[1..][..k - 1];
      assert es[k..] == es[1..][k - 1..];
    } else {
      assert es[..k] + [e] + es[k..] == [e] + es;
      if es != [] {
        assert e.loc < es[0].loc;
      }
    }
  }

  lemma {:induction false} FindPoint(es: seq<Entry>, e: Entry) returns (k: nat)
    requires Ascending(es) && !HasLoc(es, e.loc)
    ensures InsertPoint(es, e, k)
  {
    k := |es|;
    while k > 0 && e.loc < es[k - 1].loc
      invariant k <= |es|
      invariant forall i :: k <= i < |es| ==> e.loc < es[i].loc
    {
      k := k - 1;
    }
  }

  /** Inserting a new address keeps the order and adds exactly that entry. */
  lemma {:induction false} InsertAscending(es: seq<Entry>, e: Entry)
    requires Ascending(es) && !HasLoc(es, e.loc)
    ensures Ascending(Insert(es, e))
    ensures multiset(Insert(es, e)) == multiset(es) + multiset{e}
  {
    var k := FindPoint(es, e);
    InsertAt(es, e, k);
    AscendingAround(es, e, k);
    assert es == es[..k] + es[k..];
  }

  lemma AscendingAround(es: seq<Entry>, e: Entry, k: nat)
    requires Ascending(es) && InsertPoint(es, e, k)
    ensures Ascending(es[..k] + [e] + es[k..])
  {
    var all := es[..k] + [e] + es[k..];
    forall i, j | 0 <= i < j < |all| ensures all[i].loc < all[j].loc {
      assert i < k ==> all[i] == es[i];
      assert j < k ==> all[j] == es[j];
      assert k < i ==> all[i] == es[i - 1];
      assert k < j ==> all[j] == es[j - 1];
    }
  }

  /** Moves the entries from i on one place up. */
  method MoveLater(ccas: array<Entry>, i: nat, n: nat)
    requires i <= n < ccas.Length
    modifies ccas
    ensures ccas[..i] == old(ccas[..i]) && ccas[i + 1..n + 1] == old(ccas[i..n])
    ensures forall k :: n < k < ccas.Length ==> ccas[k] == old(ccas[k])
  {
    var j := n;
    while j > i
      invariant i <= j <= n
      invariant forall k :: 0 <= k < j ==> ccas[k] == old(ccas[k])
      invariant forall k :: j < k <= n ==> ccas[k] == old(ccas[k - 1])
      invariant forall k :: n < k < ccas.Length ==> ccas[k] == old(ccas[k])
    {
      ccas[j] := ccas[j - 1];
      j := j - 1;
    }
  }

  method PlaceAt(ccas: array<Entry>, i: nat, n: nat, e: Entry)
    requires i <= n < ccas.Length
    modifies ccas
    ensures ccas[..n + 1] == old(ccas[..i]) + [e] + old(ccas[i..n])
  {
    MoveLater(ccas, i, n);
    ccas[i] := e;
    assert ccas[..n + 1] == ccas[..i] + [e] + ccas[i + 1..n + 1];
  }

  /** One insertion. On a repeated address the entries and their number are unchanged. */
  method InsertEntry(ccas: array<Entry>, n: nat, e: Entry) returns (ok: bool, n': nat)
    requires n < ccas.Length && Ascending(ccas[..n])
    modifies ccas
    ensures ok <==> !HasLoc(old(ccas[..n]), e.loc)
    ensures ok ==> n' == n + 1 && ccas[..n'] == Insert(old(ccas[..n]), e)
    ensures !ok ==> n' == n && ccas[..] == old(ccas[..])
  {
    ghost var es := ccas[..n];
    var i := 0;
    while i < n
      invariant 0 <= i <= n
      invariant forall k :: 0 <= k < i ==> es[k].loc < e.loc
      invariant ccas[..] == old(ccas[..]) && ccas[..n] == es
    {
      assert ccas[i] == es[i];
      if e.loc == ccas[i].loc {
        return false, n;
      }
      if e.loc < ccas[i].loc {
        break;
      }
      i := i + 1;
    }
    assert InsertPoint(es, e, i);
    InsertAt(es, e, i);
    hide Insert, HasLoc, Ascending, InsertPoint;
    assert ccas[..i] == es[..i] && ccas[i..n] == es[i..];
    PlaceAt(ccas, i, n, e);
    return true, n + 1;
  }

  /** The entries of a call, or nothing when an address repeats. */
  function Prepare(args: seq<Entry>): seq<Entry> {
    if args == [] then [] else Insert(Prepare(args[..|args| - 1]), args[|args| - 1])
  }

  predicate Distinct(args: seq<Entry>) {
    forall i, j :: 0 <= i < j < |args| ==> args[i].loc != args[j].loc
  }

  lemma PreparedLocs(args: seq<Entry>, es: seq<Entry>, loc: nat)
    requires multiset(es) == multiset(args)
    ensures HasLoc(es, loc) <==> HasLoc(args, loc)
  {
    if HasLoc(es, loc) {
      var i :| 0 <= i < |es| && es[i].loc == loc;
      assert es[i] in multiset(args);
    }
    if HasLoc(args, loc) {
      var i :| 0 <= i < |args| && args[i].loc == loc;
      assert args[i] in multiset(es);
    }
  }

  lemma NothingPrepared(args: seq<Entry>)
    requires args == []
    ensures Prepare(args) == [] && Distinct(args)
  {
  }

  lemma {:induction false} PrepareSorts(args: seq<Entry>)
    requires Distinct(args)
    ensures Ascending(Prepare(args)) && multiset(Prepare(args)) == multiset(args)
  {
    if args != [] {
      var n := |args| - 1;
      PrepareSorts(args[..n]);
      assert args == args[..n] + [args[n]];
      PreparedLocs(args[..n], Prepare(args[..n]), args[n].loc);
      InsertAscending(Prepare(args[..n]), args[n]);
    }
  }

  lemma DistinctNext(args: seq<Entry>, i: nat)
    requires i < |args| && Distinct(args[..i])
    ensures Distinct(args[..i + 1]) <==> !HasLoc(args[..i], args[i].loc)
    ensures Distinct(args) ==> Distinct(args[..i + 1])
  {
    var some := args[..i + 1];
    assert some[..i] == args[..i] && some[i] == args[i];
    forall a, b | 0 <= a < b < i ensures some[a].loc != some[b].loc {
      assert args[..i][a].loc != args[..i][b].loc;
    }
    if HasLoc(args[..i], args[i].loc) {
      var k :| 0 <= k < i && args[..i][k].loc == args[i].loc;
      assert some[k].loc == some[i].loc;
    } else {
      forall a | 0 <= a < i ensures some[a].loc != some[i].loc {
        assert args[..i][a].loc != args[i].loc;
      }
    }
  }

  /** Filling a descriptor from the arguments of a call: it succeeds exactly when no address repeats, and then the
      descriptor holds the arguments in strictly ascending address order. */
  method FillDescriptor(ccas: array<Entry>, args: seq<Entry>) returns (ok: bool)
    requires |args| <= ccas.Length
    modifies ccas
    ensures ok <==> Distinct(args)
    ensures ok ==> ccas[..|args|] == Prepare(args) && Ascending(ccas[..|args|])
    ensures ok ==> multiset(ccas[..|args|]) == multiset(args)
  {
    hide Insert, Ascending, Distinct;
    NothingPrepared(args[..0]);
    var nn := 0;
    for i := 0 to |args|
      invariant nn == i && Distinct(args[..i])
      invariant ccas[..nn] == Prepare(args[..i])
    {
      PrepareSorts(args[..i]);
      PreparedLocs(args[..i], ccas[..nn], args[i].loc);
      DistinctNext(args, i);
      assert args[..i + 1][..i] == args[..i];
      ok, nn := InsertEntry(ccas, nn, args[i]);
      if !ok {
        return false;
      }
    }
    assert args[..|args|] == args;
    PrepareSorts(args);
    ok := true;
  }
}

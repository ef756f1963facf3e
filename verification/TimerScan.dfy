/** Expiry by one thread on the array itself: the unrolled scan that runs into the zero sentinels behind the last timer
    does what a plain scan of the timers below the high-water mark would do. */
module TimerScan {
  import opened Timer

  datatype Call = Call(timer: nat, exp: Tick)

  // ---------- the plain scan ----------

  /** The call-backs for the first n timers, in array order. */
  function Calls(exps: seq<Tick>, now: Tick, n: nat): (r: seq<Call>)
    requires n <= |exps|
  {
    if n == 0 then []
    else Calls(exps, now, n - 1) + if exps[n - 1] <= now then [Call(n - 1, exps[n - 1])] else []
  }

  /** The earliest of the first n expirations that is not due. */
  function Lowest(exps: seq<Tick>, now: Tick, n: nat): (r: Tick)
    requires n <= |exps|
    ensures forall i :: 0 <= i < n && now < exps[i] ==> r <= exps[i]
    ensures r == Invalid || exists i :: 0 <= i < n && now < exps[i] && exps[i] == r
  {
    if n == 0 then Invalid
    else
      var rest := Lowest(exps, now, n - 1);
      if now < exps[n - 1] && exps[n - 1] < rest then exps[n - 1] else rest
  }

  /** Every due timer is called once, with its own expiration, and no other. */
  lemma {:induction false} CallsExactly(exps: seq<Tick>, now: Tick, n: nat, c: Call)
    requires n <= |exps|
    ensures c in Calls(exps, now, n) <==> c.timer < n && exps[c.timer] == c.exp <= now
    ensures multiset(Calls(exps, now, n))[c] <= 1
    decreases n
  {
    if n > 0 {
      CallsExactly(exps, now, n - 1, c);
    }
  }

  class Timers {
    var earliest: Tick
    var current: Tick
    var hiwmark: nat
    const expirations: array<Tick>
    var called: seq<Call>

    constructor (maxTimers: nat)
      ensures Valid() && fresh(expirations) && expirations.Length == maxTimers + 4
      ensures earliest == Invalid && current == 0 && hiwmark == 0 && called == []
    {
      earliest, current, hiwmark, called := Invalid, 0, 0, [];
      expirations := new Tick[maxTimers + 4](_ => 0);
    }

    /** Entries behind the high-water mark are zero, at least four of them: they stop the scan. */
    ghost predicate Sentinels()
      reads this, expirations
    {
      && hiwmark + 4 <= expirations.Length
      && forall k :: hiwmark <= k < expirations.Length ==> expirations[k] == 0
    }

    ghost predicate Valid()
      reads this, expirations
    {
      && Sentinels() && current != Invalid
      && forall i :: 0 <= i < hiwmark ==> earliest <= expirations[i]
    }

    /** Timers with an index below `upto` are expired, the others as before. */
    twostate predicate ExpiredUpto(now: Tick, upto: nat)
      reads this, expirations
    {
      && hiwmark == old(hiwmark)
      && forall k :: 0 <= k < expirations.Length ==>
           expirations[k] == if k < upto && k < hiwmark && old(expirations[k]) <= now then Invalid
                             else old(expirations[k])
    }

    method ExpireOne(now: Tick, i: nat)
      requires i < expirations.Length
      modifies expirations, this`called
      ensures old(expirations[i]) <= now ==>
                expirations[..] == old(expirations[..])[i := Invalid] && called == old(called) + [Call(i, old(expirations[i]))]
      ensures now < old(expirations[i]) ==> expirations[..] == old(expirations[..]) && called == old(called)
    {
      var exp := expirations[i];
      if !(exp <= now) {
        return;
      }
      expirations[i] := Invalid;
      called := called + [Call(i, exp)];
    }

    /** The first n timers have been scanned, starting from the expirations `was` and the calls `before`. */
    ghost predicate ScannedUpto(was: seq<Tick>, before: seq<Call>, now: Tick, low: Tick, n: nat)
      reads this, expirations
    {
      && Sentinels() && n <= hiwmark && expirations.Length == |was|
      && (forall k :: 0 <= k < |was| ==> expirations[k] == if k < n && was[k] <= now then Invalid else was[k])
      && low == Lowest(was, now, n) && called == before + Calls(was, now, n)
    }

    /** One of the four equal parts of the unrolled loop; w is what was read ahead. */
    method Visit(now: Tick, w: Tick, i: nat, low: Tick, ghost was: seq<Tick>, ghost before: seq<Call>)
      returns (lower: Tick, stop: bool)
      requires ScannedUpto(was, before, now, low, i) && w == was[i]
      modifies expirations, this`called
      ensures if stop then i == hiwmark && ScannedUpto(was, before, now, lower, hiwmark)
              else i < hiwmark && ScannedUpto(was, before, now, lower, i + 1)
    {
      lower, stop := low, false;
      if w <= now {
        if i >= hiwmark {
          stop := true;
          return;
        }
        ExpireOne(now, i);
        assert forall k :: 0 <= k < |was| && k != i ==> expirations[k] == old(expirations[..])[k];
      } else {
        lower := if w < low then w else low;
        assert expirations[i] == was[i] != 0;
      }
    }

    /** A pair of timers that was read ahead. */
    method VisitPair(now: Tick, w0: Tick, w1: Tick, i: nat, low: Tick, ghost was: seq<Tick>, ghost before: seq<Call>)
      returns (lower: Tick, stop: bool)
      requires ScannedUpto(was, before, now, low, i) && i + 1 < |was| && w0 == was[i] && w1 == was[i + 1]
      modifies expirations, this`called
      ensures if stop then ScannedUpto(was, before, now, lower, hiwmark)
              else i + 1 < hiwmark && ScannedUpto(was, before, now, lower, i + 2)
    {
      hide ScannedUpto;
      lower, stop := Visit(now, w0, i, low, was, before);
      if !stop {
        lower, stop := Visit(now, w1, i + 1, lower, was, before);
      }
    }

    /** Nothing behind the scan has changed. */
    lemma Ahead(was: seq<Tick>, before: seq<Call>, now: Tick, low: Tick, n: nat)
      requires ScannedUpto(was, before, now, low, n)
      ensures |was| == expirations.Length && n <= hiwmark && hiwmark + 4 <= |was|
      ensures forall k :: n <= k < |was| ==> expirations[k] == was[k]
    {
    }

    /** The unrolled loop never reads past the sentinels and stops at the first of them. */
    method ScanTimers(now: Tick) returns (low: Tick)
      requires Sentinels()
      modifies expirations, this`called
      ensures ScannedUpto(old(expirations[..]), old(called), now, low, hiwmark)
    {
      low := Invalid;
      ghost var was, before := expirations[..], called;
      assert ScannedUpto(was, before, now, low, 0);
      hide Calls, Lowest, ScannedUpto;
      hide Sentinels;
      Ahead(was, before, now, low, 0);
      var pair0, pair1 := expirations[0], expirations[1];
      var ptr := 2;
      while true
        invariant 2 <= ptr <= hiwmark + 2
        invariant ScannedUpto(was, before, now, low, ptr - 2)
        invariant ptr < |was| && pair0 == was[ptr - 2] && pair1 == was[ptr - 1]
        decreases hiwmark + 4 - ptr
      {
        var stop;
        Ahead(was, before, now, low, ptr - 2);
        var w0, w1 := pair0, pair1;
        pair0, pair1 := expirations[ptr], expirations[ptr + 1];
        ptr := ptr + 2;
        low, stop := VisitPair(now, w0, w1, ptr - 4, low, was, before);
        if stop { break; }
        Ahead(was, before, now, low, ptr - 2);
        w0, w1 := pair0, pair1;
        pair0, pair1 := expirations[ptr], expirations[ptr + 1];
        ptr := ptr + 2;
        low, stop := VisitPair(now, w0, w1, ptr - 4, low, was, before);
        if stop { break; }
      }
    }

    method UpdateEarliest(exp: Tick)
      modifies this`earliest
      ensures earliest == if exp < old(earliest) then exp else old(earliest)
    {
      if exp >= earliest {
        return;
      }
      earliest := exp;
    }

    /** With no other call in progress, expiring calls back exactly the timers that are due, deactivates them and leaves
        a valid hint. */
    method Expire()
      requires Valid()
      modifies expirations, this`earliest, this`called
      ensures Valid() && ExpiredUpto(current, hiwmark)
      ensures called == old(called) + Calls(old(expirations[..]), current, hiwmark)
    {
      var now := current;
      if earliest <= now {
        earliest := Invalid;
        var low := ScanTimers(now);
        UpdateEarliest(low);
      } else {
        NothingDue(expirations[..], now, hiwmark);
      }
    }
  }

  lemma {:induction false} NothingDue(exps: seq<Tick>, now: Tick, n: nat)
    requires n <= |exps| && forall i :: 0 <= i < n ==> now < exps[i]
    ensures Calls(exps, now, n) == []
  {
    if n > 0 {
      NothingDue(exps, now, n - 1);
    }
  }
}

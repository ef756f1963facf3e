/** Collection on a thread's own arrays: gathering the announced references of all threads, finding a pointer among them
    by halving, and compacting the retired objects in place. */
module HazardGc {
  import opened Division

  type Obj = nat

  const Null: Obj := 0

  // ---------- what is announced ----------

  /** Where the row of thread t starts: rows are `stride` apart. */
  function Start(t: nat, stride: nat): nat { t * stride }

  lemma NextStart(t: nat, stride: nat)
    ensures Start(t + 1, stride) == Start(t, stride) + stride
  {
  }

  lemma StartMonotone(t: nat, n: nat, stride: nat)
    requires t <= n
    ensures Start(t, stride) <= Start(n, stride)
  {
    ProductGap(stride, t, n);
  }

  /** Thread t announces o in one of its slots. */
  ghost predicate AnnouncedBy(hp: seq<Obj>, stride: nat, maxrefs: nat, t: nat, o: Obj) {
    exists k :: 0 <= k < |hp| && Start(t, stride) <= k < Start(t, stride) + maxrefs && hp[k] == o != Null
  }

  ghost predicate Announced(hp: seq<Obj>, stride: nat, maxrefs: nat, nthreads: nat, o: Obj) {
    exists t :: 0 <= t < nthreads && AnnouncedBy(hp, stride, maxrefs, t, o)
  }

  function NonNull(o: Obj): seq<Obj> { if o == Null then [] else [o] }

  /** The non-null entries among the first k of a row. */
  function Row(hp: seq<Obj>, base: nat, k: nat): (r: seq<Obj>)
    requires base + k <= |hp|
    ensures |r| <= k
  {
    if k == 0 then [] else Row(hp, base, k - 1) + NonNull(hp[base + k - 1])
  }

  /** The same of two rows, read side by side. */
  function Pair(hp: seq<Obj>, base0: nat, base1: nat, k: nat): (r: seq<Obj>)
    requires base0 + k <= |hp| && base1 + k <= |hp|
    ensures |r| <= 2 * k
  {
    if k == 0 then []
    else Pair(hp, base0, base1, k - 1) + NonNull(hp[base0 + k - 1]) + NonNull(hp[base1 + k - 1])
  }

  ghost predicate Laid(hp: seq<Obj>, stride: nat, maxrefs: nat, nthreads: nat) {
    maxrefs <= stride && Start(nthreads, stride) <= |hp|
  }

  /** The rows of fewer threads are laid out as well, and the first row left out fits behind them. */
  lemma LaidBelow(hp: seq<Obj>, stride: nat, maxrefs: nat, t: nat, nthreads: nat)
    requires Laid(hp, stride, maxrefs, nthreads) && t <= nthreads
    ensures Laid(hp, stride, maxrefs, t)
    ensures t < nthreads ==> Start(t, stride) + maxrefs <= |hp|
    ensures t < nthreads ==> Start(t, maxrefs) + maxrefs <= Start(nthreads, maxrefs)
  {
    StartMonotone(t, nthreads, stride);
    if t < nthreads {
      StartMonotone(t + 1, nthreads, stride);
      StartMonotone(t + 1, nthreads, maxrefs);
      NextStart(t, stride);
      NextStart(t, maxrefs);
    }
  }

  /** What the slots of the threads hold, read in pairs of rows and then the odd one. */
  function Rows(hp: seq<Obj>, stride: nat, maxrefs: nat, nthreads: nat): (r: seq<Obj>)
    requires Laid(hp, stride, maxrefs, nthreads)
    decreases nthreads
  {
    if nthreads == 0 then []
    else
      LaidBelow(hp, stride, maxrefs, nthreads - 1, nthreads);
      if nthreads % 2 == 1 then
        Rows(hp, stride, maxrefs, nthreads - 1) + Row(hp, Start(nthreads - 1, stride), maxrefs)
      else
        LaidBelow(hp, stride, maxrefs, nthreads - 2, nthreads);
        Rows(hp, stride, maxrefs, nthreads - 2)
          + Pair(hp, Start(nthreads - 2, stride), Start(nthreads - 1, stride), maxrefs)
  }

  ghost predicate InRow(hp: seq<Obj>, base: nat, k: nat, o: Obj) {
    exists j :: 0 <= j < |hp| && base <= j < base + k && hp[j] == o != Null
  }

  lemma InRowNext(hp: seq<Obj>, base: nat, k: nat, o: Obj)
    requires base + k < |hp|
    ensures InRow(hp, base, k + 1, o) <==> InRow(hp, base, k, o) || hp[base + k] == o != Null
  {
  }

  lemma {:induction false} RowHas(hp: seq<Obj>, base: nat, k: nat, o: Obj)
    requires base + k <= |hp|
    ensures o in Row(hp, base, k) <==> InRow(hp, base, k, o)
    decreases k
  {
    if k > 0 {
      RowHas(hp, base, k - 1, o);
      InRowNext(hp, base, k - 1, o);
    }
  }

  lemma InParts(a: seq<Obj>, b: seq<Obj>, c: seq<Obj>, o: Obj)
    ensures o in a + b + c <==> o in a || o in b || o in c
  {
  }

  lemma {:induction false} PairHas(hp: seq<Obj>, base0: nat, base1: nat, k: nat, o: Obj)
    requires base0 + k <= |hp| && base1 + k <= |hp|
    ensures o in Pair(hp, base0, base1, k) <==> InRow(hp, base0, k, o) || InRow(hp, base1, k, o)
    decreases k
  {
    if k > 0 {
      hide InRow;
      PairHas(hp, base0, base1, k - 1, o);
      InRowNext(hp, base0, k - 1, o);
      InRowNext(hp, base1, k - 1, o);
      InParts(Pair(hp, base0, base1, k - 1), NonNull(hp[base0 + k - 1]), NonNull(hp[base1 + k - 1]), o);
    }
  }

  /** Gathering the rows finds exactly what is announced. */
  lemma {:induction false} RowsHave(hp: seq<Obj>, stride: nat, maxrefs: nat, nthreads: nat, o: Obj)
    requires Laid(hp, stride, maxrefs, nthreads)
    ensures o in Rows(hp, stride, maxrefs, nthreads) <==> Announced(hp, stride, maxrefs, nthreads, o)
    decreases nthreads
  {
    hide Start, Laid, Row, Pair, InRow;
    if nthreads > 0 {
      var t := nthreads - 1;
      LaidBelow(hp, stride, maxrefs, t, nthreads);
      if nthreads % 2 == 1 {
        RowsHave(hp, stride, maxrefs, t, o);
        RowHas(hp, Start(t, stride), maxrefs, o);
        AnnouncedNext(hp, stride, maxrefs, t, o);
      } else {
        LaidBelow(hp, stride, maxrefs, t - 1, nthreads);
        RowsHave(hp, stride, maxrefs, t - 1, o);
        PairHas(hp, Start(t - 1, stride), Start(t, stride), maxrefs, o);
        AnnouncedNext(hp, stride, maxrefs, t, o);
        AnnouncedNext(hp, stride, maxrefs, t - 1, o);
      }
    }
  }

  lemma AnnouncedNext(hp: seq<Obj>, stride: nat, maxrefs: nat, t: nat, o: Obj)
    ensures Announced(hp, stride, maxrefs, t + 1, o) <==>
            Announced(hp, stride, maxrefs, t, o) || InRow(hp, Start(t, stride), maxrefs, o)
  {
    assert AnnouncedBy(hp, stride, maxrefs, t, o) <==> InRow(hp, Start(t, stride), maxrefs, o);
    hide AnnouncedBy, InRow;
  }

  // ---------- sorting ----------

  ghost predicate Ascending(s: seq<Obj>) { forall j, k :: 0 <= j < k < |s| ==> s[j] <= s[k] }

  function Insert(s: seq<Obj>, o: Obj): (r: seq<Obj>)
    ensures |r| == |s| + 1
  {
    if s == [] then [o] else if o <= s[0] then [o] + s else [s[0]] + Insert(s[1..], o)
  }

  lemma {:induction false} InsertHas(s: seq<Obj>, o: Obj, x: Obj)
    ensures x in Insert(s, o) <==> x in s || x == o
  {
    if s != [] && s[0] < o {
      InsertHas(s[1..], o, x);
      assert x in s <==> x == s[0] || x in s[1..];
    }
  }

  lemma {:induction false} InsertAscends(s: seq<Obj>, o: Obj)
    requires Ascending(s)
    ensures Ascending(Insert(s, o))
  {
    if s != [] && s[0] < o {
      InsertAscends(s[1..], o);
      var rest := Insert(s[1..], o);
      forall k | 0 <= k < |rest| ensures s[0] <= rest[k] {
        InsertHas(s[1..], o, rest[k]);
        assert rest[k] in rest;
      }
    }
  }

  function Sorted(s: seq<Obj>): (r: seq<Obj>)
    ensures |r| == |s|
  {
    if s == [] then [] else Insert(Sorted(s[1..]), s[0])
  }

  lemma {:induction false} SortedAscends(s: seq<Obj>)
    ensures Ascending(Sorted(s)) && forall x :: x in Sorted(s) <==> x in s
  {
    if s != [] {
      SortedAscends(s[1..]);
      InsertAscends(Sorted(s[1..]), s[0]);
      hide Ascending;
      forall x ensures x in Sorted(s) <==> x in s {
        InsertHas(Sorted(s[1..]), s[0], x);
      }
    }
  }

  /** The library's sort of the first n entries. */
  method Sort(a: array<Obj>, n: nat)
    requires n <= a.Length
    modifies a
    ensures a[..n] == Sorted(old(a[..n]))
  {
    var sorted := Sorted(a[..n]);
    for i := 0 to n
      invariant a[..i] == sorted[..i]
    {
      a[i] := sorted[i];
    }
  }

  // ---------- gathering ----------

  /** Appends a non-null reference. */
  method Add(refs: array<Obj>, n: nat, o: Obj) returns (n': nat)
    requires n < refs.Length
    modifies refs
    ensures n <= n' <= n + 1 <= refs.Length
    ensures refs[..n'] == old(refs[..n]) + NonNull(o)
  {
    n' := n;
    if o != Null {
      refs[n] := o;
      n' := n + 1;
      assert refs[..n'] == old(refs[..n]) + NonNull(o);
    }
  }

  /** Two rows at once. */
  method GatherPair(refs: array<Obj>, n0: nat, hp: array<Obj>, hp0: nat, hp1: nat, maxrefs: nat) returns (n: nat)
    requires hp != refs && hp0 + maxrefs <= hp.Length && hp1 + maxrefs <= hp.Length && n0 + 2 * maxrefs <= refs.Length
    modifies refs
    ensures n0 <= n <= n0 + 2 * maxrefs
    ensures refs[..n] == old(refs[..n0]) + Pair(hp[..], hp0, hp1, maxrefs)
  {
    hide NonNull;
    n := n0;
    for i := 0 to maxrefs
      invariant n0 <= n <= n0 + 2 * i && hp[..] == old(hp[..])
      invariant refs[..n] == old(refs[..n0]) + Pair(old(hp[..]), hp0, hp1, i)
    {
      n := Add(refs, n, hp[hp0 + i]);
      n := Add(refs, n, hp[hp1 + i]);
    }
  }

  /** The odd row. */
  method GatherOne(refs: array<Obj>, n0: nat, hp: array<Obj>, hp0: nat, maxrefs: nat) returns (n: nat)
    requires hp != refs && hp0 + maxrefs <= hp.Length && n0 + maxrefs <= refs.Length
    modifies refs
    ensures n0 <= n <= n0 + maxrefs
    ensures refs[..n] == old(refs[..n0]) + Row(hp[..], hp0, maxrefs)
  {
    n := n0;
    for i := 0 to maxrefs
      invariant n0 <= n <= n0 + i && hp[..] == old(hp[..])
      invariant refs[..n] == old(refs[..n0]) + Row(old(hp[..]), hp0, i)
    {
      n := Add(refs, n, hp[hp0 + i]);
    }
  }

  /** Two rows at a time, as long as there are two. */
  method CollectPairs(refs: array<Obj>, hp: array<Obj>, stride: nat, maxrefs: nat, nthreads: nat) returns (n: nat, t: nat)
    requires Laid(hp[..], stride, maxrefs, nthreads) && refs.Length == Start(nthreads, maxrefs) && refs != hp
    modifies refs
    ensures t % 2 == 0 && t <= nthreads <= t + 1 && Laid(hp[..], stride, maxrefs, t)
    ensures n <= Start(t, maxrefs) && n <= refs.Length && refs[..n] == Rows(hp[..], stride, maxrefs, t)
  {
    ghost var all := hp[..];
    n, t := 0, 0;
    LaidBelow(all, stride, maxrefs, 0, nthreads);
    hide Laid, Start, Row, Pair, Rows;
    NoRows(all, stride, maxrefs);
    while t + 1 < nthreads
      invariant t <= nthreads && n <= Start(t, maxrefs) && n <= refs.Length && hp[..] == all
      invariant t % 2 == 0 && Laid(all, stride, maxrefs, t) && refs[..n] == Rows(all, stride, maxrefs, t)
    {
      LaidBelow(all, stride, maxrefs, t, nthreads);
      LaidBelow(all, stride, maxrefs, t + 1, nthreads);
      LaidBelow(all, stride, maxrefs, t + 2, nthreads);
      NextStart(t, maxrefs);
      NextStart(t + 1, maxrefs);
      RowsNext(all, stride, maxrefs, t);
      n := GatherPair(refs, n, hp, Start(t, stride), Start(t + 1, stride), maxrefs);
      t := t + 2;
    }
  }

  lemma NoRows(hp: seq<Obj>, stride: nat, maxrefs: nat)
    requires Laid(hp, stride, maxrefs, 0)
    ensures Rows(hp, stride, maxrefs, 0) == []
  {
  }

  /** Two rows at a time, then the odd one, then sorted: every non-null slot of every thread is gathered. */
  method CollectRefs(refs: array<Obj>, hp: array<Obj>, stride: nat, maxrefs: nat, nthreads: nat) returns (n: nat)
    requires Laid(hp[..], stride, maxrefs, nthreads) && refs.Length == Start(nthreads, maxrefs) && refs != hp
    modifies refs
    ensures n <= refs.Length
    ensures refs[..n] == Sorted(Rows(hp[..], stride, maxrefs, nthreads))
  {
    hide Laid, Start, Row, Pair, Sorted, Rows;
    var t;
    n, t := CollectPairs(refs, hp, stride, maxrefs, nthreads);
    if t < nthreads {
      LaidBelow(hp[..], stride, maxrefs, t, nthreads);
      RowsLast(hp[..], stride, maxrefs, t);
      n := GatherOne(refs, n, hp, Start(t, stride), maxrefs);
    }
    if n >= 2 {
      Sort(refs, n);
    } else {
      Short(refs[..n]);
    }
  }

  lemma RowsNext(hp: seq<Obj>, stride: nat, maxrefs: nat, t: nat)
    requires Laid(hp, stride, maxrefs, t + 2) && t % 2 == 0
    ensures Laid(hp, stride, maxrefs, t)
    ensures Start(t, stride) + maxrefs <= |hp| && Start(t + 1, stride) + maxrefs <= |hp|
    ensures Rows(hp, stride, maxrefs, t + 2) ==
            Rows(hp, stride, maxrefs, t) + Pair(hp, Start(t, stride), Start(t + 1, stride), maxrefs)
  {
    hide Laid, Start;
    LaidBelow(hp, stride, maxrefs, t, t + 2);
    LaidBelow(hp, stride, maxrefs, t + 1, t + 2);
  }

  lemma RowsLast(hp: seq<Obj>, stride: nat, maxrefs: nat, t: nat)
    requires Laid(hp, stride, maxrefs, t + 1) && t % 2 == 0
    ensures Laid(hp, stride, maxrefs, t) && Start(t, stride) + maxrefs <= |hp|
    ensures Rows(hp, stride, maxrefs, t + 1) == Rows(hp, stride, maxrefs, t) + Row(hp, Start(t, stride), maxrefs)
  {
    hide Laid, Start, Row, Pair;
    assert (t + 1) % 2 == 1;
    LaidBelow(hp, stride, maxrefs, t, t + 1);
  }

  lemma Short(s: seq<Obj>)
    requires |s| < 2
    ensures Sorted(s) == s
  {
  }

  /** Binary search in the n entries from `from` on, which are s. */
  method FindPtr(refs: array<Obj>, from: nat, n: nat, ptr: Obj, ghost s: seq<Obj>) returns (found: bool)
    requires from + n <= refs.Length && s == refs[from..from + n] && Ascending(s)
    ensures found <==> ptr in s
    decreases n
  {
    if n == 0 {
      return false;
    }
    var half := n / 2;
    Halves(s, half, ptr);
    assert s[half] == refs[from + half];
    hide Ascending;
    if ptr < refs[from + half] {
      assert refs[from..from + half] == s[..half];
      found := FindPtr(refs, from, half, ptr, s[..half]);
    } else if ptr > refs[from + half] {
      assert refs[from + half + 1..from + n] == s[half + 1..];
      found := FindPtr(refs, from + half + 1, n - half - 1, ptr, s[half + 1..]);
    } else {
      found := true;
    }
  }

  /** What the middle of an ascending list tells. */
  lemma Halves(s: seq<Obj>, half: nat, ptr: Obj)
    requires Ascending(s) && half < |s|
    ensures Ascending(s[..half]) && Ascending(s[half + 1..])
    ensures ptr < s[half] ==> (ptr in s <==> ptr in s[..half])
    ensures ptr > s[half] ==> (ptr in s <==> ptr in s[half + 1..])
    ensures ptr == s[half] ==> ptr in s
  {
    assert s == s[..half] + [s[half]] + s[half + 1..];
  }

  // ---------- the retired objects ----------

  /** The objects of s that are in refs, and those that are not, in order. */
  function Held(s: seq<Obj>, refs: seq<Obj>): (r: seq<Obj>) {
    if s == [] then []
    else Held(s[..|s| - 1], refs) + if s[|s| - 1] in refs then [s[|s| - 1]] else []
  }

  function Unheld(s: seq<Obj>, refs: seq<Obj>): (r: seq<Obj>) {
    if s == [] then []
    else Unheld(s[..|s| - 1], refs) + if s[|s| - 1] in refs then [] else [s[|s| - 1]]
  }

  /** Each object goes one way, as often as it was retired. */
  lemma {:induction false} Parted(s: seq<Obj>, refs: seq<Obj>, o: Obj)
    ensures multiset(Held(s, refs))[o] == if o in refs then multiset(s)[o] else 0
    ensures multiset(Unheld(s, refs))[o] == if o in refs then 0 else multiset(s)[o]
    ensures |Held(s, refs)| + |Unheld(s, refs)| == |s|
  {
    if s != [] {
      assert s == s[..|s| - 1] + [s[|s| - 1]];
      Parted(s[..|s| - 1], refs, o);
    }
  }

  lemma PartNothing(s: seq<Obj>, refs: seq<Obj>)
    requires s == []
    ensures Held(s, refs) == Unheld(s, refs) == []
  {
  }

  lemma PartNext(s: seq<Obj>, i: nat, refs: seq<Obj>)
    requires i < |s|
    ensures Held(s[..i + 1], refs) == Held(s[..i], refs) + if s[i] in refs then [s[i]] else []
    ensures Unheld(s[..i + 1], refs) == Unheld(s[..i], refs) + if s[i] in refs then [] else [s[i]]
  {
    assert s[..i + 1][..i] == s[..i];
  }

  /** What a collection keeps is exactly what was retired and is announced by some thread; the rest is called back. */
  lemma KeptIffAnnounced(s: seq<Obj>, hp: seq<Obj>, stride: nat, maxrefs: nat, nthreads: nat, o: Obj)
    requires Laid(hp, stride, maxrefs, nthreads)
    ensures var refs := Rows(hp, stride, maxrefs, nthreads);
            && multiset(Held(s, refs))[o] == (if Announced(hp, stride, maxrefs, nthreads, o) then multiset(s)[o] else 0)
            && multiset(Unheld(s, refs))[o] == (if Announced(hp, stride, maxrefs, nthreads, o) then 0 else multiset(s)[o])
  {
    Parted(s, Rows(hp, stride, maxrefs, nthreads), o);
    RowsHave(hp, stride, maxrefs, nthreads, o);
  }

  class ThreadState {
    const objs: array<Obj>
    var nobjs: nat
    var called: seq<Obj>

    constructor (maxobjs: nat)
      ensures Valid() && fresh(objs) && objs.Length == maxobjs && nobjs == 0 && called == []
    {
      objs := new Obj[maxobjs](_ => Null);
      nobjs, called := 0, [];
    }

    ghost predicate Valid()
      reads this
    {
      nobjs <= objs.Length
    }

    ghost function Waiting(): seq<Obj>
      reads this, objs
      requires Valid()
    {
      objs[..nobjs]
    }

    /** Keeps, in order, exactly the retired objects that some thread announces and calls back all others, in order. */
    method GarbageCollect(hp: array<Obj>, stride: nat, maxrefs: nat, nthreads: nat) returns (n: nat)
      requires Valid() && hp != objs && Laid(hp[..], stride, maxrefs, nthreads)
      modifies this`nobjs, this`called, objs
      ensures Valid() && n == nobjs && n <= old(nobjs)
      ensures Waiting() == Held(old(Waiting()), Rows(hp[..], stride, maxrefs, nthreads))
      ensures called == old(called) + Unheld(old(Waiting()), Rows(hp[..], stride, maxrefs, nthreads))
    {
      hide Laid, Rows, Held, Unheld, Ascending, Sorted;
      var refs := new Obj[Start(nthreads, maxrefs)];
      var nrefs := CollectRefs(refs, hp, stride, maxrefs, nthreads);
      ghost var all, was := Rows(hp[..], stride, maxrefs, nthreads), Waiting();
      assert refs[0..nrefs] == refs[..nrefs];
      SortedAscends(all);
      PartNothing(was[..0], all);
      n := 0;
      for i := 0 to nobjs
        invariant n <= i && nobjs == old(nobjs)
        invariant objs[..n] == Held(was[..i], all) && objs[i..nobjs] == was[i..]
        invariant called == old(called) + Unheld(was[..i], all)
        invariant Ascending(refs[0..nrefs]) && forall x :: x in refs[0..nrefs] <==> x in all
      {
        var obj := objs[i];
        assert obj == was[i];
        PartNext(was, i, all);
        var found := FindPtr(refs, 0, nrefs, obj, refs[0..nrefs]);
        assert found <==> obj in all;
        if !found {
          called := called + [obj];
        } else {
          ghost var before := objs[..n];
          objs[n] := obj;
          n := n + 1;
          assert objs[..n] == before + [obj];
        }
        assert objs[i + 1..nobjs] == was[i + 1..];
      }
      assert was[..nobjs] == was;
      nobjs := n;
    }

    /** Retires an object; when there is no space even after a collection, nothing is added. */
    method Retire(ptr: Obj, hp: array<Obj>, stride: nat, maxrefs: nat, nthreads: nat) returns (ok: bool)
      requires Valid() && hp != objs && Laid(hp[..], stride, maxrefs, nthreads)
      modifies this`nobjs, this`called, objs
      ensures Valid()
      ensures var refs := Rows(hp[..], stride, maxrefs, nthreads);
              var rest := if old(nobjs) == objs.Length then Held(old(Waiting()), refs) else old(Waiting());
              && ok == (|rest| < objs.Length)
              && Waiting() == (if ok then rest + [ptr] else rest)
              && called == old(called) + if old(nobjs) == objs.Length then Unheld(old(Waiting()), refs) else []
    {
      if nobjs == objs.Length {
        var remaining := GarbageCollect(hp, stride, maxrefs, nthreads);
        if remaining == objs.Length {
          return false;
        }
      }
      ghost var rest := Waiting();
      objs[nobjs] := ptr;
      nobjs := nobjs + 1;
      assert Waiting() == rest + [ptr];
      return true;
    }
  }
}

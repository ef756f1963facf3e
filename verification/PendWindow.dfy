/** Out-of-order release of ring slots through a counter and a mask of pending slots, packed in one word. The word is at
    all times the one that stands for the set of released slots. */
module PendWindow {
  import opened Bits64
  import opened BitMask

  const PendMax: nat := 32

  /** The packed word: the counter, truncated to 32 bits, and the pending mask. */
  datatype Pair = Pair(cur: nat, pend: nat)

  /** `InOrder` tries to release at the counter, `Merge` works with the word it has last seen. */
  datatype Thread =
    | Idle
    | InOrder(idx: nat, n: nat)
    | Merge(idx: nat, n: nat, seen: Pair)
    | Released(idx: nat, n: nat)

  /** History: `given` are the slots handed to a release, `done` those released, `cur` the counter without truncation. */
  datatype State = State(word: Pair, threads: seq<Thread>, given: set<nat>, done: set<nat>, cur: nat)

  ghost predicate Init(s: State) {
    && s.word == Pair(0, 0) && s.given == s.done == {} && s.cur == 0
    && forall t :: 0 <= t < |s.threads| ==> s.threads[t].Idle?
  }

  // ---------- the steps ----------

  predicate NotBelow(idx: nat, p: nat) { idx <= p }

  function Range(idx: nat, n: nat): (r: set<nat>)
    ensures forall p :: p in r <==> idx <= p < idx + n
  {
    set p: nat | p < idx + n && NotBelow(idx, p)
  }

  /** What the merge computes: the new pending mask before the shift, and how many slots are now in order. */
  function NewPend(seen: Pair, idx: nat, n: nat): nat {
    Or(seen.pend, ShiftLeft(Ones(n), Wrap(idx - seen.cur)))
  }

  function InOrderCount(newpend: nat): nat
    requires newpend < Pow2(64) && 0 < Not(newpend, 64)
  {
    Ctz(Not(newpend, 64))
  }

  /** Everything the code asserts on the way. */
  ghost predicate Asserts(seen: Pair, idx: nat, n: nat) {
    var offset := Wrap(idx - seen.cur);
    && n < PendMax && n + offset <= PendMax
    && (forall k: nat :: !(Bit(seen.pend, k) && Bit(ShiftLeft(Ones(n), offset), k)))
    && var newpend := NewPend(seen, idx, n);
       && newpend < Pow2(32) && newpend < Pow2(64) && 0 < Not(newpend, 64)
       && InOrderCount(newpend) <= PendMax
       && !Bit(ShiftRight(newpend, InOrderCount(newpend)), 0)
  }

  /** After a compare-and-swap has failed: merge if the range fits in the window, else try again later. */
  function Fits(th: Thread, word: Pair): Thread
    requires th.InOrder?
  {
    if Wrap(th.idx + th.n - word.cur) <= PendMax then Merge(th.idx, th.n, word) else th
  }

  ghost predicate ReleaseStep(s: State, s': State, t: nat, th: Thread)
    requires t < |s.threads| && (th.InOrder? || th.Merge?)
  {
    match th
    case InOrder(idx, n) =>
      if s.word != Pair(Wrap(idx), 0) then s' == s.(threads := s.threads[t := Fits(th, s.word)])
      else
        s' == s.(word := Pair(Wrap(idx + n), 0), done := s.done + Range(idx, n), cur := s.cur + n,
                 threads := s.threads[t := Released(idx, n)])
    case Merge(idx, n, seen) =>
      if s.word != seen then s' == s.(threads := s.threads[t := Merge(idx, n, s.word)])
      else
        var newpend := NewPend(seen, idx, n);
        && newpend < Pow2(64) && 0 < Not(newpend, 64)
        && var inorder := InOrderCount(newpend);
           s' == s.(word := Pair(Wrap(seen.cur + inorder), Wrap(ShiftRight(newpend, inorder))),
                    done := s.done + Range(idx, n), cur := s.cur + inorder,
                    threads := s.threads[t := Released(idx, n)])
  }

  /** Slots are released once, at least one at a time, and less than 2^32 of them are ever outstanding. */
  ghost predicate Start(s: State, s': State, t: nat, th': Thread)
    requires t < |s.threads|
  {
    && (s.threads[t].Idle? || s.threads[t].Released?) && th'.InOrder? && 0 < th'.n
    && Range(th'.idx, th'.n) !! s.given && th'.idx + th'.n < s.cur + Word
    && s' == s.(given := s.given + Range(th'.idx, th'.n), threads := s.threads[t := th'])
  }

  ghost predicate Step(s: State, s': State, t: nat) {
    && t < |s.threads|
    && var th := s.threads[t];
       || ((th.InOrder? || th.Merge?) && ReleaseStep(s, s', t, th))
       || (exists th' :: Start(s, s', t, th'))
  }

  ghost predicate Next(s: State, s': State) { exists t: nat :: Step(s, s', t) }

  ghost predicate Run(run: seq<State>) {
    && |run| > 0 && Init(run[0])
    && forall i :: 0 <= i < |run| - 1 ==> Next(run[i], run[i + 1])
  }

  // ---------- the invariant ----------

  /** The word stands for the set of released slots: the counter is the least slot not released, and the mask has the
      bits of exactly the released slots in the window behind it, beyond which there are none. */
  ghost predicate StandsFor(word: Pair, done: set<nat>, cur: nat) {
    && word.cur == Wrap(cur) && word.pend < Pow2(32)
    && (forall p: nat :: p < cur ==> p in done) && cur !in done
    && (forall p: nat :: p in done ==> p < cur + PendMax)
    && forall k: nat :: Bit(word.pend, k) <==> cur + k in done
  }

  ghost predicate ThreadOk(s: State, th: Thread) {
    match th
    case Idle => true
    case InOrder(idx, n) =>
      0 < n && (forall p :: idx <= p < idx + n ==> p in s.given && p !in s.done) && idx + n < s.cur + Word
    case Merge(idx, n, seen) =>
      && 0 < n && (forall p :: idx <= p < idx + n ==> p in s.given && p !in s.done) && idx + n < s.cur + Word
      && n < PendMax && idx + n <= s.cur + PendMax && Asserts(seen, idx, n)
    case Released(idx, n) => forall p :: idx <= p < idx + n ==> p in s.done
  }

  predicate InRange(th: Thread, p: nat) { (th.InOrder? || th.Merge?) && th.idx <= p < th.idx + th.n }

  ghost predicate Disjoint(threads: seq<Thread>) {
    forall t, u, p :: 0 <= t < u < |threads| && InRange(threads[t], p) ==> !InRange(threads[u], p)
  }

  ghost predicate Inv(s: State) {
    && StandsFor(s.word, s.done, s.cur) && s.done <= s.given
    && (forall t :: 0 <= t < |s.threads| ==> ThreadOk(s, s.threads[t]))
    && Disjoint(s.threads)
  }

  // ---------- the arithmetic ----------

  /** The bits of the released range. */
  lemma OurBits(n: nat, offset: nat, k: nat)
    ensures Bit(ShiftLeft(Ones(n), offset), k) <==> offset <= k < offset + n
  {
    ShiftLeftBit(Ones(n), offset, k);
    if offset <= k {
      OnesBit(n, k - offset);
    }
  }

  lemma OnesBelow(n: nat, offset: nat, w: nat)
    requires n + offset <= w
    ensures ShiftLeft(Ones(n), offset) < Pow2(w)
  {
    PowAdd(n, offset);
    PowMonotone(n + offset, w);
    assert (Pow2(n) - 1) * Pow2(offset) == Pow2(n) * Pow2(offset) - Pow2(offset);
  }

  /** A range of slots not released yet that ends inside the window: nothing the code asserts can fail, even when the
      range would be the whole window. */
  lemma AssertsNeverFail(word: Pair, done: set<nat>, cur: nat, idx: nat, n: nat)
    requires StandsFor(word, done, cur) && 0 < n && idx + n < cur + Word
    requires forall p :: idx <= p < idx + n ==> p !in done
    requires Wrap(idx + n - word.cur) <= PendMax && word != Pair(Wrap(idx), 0)
    ensures Asserts(word, idx, n) && Wrap(idx - word.cur) == idx - cur
  {
    hide Pow2, Or, Bit, Not;
    assert idx !in done;
    var offset := idx - cur;
    assert Wrap(idx - word.cur) == offset && Wrap(idx + n - word.cur) == offset + n by {
      WrapLater(idx, cur);
      WrapLater(idx + n, cur);
    }
    if n == PendMax {
      assert 0 < word.pend;
      var k := Ctz(word.pend);
      assert false;
    }
    NewPendBits(word, done, cur, idx, n);
  }

  lemma WrapLater(a: nat, b: nat)
    requires b <= a < b + Word
    ensures Wrap(a - Wrap(b)) == a - b
  {
  }

  lemma NewPendBits(word: Pair, done: set<nat>, cur: nat, idx: nat, n: nat)
    requires StandsFor(word, done, cur) && 0 < n < PendMax && cur <= idx && idx + n <= cur + PendMax
    requires forall p :: idx <= p < idx + n ==> p !in done
    requires Wrap(idx - word.cur) == idx - cur
    ensures var newpend := NewPend(word, idx, n);
            && newpend < Pow2(32) && newpend < Pow2(64) && 0 < Not(newpend, 64)
            && InOrderCount(newpend) <= PendMax
            && (forall k: nat :: Bit(newpend, k) <==> cur + k in done + Range(idx, n))
    ensures Asserts(word, idx, n)
  {
    hide Pow2, Or, Bit, Not, Ones, ShiftLeft, ShiftRight, Wrap;
    var offset := idx - cur;
    var newpend := NewPend(word, idx, n);
    OnesBelow(n, offset, 32);
    OrBelow(word.pend, ShiftLeft(Ones(n), offset), 32);
    TrailingOnes(newpend, 32, 64);
    forall k: nat ensures Bit(ShiftLeft(Ones(n), offset), k) <==> offset <= k < offset + n {
      OurBits(n, offset, k);
    }
    forall k: nat ensures Bit(newpend, k) <==> cur + k in done + Range(idx, n) {
      OrBit(word.pend, ShiftLeft(Ones(n), offset), k);
    }
    ShiftRightBit(newpend, InOrderCount(newpend), 0);
  }

  /** The word after a merge stands for the larger set. */
  lemma Merges(word: Pair, done: set<nat>, cur: nat, idx: nat, n: nat)
    requires StandsFor(word, done, cur) && 0 < n < PendMax && cur <= idx && idx + n <= cur + PendMax
    requires forall p :: idx <= p < idx + n ==> p !in done
    requires Wrap(idx - word.cur) == idx - cur
    ensures var newpend := NewPend(word, idx, n);
            && newpend < Pow2(64) && 0 < Not(newpend, 64)
            && var c := InOrderCount(newpend);
               StandsFor(Pair(Wrap(word.cur + c), Wrap(ShiftRight(newpend, c))), done + Range(idx, n), cur + c)
  {
    hide Pow2, Or, Bit, Not, Ones, ShiftLeft, ShiftRight, Wrap;
    NewPendBits(word, done, cur, idx, n);
    var newpend := NewPend(word, idx, n);
    Shifted(newpend, done + Range(idx, n), cur);
    WrapSum(cur, InOrderCount(newpend));
  }

  /** Shifting the trailing ones out of a mask of the slots from the counter on. */
  lemma Shifted(newpend: nat, done: set<nat>, cur: nat)
    requires newpend < Pow2(32) && (forall k: nat :: Bit(newpend, k) <==> cur + k in done)
    requires forall p: nat :: p < cur ==> p in done
    requires forall p: nat :: p in done ==> p < cur + PendMax
    ensures newpend < Pow2(64) && 0 < Not(newpend, 64)
    ensures var c := InOrderCount(newpend); StandsFor(Pair(Wrap(cur + c), Wrap(ShiftRight(newpend, c))), done, cur + c)
  {
    hide Pow2, Or, Bit, Not, Ones, ShiftRight;
    TrailingOnes(newpend, 32, 64);
    var c := InOrderCount(newpend);
    ShiftRightBelow(newpend, c);
    var pend' := ShiftRight(newpend, c);
    Pow2Word();
    assert Wrap(pend') == pend';
    forall k: nat ensures Bit(pend', k) <==> cur + c + k in done {
      ShiftRightBit(newpend, c, k);
      assert Bit(newpend, k + c) <==> cur + (k + c) in done;
    }
    forall p: nat | p < cur + c ensures p in done {
      if cur <= p {
        assert Bit(newpend, p - cur);
        assert cur + (p - cur) in done;
      }
    }
    assert !Bit(newpend, c);
  }

  /** With nothing pending, releasing at the counter moves the counter. */
  lemma Advances(word: Pair, done: set<nat>, cur: nat, n: nat)
    requires StandsFor(word, done, cur) && word.pend == 0
    ensures StandsFor(Pair(Wrap(cur + n), 0), done + Range(cur, n), cur + n)
  {
    forall k: nat ensures !Bit(0, k) {
      ZeroBit(k);
    }
    forall p | p in done ensures p < cur {
      if cur <= p {
        assert Bit(word.pend, p - cur) <==> cur + (p - cur) in done;
      }
    }
    hide Bit;
  }

  // ---------- one step ----------

  lemma AtCounter(s: State, idx: nat, n: nat)
    requires StandsFor(s.word, s.done, s.cur) && s.word.cur == Wrap(idx) && idx + n < s.cur + Word && 0 < n
    requires forall p :: idx <= p < idx + n ==> p !in s.done
    ensures idx == s.cur
  {
    assert idx !in s.done;
    WrapInjective(s.cur, idx);
  }

  lemma Others(s: State, s': State, t: nat, th': Thread)
    requires Inv(s) && t < |s.threads| && s'.threads == s.threads[t := th']
    requires s.given <= s'.given && s.done <= s'.done && s.cur <= s'.cur
    requires forall p :: p in s'.done ==> p in s.done || InRange(s.threads[t], p)
    requires forall p :: InRange(th', p) ==> InRange(s.threads[t], p) || p !in s.given
    requires ThreadOk(s', th')
    requires StandsFor(s'.word, s'.done, s'.cur) && s'.done <= s'.given
    ensures Inv(s')
  {
    hide StandsFor, Asserts;
    forall u | 0 <= u < |s'.threads| ensures ThreadOk(s', s'.threads[u]) {
      if u != t {
        assert ThreadOk(s, s.threads[u]);
        var tu := s.threads[u];
        forall p | InRange(tu, p) ensures !InRange(s.threads[t], p) {
        }
        forall p | InRange(tu, p) ensures p in s'.given && p !in s'.done {
        }
      }
    }
    forall u, v, p | 0 <= u < v < |s'.threads| && InRange(s'.threads[u], p) ensures !InRange(s'.threads[v], p) {
      assert ThreadOk(s, s.threads[u]) && ThreadOk(s, s.threads[v]);
    }
  }

  lemma InOrderKeepsInv(s: State, s': State, t: nat)
    requires Inv(s) && t < |s.threads| && s.threads[t].InOrder? && ReleaseStep(s, s', t, s.threads[t])
    ensures Inv(s')
  {
    var th := s.threads[t];
    assert ThreadOk(s, th);
    hide StandsFor, Disjoint, Asserts, Wrap;
    if s.word == Pair(Wrap(th.idx), 0) {
      AtCounter(s, th.idx, th.n);
      Advances(s.word, s.done, s.cur, th.n);
    } else {
      FitsOk(s, th);
    }
    Others(s, s', t, s'.threads[t]);
  }

  lemma FitsOk(s: State, th: Thread)
    requires StandsFor(s.word, s.done, s.cur) && ThreadOk(s, th) && th.InOrder? && s.word != Pair(Wrap(th.idx), 0)
    ensures ThreadOk(s, Fits(th, s.word))
  {
    hide StandsFor, Asserts, Wrap;
    if Wrap(th.idx + th.n - s.word.cur) <= PendMax {
      AssertsNeverFail(s.word, s.done, s.cur, th.idx, th.n);
      AssertsFit(s.word, th.idx, th.n);
    }
  }

  lemma AssertsFit(seen: Pair, idx: nat, n: nat)
    requires Asserts(seen, idx, n)
    ensures n < PendMax && n + Wrap(idx - seen.cur) <= PendMax
  {
  }

  /** What a merge knows about the window at any moment. */
  lemma MergeFits(s: State, th: Thread)
    requires StandsFor(s.word, s.done, s.cur) && th.Merge? && ThreadOk(s, th)
    ensures 0 < th.n < PendMax && s.cur <= th.idx && th.idx + th.n <= s.cur + PendMax
    ensures Wrap(th.idx - s.word.cur) == th.idx - s.cur
    ensures forall p :: th.idx <= p < th.idx + th.n ==> p !in s.done
  {
    hide Asserts, Wrap, StandsFor;
    NotPassed(s, th.idx);
    WrapLater(th.idx, s.cur);
  }

  lemma NotPassed(s: State, p: nat)
    requires StandsFor(s.word, s.done, s.cur) && p !in s.done
    ensures s.cur <= p && s.word.cur == Wrap(s.cur)
  {
  }

  /** So it may go on with the word of any moment. */
  lemma MergeAsserts(s: State, th: Thread)
    requires StandsFor(s.word, s.done, s.cur) && th.Merge? && ThreadOk(s, th)
    ensures Asserts(s.word, th.idx, th.n)
  {
    hide Asserts, StandsFor, ThreadOk, Wrap, NewPend, Not, Pow2, InOrderCount, Bit;
    MergeFits(s, th);
    NewPendBits(s.word, s.done, s.cur, th.idx, th.n);
  }

  /** A merge's step on the word. */
  lemma MergeMoves(s: State, s': State, t: nat, th: Thread)
    requires StandsFor(s.word, s.done, s.cur) && ThreadOk(s, th) && th.Merge? && t < |s.threads|
    requires ReleaseStep(s, s', t, th)
    ensures StandsFor(s'.word, s'.done, s'.cur) && s'.given == s.given && s.cur <= s'.cur
    ensures s'.done == (if s.word == th.seen then s.done + Range(th.idx, th.n) else s.done)
    ensures |s'.threads| == |s.threads| && s'.threads == s.threads[t := s'.threads[t]]
    ensures s'.threads[t] == (if s.word == th.seen then Released(th.idx, th.n) else Merge(th.idx, th.n, s.word))
  {
    hide Asserts, NewPend, InOrderCount, ShiftRight, Pow2, Not, StandsFor, Range, Wrap, ThreadOk;
    MergeFits(s, th);
    if s.word == th.seen {
      Merges(s.word, s.done, s.cur, th.idx, th.n);
    }
  }

  lemma MergeThread(s: State, s': State, t: nat, th: Thread)
    requires StandsFor(s.word, s.done, s.cur) && ThreadOk(s, th) && th.Merge? && t < |s'.threads| == |s.threads|
    requires s'.given == s.given && s.cur <= s'.cur
    requires s'.done == if s.word == th.seen then s.done + Range(th.idx, th.n) else s.done
    requires s'.threads[t] == if s.word == th.seen then Released(th.idx, th.n) else Merge(th.idx, th.n, s.word)
    ensures ThreadOk(s', s'.threads[t])
  {
    MergeFits(s, th);
    MergeAsserts(s, th);
    hide Asserts, StandsFor, Wrap;
  }

  lemma MergeKeepsInv(s: State, s': State, t: nat)
    requires Inv(s) && t < |s.threads| && s.threads[t].Merge? && ReleaseStep(s, s', t, s.threads[t])
    ensures Inv(s')
  {
    var th := s.threads[t];
    hide StandsFor, Disjoint, ReleaseStep, Asserts;
    assert ThreadOk(s, th);
    MergeMoves(s, s', t, th);
    MergeThread(s, s', t, th);
    Others(s, s', t, s'.threads[t]);
  }

  /** One step of any thread. */
  lemma StepKeepsInv(s: State, s': State, t: nat)
    requires Inv(s) && Step(s, s', t)
    ensures Inv(s') && s.done <= s'.done && s.cur <= s'.cur
  {
    var th := s.threads[t];
    if th.InOrder? && ReleaseStep(s, s', t, th) {
      InOrderKeepsInv(s, s', t);
    } else if th.Merge? && ReleaseStep(s, s', t, th) {
      MergeKeepsInv(s, s', t);
    } else {
      var th' :| Start(s, s', t, th');
      hide StandsFor;
      assert ThreadOk(s', th') by {
        forall p | th'.idx <= p < th'.idx + th'.n ensures p in s'.given && p !in s.done {
        }
      }
      hide Disjoint;
      Others(s, s', t, th');
    }
  }

  // ---------- every run ----------

  lemma InitInv(s: State)
    requires Init(s)
    ensures Inv(s)
  {
    forall k: nat ensures !Bit(0, k) {
      ZeroBit(k);
    }
  }

  lemma {:induction false} RunInv(run: seq<State>, i: nat, j: nat)
    requires Run(run) && i <= j < |run|
    ensures Inv(run[j]) && run[i].done <= run[j].done && run[i].cur <= run[j].cur
  {
    hide Inv, Init, Step;
    if j == 0 {
      InitInv(run[0]);
    } else {
      RunInv(run, if i < j then i else j - 1, j - 1);
      assert Next(run[j - 1], run[j]);
      var t: nat :| Step(run[j - 1], run[j], t);
      StepKeepsInv(run[j - 1], run[j], t);
    }
  }

  // ---------- the properties ----------

  /** In every state, whatever the order and interleaving of releases, the word is the one that stands for the released
      slots: counter the least slot not released, truncated to 32 bits, mask the released slots behind it. */
  lemma WordStandsForReleased(run: seq<State>, i: nat, k: nat)
    requires Run(run) && i < |run|
    ensures var s := run[i];
            && s.word.cur == Wrap(s.cur) && s.cur !in s.done && (k < s.cur ==> k in s.done)
            && (Bit(s.word.pend, k) <==> s.cur + k in s.done) && !Bit(s.word.pend, 0)
            && (k in s.done ==> k < s.cur + PendMax)
  {
    RunInv(run, i, i);
    hide Bit;
    assert Bit(run[i].word.pend, 0) <==> run[i].cur + 0 in run[i].done;
  }

  /** A release that returns has released its slots, for good; and once every slot below a number is released, the
      counter has reached it. */
  lemma ReleasesAreNotLost(run: seq<State>, i: nat, j: nat, t: nat, upto: nat)
    requires Run(run) && i <= j < |run| && t < |run[i].threads| && run[i].threads[t].Released?
    ensures forall p :: run[i].threads[t].idx <= p < run[i].threads[t].idx + run[i].threads[t].n ==> p in run[j].done
    ensures (forall p: nat :: p < upto ==> p in run[j].done) ==> upto <= run[j].cur
  {
    RunInv(run, i, i);
    RunInv(run, i, j);
    RunInv(run, j, j);
    assert ThreadOk(run[i], run[i].threads[t]);
  }

  /** No assertion on the way of a release can fail, in any run. */
  lemma AssertsHold(run: seq<State>, i: nat, t: nat)
    requires Run(run) && i < |run| && t < |run[i].threads| && run[i].threads[t].Merge?
    ensures Asserts(run[i].threads[t].seen, run[i].threads[t].idx, run[i].threads[t].n)
  {
    RunInv(run, i, i);
    assert ThreadOk(run[i], run[i].threads[t]);
  }

  // ---------- nothing given is left out ----------

  ghost predicate Working(threads: seq<Thread>, p: nat) {
    exists t :: 0 <= t < |threads| && InRange(threads[t], p)
  }

  /** Every slot passed to a release has been released or is one a call in progress is at. */
  ghost predicate Accounted(s: State) { forall p :: p in s.given ==> p in s.done || Working(s.threads, p) }

  /** A step changes only the thread that takes it, which works on the same slots until they are all released. */
  lemma StepWorks(s: State, s': State, t: nat)
    requires Step(s, s', t)
    ensures |s'.threads| == |s.threads| && s'.threads == s.threads[t := s'.threads[t]] && s.done <= s'.done
    ensures forall p :: InRange(s.threads[t], p) ==> InRange(s'.threads[t], p) || p in s'.done
    ensures forall p :: p in s'.given ==> p in s.given || InRange(s'.threads[t], p)
  {
    hide Wrap, NewPend, InOrderCount, ShiftRight, Pow2, Not;
  }

  lemma StillAccounted(s: State, s': State, t: nat)
    requires Accounted(s) && Step(s, s', t)
    ensures Accounted(s')
  {
    StepWorks(s, s', t);
    hide Step;
    forall p | p in s'.given ensures p in s'.done || Working(s'.threads, p) {
      if p in s.given && p !in s.done {
        var u :| 0 <= u < |s.threads| && InRange(s.threads[u], p);
        assert u != t ==> InRange(s'.threads[u], p);
      } else if p !in s.given {
        assert InRange(s'.threads[t], p);
      }
    }
  }

  /** Every slot passed to a release so far has been released, or the release has not returned; so when all releases have
      returned, exactly what was passed to them is released. */
  lemma {:induction false} GivenIsDone(run: seq<State>, i: nat)
    requires Run(run) && i < |run|
    ensures Accounted(run[i])
    ensures (forall t :: 0 <= t < |run[i].threads| ==> run[i].threads[t].Idle? || run[i].threads[t].Released?) ==>
              run[i].done == run[i].given
  {
    RunInv(run, i, i);
    if 0 < i {
      GivenIsDone(run, i - 1);
      assert Next(run[i - 1], run[i]);
      hide Run, Step, Inv, Accounted;
      var t: nat :| Step(run[i - 1], run[i], t);
      StillAccounted(run[i - 1], run[i], t);
    }
    InvDone(run[i]);
  }

  lemma InvDone(s: State)
    requires Inv(s) && Accounted(s)
    ensures (forall t :: 0 <= t < |s.threads| ==> s.threads[t].Idle? || s.threads[t].Released?) ==> s.done == s.given
  {
    hide StandsFor, ThreadOk, Disjoint;
  }
}

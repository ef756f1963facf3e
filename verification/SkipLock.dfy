/** The skip lock: tickets are served in order, and a ticket can be given up before its turn through a 96-bit mask of
    skipped tickets behind the current one. */
module SkipLock {
  import opened Bits64
  import opened BitMask

  const MaskBits: nat := 96

  /** What one wide compare-and-swap covers: the ticket being served, truncated to 32 bits, and the skip mask. */
  datatype Lock = Lock(cur: nat, mask: nat)

  /** `Acquire` waits for its ticket; `Hold` is the critical section. The reads before a compare-and-swap are not
      atomic: the mask seen may be any. */
  datatype Thread =
    | Idle
    | Acquire(tkt: nat)
    | Hold(tkt: nat)
    | Release(tkt: nat)
    | ReleaseCas(tkt: nat, seen: Lock)
    | SkipWait(tkt: nat)
    | Skip(tkt: nat)
    | SkipCas(tkt: nat, seen: Lock)
    | Refused(tkt: nat)

  /** `wide` is the width in which the compiler complements the 96-bit field: that of the field, or of its declared type.
      History: `given` are the tickets handed to acquire or skip, `done` those released or skipped, `cur` the ticket being
      served without truncation, and `undefined` tells that a release has used an undefined count. */
  datatype State = State(lock: Lock, threads: seq<Thread>, wide: nat, given: set<nat>, done: set<nat>, cur: nat,
                         undefined: bool)

  ghost predicate Init(s: State) {
    && s.lock == Lock(0, 0) && s.given == s.done == {} && s.cur == 0 && (s.wide == MaskBits || s.wide == 128)
    && !s.undefined
    && forall t :: 0 <= t < |s.threads| ==> s.threads[t].Idle?
  }

  // ---------- the steps ----------

  /** How far a release advances: past the current ticket and the adjacent skipped ones, found by counting the trailing
      zeros of the complement. Of a complement of zero the lower half is zero and the upper half is counted, whose count
      is not defined: it is `count`, any number. */
  function Advance(mask: nat, wide: nat, count: nat): (a: nat)
    requires mask < Pow2(wide)
  {
    if 0 < Not(mask, wide) then 1 + Ctz(Not(mask, wide)) else 1 + 64 + count
  }

  function Released(seen: Lock, advance: nat): Lock {
    Lock(Wrap(seen.cur + advance), if advance < MaskBits then ShiftRight(seen.mask, advance) else 0)
  }

  ghost predicate ReleaseStep(s: State, s': State, t: nat, th: Thread)
    requires t < |s.threads| && (th.Release? || th.ReleaseCas?)
  {
    match th
    case Release(tkt) =>
      if Wrap(tkt) != s.lock.cur then s' == s.(threads := s.threads[t := Refused(tkt)])
      else exists mask: nat :: s' == s.(threads := s.threads[t := ReleaseCas(tkt, Lock(s.lock.cur, mask))])
    case ReleaseCas(tkt, seen) =>
      if s.lock != seen then s' == s.(threads := s.threads[t := Release(tkt)])
      else
        seen.mask < Pow2(s.wide) && exists count: nat :: Leaves(s, s', t, tkt, seen, count)
  }

  /** A release's compare-and-swap. */
  ghost predicate Leaves(s: State, s': State, t: nat, tkt: nat, seen: Lock, count: nat)
    requires t < |s.threads| && seen.mask < Pow2(s.wide)
  {
    var advance := Advance(seen.mask, s.wide, count);
    s' == s.(lock := Released(seen, advance), done := s.done + {tkt}, cur := s.cur + advance,
             undefined := s.undefined || Not(seen.mask, s.wide) == 0, threads := s.threads[t := Idle])
  }

  ghost predicate SkipStep(s: State, s': State, t: nat, th: Thread)
    requires t < |s.threads| && (th.SkipWait? || th.Skip? || th.SkipCas?)
  {
    match th
    case SkipWait(tkt) =>
      s' == s.(threads := s.threads[t := if Wrap(tkt - s.lock.cur) > MaskBits then th else Skip(tkt)])
    case Skip(tkt) =>
      if Wrap(tkt - s.lock.cur) == 0 then s' == s.(threads := s.threads[t := Release(tkt)])
      else exists mask: nat :: s' == s.(threads := s.threads[t := SkipCas(tkt, Lock(s.lock.cur, mask))])
    case SkipCas(tkt, seen) =>
      if s.lock != seen then s' == s.(threads := s.threads[t := Skip(tkt)])
      else
        var dif := Wrap(tkt - seen.cur);
        && 0 < dif
        && s' == s.(lock := Lock(seen.cur, Or(seen.mask, ShiftLeft(1, dif - 1))), done := s.done + {tkt},
                    threads := s.threads[t := Idle])
  }

  predicate AcquireStep(s: State, s': State, t: nat, th: Thread)
    requires t < |s.threads| && (th.Acquire? || th.Hold?)
  {
    match th
    case Acquire(tkt) => s' == s.(threads := s.threads[t := if s.lock.cur == Wrap(tkt) then Hold(tkt) else th])
    case Hold(tkt) => s' == s.(threads := s.threads[t := Release(tkt)])
  }

  /** Each ticket is used once, and less than 2^32 of them are ever outstanding. */
  ghost predicate Start(s: State, s': State, t: nat, th': Thread)
    requires t < |s.threads|
  {
    && s.threads[t].Idle? && (th'.Acquire? || th'.SkipWait?)
    && th'.tkt !in s.given && th'.tkt < s.cur + Word
    && s' == s.(given := s.given + {th'.tkt}, threads := s.threads[t := th'])
  }

  ghost predicate Step(s: State, s': State, t: nat) {
    && t < |s.threads|
    && var th := s.threads[t];
       || ((th.Acquire? || th.Hold?) && AcquireStep(s, s', t, th))
       || ((th.Release? || th.ReleaseCas?) && ReleaseStep(s, s', t, th))
       || ((th.SkipWait? || th.Skip? || th.SkipCas?) && SkipStep(s, s', t, th))
       || (exists th' :: Start(s, s', t, th'))
  }

  ghost predicate Next(s: State, s': State) { exists t: nat :: Step(s, s', t) }

  ghost predicate Run(run: seq<State>) {
    && |run| > 0 && Init(run[0])
    && forall i :: 0 <= i < |run| - 1 ==> Next(run[i], run[i + 1])
  }

  // ---------- the invariant ----------

  /** The lock stands for the set of tickets done with: the ticket served is the least one not done, and the mask has the
      bits of the tickets skipped behind it. */
  ghost predicate StandsFor(lock: Lock, done: set<nat>, cur: nat) {
    && lock.cur == Wrap(cur) && lock.mask < Pow2(MaskBits)
    && (forall p: nat :: p < cur ==> p in done) && cur !in done
    && (forall p: nat :: p in done ==> p <= cur + MaskBits)
    && forall k: nat :: Bit(lock.mask, k) <==> cur + 1 + k in done
  }

  predicate Has(th: Thread, tkt: nat) { !th.Idle? && !th.Refused? && th.tkt == tkt }

  predicate InTurn(th: Thread) { th.Hold? || th.Release? || th.ReleaseCas? }

  ghost predicate ThreadOk(given: set<nat>, done: set<nat>, cur: nat, th: Thread) {
    && !th.Refused?
    && (!th.Idle? ==> th.tkt in given && th.tkt !in done && cur <= th.tkt < cur + Word)
    && (InTurn(th) ==> th.tkt == cur)
    && (th.Skip? || th.SkipCas? ==> th.tkt <= cur + MaskBits)
    && (th.SkipCas? ==> th.seen.cur != Wrap(th.tkt))
  }

  ghost predicate Distinct(threads: seq<Thread>) {
    forall t, u, p :: 0 <= t < u < |threads| && Has(threads[t], p) ==> !Has(threads[u], p)
  }

  ghost predicate Inv(s: State) {
    && (s.wide == MaskBits || s.wide == 128) && !s.undefined && StandsFor(s.lock, s.done, s.cur) && s.done <= s.given
    && (forall t :: 0 <= t < |s.threads| ==> ThreadOk(s.given, s.done, s.cur, s.threads[t]))
    && Distinct(s.threads)
  }

  // ---------- the arithmetic ----------

  /** The tickets behind the current one are skipped as far as the mask reaches. */
  ghost predicate AllSkipped(done: set<nat>, cur: nat) {
    forall p: nat :: cur < p <= cur + MaskBits ==> p in done
  }

  /** The complement is zero exactly when it is taken in 96 bits and all tickets that the mask can hold are skipped. */
  lemma ZeroComplementIff(lock: Lock, done: set<nat>, cur: nat, wide: nat)
    requires StandsFor(lock, done, cur) && (wide == MaskBits || wide == 128)
    ensures lock.mask < Pow2(wide)
    ensures Not(lock.mask, wide) == 0 <==> wide == MaskBits && AllSkipped(done, cur)
  {
    var mask := lock.mask;
    PowMonotone(MaskBits, wide);
    hide Pow2, Bit;
    if wide == 128 {
      HighBit(mask, MaskBits, MaskBits);
      NotBit(mask, wide, MaskBits);
      ZeroBit(MaskBits);
    } else if Not(mask, wide) == 0 {
      forall p: nat | cur < p <= cur + MaskBits ensures p in done {
        var k := p - cur - 1;
        assert Bit(mask, k) <==> cur + 1 + k in done;
        NotBit(mask, wide, k);
        ZeroBit(k);
      }
    } else {
      var k := FirstClear(mask, wide);
      assert Bit(mask, k) <==> cur + 1 + k in done;
    }
  }

  lemma FirstClear(mask: nat, wide: nat) returns (k: nat)
    requires mask < Pow2(wide) && 0 < Not(mask, wide)
    ensures k == Ctz(Not(mask, wide)) && k < wide && !Bit(mask, k)
    ensures forall j: nat :: j < k ==> Bit(mask, j)
  {
    hide Pow2, Bit, Ctz;
    k := Ctz(Not(mask, wide));
    if wide <= k {
      HighBit(Not(mask, wide), wide, k);
    }
    NotBit(mask, wide, k);
    forall j: nat | j < k ensures Bit(mask, j) {
      NotBit(mask, wide, j);
    }
  }

  /** A release whose count is defined, or happens to be 32, moves on to the next ticket not done; the assertion about the
      advance holds. */
  lemma Releasing(lock: Lock, done: set<nat>, cur: nat, wide: nat, count: nat)
    requires StandsFor(lock, done, cur) && (wide == MaskBits || wide == 128) && lock.mask < Pow2(wide)
    requires 0 < Not(lock.mask, wide) || count == 32
    ensures var advance := Advance(lock.mask, wide, count);
            advance <= MaskBits + 1 && StandsFor(Released(lock, advance), done + {cur}, cur + advance)
  {
    hide Pow2, Bit, Not, ShiftRight, Ctz;
    ZeroComplementIff(lock, done, cur, wide);
    var mask := lock.mask;
    var advance := Advance(mask, wide, count);
    if 0 < Not(mask, wide) {
      var k := FirstClear(mask, wide);
      if MaskBits < k {
        HighBit(mask, MaskBits, MaskBits);
      }
    } else {
      forall k: nat | k < MaskBits ensures Bit(mask, k) {
        assert Bit(mask, k) <==> cur + 1 + k in done;
      }
      HighBit(mask, MaskBits, MaskBits);
    }
    MovesOn(lock, done, cur, advance);
  }

  lemma MovesOn(lock: Lock, done: set<nat>, cur: nat, advance: nat)
    requires StandsFor(lock, done, cur) && 0 < advance <= MaskBits + 1
    requires !Bit(lock.mask, advance - 1) && forall k: nat :: k < advance - 1 ==> Bit(lock.mask, k)
    ensures StandsFor(Released(lock, advance), done + {cur}, cur + advance)
  {
    hide Pow2, Bit, ShiftRight;
    var mask := lock.mask;
    ShiftRightBelow(mask, advance);
    WrapSum(cur, advance);
    var mask' := if advance < MaskBits then ShiftRight(mask, advance) else 0;
    forall k: nat ensures Bit(mask', k) <==> cur + advance + 1 + k in done + {cur} {
      assert Bit(mask, k + advance) <==> cur + 1 + (k + advance) in done;
      if advance < MaskBits {
        ShiftRightBit(mask, advance, k);
      } else {
        ZeroBit(k);
        HighBit(mask, MaskBits, k + advance);
      }
    }
    forall p: nat | p < cur + advance ensures p in done + {cur} {
      if cur < p {
        assert Bit(mask, p - cur - 1) <==> cur + 1 + (p - cur - 1) in done;
      }
    }
    assert cur + 1 + (advance - 1) !in done;
  }

  /** When all 96 tickets are skipped and the complement is taken in 96 bits, any other count than 32 goes wrong: a smaller
      one serves a skipped ticket, a greater one passes over tickets that are not skipped. */
  lemma UndefinedCount(lock: Lock, done: set<nat>, cur: nat, count: nat)
    requires StandsFor(lock, done, cur) && AllSkipped(done, cur)
    ensures lock.mask < Pow2(MaskBits) && Advance(lock.mask, MaskBits, count) == 65 + count
    ensures StandsFor(Released(lock, 65 + count), done + {cur}, cur + 65 + count) <==> count == 32
    ensures count < 32 ==> cur + 65 + count in done
    ensures forall p: nat :: cur + MaskBits < p < cur + 65 + count ==> p !in done
  {
    hide Pow2, Bit, Not;
    ZeroComplementIff(lock, done, cur, MaskBits);
    if count == 32 {
      Releasing(lock, done, cur, MaskBits, count);
    } else if 32 < count {
      assert cur + 97 !in done + {cur} && cur + 97 < cur + 65 + count;
    }
  }

  lemma Skipping(lock: Lock, done: set<nat>, cur: nat, tkt: nat)
    requires StandsFor(lock, done, cur) && cur < tkt <= cur + MaskBits
    ensures StandsFor(Lock(lock.cur, Or(lock.mask, ShiftLeft(1, tkt - cur - 1))), done + {tkt}, cur)
  {
    hide Pow2, Bit, Or, ShiftLeft, Wrap;
    var d := tkt - cur - 1;
    OneBelow(d, MaskBits);
    OrBelow(lock.mask, ShiftLeft(1, d), MaskBits);
    forall k: nat ensures Bit(Or(lock.mask, ShiftLeft(1, d)), k) <==> cur + 1 + k in done + {tkt} {
      OrBit(lock.mask, ShiftLeft(1, d), k);
      OneBit(d, k);
    }
  }

  /** The truncated distance to a ticket not done yet is the true one. */
  lemma Distance(lock: Lock, done: set<nat>, cur: nat, tkt: nat)
    requires StandsFor(lock, done, cur) && cur <= tkt < cur + Word
    ensures Wrap(tkt - lock.cur) == tkt - cur
    ensures lock.cur == Wrap(tkt) <==> tkt == cur
  {
    hide Bit, Pow2;
    if lock.cur == Wrap(tkt) {
      WrapInjective(cur, tkt);
    }
  }

  // ---------- one step ----------

  lemma Others(s: State, s': State, t: nat, th': Thread)
    requires Inv(s) && t < |s.threads| && s'.threads == s.threads[t := th'] && s'.wide == s.wide && !s'.undefined
    requires StandsFor(s'.lock, s'.done, s'.cur) && s'.done <= s'.given && s.given <= s'.given && s.cur <= s'.cur
    requires forall p :: p in s'.done ==> p in s.done || Has(s.threads[t], p)
    requires s'.cur == s.cur || InTurn(s.threads[t])
    requires ThreadOk(s'.given, s'.done, s'.cur, th')
    requires !th'.Idle? ==> Has(s.threads[t], th'.tkt) || th'.tkt !in s.given
    ensures Inv(s')
  {
    hide Bit, Pow2;
    forall u | 0 <= u < |s'.threads| ensures ThreadOk(s'.given, s'.done, s'.cur, s'.threads[u]) {
      if u != t {
        var tu := s.threads[u];
        assert ThreadOk(s.given, s.done, s.cur, tu) && ThreadOk(s.given, s.done, s.cur, s.threads[t]);
        if !tu.Idle? {
          assert Has(tu, tu.tkt);
          NotBoth(s.threads, t, u, tu.tkt);
          assert tu.tkt !in s'.done;
        }
      }
    }
    hide StandsFor;
    forall u, v, p | 0 <= u < v < |s'.threads| && Has(s'.threads[u], p) ensures !Has(s'.threads[v], p)
    {
      assert ThreadOk(s.given, s.done, s.cur, s.threads[u]) && ThreadOk(s.given, s.done, s.cur, s.threads[v]);
    }
  }

  lemma NotBoth(threads: seq<Thread>, t: nat, u: nat, tkt: nat)
    requires Distinct(threads) && t < |threads| && u < |threads| && t != u && Has(threads[u], tkt)
    ensures !Has(threads[t], tkt)
  {
  }

  lemma AcquireKeepsInv(s: State, s': State, t: nat)
    requires Inv(s) && t < |s.threads| && (s.threads[t].Acquire? || s.threads[t].Hold?)
    requires AcquireStep(s, s', t, s.threads[t])
    ensures Inv(s')
  {
    var th := s.threads[t];
    assert ThreadOk(s.given, s.done, s.cur, th);
    Distance(s.lock, s.done, s.cur, th.tkt);
    hide StandsFor, Distinct;
    Others(s, s', t, s'.threads[t]);
  }

  /** A release's step on its own locals: it is its turn. */
  lemma ReleaseWaits(s: State, s': State, t: nat, th: Thread)
    requires StandsFor(s.lock, s.done, s.cur) && t < |s.threads| && InTurn(th) && th.tkt == s.cur
    requires (th.Release? || (th.ReleaseCas? && s.lock != th.seen)) && ReleaseStep(s, s', t, th)
    ensures s' == s.(threads := s'.threads) && |s'.threads| == |s.threads| && s'.threads == s.threads[t := s'.threads[t]]
    ensures InTurn(s'.threads[t]) && s'.threads[t].tkt == th.tkt
  {
    Distance(s.lock, s.done, s.cur, th.tkt);
    hide StandsFor, Pow2, Wrap, Leaves;
  }

  /** And its compare-and-swap. */
  lemma ReleaseLeaves(s: State, s': State, t: nat, th: Thread)
    requires StandsFor(s.lock, s.done, s.cur) && t < |s.threads| && InTurn(th) && th.tkt == s.cur
    requires s.wide == MaskBits || s.wide == 128
    requires th.ReleaseCas? && s.lock == th.seen && ReleaseStep(s, s', t, th) && !s'.undefined
    ensures StandsFor(s'.lock, s'.done, s'.cur) && s'.given == s.given && s.cur <= s'.cur && s'.wide == s.wide
    ensures s'.threads == s.threads[t := Idle] && s'.done == s.done + {th.tkt}
  {
    hide StandsFor, Released, Not, Pow2, Wrap, Advance;
    var count: nat :| Leaves(s, s', t, th.tkt, th.seen, count);
    Releasing(s.lock, s.done, s.cur, s.wide, count);
  }

  lemma ReleaseMoves(s: State, s': State, t: nat, th: Thread)
    requires StandsFor(s.lock, s.done, s.cur) && ThreadOk(s.given, s.done, s.cur, th) && t < |s.threads|
    requires s.wide == MaskBits || s.wide == 128
    requires (th.Release? || th.ReleaseCas?) && ReleaseStep(s, s', t, th) && !s'.undefined
    ensures StandsFor(s'.lock, s'.done, s'.cur) && s'.given == s.given && s.cur <= s'.cur && s'.wide == s.wide
    ensures |s'.threads| == |s.threads| && s'.threads == s.threads[t := s'.threads[t]]
    ensures if s'.threads[t].Idle? then s'.done == s.done + {th.tkt} else s'.done == s.done && s'.cur == s.cur
    ensures !s'.threads[t].Idle? ==> InTurn(s'.threads[t]) && s'.threads[t].tkt == th.tkt
  {
    hide StandsFor, ReleaseStep;
    if th.ReleaseCas? && s.lock == th.seen {
      ReleaseLeaves(s, s', t, th);
    } else {
      ReleaseWaits(s, s', t, th);
    }
  }

  lemma ReleaseKeepsInv(s: State, s': State, t: nat)
    requires Inv(s) && t < |s.threads| && (s.threads[t].Release? || s.threads[t].ReleaseCas?)
    requires ReleaseStep(s, s', t, s.threads[t]) && !s'.undefined
    ensures Inv(s') && s.done <= s'.done && s.cur <= s'.cur
  {
    hide StandsFor, Distinct, ReleaseStep;
    var th := s.threads[t];
    assert ThreadOk(s.given, s.done, s.cur, th);
    ReleaseMoves(s, s', t, th);
    Others(s, s', t, s'.threads[t]);
  }

  lemma SkipKeepsInv(s: State, s': State, t: nat)
    requires Inv(s) && t < |s.threads| && (s.threads[t].SkipWait? || s.threads[t].Skip? || s.threads[t].SkipCas?)
    requires SkipStep(s, s', t, s.threads[t])
    ensures Inv(s') && s.done <= s'.done && s.cur == s'.cur
  {
    var th := s.threads[t];
    hide StandsFor, Distinct, Or, ShiftLeft;
    assert ThreadOk(s.given, s.done, s.cur, th);
    Distance(s.lock, s.done, s.cur, th.tkt);
    if th.SkipCas? && s.lock == th.seen {
      Skipping(s.lock, s.done, s.cur, th.tkt);
    }
    Others(s, s', t, s'.threads[t]);
  }

  /** One step of any thread. */
  lemma StepKeepsInv(s: State, s': State, t: nat)
    requires Inv(s) && Step(s, s', t) && !s'.undefined
    ensures Inv(s') && s.done <= s'.done && s.cur <= s'.cur
  {
    hide StandsFor, Distinct, ReleaseStep, SkipStep;
    var th := s.threads[t];
    if (th.Acquire? || th.Hold?) && AcquireStep(s, s', t, th) {
      AcquireKeepsInv(s, s', t);
    } else if (th.Release? || th.ReleaseCas?) && ReleaseStep(s, s', t, th) {
      ReleaseKeepsInv(s, s', t);
    } else if (th.SkipWait? || th.Skip? || th.SkipCas?) && SkipStep(s, s', t, th) {
      SkipKeepsInv(s, s', t);
    } else {
      var th' :| Start(s, s', t, th');
      assert s.cur <= th'.tkt by { NotDone(s, th'.tkt); }
      Others(s, s', t, th');
    }
  }

  lemma NotDone(s: State, tkt: nat)
    requires StandsFor(s.lock, s.done, s.cur) && tkt !in s.done
    ensures s.cur <= tkt
  {
  }

  lemma InitInv(s: State)
    requires Init(s)
    ensures Inv(s)
  {
    forall k: nat ensures !Bit(0, k) {
      ZeroBit(k);
    }
    hide Bit;
  }

  lemma StepUndefined(s: State, s': State, t: nat)
    requires Step(s, s', t)
    ensures s.undefined ==> s'.undefined
    ensures s'.wide == s.wide
  {
    hide Released, Advance, Not, Or, ShiftLeft, Wrap, Pow2;
  }

  lemma {:induction false} RunInv(run: seq<State>, i: nat, j: nat)
    requires Run(run) && i <= j < |run| && !run[j].undefined
    ensures Inv(run[j]) && run[i].done <= run[j].done && run[i].cur <= run[j].cur
  {
    hide Inv, Init, Step;
    if j == 0 {
      InitInv(run[0]);
    } else {
      assert Next(run[j - 1], run[j]);
      var t: nat :| Step(run[j - 1], run[j], t);
      StepUndefined(run[j - 1], run[j], t);
      RunInv(run, if i < j then i else j - 1, j - 1);
      StepKeepsInv(run[j - 1], run[j], t);
    }
  }

  // ---------- the properties ----------

  /** At most one thread holds the lock, and it is the one with the least ticket not done with. */
  lemma OneHolderInTicketOrder(run: seq<State>, i: nat, t: nat, u: nat)
    requires Run(run) && i < |run| && !run[i].undefined && t < |run[i].threads| && u < |run[i].threads|
    requires InTurn(run[i].threads[t]) && InTurn(run[i].threads[u])
    ensures t == u && run[i].threads[t].tkt !in run[i].done
    ensures forall p: nat :: p < run[i].threads[t].tkt ==> p in run[i].done
  {
    RunInv(run, i, i);
    hide Bit, Pow2;
    var s := run[i];
    assert ThreadOk(s.given, s.done, s.cur, s.threads[t]) && ThreadOk(s.given, s.done, s.cur, s.threads[u]);
    assert Has(s.threads[t], s.cur) && Has(s.threads[u], s.cur);
  }

  /** In every state the lock word is the one that stands for the tickets released and skipped; a release never finds
      another ticket being served. */
  lemma LockStandsForDone(run: seq<State>, i: nat, k: nat, t: nat)
    requires Run(run) && i < |run| && !run[i].undefined && t < |run[i].threads|
    ensures var s := run[i];
            && s.lock.cur == Wrap(s.cur) && s.cur !in s.done && (k < s.cur ==> k in s.done)
            && (Bit(s.lock.mask, k) <==> s.cur + 1 + k in s.done)
            && (k in s.done ==> k <= s.cur + MaskBits)
    ensures !run[i].threads[t].Refused?
  {
    RunInv(run, i, i);
    hide Bit, Pow2;
    assert ThreadOk(run[i].given, run[i].done, run[i].cur, run[i].threads[t]);
  }

  ghost predicate Working(threads: seq<Thread>, tkt: nat) {
    exists t :: 0 <= t < |threads| && !threads[t].Idle? && threads[t].tkt == tkt
  }

  /** Every ticket used has been released or skipped or is that of a call in progress, or of a holder. */
  ghost predicate Accounted(s: State) { forall p :: p in s.given ==> p in s.done || Working(s.threads, p) }

  lemma StepWorks(s: State, s': State, t: nat)
    requires Step(s, s', t)
    ensures |s'.threads| == |s.threads| && s'.threads == s.threads[t := s'.threads[t]] && s.done <= s'.done
    ensures !s.threads[t].Idle? ==>
              s.threads[t].tkt in s'.done || (!s'.threads[t].Idle? && s'.threads[t].tkt == s.threads[t].tkt)
    ensures forall p :: p in s'.given ==> p in s.given || (!s'.threads[t].Idle? && s'.threads[t].tkt == p)
  {
    hide Released, Advance, Not, Or, ShiftLeft, Wrap, Pow2;
  }

  lemma StillAccounted(s: State, s': State, t: nat)
    requires Accounted(s) && Step(s, s', t)
    ensures Accounted(s')
  {
    StepWorks(s, s', t);
    hide Step;
    forall p | p in s'.given ensures p in s'.done || Working(s'.threads, p) {
      if p in s.given && p !in s.done {
        var u :| 0 <= u < |s.threads| && !s.threads[u].Idle? && s.threads[u].tkt == p;
        assert u != t ==> !s'.threads[u].Idle? && s'.threads[u].tkt == p;
      } else if p !in s.given {
        assert !s'.threads[t].Idle? && s'.threads[t].tkt == p;
      }
    }
  }

  /** Every ticket used so far has been released or skipped, or its owner has not returned; so when all are idle, every
      ticket is done with. */
  lemma {:induction false} GivenIsDone(run: seq<State>, i: nat)
    requires Run(run) && i < |run|
    ensures Accounted(run[i])
    ensures (forall t :: 0 <= t < |run[i].threads| ==> run[i].threads[t].Idle?) ==> run[i].given <= run[i].done
  {
    if 0 < i {
      GivenIsDone(run, i - 1);
      assert Next(run[i - 1], run[i]);
      hide Run, Step, Accounted;
      var t: nat :| Step(run[i - 1], run[i], t);
      StillAccounted(run[i - 1], run[i], t);
    }
    assert Accounted(run[i]);
  }

  /** A release behind 96 adjacent skipped tickets, complemented in 96 bits. */
  ghost predicate CountsZero(s: State, s': State) {
    exists t: nat :: CountsZeroBy(s, s', t)
  }

  ghost predicate CountsZeroBy(s: State, s': State, t: nat) {
    && Step(s, s', t) && s.threads[t].ReleaseCas? && s.lock == s.threads[t].seen && s'.threads[t].Idle?
    && s.wide == MaskBits && AllSkipped(s.done, s.cur)
  }

  /** All this holds in exactly the runs without such a release: never when the complement is taken in 128 bits, and never
      while fewer than 96 adjacent tickets are skipped. */
  lemma {:induction false} UndefinedIff(run: seq<State>, i: nat)
    requires Run(run) && i < |run|
    ensures run[i].undefined <==> exists k :: 0 <= k < i && CountsZero(run[k], run[k + 1])
  {
    hide Next, CountsZero, Inv;
    if i > 0 {
      UndefinedIff(run, i - 1);
      var s, s' := run[i - 1], run[i - 1 + 1];
      assert Next(s, s');
      UndefinedStays(s, s');
      if !s.undefined {
        RunInv(run, i - 1, i - 1);
        UndefinedStep(s, s');
      }
      forall k | 0 <= k < i && CountsZero(run[k], run[k + 1]) ensures run[i].undefined {
        if k < i - 1 {
          assert s.undefined;
        }
      }
      if run[i].undefined && !s.undefined {
        assert CountsZero(run[i - 1], run[i - 1 + 1]);
      }
    }
  }

  lemma UndefinedStays(s: State, s': State)
    requires Next(s, s')
    ensures s.undefined ==> s'.undefined
    ensures s'.wide == s.wide
  {
    hide Step;
    var t: nat :| Step(s, s', t);
    StepUndefined(s, s', t);
  }

  lemma UndefinedStep(s: State, s': State)
    requires Inv(s) && Next(s, s')
    ensures s'.undefined <==> CountsZero(s, s')
  {
    hide *;
    if CountsZero(s, s') {
      var t := WhoCounts(s, s');
      UndefinedBy(s, s', t);
    } else {
      var t := WhoSteps(s, s');
      UndefinedBy(s, s', t);
      if s'.undefined {
        Counts(s, s', t);
      }
    }
  }

  lemma WhoCounts(s: State, s': State) returns (t: nat)
    requires CountsZero(s, s')
    ensures CountsZeroBy(s, s', t) && Step(s, s', t)
  {
    t :| CountsZeroBy(s, s', t);
    hide Step, AllSkipped;
  }

  lemma WhoSteps(s: State, s': State) returns (t: nat)
    requires Next(s, s')
    ensures Step(s, s', t)
  {
    t :| Step(s, s', t);
  }

  lemma Counts(s: State, s': State, t: nat)
    requires CountsZeroBy(s, s', t)
    ensures CountsZero(s, s')
  {
  }

  lemma UndefinedBy(s: State, s': State, t: nat)
    requires Inv(s) && Step(s, s', t)
    ensures s'.undefined <==> CountsZeroBy(s, s', t)
  {
    ZeroComplementIff(s.lock, s.done, s.cur, s.wide);
    hide StandsFor, AllSkipped, Distinct, ThreadOk, Released, Advance, Not, Or, ShiftLeft, Wrap, Pow2;
  }

  /** So the lock word is right in every run in which fewer than 96 adjacent tickets are ever skipped behind the current
      one, and in every run when the complement is taken in 128 bits. */
  lemma {:induction false} DefinedUnlessFull(run: seq<State>, i: nat)
    requires Run(run) && i < |run|
    requires run[0].wide == 128 || forall k :: 0 <= k < i ==> !AllSkipped(run[k].done, run[k].cur)
    ensures !run[i].undefined
  {
    hide Init, Step, AllSkipped;
    WideStays(run, i);
    UndefinedIff(run, i);
    forall k | 0 <= k < i ensures !CountsZero(run[k], run[k + 1]) {
      WideStays(run, k);
    }
  }

  lemma {:induction false} WideStays(run: seq<State>, i: nat)
    requires Run(run) && i < |run|
    ensures run[i].wide == run[0].wide
  {
    hide Init, Step;
    if i > 0 {
      WideStays(run, i - 1);
      assert Next(run[i - 1], run[i - 1 + 1]);
      hide Next;
      UndefinedStays(run[i - 1], run[i]);
    }
  }

  // ---------- a run that goes wrong ----------

  predicate Behind(p: nat) { 0 < p }

  /** The tickets 1 to n. */
  function Upto(n: nat): (r: set<nat>)
    ensures forall p: nat :: p in r <==> 0 < p <= n
  {
    set p: nat | p <= n && Behind(p)
  }

  /** Thread 0 waits with nothing done yet, thread 1 has skipped tickets 1 to n. */
  function Skipped(n: nat): State {
    State(Lock(0, Ones(n)), [Idle, Idle], MaskBits, Upto(n), Upto(n), 0, false)
  }

  lemma {:induction false} OneMore(n: nat)
    ensures Or(Ones(n), ShiftLeft(1, n)) == Ones(n + 1)
  {
    if n > 0 {
      OneMore(n - 1);
      DoubledOnes(n - 1);
      DoubledOnes(n);
      hide Or, Ones, ShiftLeft;
      OrDoubled(Ones(n - 1), ShiftLeft(1, n - 1));
    }
  }

  lemma DoubledOnes(n: nat)
    ensures Ones(n + 1) == 2 * Ones(n) + 1 && ShiftLeft(1, n + 1) == 2 * ShiftLeft(1, n)
  {
  }

  lemma OrDoubled(a: nat, b: nat)
    ensures Or(2 * a + 1, 2 * b) == 2 * Or(a, b) + 1
  {
  }

  /** Thread 1 starts to skip a ticket, up to its compare-and-swap. */
  lemma StartSkip(s: State, tkt: nat, given: set<nat>) returns (s1: State, s2: State, s3: State)
    requires s.threads == [Idle, Idle] && s.lock.cur == 0 && 0 < tkt <= MaskBits && tkt !in s.given
    requires given == s.given + {tkt}
    ensures Next(s, s1) && Next(s1, s2) && Next(s2, s3)
    ensures s3 == s.(given := given, threads := [Idle, SkipCas(tkt, s.lock)])
  {
    s1 := s.(given := given, threads := [Idle, SkipWait(tkt)]);
    s2 := s1.(threads := [Idle, Skip(tkt)]);
    s3 := s1.(threads := [Idle, SkipCas(tkt, s.lock)]);
    hide AcquireStep, ReleaseStep;
    assert Start(s, s1, 1, SkipWait(tkt)) && Step(s, s1, 1);
    assert SkipStep(s1, s2, 1, SkipWait(tkt)) && Step(s1, s2, 1);
    assert SkipStep(s2, s3, 1, Skip(tkt)) && Step(s2, s3, 1);
  }

  lemma EndSkip(s: State, tkt: nat, mask: nat, done: set<nat>) returns (s': State)
    requires s.threads == [Idle, SkipCas(tkt, s.lock)] && s.lock.cur == 0 && 0 < tkt <= MaskBits
    requires mask == Or(s.lock.mask, ShiftLeft(1, tkt - 1)) && done == s.done + {tkt}
    ensures Next(s, s') && s' == s.(lock := Lock(0, mask), done := done, threads := [Idle, Idle])
  {
    hide Or, ShiftLeft, AcquireStep, ReleaseStep;
    s' := s.(lock := Lock(0, mask), done := done, threads := [Idle, Idle]);
    assert SkipStep(s, s', 1, s.threads[1]) && Step(s, s', 1);
  }

  lemma Extended(run: seq<State>, s1: State, s2: State, s3: State, s4: State) returns (longer: seq<State>)
    requires Run(run) && Next(run[|run| - 1], s1) && Next(s1, s2) && Next(s2, s3) && Next(s3, s4)
    ensures Run(longer) && |longer| == |run| + 4 && longer[|longer| - 1] == s4
  {
    hide Next, Init;
    longer := run + [s1, s2, s3, s4];
  }

  lemma SkipNext(run: seq<State>, n: nat) returns (longer: seq<State>)
    requires Run(run) && n < MaskBits && run[|run| - 1] == Skipped(n)
    ensures Run(longer) && longer[|longer| - 1] == Skipped(n + 1)
  {
    assert |run| > 0;
    hide Ones, Or, ShiftLeft, Upto, Run, Next;
    OneMore(n);
    UptoNext(n);
    var s1, s2, s3 := StartSkip(run[|run| - 1], n + 1, Upto(n + 1));
    var s4 := EndSkip(s3, n + 1, Ones(n + 1), Upto(n + 1));
    longer := Extended(run, s1, s2, s3, s4);
  }

  lemma UptoNext(n: nat)
    ensures Upto(n) + {n + 1} == Upto(n + 1)
  {
  }

  lemma {:induction false} SkipAll(n: nat) returns (run: seq<State>)
    requires n <= MaskBits
    ensures Run(run) && run[|run| - 1] == Skipped(n)
  {
    if n == 0 {
      run := [Skipped(0)];
    } else {
      var before := SkipAll(n - 1);
      hide Run, Skipped;
      run := SkipNext(before, n - 1);
    }
  }

  /** Thread 0 acquires ticket 0 and starts to release it. */
  lemma StartRelease(s: State, given: set<nat>) returns (s1: State, s2: State, s3: State, s4: State)
    requires s.threads == [Idle, Idle] && s.lock.cur == 0 && 0 !in s.given && given == s.given + {0}
    ensures Next(s, s1) && Next(s1, s2) && Next(s2, s3) && Next(s3, s4)
    ensures s4 == s.(given := given, threads := [ReleaseCas(0, s.lock), Idle])
  {
    s1 := s.(given := given, threads := [Acquire(0), Idle]);
    s2 := s1.(threads := [Hold(0), Idle]);
    s3 := s1.(threads := [Release(0), Idle]);
    s4 := s1.(threads := [ReleaseCas(0, s.lock), Idle]);
    hide SkipStep, Leaves;
    assert Start(s, s1, 0, Acquire(0)) && Step(s, s1, 0);
    assert AcquireStep(s1, s2, 0, Acquire(0)) && Step(s1, s2, 0);
    assert AcquireStep(s2, s3, 0, Hold(0)) && Step(s2, s3, 0);
    assert ReleaseStep(s3, s4, 0, Release(0)) && Step(s3, s4, 0);
  }

  /** And releases it with all 96 tickets skipped; `count` is what the undefined count yields. */
  lemma ReleaseFull(s: State, done: set<nat>, count: nat) returns (s': State)
    requires s.threads == [ReleaseCas(0, s.lock), Idle] && s.wide == MaskBits && s.lock == Lock(0, Ones(MaskBits))
    requires done == s.done + {0} && s.cur == 0
    ensures Next(s, s')
    ensures s' == s.(lock := Released(s.lock, 65 + count), threads := [Idle, Idle], done := done, cur := 65 + count,
                     undefined := true)
  {
    assert Not(Ones(MaskBits), MaskBits) == 0 && Ones(MaskBits) < Pow2(MaskBits);
    hide Ones, Not, Pow2, Released, SkipStep, AcquireStep;
    s' := s.(lock := Released(s.lock, 65 + count), threads := [Idle, Idle], done := done, cur := 65 + count,
             undefined := true);
    assert Leaves(s, s', 0, 0, s.lock, count) && ReleaseStep(s, s', 0, s.threads[0]) && Step(s, s', 0);
  }

  lemma Appended(run: seq<State>, s: State) returns (longer: seq<State>)
    requires Run(run) && Next(run[|run| - 1], s)
    ensures Run(longer) && longer[|longer| - 1] == s
  {
    hide Next, Init;
    longer := run + [s];
  }

  /** The concrete run: thread 1 skips tickets 1 to 96, thread 0 acquires and releases ticket 0. With a count of 64, which
      counting instructions give for zero, the lock is passed to ticket 129 over the tickets 97 to 128, which nobody has
      skipped, and the assertion about the advance fails. */
  lemma FullExample() returns (run: seq<State>)
    ensures Run(run)
    ensures var s := run[|run| - 1];
            && s.lock == Lock(129, 0) && s.cur == 129 && 129 > MaskBits + 1 && s.undefined
            && s.threads == [Idle, Idle] && forall p: nat :: 96 < p < 129 ==> p !in s.done
  {
    var skipped := SkipAll(MaskBits);
    hide Run, Next, Ones, ShiftRight, Upto;
    var given := Upto(MaskBits) + {0};
    var s1, s2, s3, s4 := StartRelease(skipped[|skipped| - 1], given);
    var s5 := ReleaseFull(s4, given, 64);
    var before := Extended(skipped, s1, s2, s3, s4);
    run := Appended(before, s5);
  }
}

/** What the calls of the timers answer and achieve, in terms of their arguments. */
module TimerCalls {
  import opened Timer

  /** `SetCall` stands for set and, of an active timer, reset; with the invalid tick it is cancel. */
  datatype Call = SetCall(idx: nat, exp: Tick, active: bool) | ExpireCall | TickCall(tck: Tick)

  function First(c: Call): Thread {
    match c
    case SetCall(idx, exp, active) => Set(idx, exp, active, SetLoad)
    case ExpireCall => LoadNow
    case TickCall(tck) => TickLoad(tck)
  }

  /** Between moments k and k + 1 thread t has not begun another call. */
  ghost predicate NotAgain(run: seq<State>, k: nat, t: nat) {
    && k + 1 < |run| && t < |run[k].threads| && t < |run[k + 1].threads|
    && (!run[k].threads[t].Idle? || run[k + 1].threads[t] == run[k].threads[t])
  }

  /** The latest call of thread t at moment j: it began with the step after moment a. */
  ghost predicate Called(run: seq<State>, a: nat, j: nat, t: nat, c: Call) {
    && a < j < |run| && t < |run[a].threads| && t < |run[j].threads|
    && Start(run[a], run[a + 1], t, First(c))
    && forall k :: a < k < j ==> NotAgain(run, k, t)
  }

  // ---------- set, reset and cancel ----------

  /** The timer is in the state that the call requires. */
  predicate Fit(s: State, idx: nat, active: bool) { idx < |s.exps| && (active <==> s.exps[idx] != Invalid) }

  /** The step of a call that is done: the timer's old arming ends and its new one begins. */
  ghost predicate Armed(s: State, s': State, idx: nat, exp: Tick, active: bool) {
    && Fit(s, idx, active) && s'.exps == s.exps[idx := exp] && |s.arm| == |s.exps| == |s'.arm|
    && (active ==> s.arm[idx] < |s.armings| <= |s'.armings| && s.armings[s.arm[idx]] == Arming(idx, s.exps[idx], Active)
                   && s'.armings[s.arm[idx]].fate == if exp == Invalid then Cancelled else Replaced)
    && (exp != Invalid ==> |s'.armings| == |s.armings| + 1 && s'.arm[idx] == |s.armings|
                           && s'.armings[|s.armings|] == Arming(idx, exp, Active))
  }

  ghost predicate SetOk(run: seq<State>, b: nat, j: nat, th: Thread, idx: nat, exp: Tick, active: bool)
    requires b <= j < |run|
  {
    match th
    case Set(idx', exp', active', spc) =>
      && idx' == idx && exp' == exp && active' == active && (spc.SetCas? ==> (active <==> spc.seen != Invalid))
    case MinLoad(_) => b < j && Armed(run[b], run[b + 1], idx, exp, active)
    case MinCas(_, _) => b < j && Armed(run[b], run[b + 1], idx, exp, active)
    case Idle(ok) => if ok then b < j && Armed(run[b], run[b + 1], idx, exp, active) else !Fit(run[b], idx, active)
    case _ => false
  }

  // ---------- expire and tick ----------

  /** Whatever was active at moment b and due at the given tick has an end at moment j, or is being taken care of by a call
      in progress at moment b. */
  ghost predicate Expired(s: State, s': State, tick: Tick) {
    forall id :: 0 <= id < |s.armings| && s.armings[id].fate.Active? && s.armings[id].exp <= tick ==>
      (id < |s'.armings| && !s'.armings[id].fate.Active?) || Attended(s, s.armings[id])
  }

  ghost predicate Attended(s: State, arming: Arming) {
    exists u :: 0 <= u < |s.threads| && Covers(s.threads[u], arming.timer, arming.exp)
  }

  ghost predicate ExpireOk(run: seq<State>, b: nat, j: nat, th: Thread, tick: Tick)
    requires b <= j < |run|
  {
    match th
    case LoadNow => tick <= run[j].current
    case LoadEarliest(now) => tick <= now
    case Reset(now) => tick <= now
    case Scan(now, _, _, _, due, _) => tick <= now && due == Due(run[b].armings, now)
    case Scanned(_, _, _) => Expired(run[b], run[j], tick)
    case MinLoad(_) => Expired(run[b], run[j], tick)
    case MinCas(_, _) => Expired(run[b], run[j], tick)
    case Idle(_) => Expired(run[b], run[j], tick)
    case _ => false
  }

  predicate TickOk(now: State, th: Thread, tck: Tick) {
    match th
    case TickLoad(tck') => tck' == tck
    case TickCas(tck', _) => tck' == tck
    case Idle(_) => tck <= now.current
    case _ => false
  }

  ghost predicate CallOk(run: seq<State>, a: nat, b: nat, j: nat, th: Thread, c: Call)
    requires a <= b <= j < |run|
  {
    match c
    case SetCall(idx, exp, active) => SetOk(run, b, j, th, idx, exp, active)
    case ExpireCall => ExpireOk(run, b, j, th, run[a].current)
    case TickCall(tck) => TickOk(run[j], th, tck)
  }

  // ---------- one step ----------

  lemma SetMoves(run: seq<State>, b: nat, i: nat, t: nat, idx: nat, exp: Tick, active: bool) returns (b': nat)
    requires b <= i && i + 1 < |run| && Inv(run[i]) && Step(run[i], run[i + 1], t) && !run[i].threads[t].Idle?
    requires SetOk(run, b, i, run[i].threads[t], idx, exp, active)
    ensures b <= b' <= i && |run[i + 1].threads| == |run[i].threads|
    ensures SetOk(run, b', i + 1, run[i + 1].threads[t], idx, exp, active)
  {
    b' := if run[i].threads[t].Set? then i else b;
    hide Covered, ThreadOk;
  }

  lemma ExpireMoves(run: seq<State>, b: nat, i: nat, t: nat, tick: Tick) returns (b': nat)
    requires b <= i && i + 1 < |run| && Inv(run[i]) && Inv(run[i + 1]) && Onward(run[i], run[i + 1])
    requires Step(run[i], run[i + 1], t) && !run[i].threads[t].Idle? && ExpireOk(run, b, i, run[i].threads[t], tick)
    ensures b <= b' <= i && |run[i + 1].threads| == |run[i].threads|
    ensures ExpireOk(run, b', i + 1, run[i + 1].threads[t], tick)
  {
    var s, s' := run[i], run[i + 1];
    var th := s.threads[t];
    b' := if th.LoadEarliest? || th.Reset? then i else b;
    assert ThreadOk(s.exps, s.armings, s.current, th);
    if th.Scan? && s'.threads[t].Scanned? {
      assert ThreadOk(s'.exps, s'.armings, s'.current, s'.threads[t]);
      assert Expired(run[b], s', tick);
    }
  }

  lemma TickMoves(s: State, s': State, t: nat, tck: Tick)
    requires Step(s, s', t) && !s.threads[t].Idle? && TickOk(s, s.threads[t], tck)
    ensures |s'.threads| == |s.threads| && TickOk(s', s'.threads[t], tck)
  {
  }

  /** A step changes only the thread that takes it. */
  lemma Mine(s: State, s': State, u: nat)
    requires Step(s, s', u)
    ensures u < |s.threads| && |s'.threads| == |s.threads| && s'.threads == s.threads[u := s'.threads[u]]
  {
    hide Rearm, Due;
  }

  lemma Kept(run: seq<State>, a: nat, b: nat, i: nat, th: Thread, c: Call)
    requires a <= b <= i && i + 1 < |run| && CallOk(run, a, b, i, th, c)
    requires Onward(run[b], run[i]) && Onward(run[i], run[i + 1])
    ensures CallOk(run, a, b, i + 1, th, c)
  {
    hide Armed, Attended;
  }

  lemma MyMoment(run: seq<State>, a: nat, b: nat, i: nat, t: nat, c: Call) returns (b': nat)
    requires a <= b <= i && i + 1 < |run| && Inv(run[i]) && Inv(run[i + 1]) && Onward(run[i], run[i + 1])
    requires Step(run[i], run[i + 1], t) && !run[i].threads[t].Idle? && CallOk(run, a, b, i, run[i].threads[t], c)
    ensures b <= b' <= i && |run[i + 1].threads| == |run[i].threads|
    ensures CallOk(run, a, b', i + 1, run[i + 1].threads[t], c)
  {
    assert t < |run[i].threads|;
    hide SetOk, ExpireOk, TickOk, Inv, Step;
    match c
    case SetCall(idx, exp, active) => b' := SetMoves(run, b, i, t, idx, exp, active);
    case ExpireCall => b' := ExpireMoves(run, b, i, t, run[a].current);
    case TickCall(tck) =>
      b' := b;
      TickMoves(run[i], run[i + 1], t, tck);
  }

  lemma OneMoment(run: seq<State>, a: nat, b: nat, i: nat, t: nat, c: Call) returns (b': nat)
    requires Run(run) && a <= b <= i && NotAgain(run, i, t) && CallOk(run, a, b, i, run[i].threads[t], c)
    ensures b <= b' <= i && CallOk(run, a, b', i + 1, run[i + 1].threads[t], c)
  {
    assert Next(run[i], run[i + 1]);
    RunInv(run, b, i);
    RunInv(run, i, i + 1);
    hide Run, Step, CallOk, Inv, Onward;
    b' := b;
    var u: nat :| Step(run[i], run[i + 1], u);
    Mine(run[i], run[i + 1], u);
    if u == t && !run[i].threads[t].Idle? {
      b' := MyMoment(run, a, b, i, t, c);
    } else {
      Kept(run, a, b, i, run[i].threads[t], c);
    }
  }

  /** At every moment of a call, and after it; b is the moment that decided it. */
  lemma {:induction false} DuringCall(run: seq<State>, a: nat, j: nat, t: nat, c: Call) returns (b: nat)
    requires Run(run) && Called(run, a, j, t, c)
    ensures a <= b <= j && CallOk(run, a, b, j, run[j].threads[t], c)
  {
    hide Run, CallOk;
    if j == a + 1 {
      b := a;
      AtStart(run, a, t, c);
    } else {
      assert NotAgain(run, j - 1, t) && Called(run, a, j - 1, t, c);
      hide Called, NotAgain;
      b := DuringCall(run, a, j - 1, t, c);
      b := OneMoment(run, a, b, j - 1, t, c);
    }
  }

  lemma AtStart(run: seq<State>, a: nat, t: nat, c: Call)
    requires Called(run, a, a + 1, t, c)
    ensures CallOk(run, a, a, a + 1, run[a + 1].threads[t], c)
  {
  }

  // ---------- the answers ----------

  /** Set, reset and cancel return true when in one step of the call the timer, which was inactive for set and active for
      the others, went to the new expiration, its old arming ended and its new one began; they return false when there is
      no such timer or it was not in that state at a moment of the call. */
  lemma SetAnswer(run: seq<State>, a: nat, j: nat, t: nat, idx: nat, exp: Tick, active: bool) returns (b: nat)
    requires Run(run) && Called(run, a, j, t, SetCall(idx, exp, active)) && run[j].threads[t].Idle?
    ensures a <= b <= j
    ensures if run[j].threads[t].ok then b < j && Armed(run[b], run[b + 1], idx, exp, active) else !Fit(run[b], idx, active)
  {
    b := DuringCall(run, a, j, t, SetCall(idx, exp, active));
  }

  /** When a call of expire returns, every arming that was active at a moment of the call and due at the tick of its
      beginning has an end, or a call of another thread was in progress that takes care of it. */
  lemma ExpireAnswer(run: seq<State>, a: nat, j: nat, t: nat) returns (b: nat)
    requires Run(run) && Called(run, a, j, t, ExpireCall) && run[j].threads[t].Idle?
    ensures a <= b <= j && Expired(run[b], run[j], run[a].current)
  {
    b := DuringCall(run, a, j, t, ExpireCall);
  }

  /** Once the tick has been set, time is not before it. */
  lemma TickAnswer(run: seq<State>, a: nat, j: nat, t: nat, tck: Tick)
    requires Run(run) && Called(run, a, j, t, TickCall(tck)) && run[j].threads[t].Idle?
    ensures tck <= run[j].current
  {
    var b := DuringCall(run, a, j, t, TickCall(tck));
  }

  lemma GoesOn(run: seq<State>, a: nat, i: nat, t: nat, c: Call)
    requires Called(run, a, i, t, c) && NotAgain(run, i, t)
    ensures Called(run, a, i + 1, t, c)
  {
  }

  /** Whoever is at work has been called. */
  lemma {:induction false} WorkOfCall(run: seq<State>, j: nat, t: nat) returns (a: nat, c: Call)
    requires Run(run) && j < |run| && t < |run[j].threads| && !run[j].threads[t].Idle?
    ensures Called(run, a, j, t, c)
  {
    assert j > 0;
    var i := j - 1;
    assert Next(run[i], run[j]);
    hide Run, Step, Called;
    var u: nat :| Step(run[i], run[j], u);
    Mine(run[i], run[j], u);
    if run[i].threads[t].Idle? {
      a := i;
      c := Begun(run, i, t);
    } else {
      a, c := WorkOfCall(run, i, t);
      GoesOn(run, a, i, t, c);
    }
  }

  lemma Begun(run: seq<State>, i: nat, t: nat) returns (c: Call)
    requires i + 1 < |run| && Step(run[i], run[i + 1], t) && run[i].threads[t].Idle? && t < |run[i + 1].threads|
    ensures Called(run, i, i + 1, t, c)
  {
    var th' :| Start(run[i], run[i + 1], t, th');
    if th'.Set? {
      c := SetCall(th'.idx, th'.exp, th'.active);
    } else if th'.LoadNow? {
      c := ExpireCall;
    } else {
      c := TickCall(th'.tck);
    }
  }
}

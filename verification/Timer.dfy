/** The timer array and its `earliest` hint as a machine of atomic steps, for a fixed set of allocated timers. A call
    made from a timer's call-back behaves like a call of another thread, so call-backs need no frames of their own. */
module Timer {
  const Invalid: nat := 0xFFFF_FFFF_FFFF_FFFF

  type Tick = t: nat | t <= Invalid

  /** What became of one arming of a timer; `Fired` remembers the tick its caller worked with. */
  datatype Fate = Active | Fired(now: Tick) | Cancelled | Replaced

  datatype Arming = Arming(timer: nat, exp: Tick, fate: Fate)

  datatype SetPc = SetLoad | SetCas(seen: Tick)

  datatype ScanPc = Scanning | ExpLoad | ExpCas(exp: Tick)

  /** `Idle` remembers what the last call has returned. A scan has read the first |vals| timers ahead and dealt with the
      first `next`; `low` is its local minimum, and `due` are the armings that were active and due when it started
      (history). */
  datatype Thread =
    | Idle(ok: bool)
    | Set(idx: nat, exp: Tick, active: bool, spc: SetPc)
    | MinLoad(exp: Tick)
    | MinCas(exp: Tick, seen: Tick)
    | LoadNow
    | LoadEarliest(now: Tick)
    | Reset(now: Tick)
    | Scan(now: Tick, vals: seq<Tick>, next: nat, low: Tick, due: set<nat>, epc: ScanPc)
    | Scanned(now: Tick, due: set<nat>, low: Tick)
    | TickLoad(tck: Tick)
    | TickCas(tck: Tick, seen: Tick)

  /** `armings` is the history of all armings, `arm` the latest one of each timer. */
  datatype State = State(earliest: Tick, current: Tick, exps: seq<Tick>, arm: seq<nat>, armings: seq<Arming>,
                         threads: seq<Thread>)

  ghost predicate Init(s: State) {
    && s.earliest == Invalid && s.current == 0 && |s.arm| == |s.exps| && s.armings == []
    && (forall i :: 0 <= i < |s.exps| ==> s.exps[i] == Invalid)
    && forall t :: 0 <= t < |s.threads| ==> s.threads[t].Idle?
  }

  // ---------- set, reset and cancel ----------

  /** The history after timer idx went from the seen expiration to exp. */
  function Rearm(armings: seq<Arming>, arm: seq<nat>, idx: nat, seen: Tick, exp: Tick): (r: (seq<Arming>, seq<nat>))
    requires idx < |arm| && (seen != Invalid ==> arm[idx] < |armings|)
  {
    var ended := if seen == Invalid then armings
                 else armings[arm[idx] := armings[arm[idx]].(fate := if exp == Invalid then Cancelled else Replaced)];
    if exp == Invalid then (ended, arm) else (ended + [Arming(idx, exp, Active)], arm[idx := |armings|])
  }

  ghost predicate SetStep(s: State, s': State, t: nat, th: Thread)
    requires t < |s.threads| && th.Set? && |s.arm| == |s.exps|
  {
    if |s.exps| <= th.idx then s' == s.(threads := s.threads[t := Idle(false)])
    else
      match th.spc
      case SetLoad =>
        var seen := s.exps[th.idx];
        var wrong := if th.active then seen == Invalid else seen != Invalid;
        s' == s.(threads := s.threads[t := if wrong then Idle(false) else th.(spc := SetCas(seen))])
      case SetCas(seen) =>
        if s.exps[th.idx] != seen then s' == s.(threads := s.threads[t := th.(spc := SetLoad)])
        else
          && (seen != Invalid ==> s.arm[th.idx] < |s.armings|)
          && var (armings, arm) := Rearm(s.armings, s.arm, th.idx, seen, th.exp);
             s' == s.(exps := s.exps[th.idx := th.exp], armings := armings, arm := arm,
                      threads := s.threads[t := if th.exp == Invalid then Idle(true) else MinLoad(th.exp)])
  }

  /** The atomic minimum on `earliest`. */
  predicate MinStep(s: State, s': State, t: nat, th: Thread)
    requires t < |s.threads| && (th.MinLoad? || th.MinCas?)
  {
    match th
    case MinLoad(exp) =>
      s' == s.(threads := s.threads[t := if exp >= s.earliest then Idle(true) else MinCas(exp, s.earliest)])
    case MinCas(exp, seen) =>
      if s.earliest == seen then s' == s.(earliest := exp, threads := s.threads[t := Idle(true)])
      else s' == s.(threads := s.threads[t := MinLoad(exp)])
  }

  // ---------- expire ----------

  /** The armings that are active and due. */
  function Due(armings: seq<Arming>, now: Tick): set<nat> {
    set id: nat | id < |armings| && armings[id].fate.Active? && armings[id].exp <= now
  }

  ghost predicate ScanStep(s: State, s': State, t: nat, th: Thread)
    requires t < |s.threads| && th.Scan? && |s.arm| == |s.exps| && th.next <= |th.vals| <= |s.exps|
  {
    match th.epc
    case Scanning =>
      || (|th.vals| < |s.exps| && s' == s.(threads := s.threads[t := th.(vals := th.vals + [s.exps[|th.vals|]])]))
      || (th.next < |th.vals| &&
          s' == s.(threads := s.threads[t :=
            if th.vals[th.next] <= th.now then th.(epc := ExpLoad)
            else th.(next := th.next + 1, low := if th.vals[th.next] < th.low then th.vals[th.next] else th.low)]))
      || (th.next == |s.exps| && s' == s.(threads := s.threads[t := Scanned(th.now, th.due, th.low)]))
    case ExpLoad =>
      && th.next < |s.exps|
      && var exp := s.exps[th.next];
         s' == s.(threads := s.threads[t := if exp <= th.now then th.(epc := ExpCas(exp))
                                            else th.(next := th.next + 1, epc := Scanning)])
    case ExpCas(exp) =>
      && th.next < |s.exps|
      && if s.exps[th.next] != exp then s' == s.(threads := s.threads[t := th.(epc := ExpLoad)])
         else
           && var id := s.arm[th.next];
              && id < |s.armings|
              && s' == s.(exps := s.exps[th.next := Invalid],
                          armings := s.armings[id := s.armings[id].(fate := Fired(th.now))],
                          threads := s.threads[t := th.(next := th.next + 1, epc := Scanning)])
  }

  predicate ExpireStep(s: State, s': State, t: nat, th: Thread)
    requires t < |s.threads| && (th.LoadNow? || th.LoadEarliest? || th.Reset? || th.Scanned?)
  {
    match th
    case LoadNow => s' == s.(threads := s.threads[t := LoadEarliest(s.current)])
    case LoadEarliest(now) => s' == s.(threads := s.threads[t := if s.earliest <= now then Reset(now) else Idle(true)])
    case Reset(now) =>
      s' == s.(earliest := Invalid,
               threads := s.threads[t := Scan(now, [], 0, Invalid, Due(s.armings, now), Scanning)])
    case Scanned(now, due, low) => s' == s.(threads := s.threads[t := MinLoad(low)])
  }

  predicate TickStep(s: State, s': State, t: nat, th: Thread)
    requires t < |s.threads| && (th.TickLoad? || th.TickCas?)
  {
    match th
    case TickLoad(tck) =>
      s' == s.(threads := s.threads[t := if tck <= s.current then Idle(true) else TickCas(tck, s.current)])
    case TickCas(tck, seen) =>
      if s.current == seen then s' == s.(current := tck, threads := s.threads[t := Idle(true)])
      else s' == s.(threads := s.threads[t := if tck <= s.current then Idle(true) else TickCas(tck, s.current)])
  }

  /** Set and reset refuse the invalid tick, cancel passes it for an active timer; time never becomes invalid. */
  predicate Start(s: State, s': State, t: nat, th': Thread)
    requires t < |s.threads|
  {
    && s.threads[t].Idle? && s' == s.(threads := s.threads[t := th'])
    && ((th'.Set? && th'.spc == SetLoad && (th'.exp == Invalid ==> th'.active))
        || th'.LoadNow?
        || (th'.TickLoad? && th'.tck != Invalid))
  }

  ghost predicate Step(s: State, s': State, t: nat) {
    && t < |s.threads| && |s.arm| == |s.exps|
    && var th := s.threads[t];
       || (th.Set? && SetStep(s, s', t, th))
       || ((th.MinLoad? || th.MinCas?) && MinStep(s, s', t, th))
       || (th.Scan? && th.next <= |th.vals| <= |s.exps| && ScanStep(s, s', t, th))
       || ((th.LoadNow? || th.LoadEarliest? || th.Reset? || th.Scanned?) && ExpireStep(s, s', t, th))
       || ((th.TickLoad? || th.TickCas?) && TickStep(s, s', t, th))
       || (exists th' :: Start(s, s', t, th'))
  }

  ghost predicate Next(s: State, s': State) { exists t: nat :: Step(s, s', t) }

  ghost predicate Run(run: seq<State>) {
    && |run| > 0 && Init(run[0])
    && forall i :: 0 <= i < |run| - 1 ==> Next(run[i], run[i + 1])
  }

  // ---------- the invariant ----------

  /** The active armings are exactly what the expirations say, and no timer fired early. */
  ghost predicate ArmingsOk(exps: seq<Tick>, arm: seq<nat>, armings: seq<Arming>, current: Tick) {
    && |arm| == |exps| && current != Invalid
    && (forall i :: 0 <= i < |exps| && exps[i] != Invalid ==>
          arm[i] < |armings| && armings[arm[i]] == Arming(i, exps[i], Active))
    && (forall id :: 0 <= id < |armings| && armings[id].fate.Active? ==>
          armings[id].timer < |exps| && arm[armings[id].timer] == id && exps[armings[id].timer] == armings[id].exp
          && armings[id].exp != Invalid)
    && forall id :: 0 <= id < |armings| && armings[id].fate.Fired? ==>
         armings[id].exp <= armings[id].fate.now <= current
  }

  /** The call in progress in this thread will bring `earliest` down to e, or deal with timer i. */
  predicate Covers(th: Thread, i: nat, e: Tick) {
    match th
    case MinLoad(exp) => exp <= e
    case MinCas(exp, _) => exp <= e
    case Scan(now, vals, next, low, _, _) =>
      low <= e || |vals| <= i || (next <= i && if vals[i] <= now then e <= now else vals[i] <= e)
    case Scanned(_, _, low) => low <= e
    case _ => false
  }

  ghost predicate Covered(threads: seq<Thread>, earliest: Tick, i: nat, e: Tick) {
    e == Invalid || earliest <= e || exists t :: 0 <= t < |threads| && Covers(threads[t], i, e)
  }

  /** How far a scan is with one of the armings that were due when it started. */
  ghost predicate DueOk(armings: seq<Arming>, th: Thread, id: nat)
    requires th.Scan?
  {
    && id < |armings| && armings[id].exp <= th.now
    && (armings[id].fate.Active? ==>
          th.next <= armings[id].timer && (armings[id].timer < |th.vals| ==> th.vals[armings[id].timer] <= th.now))
  }

  ghost predicate ThreadOk(exps: seq<Tick>, armings: seq<Arming>, current: Tick, th: Thread) {
    match th
    case MinCas(exp, seen) => exp < seen
    case LoadEarliest(now) => now <= current
    case Reset(now) => now <= current
    case Scan(now, vals, next, low, due, epc) =>
      && now <= current && next <= |vals| <= |exps|
      && (!epc.Scanning? ==> next < |vals| && vals[next] <= now)
      && (epc.ExpCas? ==> epc.exp <= now)
      && forall id :: id in due ==> DueOk(armings, th, id)
    case Scanned(now, due, _) =>
      now <= current && forall id :: id in due ==> id < |armings| && !armings[id].fate.Active?
    case TickLoad(tck) => tck != Invalid
    case TickCas(tck, seen) => tck != Invalid && seen < tck
    case _ => true
  }

  ghost predicate Inv(s: State) {
    && ArmingsOk(s.exps, s.arm, s.armings, s.current)
    && (forall i :: 0 <= i < |s.exps| ==> Covered(s.threads, s.earliest, i, s.exps[i]))
    && forall t :: 0 <= t < |s.threads| ==> ThreadOk(s.exps, s.armings, s.current, s.threads[t])
  }

  // ---------- one step ----------

  /** An arming keeps its timer and expiration, and its fate once it has one; time does not run backwards. */
  ghost predicate Forward(armings: seq<Arming>, armings': seq<Arming>, current: Tick, current': Tick) {
    && current <= current' && |armings| <= |armings'|
    && forall id :: 0 <= id < |armings| ==>
         && armings'[id].timer == armings[id].timer && armings'[id].exp == armings[id].exp
         && (!armings[id].fate.Active? ==> armings'[id].fate == armings[id].fate)
  }

  ghost predicate Onward(s: State, s': State) {
    Forward(s.armings, s'.armings, s.current, s'.current)
  }

  lemma ThreadStays(exps: seq<Tick>, exps': seq<Tick>, armings: seq<Arming>, armings': seq<Arming>, current: Tick,
                    current': Tick, th: Thread)
    requires ThreadOk(exps, armings, current, th) && |exps'| == |exps| && Forward(armings, armings', current, current')
    ensures ThreadOk(exps', armings', current', th)
  {
    if th.Scan? {
      forall id | id in th.due ensures DueOk(armings', th, id) {
        assert DueOk(armings, th, id);
      }
    }
  }

  /** What is left to show for a step of thread t. */
  lemma Others(s: State, s': State, t: nat, th': Thread)
    requires Inv(s) && t < |s.threads| && s'.threads == s.threads[t := th'] && |s'.exps| == |s.exps|
    requires Onward(s, s') && ArmingsOk(s'.exps, s'.arm, s'.armings, s'.current)
    requires ThreadOk(s'.exps, s'.armings, s'.current, th')
    requires forall i :: 0 <= i < |s.exps| && s'.exps[i] != Invalid ==>
      || s'.earliest <= s'.exps[i] || Covers(th', i, s'.exps[i])
      || (s'.exps[i] == s.exps[i] && (s.earliest <= s.exps[i] ==> s'.earliest <= s.exps[i])
          && !Covers(s.threads[t], i, s.exps[i]))
    ensures Inv(s')
  {
    hide ArmingsOk;
    forall i | 0 <= i < |s'.exps| ensures Covered(s'.threads, s'.earliest, i, s'.exps[i]) {
      assert Covered(s.threads, s.earliest, i, s.exps[i]);
      assert s'.threads[t] == th';
      if s'.exps[i] != Invalid && !(s'.earliest <= s'.exps[i]) && !Covers(th', i, s'.exps[i]) {
        var u :| 0 <= u < |s.threads| && Covers(s.threads[u], i, s.exps[i]);
        assert Covers(s'.threads[u], i, s'.exps[i]);
      }
    }
    hide Covered, Forward, Covers;
    forall u | 0 <= u < |s'.threads| ensures ThreadOk(s'.exps, s'.armings, s'.current, s'.threads[u]) {
      if u != t {
        ThreadStays(s.exps, s'.exps, s.armings, s'.armings, s.current, s'.current, s.threads[u]);
      }
    }
  }

  /** Setting, resetting or cancelling a timer ends its active arming, if any, and may begin another. */
  lemma RearmOk(exps: seq<Tick>, arm: seq<nat>, armings: seq<Arming>, current: Tick, idx: nat, exp: Tick)
    requires ArmingsOk(exps, arm, armings, current) && idx < |exps|
    ensures exps[idx] != Invalid ==> arm[idx] < |armings|
    ensures var (armings', arm') := Rearm(armings, arm, idx, exps[idx], exp);
            ArmingsOk(exps[idx := exp], arm', armings', current) && Forward(armings, armings', current, current)
  {
  }

  lemma SetKeepsInv(s: State, s': State, t: nat)
    requires Inv(s) && t < |s.threads| && |s.arm| == |s.exps| && s.threads[t].Set? && SetStep(s, s', t, s.threads[t])
    ensures Inv(s') && Onward(s, s')
  {
    var th := s.threads[t];
    if th.idx < |s.exps| {
      RearmOk(s.exps, s.arm, s.armings, s.current, th.idx, th.exp);
    }
    hide Covered, ArmingsOk, Rearm;
    Others(s, s', t, s'.threads[t]);
  }

  lemma MinKeepsInv(s: State, s': State, t: nat)
    requires Inv(s) && t < |s.threads| && (s.threads[t].MinLoad? || s.threads[t].MinCas?)
    requires MinStep(s, s', t, s.threads[t])
    ensures Inv(s') && Onward(s, s')
  {
    hide Covered, ArmingsOk;
    assert ThreadOk(s.exps, s.armings, s.current, s.threads[t]);
    Others(s, s', t, s'.threads[t]);
  }

  lemma TickKeepsInv(s: State, s': State, t: nat)
    requires Inv(s) && t < |s.threads| && (s.threads[t].TickLoad? || s.threads[t].TickCas?)
    requires TickStep(s, s', t, s.threads[t])
    ensures Inv(s') && Onward(s, s')
  {
    hide Covered;
    assert ThreadOk(s.exps, s.armings, s.current, s.threads[t]);
    Others(s, s', t, s'.threads[t]);
  }

  lemma ExpireKeepsInv(s: State, s': State, t: nat)
    requires Inv(s) && t < |s.threads|
    requires s.threads[t].LoadNow? || s.threads[t].LoadEarliest? || s.threads[t].Reset? || s.threads[t].Scanned?
    requires ExpireStep(s, s', t, s.threads[t])
    ensures Inv(s') && Onward(s, s')
  {
    hide Covered;
    assert ThreadOk(s.exps, s.armings, s.current, s.threads[t]);
    Others(s, s', t, s'.threads[t]);
  }

  lemma ScanKeepsInv(s: State, s': State, t: nat)
    requires Inv(s) && t < |s.threads| && |s.arm| == |s.exps| && s.threads[t].Scan?
    requires s.threads[t].next <= |s.threads[t].vals| <= |s.exps| && ScanStep(s, s', t, s.threads[t])
    ensures Inv(s') && Onward(s, s')
  {
    var th := s.threads[t];
    if th.epc.ExpCas? && s.exps[th.next] == th.epc.exp {
      Fires(s, s', t);
    } else {
      ScanMoves(s, s', t);
    }
  }

  lemma Fires(s: State, s': State, t: nat)
    requires Inv(s) && t < |s.threads| && |s.arm| == |s.exps| && s.threads[t].Scan?
    requires s.threads[t].next <= |s.threads[t].vals| <= |s.exps| && ScanStep(s, s', t, s.threads[t])
    requires s.threads[t].epc.ExpCas? && s.exps[s.threads[t].next] == s.threads[t].epc.exp
    ensures Inv(s') && Onward(s, s')
  {
    hide Covered;
    var th := s.threads[t];
    assert ThreadOk(s.exps, s.armings, s.current, th);
    forall id | id in th.due ensures DueOk(s'.armings, s'.threads[t], id) {
      assert DueOk(s.armings, th, id);
    }
    hide DueOk;
    Others(s, s', t, s'.threads[t]);
  }

  /** The scan's steps that leave the shared state as it is. */
  lemma ScanMoves(s: State, s': State, t: nat)
    requires Inv(s) && t < |s.threads| && |s.arm| == |s.exps| && s.threads[t].Scan?
    requires s.threads[t].next <= |s.threads[t].vals| <= |s.exps| && ScanStep(s, s', t, s.threads[t])
    requires !(s.threads[t].epc.ExpCas? && s.exps[s.threads[t].next] == s.threads[t].epc.exp)
    ensures Inv(s') && Onward(s, s')
  {
    hide Covered;
    var th := s.threads[t];
    assert ThreadOk(s.exps, s.armings, s.current, th);
    var th' := s'.threads[t];
    assert s' == s.(threads := s.threads[t := th']);
    forall id | id in th.due
      ensures id < |s.armings| && (if th'.Scan? then DueOk(s.armings, th', id) else !s.armings[id].fate.Active?)
    {
      assert DueOk(s.armings, th, id);
    }
    hide ArmingsOk, DueOk;
    Others(s, s', t, th');
  }

  /** One step of any thread. */
  lemma StepKeepsInv(s: State, s': State, t: nat)
    requires Inv(s) && Step(s, s', t)
    ensures Inv(s') && Onward(s, s')
  {
    hide Inv, SetStep, MinStep, ScanStep, ExpireStep, TickStep;
    var th := s.threads[t];
    if th.Set? && SetStep(s, s', t, th) {
      SetKeepsInv(s, s', t);
    } else if (th.MinLoad? || th.MinCas?) && MinStep(s, s', t, th) {
      MinKeepsInv(s, s', t);
    } else if th.Scan? && th.next <= |th.vals| <= |s.exps| && ScanStep(s, s', t, th) {
      ScanKeepsInv(s, s', t);
    } else if (th.LoadNow? || th.LoadEarliest? || th.Reset? || th.Scanned?) && ExpireStep(s, s', t, th) {
      ExpireKeepsInv(s, s', t);
    } else if (th.TickLoad? || th.TickCas?) && TickStep(s, s', t, th) {
      TickKeepsInv(s, s', t);
    } else {
      var th' :| Start(s, s', t, th');
      StartKeepsInv(s, s', t, th');
    }
  }

  lemma StartKeepsInv(s: State, s': State, t: nat, th': Thread)
    requires Inv(s) && t < |s.threads| && Start(s, s', t, th')
    ensures Inv(s') && Onward(s, s')
  {
    hide Covered, ArmingsOk;
    Others(s, s', t, th');
  }

  lemma {:induction false} RunInv(run: seq<State>, i: nat, j: nat)
    requires Run(run) && i <= j < |run|
    ensures Inv(run[j]) && Onward(run[i], run[j])
  {
    hide Step;
    if j > 0 {
      RunInv(run, if i < j then i else j - 1, j - 1);
      assert Next(run[j - 1], run[j]);
      var t: nat :| Step(run[j - 1], run[j], t);
      hide Inv;
      StepKeepsInv(run[j - 1], run[j], t);
    }
  }

  // ---------- the properties ----------

  /** Whenever no call is in progress, `earliest` is at most every active expiration. */
  lemma EarliestAtRest(run: seq<State>, i: nat, k: nat)
    requires Run(run) && i < |run| && k < |run[i].exps|
    requires forall t :: 0 <= t < |run[i].threads| ==> run[i].threads[t].Idle?
    ensures run[i].earliest <= run[i].exps[k]
  {
    RunInv(run, i, i);
    assert Covered(run[i].threads, run[i].earliest, k, run[i].exps[k]);
  }

  /** A scan leaves no timer behind: every arming that was active and due when the scan began has an end when the scan
      is through, whoever brought it about. */
  lemma ScanSkipsNothing(run: seq<State>, i: nat, j: nat, t: nat, id: nat)
    requires Run(run) && i + 1 < j < |run| && t < |run[i].threads| && run[i].threads[t].Reset?
    requires forall k :: i < k < j ==> t < |run[k].threads| && run[k].threads[t].Scan?
    requires t < |run[j].threads| && run[j].threads[t].Scanned?
    requires id < |run[i].armings| && run[i].armings[id].fate.Active?
    requires run[i].armings[id].exp <= run[i].threads[t].now
    ensures id < |run[j].armings| && !run[j].armings[id].fate.Active?
  {
    DueKept(run, i, j, t);
    RunInv(run, j, j);
    assert ThreadOk(run[j].exps, run[j].armings, run[j].current, run[j].threads[t]);
    assert id in Due(run[i].armings, run[i].threads[t].now);
  }

  lemma {:induction false} DueKept(run: seq<State>, i: nat, j: nat, t: nat)
    requires Run(run) && i < j < |run| && t < |run[i].threads| && run[i].threads[t].Reset?
    requires forall k :: i < k < j ==> t < |run[k].threads| && run[k].threads[t].Scan?
    requires t < |run[j].threads| && (run[j].threads[t].Scan? || (run[j].threads[t].Scanned? && i + 1 < j))
    ensures run[j].threads[t].due == Due(run[i].armings, run[i].threads[t].now)
  {
    hide Step;
    if i + 1 < j {
      DueKept(run, i, j - 1, t);
    }
    assert Next(run[j - 1], run[j]);
    var u: nat :| Step(run[j - 1], run[j], u);
    DueStays(run[j - 1], run[j], u, t);
  }

  /** A scan takes note of what is due when it resets `earliest`. */
  lemma DueStays(s: State, s': State, u: nat, t: nat)
    requires Step(s, s', u) && t < |s.threads|
    ensures |s'.threads| == |s.threads|
    ensures s.threads[t].Reset? && s'.threads[t].Scan? ==> s'.threads[t].due == Due(s.armings, s.threads[t].now)
    ensures s.threads[t].Reset? ==> !s'.threads[t].Scanned?
    ensures s.threads[t].Scan? && (s'.threads[t].Scan? || s'.threads[t].Scanned?) ==>
              s'.threads[t].due == s.threads[t].due
  {
    hide Due;
  }

  /** Each arming ends once: a fired one was due, is not active any more, and never fires or changes again. */
  lemma FiresOnceNotEarly(run: seq<State>, i: nat, j: nat, id: nat)
    requires Run(run) && i <= j < |run| && id < |run[i].armings| && !run[i].armings[id].fate.Active?
    ensures id < |run[j].armings| && run[j].armings[id] == run[i].armings[id]
    ensures var a := run[i].armings[id]; a.fate.Fired? ==> a.exp <= a.fate.now <= run[i].current
  {
    RunInv(run, i, i);
    RunInv(run, i, j);
  }

  /** A timer's expiration in the array is that of its one active arming. */
  lemma OneActiveArming(run: seq<State>, i: nat, k: nat, id: nat)
    requires Run(run) && i < |run| && k < |run[i].exps|
    ensures |run[i].arm| == |run[i].exps|
    ensures id < |run[i].armings| && run[i].armings[id].timer == k && run[i].armings[id].fate.Active?
            <==> run[i].exps[k] != Invalid && id == run[i].arm[k]
  {
    RunInv(run, i, i);
  }
}

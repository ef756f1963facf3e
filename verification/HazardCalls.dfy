/** What acquiring through a hazard pointer and retiring by hazard pointers answer. */
module HazardCalls {
  import opened RingIndex
  import opened HazardPtr

  predicate AtWork(s: State, t: nat) { t < |s.threads| && !s.threads[t].pc.Ready? }

  /** Thread t is at moment i in a call that began with the step after moment a, at control point pc. */
  ghost predicate Called(run: seq<State>, a: nat, i: nat, t: nat, pc: Pc) {
    && a < i < |run| && t < |run[a].threads| && t < |run[i].threads| && t < |run[a + 1].threads|
    && run[a].threads[t].pc.Ready? && Step(run[a], run[a + 1], t) && run[a + 1].threads[t] == run[a].threads[t].(pc := pc)
    && forall k :: a < k <= i ==> AtWork(run[k], t)
  }

  /** A step changes only the thread that takes it, and not what the sizes are. */
  lemma Mine(s: State, s': State, u: nat)
    requires Step(s, s', u)
    ensures u < |s.threads| && |s'.threads| == |s.threads| && s'.threads == s.threads[u := s'.threads[u]]
    ensures s'.maxobjs == s.maxobjs
  {
    hide SetHp, HasSlot, AllRead, IsFirstFree, Acquires, Collects;
    if s.threads[u].pc.Acquire? && s.threads[u].pc.loc < |s.locs| && Acquires(s, s', u, s.threads[u]) {
      AcquirerAlone(s, s', u);
    } else if s.threads[u].pc.Gc? && Collects(s, s', u, s.threads[u]) {
      CollectorAlone(s, s', u);
    }
  }

  lemma CollectorAlone(s: State, s': State, u: nat)
    requires u < |s.threads| && s.threads[u].pc.Gc? && Collects(s, s', u, s.threads[u])
    ensures |s'.threads| == |s.threads| && s'.threads == s.threads[u := s'.threads[u]] && s'.maxobjs == s.maxobjs
  {
    hide AllRead;
  }

  lemma AcquirerAlone(s: State, s': State, u: nat)
    requires u < |s.threads| && s.threads[u].pc.Acquire? && s.threads[u].pc.loc < |s.locs|
    requires Acquires(s, s', u, s.threads[u])
    ensures |s'.threads| == |s.threads| && s'.threads == s.threads[u := s'.threads[u]] && s'.maxobjs == s.maxobjs
  {
    hide SetHp, IsFirstFree;
  }

  lemma NextAt(run: seq<State>, i: nat)
    requires Run(run) && i + 1 < |run|
    ensures Next(run[i], run[i + 1])
  {
    hide Next, Init;
  }

  // ---------- retirement ----------

  ghost predicate Announces(s: State, o: Obj) {
    exists x, y :: 0 <= x < |s.hps| && 0 <= y < |s.hps[x]| && s.hps[x][y] == Some(o)
  }

  /** Some thread's slot had the object at a moment of the call. */
  ghost predicate Announced(run: seq<State>, a: nat, i: nat, o: Obj) {
    exists b :: a <= b <= i && b < |run| && Announces(run[b], o)
  }

  ghost predicate AllAnnounced(run: seq<State>, a: nat, i: nat, refs: set<Obj>) {
    forall o :: o in refs ==> Announced(run, a, i, o)
  }

  /** What the retirement is at; `was` is the thread's queue when it began. */
  ghost predicate RetireOk(run: seq<State>, a: nat, i: nat, th: Thread, o: Obj, was: seq<Obj>, maxobjs: nat) {
    match th.pc
    case CheckSpace(o') => o' == o && th.queue == was
    case Put(o') => o' == o
    case Gc(pending, gpc) =>
      && pending == Some(o) && |was| == maxobjs && |th.queue| <= |was| && (|th.queue| == |was| ==> th.queue == was)
      && (gpc.Gather? ==> AllAnnounced(run, a, i, gpc.refs))
      && (gpc.Traverse? ==> AllAnnounced(run, a, i, gpc.refs) && gpc.kept <= |th.queue|
                            && forall k :: 0 <= k < gpc.kept ==> th.queue[k] in gpc.refs)
    case Collected(pending) =>
      && pending == Some(o) && |was| == maxobjs && |th.queue| <= |was| && (|th.queue| == |was| ==> th.queue == was)
      && forall k :: 0 <= k < |th.queue| ==> Announced(run, a, i, th.queue[k])
    case _ => false
  }

  lemma AnnouncedLater(run: seq<State>, a: nat, i: nat)
    ensures forall o :: Announced(run, a, i, o) ==> Announced(run, a, i + 1, o)
  {
  }

  lemma RetireMoves(run: seq<State>, a: nat, i: nat, t: nat, o: Obj, was: seq<Obj>)
    requires a <= i && i + 1 < |run| && Step(run[i], run[i + 1], t) && AtWork(run[i + 1], t)
    requires RetireOk(run, a, i, run[i].threads[t], o, was, run[i].maxobjs)
    ensures RetireOk(run, a, i + 1, run[i + 1].threads[t], o, was, run[i + 1].maxobjs)
  {
    AnnouncedLater(run, a, i);
    if run[i].threads[t].pc.Gc? {
      GcMoves(run, a, i, t, o, was);
    }
    hide Announced, Collects;
  }

  /** What a collection does next: gathers, turns to the queue, keeps an object or reclaims one, or ends. */
  ghost predicate GcGoesOn(s: State, th: Thread, th': Thread)
    requires th.pc.Gc?
  {
    var gpc := th.pc.gpc;
    match th'.pc
    case Gc(pending, Gather(_, _, refs')) =>
      && pending == th.pc.pending && th'.queue == th.queue && !gpc.Traverse?
      && forall r :: r in refs' ==> (gpc.Gather? && r in gpc.refs) || Announces(s, r)
    case Gc(pending, Traverse(refs', kept')) =>
      && pending == th.pc.pending && !gpc.LoadWatermark? && refs' == gpc.refs
      && (if gpc.Gather? then kept' == 0 && th'.queue == th.queue
          else || (kept' == gpc.kept + 1 <= |th.queue| && th'.queue == th.queue && th.queue[gpc.kept] in refs')
               || (kept' == gpc.kept < |th.queue| && th'.queue == th.queue[..kept'] + th.queue[kept' + 1..]))
    case Collected(pending) =>
      pending == th.pc.pending && gpc.Traverse? && th'.queue == th.queue && |th.queue| <= gpc.kept
    case _ => false
  }

  lemma GcSteps(s: State, s': State, t: nat)
    requires t < |s.threads| && s.threads[t].pc.Gc? && Collects(s, s', t, s.threads[t])
    ensures |s'.threads| == |s.threads| && s'.maxobjs == s.maxobjs && GcGoesOn(s, s.threads[t], s'.threads[t])
  {
    hide AllRead;
    var gpc, pc' := s.threads[t].pc.gpc, s'.threads[t].pc;
    if gpc.Gather? && pc'.Gc? && pc'.gpc.Gather? {
      forall r | r in pc'.gpc.refs && r !in gpc.refs ensures Announces(s, r) {
      }
    }
  }

  lemma GcMoves(run: seq<State>, a: nat, i: nat, t: nat, o: Obj, was: seq<Obj>)
    requires a <= i && i + 1 < |run| && Step(run[i], run[i + 1], t) && AtWork(run[i + 1], t)
    requires RetireOk(run, a, i, run[i].threads[t], o, was, run[i].maxobjs) && run[i].threads[t].pc.Gc?
    requires forall r :: Announced(run, a, i, r) ==> Announced(run, a, i + 1, r)
    ensures RetireOk(run, a, i + 1, run[i + 1].threads[t], o, was, run[i + 1].maxobjs)
  {
    hide Collects, Client;
    if Client(run[i], run[i + 1]) {
      ClientStays(run[i], run[i + 1]);
    } else {
      GcSteps(run[i], run[i + 1], t);
      forall r | Announces(run[i], r) ensures Announced(run, a, i + 1, r) {
      }
      hide Announced, Announces, Step;
    }
  }

  lemma ClientStays(s: State, s': State)
    requires Client(s, s')
    ensures s'.threads == s.threads && s'.maxobjs == s.maxobjs
  {
  }

  lemma {:induction false} RetireGoesOn(run: seq<State>, a: nat, i: nat, t: nat, o: Obj)
    requires Run(run) && Called(run, a, i, t, CheckSpace(o))
    ensures RetireOk(run, a, i, run[i].threads[t], o, run[a].threads[t].queue, run[i].maxobjs)
  {
    hide Run, Step, RetireOk;
    if a + 1 < i {
      assert Called(run, a, i - 1, t, CheckSpace(o)) && AtWork(run[i], t);
      hide Called, AtWork;
      RetireGoesOn(run, a, i - 1, t, o);
      RetireStep(run, a, i - 1, t, o, run[a].threads[t].queue);
    } else {
      RetireStarts(run, a, t, o);
    }
  }

  lemma RetireStarts(run: seq<State>, a: nat, t: nat, o: Obj)
    requires Called(run, a, a + 1, t, CheckSpace(o))
    ensures RetireOk(run, a, a + 1, run[a + 1].threads[t], o, run[a].threads[t].queue, run[a + 1].maxobjs)
  {
    hide Step;
  }

  lemma RetireStep(run: seq<State>, a: nat, k: nat, t: nat, o: Obj, was: seq<Obj>)
    requires Run(run) && a <= k && k + 1 < |run| && t < |run[k].threads| && AtWork(run[k + 1], t)
    requires RetireOk(run, a, k, run[k].threads[t], o, was, run[k].maxobjs)
    ensures RetireOk(run, a, k + 1, run[k + 1].threads[t], o, was, run[k + 1].maxobjs)
  {
    NextAt(run, k);
    hide Run, Step, Announced;
    var u: nat :| Step(run[k], run[k + 1], u);
    Mine(run[k], run[k + 1], u);
    if u == t {
      RetireMoves(run, a, k, t, o, was);
    } else {
      AnnouncedLater(run, a, k);
    }
  }

  /** The answer of a retirement, at the step in which it returns. Either the object is retired and waits in the thread's
      queue; or it is the caller's again, and then the queue was full before, its collection has reclaimed nothing, and
      every object in it was announced in some thread's slot at a moment of the call. */
  lemma RetireAnswer(run: seq<State>, a: nat, i: nat, t: nat, o: Obj)
    requires Run(run) && Called(run, a, i, t, CheckSpace(o)) && i + 1 < |run| && !AtWork(run[i + 1], t)
    ensures t < |run[i + 1].threads| && o < |run[i + 1].objs|
    ensures var queue, queue', status := run[a].threads[t].queue, run[i + 1].threads[t].queue, run[i + 1].objs[o];
            || (status == Retired(t) && o in queue')
            || (&& status == Unlinked && queue' == queue && |queue| == run[i].maxobjs
                && forall k :: 0 <= k < |queue| ==> Announced(run, a, i, queue[k]))
  {
    RetireGoesOn(run, a, i, t, o);
    NextAt(run, i);
    var s := run[i];
    hide Run, Announced, Called;
    var u: nat :| Step(s, run[i + 1], u);
    Mine(s, run[i + 1], u);
    RetireReturns(run, a, i, t, o, run[a].threads[t].queue);
  }

  lemma RetireReturns(run: seq<State>, a: nat, i: nat, t: nat, o: Obj, was: seq<Obj>)
    requires i + 1 < |run| && Step(run[i], run[i + 1], t) && t < |run[i + 1].threads| && run[i + 1].threads[t].pc.Ready?
    requires RetireOk(run, a, i, run[i].threads[t], o, was, run[i].maxobjs)
    ensures o < |run[i + 1].objs|
    ensures var queue', status := run[i + 1].threads[t].queue, run[i + 1].objs[o];
            || (status == Retired(t) && o in queue')
            || (&& status == Unlinked && queue' == was && |was| == run[i].maxobjs
                && forall k :: 0 <= k < |was| ==> Announced(run, a, i, was[k]))
  {
    hide Announced, SetHp, AllRead, IsFirstFree, HasSlot;
  }

  // ---------- acquiring ----------

  predicate AcquireOk(th: Thread, loc: nat, hp: Option<nat>) {
    th.pc.Acquire? && th.pc.loc == loc && (hp.Some? ==> th.pc.hp == hp)
  }

  lemma AcquireMoves(s: State, s': State, t: nat, loc: nat, hp: Option<nat>)
    requires Step(s, s', t) && AcquireOk(s.threads[t], loc, hp) && AtWork(s', t)
    ensures AcquireOk(s'.threads[t], loc, hp)
  {
    hide SetHp, HasSlot, IsFirstFree;
  }

  lemma {:induction false} AcquireGoesOn(run: seq<State>, a: nat, i: nat, t: nat, loc: nat, hp: Option<nat>)
    requires Run(run) && Called(run, a, i, t, Acquire(loc, hp, Reset))
    ensures AcquireOk(run[i].threads[t], loc, hp)
  {
    hide Run, Step;
    if a + 1 < i {
      assert Called(run, a, i - 1, t, Acquire(loc, hp, Reset)) && AtWork(run[i], t);
      AcquireGoesOn(run, a, i - 1, t, loc, hp);
      NextAt(run, i - 1);
      hide Called, AtWork, AcquireOk;
      var u: nat :| Step(run[i - 1], run[i], u);
      Mine(run[i - 1], run[i], u);
      if u == t {
        AcquireMoves(run[i - 1], run[i], t, loc, hp);
      }
    }
  }

  /** The thread holds what the location refers to, through slot k. */
  predicate Got(s: State, t: nat, loc: nat, k: nat) {
    && t < |s.threads| && loc < |s.locs| && s.locs[loc].ref.Some?
    && Holds(s.hps, s.threads[t], k, s.locs[loc].ref.value)
  }

  ghost predicate GotOne(s: State, t: nat, loc: nat, hp: Option<nat>) {
    exists k: nat :: (hp.Some? ==> hp == Some(k)) && Got(s, t, loc, k)
  }

  predicate NoneFree(slots: seq<Slot>) { forall k :: 0 <= k < |slots| ==> !slots[k].Unused? }

  /** The answer of an acquisition, at the step in which it returns: the thread holds, through the given slot or a newly
      allocated one, the reference that is in the location at that moment; or there is none in it; or no slot was given
      and none is free. */
  lemma AcquireAnswer(run: seq<State>, a: nat, i: nat, t: nat, loc: nat, hp: Option<nat>)
    requires Run(run) && Called(run, a, i, t, Acquire(loc, hp, Reset)) && i + 1 < |run| && !AtWork(run[i + 1], t)
    ensures t < |run[i + 1].threads| && loc < |run[i + 1].locs|
    ensures || GotOne(run[i + 1], t, loc, hp) || run[i + 1].locs[loc].ref.None?
            || (hp.None? && NoneFree(run[i + 1].threads[t].slots))
  {
    AcquireGoesOn(run, a, i, t, loc, hp);
    NextAt(run, i);
    RunInv(run, i);
    assert ThreadOk(run[i], t, run[i].threads[t]);
    hide Run, Called, Inv, QueueOk;
    var u: nat :| Step(run[i], run[i + 1], u);
    Mine(run[i], run[i + 1], u);
    AcquireReturns(run[i], run[i + 1], t, loc, hp);
  }

  lemma AcquireReturns(s: State, s': State, t: nat, loc: nat, hp: Option<nat>)
    requires Step(s, s', t) && ThreadOk(s, t, s.threads[t]) && AcquireOk(s.threads[t], loc, hp)
    requires t < |s'.threads| && s'.threads[t].pc.Ready?
    ensures loc < |s'.locs|
    ensures GotOne(s', t, loc, hp) || s'.locs[loc].ref.None? || (hp.None? && NoneFree(s'.threads[t].slots))
  {
    var pc := s.threads[t].pc;
    hide QueueOk, SetHp, Starts, Retires, Register;
    if pc.apc.Verify? {
      assert Got(s', t, loc, pc.hp.value);
    }
  }
}

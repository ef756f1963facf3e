/** What a retirement by quiescent states answers. */
module QsbrCalls {
  import opened RingIndex
  import opened Qsbr

  /** Thread t is at moment i in the retirement of an object that began with the step after moment a. */
  ghost predicate Called(run: seq<State>, a: nat, i: nat, t: nat, o: Obj) {
    && a < i < |run| && t < |run[a].threads| && t < |run[i].threads| && t < |run[a + 1].threads|
    && run[a].threads[t].pc.Ready? && Step(run[a], run[a + 1], t)
    && run[a + 1].threads[t] == run[a].threads[t].(pc := CheckSpace(o))
    && forall k :: a < k <= i ==> AtWork(run[k], t)
  }

  predicate AtWork(s: State, t: nat) { t < |s.threads| && !s.threads[t].pc.Ready? }

  /** What is left of a queue whose oldest entries have been called back. */
  predicate Rest(queue: seq<Entry>, was: seq<Entry>) { |queue| <= |was| && queue == was[|was| - |queue|..] }

  /** What the retirement is at; `was` is the thread's queue when it began. */
  predicate RetireOk(th: Thread, o: Obj, was: seq<Entry>, maxobjs: nat) {
    match th.pc
    case CheckSpace(o') => o' == o && th.queue == was
    case FetchAdd(o') => o' == o && Rest(th.queue, was)
    case Put(o', _) => o' == o && Rest(th.queue, was)
    case Gc(pending, _) => pending == Some(o) && |was| == maxobjs && Rest(th.queue, was)
    case Swept(pending, _, _) => pending == Some(o) && |was| == maxobjs && Rest(th.queue, was)
    case _ => false
  }

  lemma RetireMoves(s: State, s': State, t: nat, o: Obj, was: seq<Entry>)
    requires Step(s, s', t) && RetireOk(s.threads[t], o, was, s.maxobjs) && AtWork(s', t)
    ensures RetireOk(s'.threads[t], o, was, s'.maxobjs)
  {
  }

  /** A step changes only the thread that takes it. */
  lemma Mine(s: State, s': State, u: nat)
    requires Step(s, s', u)
    ensures u < |s.threads| && |s'.threads| == |s.threads| && s'.threads == s.threads[u := s'.threads[u]]
    ensures s'.maxobjs == s.maxobjs
  {
  }

  lemma NextAt(run: seq<State>, i: nat)
    requires Run(run) && i + 1 < |run|
    ensures Next(run[i], run[i + 1])
  {
    hide Next, Init;
  }

  lemma {:induction false} DuringCall(run: seq<State>, a: nat, i: nat, t: nat, o: Obj)
    requires Run(run) && Called(run, a, i, t, o)
    ensures RetireOk(run[i].threads[t], o, run[a].threads[t].queue, run[i].maxobjs)
  {
    hide Run, Step, RetireOk;
    if a + 1 < i {
      assert Called(run, a, i - 1, t, o) && AtWork(run[i], t);
      hide Called, AtWork;
      DuringCall(run, a, i - 1, t, o);
      OneStep(run, i - 1, t, o, run[a].threads[t].queue);
    } else {
      AtStart(run, a, t, o);
    }
  }

  lemma AtStart(run: seq<State>, a: nat, t: nat, o: Obj)
    requires Called(run, a, a + 1, t, o)
    ensures RetireOk(run[a + 1].threads[t], o, run[a].threads[t].queue, run[a + 1].maxobjs)
  {
    hide Step;
  }

  lemma OneStep(run: seq<State>, k: nat, t: nat, o: Obj, was: seq<Entry>)
    requires Run(run) && k + 1 < |run| && t < |run[k].threads| && RetireOk(run[k].threads[t], o, was, run[k].maxobjs)
    requires AtWork(run[k + 1], t)
    ensures RetireOk(run[k + 1].threads[t], o, was, run[k + 1].maxobjs)
  {
    NextAt(run, k);
    hide Run, Step, RetireOk;
    var u: nat :| Step(run[k], run[k + 1], u);
    Mine(run[k], run[k + 1], u);
    if u == t {
      RetireMoves(run[k], run[k + 1], t, o, was);
    }
  }

  /** Some interval that the collection has read is not later than the entry's, so a thread may still refer to it. */
  ghost predicate Blocked(vals: seq<nat>, entry: Entry) { exists j :: 0 <= j < |vals| && vals[j] <= entry.interval }

  /** The answer of a retirement, at the step in which it returns. Either the object is retired and waits in the thread's
      queue; or it is the caller's again, and then the queue was full before, its collection has called nothing back, and
      every object in it is kept by an interval that the collection has read. */
  lemma RetireAnswer(run: seq<State>, a: nat, i: nat, t: nat, o: Obj)
    requires Run(run) && Called(run, a, i, t, o) && i + 1 < |run| && !AtWork(run[i + 1], t)
    ensures t < |run[i + 1].threads| && o < |run[i + 1].objs|
    ensures var queue, queue', status := run[a].threads[t].queue, run[i + 1].threads[t].queue, run[i + 1].objs[o];
            || (status.Retired? && status.owner == t && Entry(o, status.interval) in queue')
            || (&& status == Unlinked && queue' == queue && |queue| == run[i].maxobjs && run[i].threads[t].pc.Swept?
                && forall k :: 0 <= k < |queue| ==> Blocked(run[i].threads[t].pc.vals, queue[k]))
  {
    DuringCall(run, a, i, t, o);
    RunInv(run, i);
    var s := run[i];
    assert ThreadOk(s, t, s.threads[t]);
    assert Next(s, run[i + 1]);
    hide Run, AllSeen, IdxUnique, AllKept, FreeOk, LogOk, Called;
    var u: nat :| Step(s, run[i + 1], u);
    Mine(s, run[i + 1], u);
    Returns(s, run[i + 1], t, o, run[a].threads[t].queue);
  }

  lemma Returns(s: State, s': State, t: nat, o: Obj, was: seq<Entry>)
    requires Step(s, s', t) && ThreadOk(s, t, s.threads[t]) && RetireOk(s.threads[t], o, was, s.maxobjs)
    requires t < |s'.threads| && s'.threads[t].pc.Ready? && s.current < Infinite
    ensures o < |s'.objs|
    ensures || (s'.objs[o].Retired? && s'.objs[o].owner == t && Entry(o, s'.objs[o].interval) in s'.threads[t].queue)
            || (&& s'.objs[o] == Unlinked && s'.threads[t].queue == was && |was| == s.maxobjs && s.threads[t].pc.Swept?
                && forall k :: 0 <= k < |was| ==> Blocked(s.threads[t].pc.vals, was[k]))
  {
    var th := s.threads[t];
    if th.pc.Swept? {
      forall k | 0 <= k < |th.queue| ensures Blocked(th.pc.vals, th.queue[k]) {
        assert th.pc.min <= th.queue[k].interval;
        assert th.pc.min in th.pc.vals;
      }
    }
    hide Blocked, RefsOk, IdxOk;
  }

  // ---------- quiescence ----------

  ghost predicate Announcing(s: State, t: nat, current: nat) {
    t < |s.threads| && s.threads[t].pc == Quiescent(current)
  }

  /** A call that announces quiescence, directly or by a last release, publishes the interval that was current when it
      began. */
  lemma QuiescentAnnounces(run: seq<State>, i: nat, k: nat, t: nat)
    requires Run(run) && i < k && k + 1 < |run| && t < |run[i].threads| && run[i].threads[t].pc.Ready?
    requires forall m :: i < m <= k ==> t < |run[m].threads| && run[m].threads[t].pc.Quiescent?
    requires t < |run[k + 1].threads| && run[k + 1].threads[t].pc.Ready?
    ensures run[k + 1].threads[t].interval == run[i].current
    ensures run[k + 1].threads[t].idx.Some? && run[k + 1].threads[t].idx.value < |run[k + 1].intervals|
    ensures run[k + 1].intervals[run[k + 1].threads[t].idx.value] == run[i].current
  {
    HoldsCurrent(run, i, k, t);
    NextAt(run, k);
    RunInv(run, k + 1);
    assert ThreadOk(run[k + 1], t, run[k + 1].threads[t]);
    hide Run, Inv, QueueOk, RefsOk;
    var u: nat :| Step(run[k], run[k + 1], u);
    Announced(run[k], run[k + 1], u, t, run[i].current);
  }

  lemma Announced(s: State, s': State, u: nat, t: nat, current: nat)
    requires Step(s, s', u) && Announcing(s, t, current) && t < |s'.threads| && s'.threads[t].pc.Ready?
    ensures s'.threads[t].interval == current
  {
  }

  lemma {:induction false} HoldsCurrent(run: seq<State>, i: nat, k: nat, t: nat)
    requires Run(run) && i < k < |run| && t < |run[i].threads| && run[i].threads[t].pc.Ready?
    requires forall m :: i < m <= k ==> t < |run[m].threads| && run[m].threads[t].pc.Quiescent?
    ensures Announcing(run[k], t, run[i].current)
  {
    hide Run, Step;
    NextAt(run, k - 1);
    var u: nat :| Step(run[k - 1], run[k], u);
    Mine(run[k - 1], run[k], u);
    if i + 1 < k {
      HoldsCurrent(run, i, k - 1, t);
      if u == t {
        StillCurrent(run[k - 1], run[k], t);
      }
    } else {
      Loads(run[i], run[k], u, t);
    }
  }

  lemma StillCurrent(s: State, s': State, t: nat)
    requires Step(s, s', t) && s.threads[t].pc.Quiescent?
    ensures t < |s'.threads| && !s'.threads[t].pc.Quiescent?
  {
  }

  lemma Loads(s: State, s': State, u: nat, t: nat)
    requires Step(s, s', u) && t < |s.threads| && s.threads[t].pc.Ready? && t < |s'.threads| && s'.threads[t].pc.Quiescent?
    ensures Announcing(s', t, s.current)
  {
  }
}

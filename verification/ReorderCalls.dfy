/** What the calls of the strict reorder buffer answer and achieve, in terms of their arguments. */
module ReorderCalls {
  import opened RingIndex
  import opened Reorder

  datatype Request = Acquire(requested: nat) | Release(sn: nat, elems: seq<Elem>)

  function First(c: Request): Thread {
    match c
    case Acquire(requested) => AcqLoad(requested)
    case Release(sn, elems) => Rel(sn, elems, Check)
  }

  predicate InCall(th: Thread) { !th.Idle? && !th.Acquired? }

  /** Between moments k and k + 1 thread t has not begun another call. */
  ghost predicate NotAgain(run: seq<State>, k: nat, t: nat) {
    && k + 1 < |run| && t < |run[k].threads| && t < |run[k + 1].threads|
    && (InCall(run[k].threads[t]) || run[k + 1].threads[t] == run[k].threads[t])
  }

  /** The latest call of thread t at moment j: it began with the step after moment a. */
  ghost predicate Called(run: seq<State>, a: nat, j: nat, t: nat, c: Request) {
    && a < j < |run| && t < |run[a].threads| && t < |run[j].threads|
    && Start(run[a], run[a + 1], t, First(c))
    && forall k :: a < k < j ==> NotAgain(run, k, t)
  }

  /** How many sequence numbers may be acquired. */
  function Free(s: State): int { |s.ring| - (s.tail - s.hi.head) }

  /** The step in which the numbers are acquired. */
  predicate TailMoves(run: seq<State>, k: nat, sn: nat, count: nat) {
    k + 1 < |run| && run[k].tail == sn && run[k + 1].tail == sn + count
  }

  ghost predicate AcquireOk(run: seq<State>, b: nat, j: nat, th: Thread, requested: nat)
    requires b <= j < |run|
  {
    match th
    case Idle => Least(requested, Free(run[b])) <= 0
    case AcqLoad(requested') => requested' == requested
    case AcqHead(requested', tail) => requested' == requested && tail <= run[j].tail
    case AcqCas(requested', tail, actual) =>
      && requested' == requested && tail <= run[b].tail
      && 0 < actual == Least(requested, |run[b].ring| - (tail - run[b].hi.head))
    case Acquired(sn, count) =>
      0 < count == Least(requested, Free(run[b])) && exists k :: b <= k < j && TailMoves(run, k, sn, count)
    case _ => false
  }

  /** The callers do not choose the numbers, and this one has not been acquired. */
  predicate Refused(s: State, sn: nat, count: nat) { !s.user && s.tail < sn + count }

  ghost predicate IsStored(s: State, sn: nat, elems: seq<Elem>) {
    forall p :: sn <= p < sn + |elems| ==> p in s.stored && s.stored[p] == elems[p - sn]
  }

  ghost predicate ReleaseOk(run: seq<State>, b: nat, j: nat, th: Thread, sn: nat, elems: seq<Elem>)
    requires b <= j < |run|
  {
    match th
    case Idle => Refused(run[b], sn, |elems|) || IsStored(run[j], sn, elems)
    case Rel(sn', elems', _) => sn' == sn && elems' == elems
    case _ => false
  }

  ghost predicate CallOk(run: seq<State>, b: nat, j: nat, th: Thread, c: Request)
    requires b <= j < |run|
  {
    match c
    case Acquire(requested) => AcquireOk(run, b, j, th, requested)
    case Release(sn, elems) => ReleaseOk(run, b, j, th, sn, elems)
  }

  // ---------- one step ----------

  lemma AcquireMoves(run: seq<State>, b: nat, i: nat, t: nat, requested: nat) returns (b': nat)
    requires b <= i && i + 1 < |run| && run[b].tail <= run[i].tail <= run[i + 1].tail && |run[b].ring| == |run[i].ring|
    requires Step(run[i], run[i + 1], t) && InCall(run[i].threads[t]) && AcquireOk(run, b, i, run[i].threads[t], requested)
    ensures b <= b' <= i && |run[i + 1].threads| == |run[i].threads|
    ensures AcquireOk(run, b', i + 1, run[i + 1].threads[t], requested)
  {
    b' := if run[i].threads[t].AcqHead? then i else b;
    var th, th' := run[i].threads[t], run[i + 1].threads[t];
    if th.AcqCas? && th'.Acquired? {
      assert TailMoves(run, i, th'.sn, th'.count);
    }
  }

  /** A release goes on, is refused, or is through with storing. */
  lemma ReleaseEnds(s: State, s': State, t: nat)
    requires Step(s, s', t) && s.threads[t].Rel?
    ensures |s'.threads| == |s.threads|
    ensures var th, th' := s.threads[t], s'.threads[t];
            || (th'.Rel? && th'.sn == th.sn && th'.elems == th.elems)
            || (th'.Idle? && (Progress(th) == |th.elems| || Refused(s, th.sn, |th.elems|)))
  {
    hide At;
  }

  lemma AllStored(s: State, s': State, t: nat)
    requires Inv(s) && Onward(s, s') && t < |s.threads| && s.threads[t].Rel?
    requires Progress(s.threads[t]) == |s.threads[t].elems|
    ensures IsStored(s', s.threads[t].sn, s.threads[t].elems)
  {
    hide Inv;
    var th := s.threads[t];
    forall p | th.sn <= p < th.sn + |th.elems| ensures p in s'.stored && s'.stored[p] == th.elems[p - th.sn] {
      StoredAs(s, t, p);
    }
  }

  lemma ReleaseMoves(run: seq<State>, b: nat, i: nat, t: nat, sn: nat, elems: seq<Elem>) returns (b': nat)
    requires b <= i && i + 1 < |run| && Inv(run[i]) && Onward(run[i], run[i + 1])
    requires Step(run[i], run[i + 1], t) && InCall(run[i].threads[t]) && ReleaseOk(run, b, i, run[i].threads[t], sn, elems)
    ensures b <= b' <= i && |run[i + 1].threads| == |run[i].threads|
    ensures ReleaseOk(run, b', i + 1, run[i + 1].threads[t], sn, elems)
  {
    assert t < |run[i].threads|;
    hide Inv, Step, Onward, IsStored;
    b' := i;
    ReleaseEnds(run[i], run[i + 1], t);
    if Progress(run[i].threads[t]) == |elems| {
      AllStored(run[i], run[i + 1], t);
    }
  }

  lemma Kept(run: seq<State>, b: nat, i: nat, th: Thread, c: Request)
    requires b <= i && i + 1 < |run| && run[i].tail <= run[i + 1].tail && Onward(run[i], run[i + 1])
    requires CallOk(run, b, i, th, c)
    ensures CallOk(run, b, i + 1, th, c)
  {
  }

  lemma MyMoment(run: seq<State>, b: nat, i: nat, t: nat, c: Request) returns (b': nat)
    requires b <= i && i + 1 < |run| && Inv(run[i]) && Onward(run[i], run[i + 1])
    requires run[b].tail <= run[i].tail <= run[i + 1].tail && |run[b].ring| == |run[i].ring|
    requires Step(run[i], run[i + 1], t) && InCall(run[i].threads[t]) && CallOk(run, b, i, run[i].threads[t], c)
    ensures b <= b' <= i && |run[i + 1].threads| == |run[i].threads|
    ensures CallOk(run, b', i + 1, run[i + 1].threads[t], c)
  {
    assert t < |run[i].threads|;
    hide AcquireOk, ReleaseOk, Inv, Step;
    match c
    case Acquire(requested) => b' := AcquireMoves(run, b, i, t, requested);
    case Release(sn, elems) => b' := ReleaseMoves(run, b, i, t, sn, elems);
  }

  /** The ring has one size. */
  lemma {:induction false} SameSize(run: seq<State>, i: nat, j: nat)
    requires Run(run) && i <= j < |run|
    ensures |run[i].ring| == |run[j].ring| && run[i].user == run[j].user
  {
    hide Run, Step;
    if i < j {
      SameSize(run, i, j - 1);
      NextAt(run, j - 1);
      var u: nat :| Step(run[j - 1], run[j], u);
      OneSize(run[j - 1], run[j], u);
    }
  }

  lemma OneSize(s: State, s': State, u: nat)
    requires Step(s, s', u)
    ensures |s'.ring| == |s.ring| && s'.user == s.user
  {
    hide Judge, At;
  }

  lemma OneMoment(run: seq<State>, b: nat, i: nat, t: nat, c: Request) returns (b': nat)
    requires Run(run) && b <= i && NotAgain(run, i, t) && CallOk(run, b, i, run[i].threads[t], c)
    ensures b <= b' <= i && CallOk(run, b', i + 1, run[i + 1].threads[t], c)
  {
    NextAt(run, i);
    RunInv(run, i, i);
    RunInv(run, i, i + 1);
    TailGrows(run, b, i);
    TailGrows(run, i, i + 1);
    SameSize(run, b, i);
    hide Run, Step, CallOk, Inv, Onward;
    b' := b;
    var u: nat :| Step(run[i], run[i + 1], u);
    Mine(run[i], run[i + 1], u);
    if u == t && InCall(run[i].threads[t]) {
      b' := MyMoment(run, b, i, t, c);
    } else {
      Kept(run, b, i, run[i].threads[t], c);
    }
  }

  /** At every moment of a call, and after it; b is the moment that decided it. */
  lemma {:induction false} DuringCall(run: seq<State>, a: nat, j: nat, t: nat, c: Request) returns (b: nat)
    requires Run(run) && Called(run, a, j, t, c)
    ensures a <= b <= j && CallOk(run, b, j, run[j].threads[t], c)
  {
    hide Run, CallOk;
    if j == a + 1 {
      b := a;
      AtStart(run, a, t, c);
    } else {
      assert NotAgain(run, j - 1, t) && Called(run, a, j - 1, t, c);
      hide Called, NotAgain;
      b := DuringCall(run, a, j - 1, t, c);
      b := OneMoment(run, b, j - 1, t, c);
    }
  }

  lemma AtStart(run: seq<State>, a: nat, t: nat, c: Request)
    requires Called(run, a, a + 1, t, c)
    ensures CallOk(run, a, a + 1, run[a + 1].threads[t], c)
  {
  }

  // ---------- the answers ----------

  /** An acquisition that has returned has as many consecutive numbers as it asked for and as there was room for at a moment
      of the call, and took them in one step. */
  lemma AcquireAnswer(run: seq<State>, a: nat, j: nat, t: nat, requested: nat) returns (b: nat)
    requires Run(run) && Called(run, a, j, t, Acquire(requested)) && !InCall(run[j].threads[t])
    ensures a <= b <= j
    ensures match run[j].threads[t]
            case Idle => requested == 0 || Free(run[b]) <= 0
            case Acquired(sn, count) =>
              0 < count == Least(requested, Free(run[b])) && exists k :: b <= k < j && TailMoves(run, k, sn, count)
            case _ => false
  {
    b := DuringCall(run, a, j, t, Acquire(requested));
  }

  /** A release that has returned has had all its elements stored under their numbers, unless it was refused, and it was
      refused only if the callers do not choose the numbers and its last one had not been acquired. */
  lemma ReleaseAnswer(run: seq<State>, a: nat, j: nat, t: nat, sn: nat, elems: seq<Elem>)
    requires Run(run) && Called(run, a, j, t, Release(sn, elems)) && !InCall(run[j].threads[t])
    ensures !Refused(run[a], sn, |elems|) ==>
              forall k :: 0 <= k < |elems| ==> sn + k in run[j].stored && run[j].stored[sn + k] == elems[k]
  {
    var b := DuringCall(run, a, j, t, Release(sn, elems));
    TailGrows(run, a, b);
    SameSize(run, a, b);
    hide Run, Called, Start;
    if IsStored(run[j], sn, elems) {
      forall k | 0 <= k < |elems| ensures sn + k in run[j].stored && run[j].stored[sn + k] == elems[k] {
      }
    }
  }

  lemma GoesOn(run: seq<State>, a: nat, i: nat, t: nat, c: Request)
    requires Called(run, a, i, t, c) && NotAgain(run, i, t)
    ensures Called(run, a, i + 1, t, c)
  {
  }

  /** Whoever is at work, or has acquired something, has made a call. */
  lemma {:induction false} WorkOfCall(run: seq<State>, j: nat, t: nat) returns (a: nat, c: Request)
    requires Run(run) && j < |run| && t < |run[j].threads| && !run[j].threads[t].Idle?
    ensures Called(run, a, j, t, c)
  {
    assert j > 0;
    var i := j - 1;
    NextAt(run, i);
    hide Run, Step, Called, Start;
    var u: nat :| Step(run[i], run[j], u);
    Mine(run[i], run[j], u);
    if u == t && !InCall(run[i].threads[t]) {
      a := i;
      c := Begun(run, i, t);
    } else {
      a, c := WorkOfCall(run, i, t);
      GoesOn(run, a, i, t, c);
    }
  }

  lemma Begun(run: seq<State>, i: nat, t: nat) returns (c: Request)
    requires i + 1 < |run| && Step(run[i], run[i + 1], t) && !InCall(run[i].threads[t]) && t < |run[i + 1].threads|
    ensures Called(run, i, i + 1, t, c)
  {
    var th' :| Start(run[i], run[i + 1], t, th');
    if th'.AcqLoad? {
      c := Acquire(th'.requested);
    } else {
      c := Release(th'.sn, th'.elems);
    }
  }
}

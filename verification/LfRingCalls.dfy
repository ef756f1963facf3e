/** What a call of the lock-free ring answers, in terms of its arguments: how many elements it moves, and which. */
module LfRingCalls {
  import opened RingIndex
  import opened LfRing

  datatype Call = EnqCall(args: seq<Elem>) | DeqCall(num: nat)

  predicate InCall(th: Thread) { th.Enq? || th.Deq? }

  ghost predicate Begins(s: State, s': State, t: nat, c: Call) {
    && t < |s.threads|
    && Start(s, s', t, if c.EnqCall? then Enq(c.args, [], s.tail, Check) else Deq(c.num, s.head, 0, LoadTail))
  }

  /** Between moments k and k + 1 thread t has not begun another call. */
  ghost predicate NotAgain(run: seq<State>, k: nat, t: nat) {
    && k + 1 < |run| && t < |run[k].threads| && t < |run[k + 1].threads|
    && (InCall(run[k].threads[t]) || run[k + 1].threads[t] == run[k].threads[t])
  }

  /** The latest call of thread t at moment j: it began with the step after moment a. */
  ghost predicate Called(run: seq<State>, a: nat, j: nat, t: nat, c: Call) {
    && a < j < |run| && t < |run[a].threads| && t < |run[j].threads|
    && Begins(run[a], run[a + 1], t, c)
    && forall k :: a < k < j ==> NotAgain(run, k, t)
  }

  /** All positions hold elements, published or not, that nobody has dequeued. */
  predicate Full(s: State) { |s.log| == s.head + |s.ring| }

  ghost predicate EnqCallOk(seen: State, th: Thread, args: seq<Elem>) {
    match th
    case Enq(elems, at, _, epc) =>
      elems == args && |at| <= |args| && (epc.Publish? || epc.PublishCas? ==> |at| == |args| || Full(seen))
    case Enqueued(elems, at) => |at| <= |args| && elems == args[..|at|] && (|at| == |args| || Full(seen))
    case _ => false
  }

  ghost predicate DeqCallOk(seen: State, th: Thread, num: nat) {
    match th
    case Deq(num', head, tail, dpc) =>
      && num' == num && (dpc.Test? || dpc.Read? || dpc.CasHead? ==> tail == seen.tail)
      && (dpc.Read? ==> |dpc.got| <= dpc.actual && 0 < dpc.actual == Least(num, tail - head))
      && (dpc.CasHead? ==> 0 < |dpc.got| == Least(num, tail - head))
    case Dequeued(first, got) => 0 < |got| == Least(num, seen.tail - first)
    case Nothing(_, _) => num == 0 || seen.tail <= seen.head
    case _ => false
  }

  /** What a call is at, with what it last saw. */
  ghost predicate CallOk(seen: State, th: Thread, c: Call) {
    match c
    case EnqCall(args) => EnqCallOk(seen, th, args)
    case DeqCall(num) => DeqCallOk(seen, th, num)
  }

  lemma EnqMoves(seen: State, s: State, s': State, t: nat, args: seq<Elem>)
    requires Inv(s) && Step(s, s', t) && s.threads[t].Enq? && EnqCallOk(seen, s.threads[t], args)
    ensures |s'.threads| == |s.threads|
    ensures EnqCallOk(if s.threads[t].epc.Check? then s else seen, s'.threads[t], args)
  {
    ThreadIs(s, t);
    hide Inv, RingOk, PlacedOk, SlotOf, DeqOk;
  }

  /** Which of the states before and after a step a dequeue has taken the tail from, if any. */
  lemma DeqMoves(seen: State, s: State, s': State, t: nat, num: nat) returns (seen': State)
    requires Inv(s) && Step(s, s', t) && s.threads[t].Deq? && DeqCallOk(seen, s.threads[t], num)
    ensures |s'.threads| == |s.threads| && (seen' == seen || seen' == s || seen' == s')
    ensures DeqCallOk(seen', s'.threads[t], num)
  {
    ThreadIs(s, t);
    hide Inv, RingOk, PlacedOk, SlotOf, EnqOk;
    var dpc := s.threads[t].dpc;
    if dpc.AdvanceCas? && s.tail == dpc.seen {
      seen' := s';
    } else if dpc.LoadTail? || dpc.Advance? || dpc.AdvanceCas? {
      seen' := s;
    } else {
      seen' := seen;
    }
  }

  /** At every moment of a call, and after it: b is the moment of what the call last saw. */
  lemma {:induction false} DuringCall(run: seq<State>, a: nat, j: nat, t: nat, c: Call) returns (b: nat)
    requires Run(run) && Called(run, a, j, t, c)
    ensures a < b <= j && CallOk(run[b], run[j].threads[t], c)
  {
    hide Run, CallOk;
    if j == a + 1 {
      b := j;
      AtStart(run, a, t, c);
    } else {
      assert NotAgain(run, j - 1, t) && Called(run, a, j - 1, t, c);
      hide Called, NotAgain;
      b := DuringCall(run, a, j - 1, t, c);
      b := OneStep(run, b, j - 1, t, c);
    }
  }

  lemma AtStart(run: seq<State>, a: nat, t: nat, c: Call)
    requires Called(run, a, a + 1, t, c)
    ensures CallOk(run[a + 1], run[a + 1].threads[t], c)
  {
  }

  lemma OneStep(run: seq<State>, b: nat, i: nat, t: nat, c: Call) returns (b': nat)
    requires Run(run) && b <= i && NotAgain(run, i, t) && CallOk(run[b], run[i].threads[t], c)
    ensures b <= b' <= i + 1 && CallOk(run[b'], run[i + 1].threads[t], c)
  {
    NextAt(run, i);
    RunInv(run, i, i);
    hide Run, Step, CallOk, Inv, Forward;
    b' := b;
    var u: nat :| Step(run[i], run[i + 1], u);
    Mine(run[i], run[i + 1], u);
    if u == t && InCall(run[i].threads[t]) {
      b' := CallMoves(run, b, i, t, c);
    }
  }

  lemma CallMoves(run: seq<State>, b: nat, i: nat, t: nat, c: Call) returns (b': nat)
    requires b <= i && i + 1 < |run| && Inv(run[i]) && Step(run[i], run[i + 1], t) && InCall(run[i].threads[t])
    requires CallOk(run[b], run[i].threads[t], c)
    ensures (b' == b || b' == i || b' == i + 1) && t < |run[i + 1].threads| && CallOk(run[b'], run[i + 1].threads[t], c)
  {
    assert t < |run[i].threads|;
    hide Step, Inv;
    if c.EnqCall? {
      EnqMoves(run[b], run[i], run[i + 1], t, c.args);
      b' := if run[i].threads[t].epc.Check? then i else b;
    } else {
      var seen := DeqMoves(run[b], run[i], run[i + 1], t, c.num);
      b' := if seen == run[b] then b else if seen == run[i] then i else i + 1;
    }
  }

  /** An enqueue that has returned has placed the first elements of its argument, and all of them unless the ring was full
      at a moment of the call. */
  lemma EnqueuePlacesWhatFits(run: seq<State>, a: nat, j: nat, t: nat, args: seq<Elem>) returns (b: nat)
    requires Run(run) && Called(run, a, j, t, EnqCall(args)) && !InCall(run[j].threads[t])
    ensures a < b <= j && run[j].threads[t].Enqueued?
    ensures var th := run[j].threads[t];
            && |th.at| <= |args| && th.elems == args[..|th.at|]
            && (|th.at| < |args| ==> |run[b].log| == run[b].head + |run[b].ring|)
  {
    b := DuringCall(run, a, j, t, EnqCall(args));
  }

  /** A dequeue that has returned has as many elements as it asked for, or all from its position up to the shared tail of a
      moment of the call; one that returns nothing asked for nothing, or all that was published at that moment had been
      dequeued. */
  lemma DequeueTakesWhatIsThere(run: seq<State>, a: nat, j: nat, t: nat, num: nat) returns (b: nat)
    requires Run(run) && Called(run, a, j, t, DeqCall(num)) && !InCall(run[j].threads[t])
    ensures a < b <= j
    ensures match run[j].threads[t]
            case Dequeued(first, got) => 0 < |got| == Least(num, run[b].tail - first)
            case Nothing(_, _) => num == 0 || run[b].tail == run[b].head
            case _ => false
  {
    b := DuringCall(run, a, j, t, DeqCall(num));
    RunInv(run, b, b);
    hide RingOk, ThreadOk;
  }

  lemma GoesOn(run: seq<State>, a: nat, i: nat, t: nat, c: Call)
    requires Called(run, a, i, t, c) && NotAgain(run, i, t)
    ensures Called(run, a, i + 1, t, c)
  {
  }

  /** Whoever has a result has made a call. */
  lemma {:induction false} ResultOfCall(run: seq<State>, j: nat, t: nat) returns (a: nat, c: Call)
    requires Run(run) && j < |run| && t < |run[j].threads| && !run[j].threads[t].Idle?
    ensures Called(run, a, j, t, c)
  {
    assert j > 0;
    var i := j - 1;
    NextAt(run, i);
    hide Run, Step, Called, Start;
    var u: nat :| Step(run[i], run[j], u);
    Mine(run[i], run[j], u);
    if u == t && !InCall(run[i].threads[t]) {
      a := i;
      c := Begun(run, i, t);
    } else {
      a, c := ResultOfCall(run, i, t);
      GoesOn(run, a, i, t, c);
    }
  }

  lemma Begun(run: seq<State>, i: nat, t: nat) returns (c: Call)
    requires i + 1 < |run| && Step(run[i], run[i + 1], t) && !InCall(run[i].threads[t])
    ensures Called(run, i, i + 1, t, c)
  {
    var th' :| Start(run[i], run[i + 1], t, th');
    c := if th'.Enq? then EnqCall(th'.elems) else DeqCall(th'.num);
  }
}

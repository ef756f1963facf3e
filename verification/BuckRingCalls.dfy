/** What a call of the pass-the-buck ring answers, in terms of its arguments: how many elements it takes, and which. */
module BuckRingCalls {
  import opened RingIndex
  import opened BuckRing
  import opened BuckRingSafety

  predicate InCall(th: Thread) { th.Head? || th.Take? || th.Busy? }

  /** Between moments k and k + 1 thread t has not begun another call. */
  ghost predicate NotAgain(run: seq<State>, k: nat, t: nat) {
    && k + 1 < |run| && t < |run[k].threads| && t < |run[k + 1].threads|
    && (InCall(run[k].threads[t]) || run[k + 1].threads[t] == run[k].threads[t])
  }

  /** The latest call of thread t at moment j: it began with the step after moment a. A dequeue's arguments stand for the
      number of elements asked for. */
  ghost predicate Called(run: seq<State>, a: nat, j: nat, t: nat, side: Side, args: seq<Elem>) {
    && a < j < |run| && t < |run[a].threads| && t < |run[j].threads|
    && StartOp(run[a], run[a + 1], t, side, args)
    && forall k :: a < k < j ==> NotAgain(run, k, t)
  }

  /** How many positions are free to be acquired: slots for an enqueue, published elements for a dequeue. */
  function Room(s: State, side: Side): int {
    if side.Enq? then |s.ring| - (s.prodTail - s.prodHead) else s.consTail - s.consHead
  }

  ghost predicate Took(s: State, side: Side, args: seq<Elem>, ev: seq<Elem>) {
    && 0 < |ev| == Least(|args|, Room(s, side)) && (side.Enq? ==> ev == args[..|ev|])
  }

  /** What a call is at, b being the moment it last looked at the limit. */
  ghost predicate CallOk(s: State, now: State, th: Thread, side: Side, args: seq<Elem>) {
    match th
    case Idle => args == [] || Room(s, side) <= 0
    case Head(side', ev, tail) => side' == side && ev == args && tail <= Acquired(now, side)
    case Take(side', ev, tail, actual) =>
      && side' == side && ev == args && tail <= Acquired(s, side)
      && 0 < actual == Least(|args|, Limit(s, side) - tail)
    case Busy(side', _, ev, _) => side' == side && Took(s, side, args, ev)
    case Done(side', _, ev) => side' == side && Took(s, side, args, ev)
  }

  /** One step of the calling thread. */
  lemma CallMoves(seen: State, s: State, s': State, t: nat, side: Side, args: seq<Elem>)
    requires Step(s, s', t) && InCall(s.threads[t]) && CallOk(seen, s, s.threads[t], side, args)
    requires Acquired(seen, side) <= Acquired(s, side) <= Acquired(s', side)
    ensures |s'.threads| == |s.threads|
    ensures CallOk(if s.threads[t].Head? then s else seen, s', s'.threads[t], side, args)
  {
    if s.threads[t].Busy? {
      hide SlotOf, Blended, Matches, Mark, WithMark, Limit, Room, Acquired, Published;
    }
  }

  lemma Unmoved(seen: State, s: State, s': State, th: Thread, side: Side, args: seq<Elem>)
    requires CallOk(seen, s, th, side, args) && Acquired(s, side) <= Acquired(s', side)
    ensures CallOk(seen, s', th, side, args)
  {
  }

  /** At every moment of a call, and after it: b is the moment at which the call last looked at the limit. */
  lemma {:induction false} DuringCall(run: seq<State>, a: nat, j: nat, t: nat, side: Side, args: seq<Elem>) returns (b: nat)
    requires Run(run) && Called(run, a, j, t, side, args)
    ensures a < b <= j && CallOk(run[b], run[j], run[j].threads[t], side, args)
  {
    if j == a + 1 {
      b := j;
    } else {
      var i := j - 1;
      assert NotAgain(run, i, t);
      NextAt(run, i);
      AcquiredGrows(run, i, j, side);
      hide Run, Step, CallOk;
      b := DuringCall(run, a, i, t, side, args);
      AcquiredGrows(run, b, i, side);
      var u: nat :| Step(run[i], run[j], u);
      Mine(run[i], run[j], u);
      if u == t && InCall(run[i].threads[t]) {
        CallMoves(run[b], run[i], run[j], t, side, args);
        b := if run[i].threads[t].Head? then i else b;
      } else {
        Unmoved(run[b], run[i], run[j], run[i].threads[t], side, args);
      }
    }
  }

  lemma RoomLeft(run: seq<State>, b: nat, side: Side)
    requires Run(run) && b < |run|
    ensures 0 <= Room(run[b], side)
  {
    RunInv(run, b);
    hide SideOk, ContentOk, TakenOk, AllLocalsOk;
  }

  /** The answer of every call that has returned: an enqueue took the first elements of its argument, a dequeue as many
      elements, as there was room for at a moment of the call, and all if there was; one that returns nothing had
      nothing to do or no room at that moment. */
  lemma TakesWhatFits(run: seq<State>, a: nat, j: nat, t: nat, side: Side, args: seq<Elem>) returns (b: nat)
    requires Run(run) && Called(run, a, j, t, side, args) && !InCall(run[j].threads[t])
    ensures a < b <= j && 0 <= Room(run[b], side)
    ensures var th := run[j].threads[t];
            if th.Done? then
              && th.side == side && 0 < |th.ev| == Least(|args|, Room(run[b], side))
              && (side.Enq? ==> th.ev == args[..|th.ev|])
            else Least(|args|, Room(run[b], side)) == 0
  {
    b := DuringCall(run, a, j, t, side, args);
    hide Room;
    RoomLeft(run, b, side);
  }

  lemma GoesOn(run: seq<State>, a: nat, i: nat, t: nat, side: Side, args: seq<Elem>)
    requires Called(run, a, i, t, side, args) && NotAgain(run, i, t)
    ensures Called(run, a, i + 1, t, side, args)
  {
  }

  /** Whoever has a result has made a call. */
  lemma {:induction false} ResultOfCall(run: seq<State>, j: nat, t: nat) returns (a: nat, side: Side, args: seq<Elem>)
    requires Run(run) && j < |run| && t < |run[j].threads| && !run[j].threads[t].Idle?
    ensures Called(run, a, j, t, side, args)
  {
    assert j > 0;
    var i := j - 1;
    NextAt(run, i);
    hide Run, Step, Start, StartOp, Called;
    var u: nat :| Step(run[i], run[j], u);
    Mine(run[i], run[j], u);
    if u == t && Start(run[i], run[j], t) {
      a := i;
      side, args := Begun(run, i, t);
    } else {
      if u == t {
        NotStarting(run[i], run[j], t);
      }
      a, side, args := ResultOfCall(run, i, t);
      GoesOn(run, a, i, t, side, args);
    }
  }

  lemma Begun(run: seq<State>, i: nat, t: nat) returns (side: Side, args: seq<Elem>)
    requires i + 1 < |run| && t < |run[i].threads| && t < |run[i + 1].threads| && Start(run[i], run[i + 1], t)
    ensures Called(run, i, i + 1, t, side, args)
  {
    side, args :| StartOp(run[i], run[i + 1], t, side, args);
  }

  lemma NotStarting(s: State, s': State, t: nat)
    requires Step(s, s', t) && !Start(s, s', t)
    ensures InCall(s.threads[t])
  {
  }
}

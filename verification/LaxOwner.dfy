/** Who works on the lax reorder buffer, as a machine of atomic steps. One word says idle or busy; while it is busy, other
    threads join their elements to the list in it, for the owner to fetch before it lets go. */
module LaxOwner {
  import opened LaxRob

  /** The word: idle, or busy with the elements enqueued meanwhile, none being the null pointer. */
  datatype Pending = Free | Busy(list: seq<Elem>)

  /** `Own` still has `todo` to insert; a flush first moves the window by `move`. A compare-and-swap sees only the first
      element of the list. */
  datatype Thread =
    | Idle
    | Insert(list: seq<Elem>)
    | InsertCas(list: seq<Elem>, seen: Pending)
    | Flush(move: nat)
    | Own(todo: seq<Elem>, move: nat)
    | Release(seen: Pending)

  /** What happened so far: `given` counts the elements passed to insertions and `lost` those that were dropped; `nothing`
      tells that some insertion was of an empty list, `stuck` that such a one took the idle buffer and returned. */
  datatype History = History(given: multiset<Elem>, lost: multiset<Elem>, nothing: bool, stuck: bool)

  datatype State = State(pending: Pending, core: Core, threads: seq<Thread>, past: History)

  ghost predicate Init(s: State) {
    && s.pending == Free && |s.core.slots| > 0 && s.core.oldest == 0 && s.core.out == []
    && (forall k :: 0 <= k < |s.core.slots| ==> s.core.slots[k] == [])
    && s.past == History(multiset{}, multiset{}, false, false)
    && forall t :: 0 <= t < |s.threads| ==> s.threads[t].Idle?
  }

  /** The same pointer. */
  predicate SamePtr(a: Pending, b: Pending) {
    match (a, b)
    case (Free, Free) => true
    case (Busy(x), Busy(y)) => if x == [] || y == [] then x == y else x[0] == y[0]
    case _ => false
  }

  // ---------- the steps ----------

  /** What the word holds after `list` was joined to `enqueued`. The last element's link is set to the enqueued list and
      the word to the first element; for an empty list that link is the caller's own variable and the word becomes the
      null pointer, so that the enqueued list is dropped. */
  function Joined(list: seq<Elem>, enqueued: seq<Elem>): seq<Elem> { if list == [] then [] else list + enqueued }

  function Dropped(list: seq<Elem>, enqueued: seq<Elem>): seq<Elem> { if list == [] then enqueued else [] }

  /** The compare-and-swaps are weak: they may also fail when nothing has changed. */
  predicate Step(s: State, s': State, t: nat) {
    && t < |s.threads| && |s.core.slots| > 0
    && match s.threads[t]
       case Idle => false
       case Insert(list) => s' == s.(threads := s.threads[t := InsertCas(list, s.pending)])
       case InsertCas(list, seen) =>
         || s' == s.(threads := s.threads[t := Insert(list)])
         || (SamePtr(s.pending, seen) && s.pending.Busy? &&
             s' == s.(pending := Busy(Joined(list, s.pending.list)), threads := s.threads[t := Idle],
                      past := s.past.(lost := s.past.lost + multiset(Dropped(list, s.pending.list)))))
         || (SamePtr(s.pending, seen) && s.pending.Free? &&
             s' == s.(pending := Busy([]), threads := s.threads[t := if list == [] then Idle else Own(list, 0)],
                      past := s.past.(stuck := s.past.stuck || list == [])))
       case Flush(move) =>
         s' == s || (s.pending.Free? && s' == s.(pending := Busy([]), threads := s.threads[t := Own([], move)]))
       case Own(todo, move) =>
         if 0 < move then s' == s.(core := RetireSlots(s.core, move), threads := s.threads[t := Own(todo, 0)])
         else if todo != [] then
           s' == s.(core := InsertElem(s.core, todo[0]), threads := s.threads[t := Own(todo[1..], 0)])
         else s' == s.(threads := s.threads[t := Release(s.pending)])
       case Release(seen) =>
         || s' == s.(threads := s.threads[t := Own([], 0)])
         || (SamePtr(s.pending, seen) && s.pending == Busy([]) &&
             s' == s.(pending := Free, threads := s.threads[t := Idle]))
         || (SamePtr(s.pending, seen) && s.pending.Busy? && s.pending.list != [] &&
             s' == s.(pending := Busy([]), threads := s.threads[t := Own(s.pending.list, 0)]))
  }

  predicate Start(s: State, s': State, t: nat, th': Thread) {
    && t < |s.threads| && s.threads[t].Idle?
    && ((th'.Insert? && s' == s.(threads := s.threads[t := th'],
                                 past := s.past.(given := s.past.given + multiset(th'.list),
                                                 nothing := s.past.nothing || th'.list == [])))
        || (th'.Flush? && s' == s.(threads := s.threads[t := th'])))
  }

  ghost predicate Next(s: State, s': State) {
    (exists t: nat :: Step(s, s', t)) || exists t: nat, th' :: Start(s, s', t, th')
  }

  ghost predicate Run(run: seq<State>) {
    && |run| > 0 && Init(run[0])
    && forall i :: 0 <= i < |run| - 1 ==> Next(run[i], run[i + 1])
  }

  // ---------- the invariant ----------

  predicate Owner(th: Thread) { th.Own? || th.Release? }

  /** The elements in a thread's hands. */
  function InHand(th: Thread): seq<Elem> {
    match th
    case Insert(list) => list
    case InsertCas(list, _) => list
    case Own(todo, _) => todo
    case _ => []
  }

  function HandTimes(threads: seq<Thread>, e: Elem): nat {
    if threads == [] then 0
    else HandTimes(threads[..|threads| - 1], e) + multiset(InHand(threads[|threads| - 1]))[e]
  }

  function Enqueued(p: Pending): seq<Elem> { if p.Busy? then p.list else [] }

  /** How often an element is in a thread's hands, enqueued, in a slot or output. */
  function Present(s: State, e: Elem): nat {
    HandTimes(s.threads, e) + multiset(Enqueued(s.pending))[e] + Times(s.core, e)
  }

  ghost predicate Accounted(s: State, e: Elem) { s.past.given[e] == Present(s, e) + s.past.lost[e] }

  /** Only an insertion of nothing blocks the buffer or drops anything. */
  ghost predicate NothingOk(s: State) {
    && (forall t :: 0 <= t < |s.threads| && (s.threads[t].Insert? || s.threads[t].InsertCas?) && s.threads[t].list == []
          ==> s.past.nothing)
    && (s.past.stuck || s.past.lost != multiset{} ==> s.past.nothing)
  }

  /** The buffer is busy exactly when it has an owner, or is stuck for good. */
  ghost predicate OwnerOk(s: State) {
    && (forall t :: 0 <= t < |s.threads| && Owner(s.threads[t]) ==> s.pending.Busy? && !s.past.stuck)
    && (forall t, u :: 0 <= t < u < |s.threads| && Owner(s.threads[t]) ==> !Owner(s.threads[u]))
    && (s.pending.Busy? && !s.past.stuck ==> exists t :: 0 <= t < |s.threads| && Owner(s.threads[t]))
    && (s.past.stuck ==> s.pending.Busy?)
  }

  ghost predicate Inv(s: State) {
    Valid(s.core) && OwnerOk(s) && NothingOk(s) && forall e :: Accounted(s, e)
  }

  // ---------- one step ----------

  lemma {:induction false} HandUpdate(threads: seq<Thread>, t: nat, th': Thread, e: Elem)
    requires t < |threads|
    ensures HandTimes(threads[t := th'], e) + multiset(InHand(threads[t]))[e]
            == HandTimes(threads, e) + multiset(InHand(th'))[e]
  {
    hide InHand;
    var n := |threads| - 1;
    if t < n {
      assert threads[t := th'][..n] == threads[..n][t := th'];
      HandUpdate(threads[..n], t, th', e);
    } else {
      assert threads[t := th'][..n] == threads[..n];
    }
  }

  lemma StepConserves(s: State, s': State, t: nat, e: Elem)
    requires Valid(s.core) && Step(s, s', t)
    ensures s'.past.given == s.past.given
    ensures Present(s', e) + s'.past.lost[e] == Present(s, e) + s.past.lost[e]
  {
    assert t < |s.threads| && |s'.threads| == |s.threads| && s'.threads == s.threads[t := s'.threads[t]] by { Mine(s, s', t); }
    HandUpdate(s.threads, t, s'.threads[t], e);
    hide Step, Valid, Times, HandTimes, InHand;
    if s.threads[t].Own? && (0 < s.threads[t].move || s.threads[t].todo != []) {
      Worked(s, s', t, e);
    } else {
      Passed(s, s', t, e);
    }
  }

  lemma Mine(s: State, s': State, t: nat)
    requires Step(s, s', t)
    ensures t < |s.threads| && |s'.threads| == |s.threads| && s'.threads == s.threads[t := s'.threads[t]]
  {
  }

  /** The owner moves the window or puts an element into it. */
  lemma Worked(s: State, s': State, t: nat, e: Elem)
    requires Valid(s.core) && Step(s, s', t) && s.threads[t].Own? && (0 < s.threads[t].move || s.threads[t].todo != [])
    ensures s'.pending == s.pending && s'.past == s.past
    ensures multiset(InHand(s'.threads[t]))[e] + Times(s'.core, e) == multiset(InHand(s.threads[t]))[e] + Times(s.core, e)
  {
    hide Valid, Times, InsertElem, RetireSlots;
    var th := s.threads[t];
    if 0 < th.move {
      RetireSlotsValid(s.core, th.move);
    } else {
      InsertElemValid(s.core, th.todo[0], e);
      PopTimes(th.todo, e);
    }
  }

  lemma PopTimes(list: seq<Elem>, e: Elem)
    requires list != []
    ensures multiset(list)[e] == One(list[0], e) + multiset(list[1..])[e]
  {
    assert list == [list[0]] + list[1..];
  }

  /** The steps that leave the window alone pass elements on. */
  lemma Passed(s: State, s': State, t: nat, e: Elem)
    requires Step(s, s', t) && !(s.threads[t].Own? && (0 < s.threads[t].move || s.threads[t].todo != []))
    ensures s'.core == s.core && s'.past.given == s.past.given
    ensures multiset(InHand(s'.threads[t]))[e] + multiset(Enqueued(s'.pending))[e] + s'.past.lost[e]
            == multiset(InHand(s.threads[t]))[e] + multiset(Enqueued(s.pending))[e] + s.past.lost[e]
  {
    hide Times, SamePtr, RetireSlots, InsertElem, Joined, Dropped;
    if s.threads[t].InsertCas? && s.pending.Busy? {
      JoinTimes(s.threads[t].list, s.pending.list, e);
    }
  }

  lemma JoinTimes(list: seq<Elem>, enqueued: seq<Elem>, e: Elem)
    ensures multiset(Joined(list, enqueued))[e] + multiset(Dropped(list, enqueued))[e]
            == multiset(list)[e] + multiset(enqueued)[e]
  {
  }

  lemma StepKeepsValid(s: State, s': State, t: nat)
    requires Valid(s.core) && Step(s, s', t)
    ensures Valid(s'.core) && s.core.oldest <= s'.core.oldest
  {
    var th := s.threads[t];
    if th.Own? && 0 < th.move {
      RetireSlotsValid(s.core, th.move);
    } else if th.Own? && th.todo != [] {
      InsertElemValid(s.core, th.todo[0], th.todo[0]);
      Moves(s.core, th.todo[0]);
    }
  }

  lemma Moves(c: Core, e: Elem)
    requires Valid(c)
    ensures c.oldest <= InsertElem(c, e).oldest
  {
    if e.sn >= c.oldest + |c.slots| {
      RetireSlotsValid(c, e.sn - (c.oldest + |c.slots| - 1));
    }
  }

  lemma StepKeepsOwner(s: State, s': State, t: nat)
    requires OwnerOk(s) && Step(s, s', t)
    ensures OwnerOk(s') && (s.past.stuck ==> s'.past.stuck)
  {
    StepWord(s, s', t);
    hide Step, Owner;
    if s'.pending.Busy? && !s'.past.stuck && s.pending.Busy? {
      var u :| 0 <= u < |s.threads| && Owner(s.threads[u]);
      assert Owner(s'.threads[u]);
    }
  }

  /** What a step does to the word and to who owns it. */
  lemma StepWord(s: State, s': State, t: nat)
    requires Step(s, s', t)
    requires Owner(s.threads[t]) ==> s.pending.Busy? && !s.past.stuck
    requires s.past.stuck ==> s.pending.Busy?
    ensures |s'.threads| == |s.threads| && forall u :: 0 <= u < |s.threads| && u != t ==> s'.threads[u] == s.threads[u]
    ensures s.past.stuck ==> s'.past.stuck && s'.pending.Busy? && Owner(s'.threads[t]) == Owner(s.threads[t])
    ensures Owner(s'.threads[t]) && !Owner(s.threads[t]) ==> s.pending.Free? && s'.pending.Busy? && !s'.past.stuck
    ensures Owner(s.threads[t]) ==> !s'.past.stuck && (Owner(s'.threads[t]) <==> s'.pending.Busy?)
    ensures s.pending.Busy? && !Owner(s.threads[t]) ==> s'.pending.Busy? && s'.past.stuck == s.past.stuck
    ensures s.pending.Free? && s'.pending.Busy? ==> s'.past.stuck || Owner(s'.threads[t])
    ensures s'.past.stuck ==> s'.pending.Busy?
    ensures s'.past.stuck && !s.past.stuck ==> s.pending.Free?
  {
    hide RetireSlots, InsertElem, SamePtr;
  }

  lemma StepKeepsNothing(s: State, s': State, t: nat)
    requires NothingOk(s) && Step(s, s', t)
    ensures NothingOk(s') && s'.past.nothing == s.past.nothing
  {
    Mine(s, s', t);
    hide RetireSlots, InsertElem, SamePtr;
  }

  lemma StartKeepsInv(s: State, s': State, t: nat, th': Thread)
    requires Inv(s) && Start(s, s', t, th')
    ensures Inv(s') && s'.core == s.core && s'.past.stuck == s.past.stuck
  {
    forall e ensures Accounted(s', e) {
      assert Accounted(s, e);
      HandUpdate(s.threads, t, th', e);
    }
    if s'.pending.Busy? && !s'.past.stuck {
      var u :| 0 <= u < |s.threads| && Owner(s.threads[u]);
      assert Owner(s'.threads[u]);
    }
  }

  lemma StepKeepsInv(s: State, s': State)
    requires Inv(s) && Next(s, s')
    ensures Inv(s') && (s.past.stuck ==> s'.past.stuck)
  {
    if t: nat :| Step(s, s', t) {
      StepKeepsValid(s, s', t);
      StepKeepsOwner(s, s', t);
      StepKeepsNothing(s, s', t);
      forall e ensures Accounted(s', e) {
        assert Accounted(s, e);
        StepConserves(s, s', t, e);
      }
    } else {
      var t: nat, th' :| Start(s, s', t, th');
      StartKeepsInv(s, s', t, th');
    }
  }

  lemma InitInv(s: State)
    requires Init(s)
    ensures Inv(s)
  {
    forall e ensures Accounted(s, e) {
      EmptySlots(s.core.slots, e);
      EmptyHands(s.threads, e);
    }
    forall k | 0 <= k < |s.core.slots| ensures SlotOk(s.core.oldest, s.core.slots, k) {
    }
  }

  lemma {:induction false} EmptyHands(threads: seq<Thread>, e: Elem)
    requires forall t :: 0 <= t < |threads| ==> InHand(threads[t]) == []
    ensures HandTimes(threads, e) == 0
  {
    if threads != [] {
      EmptyHands(threads[..|threads| - 1], e);
    }
  }

  lemma {:induction false} RunInv(run: seq<State>, i: nat, j: nat)
    requires Run(run) && i <= j < |run|
    ensures Inv(run[j]) && (run[i].past.stuck ==> run[j].past.stuck)
  {
    hide Inv, Init, Next;
    if j == 0 {
      InitInv(run[0]);
    } else {
      RunInv(run, if i < j then i else j - 1, j - 1);
      StepKeepsInv(run[j - 1], run[j]);
    }
  }

  // ---------- the properties ----------

  /** At most one thread owns the buffer, and while it does nobody else can take it. */
  lemma OneOwner(run: seq<State>, i: nat, t: nat, u: nat)
    requires Run(run) && i < |run| && t < |run[i].threads| && u < |run[i].threads|
    requires Owner(run[i].threads[t])
    ensures run[i].pending.Busy? && (Owner(run[i].threads[u]) ==> t == u)
  {
    RunInv(run, i, i);
  }

  /** In any state, each element passed to an insertion is output, in its slot, enqueued, in the hands of a thread or
      dropped, as often as it was passed; when nobody ever inserted an empty list, nothing is dropped. Elements not behind
      the window come out in the order of sequence numbers; each slot holds elements of the window that select it. */
  lemma NothingLost(run: seq<State>, i: nat, e: Elem)
    requires Run(run) && i < |run|
    ensures run[i].past.given[e] == Present(run[i], e) + run[i].past.lost[e] && Valid(run[i].core)
    ensures !run[i].past.nothing ==> Present(run[i], e) == run[i].past.given[e]
  {
    RunInv(run, i, i);
    assert Accounted(run[i], e);
    hide Valid, Present;
  }

  /** An insertion of nothing has put the null pointer into the word while elements were enqueued. */
  ghost predicate Drops(s: State, s': State) {
    exists t: nat :: Step(s, s', t) && DropsBy(s, s', t)
  }

  predicate DropsBy(s: State, s': State, t: nat) {
    && t < |s.threads| && t < |s'.threads|
    && s.threads[t].InsertCas? && s.threads[t].list == [] && Enqueued(s.pending) != [] && s'.threads[t].Idle?
  }

  /** A step of a thread never doubles an element, and loses one exactly when it joins an empty list to a list that is not
      empty. */
  lemma LosesIff(s: State, s': State, t: nat)
    requires Valid(s.core) && Step(s, s', t)
    ensures forall e :: Present(s', e) <= Present(s, e)
    ensures (exists e :: Present(s', e) < Present(s, e)) <==> DropsBy(s, s', t)
  {
    LostGrows(s, s', t);
    hide Step, Valid, Present, DropsBy;
    forall e ensures Present(s', e) + s'.past.lost[e] == Present(s, e) + s.past.lost[e] {
      StepConserves(s, s', t, e);
    }
    if DropsBy(s, s', t) {
      var e := LostOne(s, s', t);
      assert Present(s', e) < Present(s, e);
    }
  }

  lemma LostGrows(s: State, s': State, t: nat)
    requires Step(s, s', t)
    ensures forall e :: s.past.lost[e] <= s'.past.lost[e]
    ensures !DropsBy(s, s', t) ==> s'.past.lost == s.past.lost
  {
    Mine(s, s', t);
    hide RetireSlots, InsertElem, SamePtr;
  }

  lemma LostOne(s: State, s': State, t: nat) returns (e: Elem)
    requires Step(s, s', t) && DropsBy(s, s', t)
    ensures s.past.lost[e] < s'.past.lost[e]
  {
    hide RetireSlots, InsertElem, SamePtr;
    e := Enqueued(s.pending)[0];
    assert e in multiset(Enqueued(s.pending));
  }

  /** So exactly the runs without such a step have every element in place at the end. */
  lemma {:induction false} NothingLostIff(run: seq<State>, i: nat)
    requires Run(run) && i < |run|
    ensures (forall e :: Present(run[i], e) == run[i].past.given[e]) <==> forall k :: 0 <= k < i ==> !Drops(run[k], run[k + 1])
  {
    RunInv(run, i, i);
    LostIff(run, i);
    hide Run, Drops, Present, Valid, OwnerOk, NothingOk;
    if run[i].past.lost != multiset{} {
      var e :| e in run[i].past.lost;
      assert Accounted(run[i], e);
    }
    forall e | run[i].past.lost == multiset{} ensures Present(run[i], e) == run[i].past.given[e] {
      assert Accounted(run[i], e);
    }
  }

  lemma {:induction false} LostIff(run: seq<State>, i: nat)
    requires Run(run) && i < |run|
    ensures run[i].past.lost == multiset{} <==> forall k :: 0 <= k < i ==> !Drops(run[k], run[k + 1])
  {
    hide Drops, Next;
    if i > 0 {
      LostIff(run, i - 1);
      assert Next(run[i - 1], run[i - 1 + 1]);
      LostStep(run[i - 1], run[i]);
    }
  }

  lemma LostStep(s: State, s': State)
    requires Next(s, s')
    ensures s'.past.lost == multiset{} <==> s.past.lost == multiset{} && !Drops(s, s')
  {
    hide Step, DropsBy;
    if Drops(s, s') {
      var t: nat :| Step(s, s', t) && DropsBy(s, s', t);
      var e := LostOne(s, s', t);
      assert e in s'.past.lost;
    } else if t: nat :| Step(s, s', t) {
      LostGrows(s, s', t);
    }
  }

  /** When all calls have returned, the buffer is idle unless an insertion of nothing took it; every element passed to an
      insertion is output or in its slot exactly when none was dropped and none is left enqueued, and that is so when
      nobody ever inserted an empty list. */
  lemma IdleHasEverything(run: seq<State>, i: nat)
    requires Run(run) && i < |run| && (forall t :: 0 <= t < |run[i].threads| ==> run[i].threads[t].Idle?)
    ensures run[i].pending == Free <==> !run[i].past.stuck
    ensures (forall e :: Times(run[i].core, e) == run[i].past.given[e])
            <==> Enqueued(run[i].pending) == [] && forall k :: 0 <= k < i ==> !Drops(run[k], run[k + 1])
    ensures !run[i].past.nothing ==> run[i].pending == Free && forall k :: 0 <= k < i ==> !Drops(run[k], run[k + 1])
  {
    RunInv(run, i, i);
    LostIff(run, i);
    AtRest(run[i]);
  }

  /** With all threads idle, an element passed to an insertion is output, in its slot, enqueued or dropped. */
  lemma AtRest(s: State)
    requires Inv(s) && forall t :: 0 <= t < |s.threads| ==> s.threads[t].Idle?
    ensures (forall e :: Times(s.core, e) == s.past.given[e]) <==> Enqueued(s.pending) == [] && s.past.lost == multiset{}
  {
    hide Valid, Times, OwnerOk, NothingOk;
    forall e ensures s.past.given[e] == multiset(Enqueued(s.pending))[e] + Times(s.core, e) + s.past.lost[e] {
      assert Accounted(s, e);
      EmptyHands(s.threads, e);
    }
    if Enqueued(s.pending) != [] {
      var e := Enqueued(s.pending)[0];
      assert e in multiset(Enqueued(s.pending));
      assert Times(s.core, e) != s.past.given[e];
    } else if s.past.lost != multiset{} {
      var e :| e in s.past.lost;
      assert Times(s.core, e) != s.past.given[e];
    }
  }

  /** An insertion of nothing that takes the idle buffer returns without letting go: no call will ever own it again, and
      no flush will return. */
  lemma InsertingNothingBlocks(run: seq<State>, i: nat, j: nat, t: nat)
    requires Run(run) && i <= j < |run| && run[i].past.stuck && t < |run[j].threads|
    ensures run[j].pending.Busy? && !Owner(run[j].threads[t])
  {
    RunInv(run, i, j);
  }

  // ---------- flushing ----------

  /** The latest call of thread t at moment j is a flush that began with the step after moment a. */
  ghost predicate Flushing(run: seq<State>, a: nat, j: nat, t: nat, move: nat) {
    && a < j < |run| && t < |run[a].threads| && t < |run[j].threads|
    && Start(run[a], run[a + 1], t, Flush(move))
    && forall k :: a < k < j ==> NotAgain(run, k, t)
  }

  ghost predicate NotAgain(run: seq<State>, k: nat, t: nat) {
    && k + 1 < |run| && t < |run[k].threads| && t < |run[k + 1].threads|
    && (!run[k].threads[t].Idle? || run[k + 1].threads[t] == run[k].threads[t])
  }

  /** The window was moved in the step after moment b. */
  predicate Moved(run: seq<State>, b: nat, move: nat) {
    && b + 1 < |run| && |run[b].core.slots| > 0 && run[b + 1].core == RetireSlots(run[b].core, move)
  }

  predicate FlushOk(run: seq<State>, b: nat, th: Thread, move: nat) {
    match th
    case Flush(m) => m == move
    case Own(_, m) => m == move || (m == 0 && Moved(run, b, move))
    case Release(_) => move == 0 || Moved(run, b, move)
    case Idle => move == 0 || Moved(run, b, move)
    case _ => false
  }

  lemma FlushMoves(run: seq<State>, b: nat, i: nat, t: nat, move: nat) returns (b': nat)
    requires b <= i && i + 1 < |run| && Step(run[i], run[i + 1], t) && !run[i].threads[t].Idle?
    requires FlushOk(run, b, run[i].threads[t], move)
    ensures |run[i + 1].threads| == |run[i].threads| && b <= b' <= i && FlushOk(run, b', run[i + 1].threads[t], move)
  {
    hide RetireSlots, InsertElem, SamePtr;
    var th := run[i].threads[t];
    b' := if th.Own? && 0 < th.move then i else b;
  }

  lemma {:induction false} DuringFlush(run: seq<State>, a: nat, j: nat, t: nat, move: nat) returns (b: nat)
    requires Run(run) && Flushing(run, a, j, t, move)
    ensures a <= b < j && FlushOk(run, b, run[j].threads[t], move)
  {
    hide Run, Start;
    if j == a + 1 {
      b := a;
      FlushStarts(run, a, t, move);
    } else {
      assert NotAgain(run, j - 1, t) && Flushing(run, a, j - 1, t, move);
      hide Flushing, FlushOk, NotAgain;
      b := DuringFlush(run, a, j - 1, t, move);
      b := FlushStep(run, b, j - 1, t, move);
    }
  }

  lemma FlushStarts(run: seq<State>, a: nat, t: nat, move: nat)
    requires Flushing(run, a, a + 1, t, move)
    ensures FlushOk(run, a, run[a + 1].threads[t], move)
  {
  }

  lemma FlushStep(run: seq<State>, b: nat, i: nat, t: nat, move: nat) returns (b': nat)
    requires Run(run) && b <= i && NotAgain(run, i, t) && FlushOk(run, b, run[i].threads[t], move)
    ensures b <= b' <= i && FlushOk(run, b', run[i + 1].threads[t], move)
  {
    assert Next(run[i], run[i + 1]);
    hide Run, Step, Start, FlushOk;
    b' := b;
    var s, s' := run[i], run[i + 1];
    if u: nat :| Step(s, s', u) {
      Mine(s, s', u);
      if u == t && !s.threads[t].Idle? {
        b' := FlushMoves(run, b, i, t, move);
      }
    } else {
      var u: nat, th' :| Start(s, s', u, th');
      StartMine(s, s', u, th');
    }
  }

  lemma StartMine(s: State, s': State, u: nat, th': Thread)
    requires Start(s, s', u, th')
    ensures u < |s.threads| && s.threads[u].Idle? && s'.threads == s.threads[u := th']
  {
  }

  /** A flush that has returned moved the window by the distance asked for, in one step of the call. */
  lemma FlushAnswer(run: seq<State>, a: nat, j: nat, t: nat, move: nat) returns (b: nat)
    requires Run(run) && Flushing(run, a, j, t, move) && run[j].threads[t].Idle? && 0 < move
    ensures a <= b < j && |run[b].core.slots| > 0 && run[b + 1].core == RetireSlots(run[b].core, move)
    ensures run[b + 1].core.oldest == run[b].core.oldest + move
  {
    b := DuringFlush(run, a, j, t, move);
    RunInv(run, b, b);
    RetireSlotsValid(run[b].core, move);
    hide Run, OwnerOk, NothingOk, RetireSlots, Flushing;
  }

  ghost predicate Fresh(core: Core) {
    && |core.slots| > 0 && core.oldest == 0 && core.out == []
    && forall k :: 0 <= k < |core.slots| ==> core.slots[k] == []
  }

  /** The concrete run: one thread, inserting nothing. */
  lemma StuckExample(core: Core) returns (run: seq<State>)
    requires Fresh(core)
    ensures Run(run) && |run| == 4 && run[3].past.stuck && run[3].threads == [Idle] && run[3].pending == Busy([])
  {
    var s0 := State(Free, core, [Idle], History(multiset{}, multiset{}, false, false));
    var s1 := s0.(threads := [Insert([])], past := s0.past.(nothing := true));
    var s2 := s1.(threads := [InsertCas([], Free)]);
    var s3 := s2.(threads := [Idle], pending := Busy([]), past := s1.past.(stuck := true));
    assert s0.past.given + multiset([]) == s0.past.given;
    assert Start(s0, s1, 0, Insert([]));
    assert Step(s1, s2, 0);
    assert Step(s2, s3, 0);
    run := [s0, s1, s2, s3];
  }

  /** One thread inserts `a` and owns the buffer. */
  lemma Owning(core: Core, a: Elem) returns (run: seq<State>)
    requires Fresh(core)
    ensures Run(run) && |run| == 4
    ensures run[3] == State(Busy([]), core, [Own([a], 0), Idle, Idle], History(multiset{a}, multiset{}, false, false))
  {
    hide RetireSlots, InsertElem;
    var none := History(multiset{}, multiset{}, false, false);
    var s0 := State(Free, core, [Idle, Idle, Idle], none);
    var s1 := s0.(threads := [Insert([a]), Idle, Idle], past := none.(given := multiset{a}));
    var s2 := s1.(threads := [InsertCas([a], Free), Idle, Idle]);
    var s3 := s2.(threads := [Own([a], 0), Idle, Idle], pending := Busy([]));
    assert none.given + multiset([a]) == multiset{a};
    assert Start(s0, s1, 0, Insert([a])) && Step(s1, s2, 0) && Step(s2, s3, 0);
    run := [s0, s1, s2, s3];
  }

  /** Another enqueues `b`. */
  lemma Enqueuing(s: State, a: Elem, b: Elem) returns (more: seq<State>)
    requires |s.core.slots| > 0 && s.pending == Busy([]) && s.threads == [Own([a], 0), Idle, Idle]
    requires s.past == History(multiset{a}, multiset{}, false, false)
    ensures |more| == 3 && Next(s, more[0]) && Next(more[0], more[1]) && Next(more[1], more[2])
    ensures more[2] == State(Busy([b]), s.core, s.threads, History(multiset{a, b}, multiset{}, false, false))
  {
    hide RetireSlots, InsertElem;
    var s1 := s.(threads := [Own([a], 0), Insert([b]), Idle], past := s.past.(given := multiset{a, b}));
    var s2 := s1.(threads := [Own([a], 0), InsertCas([b], Busy([])), Idle]);
    var s3 := s2.(threads := s.threads, pending := Busy([b]));
    assert s.past.given + multiset([b]) == multiset{a, b};
    assert Start(s, s1, 1, Insert([b])) && Step(s1, s2, 1);
    assert Joined([b], []) == [b] && multiset(Dropped([b], [])) == multiset{};
    assert s2.past.lost + multiset{} == s2.past.lost;
    assert Step(s2, s3, 1);
    more := [s1, s2, s3];
  }

  /** A third thread inserts nothing: the enqueued element is dropped. */
  lemma Dropping(s: State, a: Elem, b: Elem) returns (more: seq<State>)
    requires |s.core.slots| > 0 && s.pending == Busy([b]) && s.threads == [Own([a], 0), Idle, Idle]
    requires s.past == History(multiset{a, b}, multiset{}, false, false)
    ensures |more| == 3 && Next(s, more[0]) && Next(more[0], more[1]) && Next(more[1], more[2])
    ensures more[2] == State(Busy([]), s.core, s.threads, History(multiset{a, b}, multiset{b}, true, false))
  {
    hide RetireSlots, InsertElem;
    var s1 := s.(threads := [Own([a], 0), Idle, Insert([])], past := s.past.(nothing := true));
    var s2 := s1.(threads := [Own([a], 0), Idle, InsertCas([], Busy([b]))]);
    var s3 := s2.(threads := s.threads, pending := Busy([]), past := s2.past.(lost := multiset{b}));
    assert s.past.given + multiset([]) == s.past.given;
    assert Start(s, s1, 2, Insert([])) && Step(s1, s2, 2);
    assert s2.past.lost + multiset([b]) == multiset{b};
    assert Step(s2, s3, 2);
    more := [s1, s2, s3];
  }

  /** The owner puts its element into the window and lets go. */
  lemma LettingGo(s: State, a: Elem) returns (more: seq<State>)
    requires |s.core.slots| > 0 && s.pending == Busy([]) && s.threads == [Own([a], 0), Idle, Idle]
    ensures |more| == 3 && Next(s, more[0]) && Next(more[0], more[1]) && Next(more[1], more[2])
    ensures more[2] == State(Free, InsertElem(s.core, a), [Idle, Idle, Idle], s.past)
  {
    hide RetireSlots, InsertElem;
    var s1 := s.(core := InsertElem(s.core, a), threads := [Own([], 0), Idle, Idle]);
    var s2 := s1.(threads := [Release(Busy([])), Idle, Idle]);
    var s3 := s2.(threads := [Idle, Idle, Idle], pending := Free);
    assert [a][0] == a && [a][1..] == [];
    assert Step(s, s1, 0) && Step(s1, s2, 0) && Step(s2, s3, 0);
    more := [s1, s2, s3];
  }

  /** The concrete run that loses an element without blocking the buffer: one thread inserts `a` and owns the buffer,
      another enqueues `b`, a third inserts nothing; when all have returned the buffer is idle and `b` is nowhere. */
  lemma LostExample(core: Core, a: Elem, b: Elem) returns (run: seq<State>)
    requires Fresh(core) && a != b
    ensures Run(run) && |run| == 13
    ensures run[12].threads == [Idle, Idle, Idle] && run[12].pending == Free && !run[12].past.stuck
    ensures run[12].past.given == multiset{a, b} && Times(run[12].core, b) == 0
  {
    assert |core.slots| > 0;
    hide *;
    var first := Owning(core, a);
    var enqueuing := Enqueuing(first[3], a, b);
    var dropping := Dropping(enqueuing[2], a, b);
    var last := LettingGo(dropping[2], a);
    var enqueued := Extend(first, enqueuing);
    var dropped := Extend(enqueued, dropping);
    run := Extend(dropped, last);
    RunInv(run, 12, 12);
    InvAccounts(run[12], b);
  }

  lemma Extend(run: seq<State>, more: seq<State>) returns (longer: seq<State>)
    requires Run(run) && |more| == 3 && Next(run[|run| - 1], more[0]) && Next(more[0], more[1]) && Next(more[1], more[2])
    ensures Run(longer) && |longer| == |run| + 3 && longer[|run| + 2] == more[2]
  {
    hide Next, Init;
    longer := run + more;
  }

  lemma InvAccounts(s: State, e: Elem)
    requires Inv(s)
    ensures Times(s.core, e) + s.past.lost[e] <= s.past.given[e]
  {
    hide Times;
    assert Accounted(s, e);
  }
}

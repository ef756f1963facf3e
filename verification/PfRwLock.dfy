/** The phase-fair reader/writer lock as a machine of atomic steps: one packed word of four counters and the count of
    readers that have left, taken as naturals. */
module PfRwLock {
  datatype Word = Word(enterRd: nat, pendRd: nat, leaveWr: nat, enterWr: nat)

  datatype Thread =
    | Idle
    | RdEnter(seen: Word)
    | RdWait(phase: nat)
    | Reading
    | WrWait(tkt: nat)
    | WrLoad(tkt: nat)
    | WrDrain(tkt: nat, readers: nat)
    | Writing(tkt: nat)
    | WrLeave(tkt: nat, seen: Word)

  datatype State = State(word: Word, leaveRd: nat, threads: seq<Thread>)

  ghost predicate Init(s: State) {
    && s.word == Word(0, 0, 0, 0) && s.leaveRd == 0
    && forall t :: 0 <= t < |s.threads| ==> s.threads[t].Idle?
  }

  // ---------- the steps ----------

  /** Entering readers count as present when no writer is, else as pending. */
  function EnterOrPend(w: Word): Word {
    if w.enterWr == w.leaveWr then w.(enterRd := w.enterRd + 1) else w.(pendRd := w.pendRd + 1)
  }

  function EndWrite(w: Word): Word { Word(w.enterRd + w.pendRd, 0, w.leaveWr + 1, w.enterWr) }

  predicate Step(s: State, s': State, t: nat) {
    && t < |s.threads|
    && match s.threads[t]
       case Idle =>
         || s' == s.(threads := s.threads[t := RdEnter(s.word)])
         || s' == s.(word := s.word.(enterWr := s.word.enterWr + 1), threads := s.threads[t := WrWait(s.word.enterWr)])
       case RdEnter(seen) =>
         if s.word == seen then
           s' == s.(word := EnterOrPend(seen),
                    threads := s.threads[t := if seen.enterWr != seen.leaveWr then RdWait(seen.leaveWr + 1) else Reading])
         else s' == s.(threads := s.threads[t := RdEnter(s.word)])
       case RdWait(phase) => s' == s.(threads := s.threads[t := if s.word.leaveWr == phase then Reading else RdWait(phase)])
       case Reading => s' == s.(leaveRd := s.leaveRd + 1, threads := s.threads[t := Idle])
       case WrWait(tkt) => s' == s.(threads := s.threads[t := if s.word.leaveWr == tkt then WrLoad(tkt) else WrWait(tkt)])
       case WrLoad(tkt) => s' == s.(threads := s.threads[t := WrDrain(tkt, s.word.enterRd)])
       case WrDrain(tkt, readers) =>
         s' == s.(threads := s.threads[t := if s.leaveRd == readers then Writing(tkt) else WrDrain(tkt, readers)])
       case Writing(tkt) => s' == s.(threads := s.threads[t := WrLeave(tkt, s.word)])
       case WrLeave(tkt, seen) =>
         if s.word == seen then s' == s.(word := EndWrite(seen), threads := s.threads[t := Idle])
         else s' == s.(threads := s.threads[t := WrLeave(tkt, s.word)])
  }

  ghost predicate Next(s: State, s': State) { exists t: nat :: Step(s, s', t) }

  ghost predicate Run(run: seq<State>) {
    && |run| > 0 && Init(run[0])
    && forall i :: 0 <= i < |run| - 1 ==> Next(run[i], run[i + 1])
  }

  // ---------- counting ----------

  /** Readers of the current phase: reading, or let in by the last writer and not aware of it yet. */
  function Present(threads: seq<Thread>, leaveWr: nat): nat {
    if threads == [] then 0 else Present(threads[..|threads| - 1], leaveWr) + IsPresent(threads[|threads| - 1], leaveWr)
  }

  function IsPresent(th: Thread, leaveWr: nat): nat {
    if th.Reading? || (th.RdWait? && th.phase == leaveWr) then 1 else 0
  }

  function Pending(threads: seq<Thread>, leaveWr: nat): nat {
    if threads == [] then 0 else Pending(threads[..|threads| - 1], leaveWr) + IsPending(threads[|threads| - 1], leaveWr)
  }

  function IsPending(th: Thread, leaveWr: nat): nat { if th.RdWait? && th.phase == leaveWr + 1 then 1 else 0 }

  lemma {:induction false} CountUpdate(threads: seq<Thread>, t: nat, th': Thread, w: nat)
    requires t < |threads|
    ensures Present(threads[t := th'], w) + IsPresent(threads[t], w) == Present(threads, w) + IsPresent(th', w)
    ensures Pending(threads[t := th'], w) + IsPending(threads[t], w) == Pending(threads, w) + IsPending(th', w)
  {
    var n := |threads| - 1;
    if t < n {
      assert threads[t := th'][..n] == threads[..n][t := th'];
      CountUpdate(threads[..n], t, th', w);
    } else {
      assert threads[t := th'][..n] == threads[..n];
    }
  }

  lemma {:induction false} CountAtLeast(threads: seq<Thread>, t: nat, w: nat)
    requires t < |threads|
    ensures IsPresent(threads[t], w) <= Present(threads, w)
  {
    if t < |threads| - 1 {
      CountAtLeast(threads[..|threads| - 1], t, w);
    }
  }

  /** When nobody of the current phase is left, the readers of the next phase are those pending now. */
  lemma {:induction false} NextPhase(threads: seq<Thread>, w: nat)
    requires Present(threads, w) == 0 && (forall t :: 0 <= t < |threads| && threads[t].RdWait? ==> threads[t].phase <= w + 1)
    ensures Present(threads, w + 1) == Pending(threads, w) && Pending(threads, w + 1) == 0
  {
    if threads != [] {
      NextPhase(threads[..|threads| - 1], w);
    }
  }

  // ---------- the invariant ----------

  predicate HasTicket(th: Thread) { th.WrWait? || th.WrLoad? || th.WrDrain? || th.Writing? || th.WrLeave? }

  predicate Exclusive(th: Thread) { th.Writing? || th.WrLeave? }

  ghost predicate ThreadOk(s: State, th: Thread) {
    && (HasTicket(th) ==> s.word.leaveWr <= th.tkt < s.word.enterWr)
    && (HasTicket(th) && !th.WrWait? ==> th.tkt == s.word.leaveWr)
    && (th.WrDrain? ==> th.readers == s.word.enterRd)
    && (Exclusive(th) ==> s.leaveRd == s.word.enterRd)
    && (th.RdWait? ==> s.word.leaveWr <= th.phase <= s.word.leaveWr + 1)
  }

  ghost predicate Tickets(threads: seq<Thread>) {
    forall t, u :: 0 <= t < u < |threads| && HasTicket(threads[t]) && HasTicket(threads[u]) ==>
      threads[t].tkt != threads[u].tkt
  }

  /** As long as a writer is present, some thread has the ticket in turn. */
  ghost predicate InTurn(s: State) {
    s.word.leaveWr <= s.word.enterWr
    && forall k :: s.word.leaveWr <= k < s.word.enterWr ==> Taken(s.threads, k)
  }

  ghost predicate Taken(threads: seq<Thread>, tkt: int) {
    exists t :: 0 <= t < |threads| && HasTicket(threads[t]) && threads[t].tkt == tkt
  }

  ghost predicate Inv(s: State) {
    && s.leaveRd + Present(s.threads, s.word.leaveWr) == s.word.enterRd
    && s.word.pendRd == Pending(s.threads, s.word.leaveWr)
    && (forall t :: 0 <= t < |s.threads| ==> ThreadOk(s, s.threads[t]))
    && Tickets(s.threads) && InTurn(s)
  }

  // ---------- one step ----------

  lemma InTurnStays(s: State, s': State, t: nat)
    requires InTurn(s) && t < |s.threads| == |s'.threads| && s'.threads == s.threads[t := s'.threads[t]]
    requires s'.word.leaveWr == s.word.leaveWr
    requires || (s'.word.enterWr == s.word.enterWr && (HasTicket(s.threads[t]) ==>
                  HasTicket(s'.threads[t]) && s'.threads[t].tkt == s.threads[t].tkt))
             || (s'.word.enterWr == s.word.enterWr + 1 && !HasTicket(s.threads[t]) && HasTicket(s'.threads[t])
                 && s'.threads[t].tkt == s.word.enterWr)
    ensures InTurn(s')
  {
    forall k | s'.word.leaveWr <= k < s'.word.enterWr ensures Taken(s'.threads, k) {
      if k < s.word.enterWr {
        assert Taken(s.threads, k);
        var u :| 0 <= u < |s.threads| && HasTicket(s.threads[u]) && s.threads[u].tkt == k;
        assert HasTicket(s'.threads[u]) && s'.threads[u].tkt == k;
      } else {
        assert HasTicket(s'.threads[t]) && s'.threads[t].tkt == k;
      }
    }
  }

  /** The steps of readers, and those of writers that leave the word alone. */
  lemma OrdinaryKeepsInv(s: State, s': State, t: nat)
    requires Inv(s) && Step(s, s', t) && s'.word.leaveWr == s.word.leaveWr && s'.word.enterWr == s.word.enterWr
    ensures Inv(s')
  {
    assert ThreadOk(s, s.threads[t]);
    CountUpdate(s.threads, t, s'.threads[t], s.word.leaveWr);
    InTurnStays(s, s', t);
    hide InTurn;
    if s.threads[t].Reading? {
      ReaderBlocks(s, t);
    }
    if s'.word != s.word {
      WriterAbsent(s, s', t);
    }
    forall u | 0 <= u < |s'.threads| ensures ThreadOk(s', s'.threads[u]) {
      assert ThreadOk(s, s.threads[u]);
    }
  }

  /** While somebody reads, no writer has exclusive access. */
  lemma ReaderBlocks(s: State, t: nat)
    requires Inv(s) && t < |s.threads| && s.threads[t].Reading?
    ensures forall u :: 0 <= u < |s.threads| ==> !Exclusive(s.threads[u])
  {
    CountAtLeast(s.threads, t, s.word.leaveWr);
    forall u | 0 <= u < |s.threads| ensures !Exclusive(s.threads[u]) {
      assert ThreadOk(s, s.threads[u]);
    }
  }

  /** A reader is counted as present only when there is no writer at all. */
  lemma WriterAbsent(s: State, s': State, t: nat)
    requires Inv(s) && Step(s, s', t) && s'.word.leaveWr == s.word.leaveWr && s'.word.enterWr == s.word.enterWr
    requires s'.word != s.word
    ensures s'.word.enterRd == s.word.enterRd || forall u :: 0 <= u < |s.threads| ==> !HasTicket(s.threads[u])
  {
    forall u | 0 <= u < |s.threads| && s.word.enterWr == s.word.leaveWr ensures !HasTicket(s.threads[u]) {
      assert ThreadOk(s, s.threads[u]);
    }
  }

  lemma TicketKeepsInv(s: State, s': State, t: nat)
    requires Inv(s) && Step(s, s', t) && s'.word.enterWr == s.word.enterWr + 1
    ensures Inv(s')
  {
    CountUpdate(s.threads, t, s'.threads[t], s.word.leaveWr);
    InTurnStays(s, s', t);
    hide InTurn;
    forall u | 0 <= u < |s'.threads| ensures ThreadOk(s', s'.threads[u]) {
      assert ThreadOk(s, s.threads[u]);
    }
  }

  /** A writer leaves: nobody of its phase is left, so all waiting readers are let in, for exactly the next phase. */
  lemma LeaveKeepsInv(s: State, s': State, t: nat)
    requires Inv(s) && Step(s, s', t) && s'.word.leaveWr == s.word.leaveWr + 1
    ensures Inv(s')
  {
    var w := s.word.leaveWr;
    Leaves(s, s', t);
    NoneLeft(s, t);
    assert ThreadOk(s, s.threads[t]);
    CountUpdate(s.threads, t, s'.threads[t], w);
    NextPhase(s'.threads, w);
    hide Step, Present, Pending, InTurn, Taken;
    forall u | 0 <= u < |s'.threads| ensures ThreadOk(s', s'.threads[u]) {
      assert ThreadOk(s, s.threads[u]);
    }
    LeaveInTurn(s, s', t);
  }

  lemma Leaves(s: State, s': State, t: nat)
    requires Step(s, s', t) && s'.word.leaveWr == s.word.leaveWr + 1
    ensures t < |s.threads| && s.threads[t].WrLeave?
    ensures s' == s.(word := EndWrite(s.word), threads := s.threads[t := Idle])
  {
  }

  lemma NoneLeft(s: State, t: nat)
    requires Inv(s) && t < |s.threads| && Exclusive(s.threads[t])
    ensures Present(s.threads, s.word.leaveWr) == 0
    ensures forall u :: 0 <= u < |s.threads| && s.threads[u].RdWait? ==> s.threads[u].phase == s.word.leaveWr + 1
  {
    assert ThreadOk(s, s.threads[t]);
    forall u | 0 <= u < |s.threads| && s.threads[u].RdWait? ensures s.threads[u].phase == s.word.leaveWr + 1 {
      assert ThreadOk(s, s.threads[u]);
      CountAtLeast(s.threads, u, s.word.leaveWr);
    }
  }

  lemma LeaveInTurn(s: State, s': State, t: nat)
    requires InTurn(s) && t < |s.threads| == |s'.threads| && s'.threads == s.threads[t := s'.threads[t]]
    requires HasTicket(s.threads[t]) && s.threads[t].tkt == s.word.leaveWr < s.word.enterWr
    requires s'.word.leaveWr == s.word.leaveWr + 1 && s'.word.enterWr == s.word.enterWr
    ensures InTurn(s')
  {
    forall k | s'.word.leaveWr <= k < s.word.enterWr ensures Taken(s'.threads, k) {
      assert Taken(s.threads, k);
      var u :| 0 <= u < |s.threads| && HasTicket(s.threads[u]) && s.threads[u].tkt == k;
      assert HasTicket(s'.threads[u]) && s'.threads[u].tkt == k;
    }
  }

  /** One step of any thread. */
  lemma StepKeepsInv(s: State, s': State, t: nat)
    requires Inv(s) && Step(s, s', t)
    ensures Inv(s') && s.word.leaveWr <= s'.word.leaveWr <= s.word.leaveWr + 1
  {
    hide Inv;
    if s'.word.enterWr != s.word.enterWr {
      TicketKeepsInv(s, s', t);
    } else if s'.word.leaveWr != s.word.leaveWr {
      LeaveKeepsInv(s, s', t);
    } else {
      OrdinaryKeepsInv(s, s', t);
    }
  }

  lemma InitInv(s: State)
    requires Init(s)
    ensures Inv(s)
  {
    NobodyCounted(s.threads, 0);
  }

  lemma {:induction false} RunInv(run: seq<State>, i: nat)
    requires Run(run) && i < |run|
    ensures Inv(run[i])
  {
    hide Inv, Step, Init;
    if i == 0 {
      InitInv(run[0]);
    } else {
      RunInv(run, i - 1);
      assert Next(run[i - 1], run[i]);
      var t: nat :| Step(run[i - 1], run[i], t);
      StepKeepsInv(run[i - 1], run[i], t);
    }
  }

  // ---------- the properties ----------

  /** A writer in its critical section excludes all readers and all other writers. */
  lemma WriterExcludes(run: seq<State>, i: nat, t: nat, u: nat)
    requires Run(run) && i < |run| && t < |run[i].threads| && u < |run[i].threads| && Exclusive(run[i].threads[t])
    ensures !run[i].threads[u].Reading? && (Exclusive(run[i].threads[u]) ==> t == u)
  {
    RunInv(run, i);
    var s := run[i];
    assert ThreadOk(s, s.threads[t]) && ThreadOk(s, s.threads[u]);
    CountAtLeast(s.threads, u, s.word.leaveWr);
    hide InTurn;
  }

  /** Writers enter in ticket order: the one in the critical section has the least ticket not given back, and every later
      ticket not given back is held by a thread still waiting. */
  lemma WritersInTicketOrder(run: seq<State>, i: nat, t: nat, k: nat)
    requires Run(run) && i < |run| && t < |run[i].threads| && Exclusive(run[i].threads[t])
    requires run[i].word.leaveWr < k < run[i].word.enterWr
    ensures run[i].threads[t].tkt == run[i].word.leaveWr
    ensures exists u :: 0 <= u < |run[i].threads| && run[i].threads[u] == WrWait(k)
  {
    RunInv(run, i);
    var s := run[i];
    assert ThreadOk(s, s.threads[t]);
    assert Taken(s.threads, k);
    var u :| 0 <= u < |s.threads| && HasTicket(s.threads[u]) && s.threads[u].tkt == k;
    assert ThreadOk(s, s.threads[u]);
  }

  /** A waiting reader waits for exactly one writer to leave: the awaited phase is the next one or has just begun, and the
      phase cannot end before the reader has been in. */
  lemma ReaderWaitsForOneWriter(run: seq<State>, i: nat, t: nat)
    requires Run(run) && i + 1 < |run| && t < |run[i].threads| && run[i].threads[t].RdWait?
    ensures var w, phase := run[i].word.leaveWr, run[i].threads[t].phase;
            && w <= phase <= w + 1
            && (phase == w ==> run[i + 1].word.leaveWr == w
                               && forall u :: 0 <= u < |run[i].threads| ==> !Exclusive(run[i].threads[u]))
  {
    RunInv(run, i);
    RunInv(run, i + 1);
    var s := run[i];
    assert ThreadOk(s, s.threads[t]);
    CountAtLeast(s.threads, t, s.word.leaveWr);
    forall u | 0 <= u < |s.threads| && s.threads[t].phase == s.word.leaveWr ensures !Exclusive(s.threads[u]) {
      assert ThreadOk(s, s.threads[u]);
    }
    assert Next(s, run[i + 1]);
    hide Inv, ThreadOk;
  }

  /** With no writer present nobody waits: the counters are at rest exactly when all threads are. */
  lemma AtRest(run: seq<State>, i: nat)
    requires Run(run) && i < |run| && (forall t :: 0 <= t < |run[i].threads| ==> run[i].threads[t].Idle?)
    ensures run[i].word.enterWr == run[i].word.leaveWr && run[i].word.enterRd == run[i].leaveRd && run[i].word.pendRd == 0
  {
    RunInv(run, i);
    var s := run[i];
    NobodyCounted(s.threads, s.word.leaveWr);
    assert s.word.leaveWr < s.word.enterWr ==> Taken(s.threads, s.word.leaveWr);
  }

  lemma {:induction false} NobodyCounted(threads: seq<Thread>, w: nat)
    requires forall t :: 0 <= t < |threads| ==> threads[t].Idle?
    ensures Present(threads, w) == 0 && Pending(threads, w) == 0
  {
    if threads != [] {
      NobodyCounted(threads[..|threads| - 1], w);
    }
  }
}

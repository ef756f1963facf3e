/** Every step of the pass-the-buck ring keeps its invariant, and what follows for every run. */
module BuckRingSafety {
  import opened RingIndex
  import opened BuckRing

  // ---------- steps that change only a thread's locals ----------

  lemma {:induction false} SumUpdate(threads: seq<Thread>, t: nat, th: Thread, side: Side)
    requires t < |threads|
    ensures SumUnpublished(threads[t := th], side)
         == SumUnpublished(threads, side) - Unpublished(threads[t], side) + Unpublished(th, side)
  {
    var n := |threads| - 1;
    if t == n {
      assert threads[t := th][..n] == threads[..n];
    } else {
      assert threads[t := th][..n] == threads[..n][t := th];
      SumUpdate(threads[..n], t, th, side);
    }
  }

  /** The new locals of thread t lose no claim that the invariant of a side relies on. */
  ghost predicate KeepsClaims(old': Thread, new': Thread, side: Side) {
    && (forall p: nat :: Unfinished(old', side, p) ==> Unfinished(new', side, p))
    && (Holds(old', side) ==> Holds(new', side))
    && Unpublished(old', side) == Unpublished(new', side)
  }

  lemma SideFrame(ring: seq<Slot>, ring': seq<Slot>, threads: seq<Thread>, t: nat, th: Thread, h: History,
                  acquired: nat, published: nat, side: Side)
    requires 0 < |ring| == |ring'| && t < |threads|
    requires SideOk(ring, threads, h, acquired, published, side)
    requires forall j :: 0 <= j < |ring| ==> Mark(ring'[j], side) == Mark(ring[j], side)
    requires KeepsClaims(threads[t], th, side)
    requires ThreadOk(h, t, th, side)
    ensures SideOk(ring', threads[t := th], h, acquired, published, side)
  {
    SumUpdate(threads, t, th, side);
  }

  lemma LocalStep(s: State, t: nat, th: Thread)
    requires Inv(s) && t < |s.threads|
    requires KeepsClaims(s.threads[t], th, Enq) && KeepsClaims(s.threads[t], th, Deq)
    requires ThreadOk(s.enq, t, th, Enq) && ThreadOk(s.deq, t, th, Deq)
    requires LocalsOk(th, s.enq.done, Limit(s, Enq), Limit(s, Deq))
    ensures Inv(WithThread(s, t, th))
  {
    hide SideOk, ThreadOk, KeepsClaims, LocalsOk;
    SideFrame(s.ring, s.ring, s.threads, t, th, s.enq, s.prodTail, s.consTail, Enq);
    SideFrame(s.ring, s.ring, s.threads, t, th, s.deq, s.consHead, s.prodHead, Deq);
  }

  lemma ThreadFacts(s: State, t: nat)
    requires Inv(s) && t < |s.threads|
    ensures ThreadOk(s.enq, t, s.threads[t], Enq) && ThreadOk(s.deq, t, s.threads[t], Deq)
    ensures LocalsOk(s.threads[t], s.enq.done, Limit(s, Enq), Limit(s, Deq))
  {
    hide ThreadOk, LocalsOk;
  }

  lemma StartKeepsInv(s: State, s': State, t: nat)
    requires Inv(s) && t < |s.threads| && Start(s, s', t)
    ensures Inv(s')
  {
    hide Inv;
    var side: Side, ev: seq<Elem> :| StartOp(s, s', t, side, ev);
    LocalStep(s, t, Head(side, ev, Acquired(s, side)));
  }

  lemma LoadHeadKeepsInv(s: State, s': State, t: nat)
    requires Inv(s) && t < |s.threads| && LoadHead(s, s', t)
    ensures Inv(s')
  {
    ThreadFacts(s, t);
    LocalStep(s, t, s'.threads[t]);
  }

  lemma LoadFirstKeepsInv(s: State, s': State, t: nat)
    requires Inv(s) && t < |s.threads| && LoadFirst(s, s', t)
    ensures Inv(s')
  {
    hide Inv;
    ThreadFacts(s, t);
    LocalStep(s, t, s'.threads[t]);
  }

  lemma ScanKeepsInv(s: State, s': State, t: nat)
    requires Inv(s) && t < |s.threads| && 0 < |s.ring| && ScanSlot(s, s', t)
    ensures Inv(s')
  {
    hide Inv;
    ThreadFacts(s, t);
    var th := s.threads[t];
    if Matches(SlotOf(s.ring, th.phase.idx), th.side) {
      MatchIsFinished(s, t);
    }
    LocalStep(s, t, s'.threads[t]);
  }

  /** A slot that the scan goes past is finished on this side: the marks and the NILs stop it before a lap is up. */
  lemma MatchIsFinished(s: State, t: nat)
    requires Inv(s) && t < |s.threads| && 0 < |s.ring|
    requires s.threads[t].Busy? && s.threads[t].phase.Scan?
    requires Matches(SlotOf(s.ring, s.threads[t].phase.idx), s.threads[t].side)
    ensures var th := s.threads[t];
            var h := Hist(s, th.side);
            th.phase.idx in h.done && th.phase.idx < |h.owner|
  {
    var th := s.threads[t];
    assert HoldsOk(Hist(s, th.side), t, th, th.side);
    var idx, n := th.phase.idx, |s.ring|;
    var x := SlotOf(s.ring, idx);
    if th.side.Enq? {
      EnqMatch(s, t);
    } else {
      DeqMatch(s, t);
    }
  }

  lemma EnqMatch(s: State, t: nat)
    requires Inv(s) && t < |s.threads| && 0 < |s.ring|
    requires s.threads[t].Busy? && s.threads[t].phase.Scan? && s.threads[t].side.Enq?
    requires HoldsOk(s.enq, t, s.threads[t], Enq)
    requires Matches(SlotOf(s.ring, s.threads[t].phase.idx), Enq)
    ensures s.threads[t].phase.idx in s.enq.done
  {
    hide ThreadsOk, MarksOk, BuckOk, AllLocalsOk, TakenOk, SumUnpublished, At;
    var idx, n, d := s.threads[t].phase.idx, |s.ring|, s.deq.buck;
    assert d <= idx <= d + n;
    if idx == d + n {
      AtPeriodic(d, n);
      assert SlotOf(s.ring, d) == SlotOf(s.ring, idx);
      assert SlotOf(s.ring, d).elem == Content(s.enq.done, s.deq.done, d);
      BuckMarked(s.ring, s.threads, s.deq, s.consHead, s.prodHead, Deq);
    } else {
      assert SlotOf(s.ring, idx).elem == Content(s.enq.done, s.deq.done, idx);
    }
  }

  lemma DeqMatch(s: State, t: nat)
    requires Inv(s) && t < |s.threads| && 0 < |s.ring|
    requires s.threads[t].Busy? && s.threads[t].phase.Scan? && s.threads[t].side.Deq?
    requires HoldsOk(s.deq, t, s.threads[t], Deq)
    requires Matches(SlotOf(s.ring, s.threads[t].phase.idx), Deq)
    ensures s.threads[t].phase.idx in s.deq.done
  {
    var idx, d := s.threads[t].phase.idx, s.deq.buck;
    assert d <= idx <= s.enq.buck;
    if idx == d + |s.ring| {
    } else {
      assert SlotOf(s.ring, idx).elem == Content(s.enq.done, s.deq.done, idx);
      BuckMarked(s.ring, s.threads, s.enq, s.prodTail, s.consTail, Enq);
    }
  }

  /** The slot of the buck's position carries the mark, or the position itself is finished. */
  lemma BuckMarked(ring: seq<Slot>, threads: seq<Thread>, h: History, acquired: nat, published: nat, side: Side)
    requires 0 < |ring|
    requires SideOk(ring, threads, h, acquired, published, side)
    ensures Mark(SlotOf(ring, h.buck), side) || h.buck in h.done
  {
    if h.holder.Some? {
      assert HoldsOk(h, h.holder.value, threads[h.holder.value], side);
    }
  }

  // ---------- acquiring positions ----------

  lemma {:induction false} AcquireKeepsInv(s: State, s': State, t: nat)
    requires Inv(s) && t < |s.threads| && Acquire(s, s', t)
    ensures Inv(s')
  {
    hide Inv;
    ThreadFacts(s, t);
    var th := s.threads[t];
    var h := Hist(s, th.side);
    if Acquired(s, th.side) != th.tail {
      LocalStep(s, t, s'.threads[t]);
    } else {
      AcquirePositions(s, s', t);
    }
  }

  lemma AcquirePositions(s: State, s': State, t: nat)
    requires Inv(s) && t < |s.threads| && Acquire(s, s', t)
    requires Acquired(s, s.threads[t].side) == s.threads[t].tail
    ensures Inv(s')
  {
    hide SideOk, ContentOk, TakenOk;
    var th := s.threads[t];
    assert LocalsOk(th, s.enq.done, Limit(s, Enq), Limit(s, Deq));
    if th.side.Enq? {
      AcquireSide(s.ring, s.threads, t, th.ev[..th.actual], s.enq, s.prodTail, s.consTail, Enq);
      SideFrame(s.ring, s.ring, s.threads, t, s'.threads[t], s.deq, s.consHead, s.prodHead, Deq);
    } else {
      AcquireSide(s.ring, s.threads, t, th.ev[..th.actual], s.deq, s.consHead, s.prodHead, Deq);
      SideFrame(s.ring, s.ring, s.threads, t, s'.threads[t], s.enq, s.prodTail, s.consTail, Enq);
    }
  }

  /** History that grows only at positions of other threads keeps what thread u relies on. */
  ghost predicate GrowsFor(h: History, h': History, u: nat) {
    && h.owner <= h'.owner
    && (forall p :: p in h.done ==> p in h'.done && h'.done[p] == h.done[p])
    && (forall p :: p in h'.done && p !in h.done ==> p < |h'.owner| && h'.owner[p].thread != u)
  }

  lemma ThreadGrows(h: History, h': History, u: nat, th: Thread, side: Side)
    requires ThreadOk(h, u, th, side)
    requires GrowsFor(h, h', u)
    requires Holds(th, side) ==> h'.holder == h.holder && h'.buck == h.buck
    ensures ThreadOk(h', u, th, side)
  {
  }

  lemma AcquireSide(ring: seq<Slot>, threads: seq<Thread>, t: nat, ev: seq<Elem>, h: History,
                    acquired: nat, published: nat, side: Side)
    requires 0 < |ring| && t < |threads| && |ev| > 0 && threads[t].Take?
    requires SideOk(ring, threads, h, acquired, published, side)
    requires side.Enq? ==> forall j :: 0 <= j < |ev| ==> ev[j] != NIL
    ensures SideOk(ring, threads[t := Busy(side, acquired, ev, Write(1))],
                   h.(owner := h.owner + seq(|ev|, _ => Claim(t, acquired))), acquired + |ev|, published, side)
  {
    var th := Busy(side, acquired, ev, Write(1));
    var h' := h.(owner := h.owner + seq(|ev|, _ => Claim(t, acquired)));
    var threads' := threads[t := th];
    SumUpdate(threads, t, th, side);
    forall u | 0 <= u < |threads| ensures ThreadOk(h', u, threads'[u], side) {
      if u != t {
        hide ThreadOk;
        ThreadGrows(h, h', u, threads[u], side);
      }
    }
    ThreadsHold(threads, t, th, h, h', side);
  }

  /** The claims on the history by all threads follow from those of one changed thread. */
  lemma ThreadsHold(threads: seq<Thread>, t: nat, th: Thread, h: History, h': History, side: Side)
    requires t < |threads|
    requires ThreadsOk(h, threads, side)
    requires EachThreadOk(h', threads[t := th], side)
    requires h'.holder.Some? ==> h'.holder.value < |threads| && Holds(threads[t := th][h'.holder.value], side)
    requires h.owner <= h'.owner && (forall p :: p in h.done ==> p in h'.done)
    requires forall p :: |h.owner| <= p < |h'.owner| && p !in h'.done ==> h'.owner[p].thread == t && Unfinished(th, side, p)
    requires forall p: nat :: Unfinished(threads[t], side, p) && p !in h'.done ==> Unfinished(th, side, p)
    ensures ThreadsOk(h', threads[t := th], side)
  {
    hide ThreadOk, Unfinished, Holds;
    var threads' := threads[t := th];
    forall p | 0 <= p < |h'.owner| && p !in h'.done
      ensures h'.owner[p].thread < |threads'| && Unfinished(threads'[h'.owner[p].thread], side, p)
    {
      if p < |h.owner| {
        assert p !in h.done;
      }
    }
  }

  // ---------- writing slots ----------

  /** The thread after finishing its next slot after the first. */
  function Finished(th: Thread, elem: Elem): Thread
    requires th.Busy? && Progress(th) < |th.ev|
  {
    th.(phase := Write(Progress(th) + 1), ev := th.ev[Progress(th) := elem])
  }

  /** The thread may write a slot that is not its first. */
  predicate MayFinish(th: Thread, side: Side) {
    th.Busy? && th.side == side && (th.phase.Write? || th.phase.Clear?) && Progress(th) < |th.ev|
  }

  lemma FinishThread(h: History, t: nat, th: Thread, elem: Elem, side: Side)
    requires MayFinish(th, side) && ThreadOk(h, t, th, side) && BuckOk(h)
    requires side.Enq? ==> elem != NIL
    ensures var p := th.first + Progress(th);
            && h.buck < p < |h.owner| && p !in h.done && h.owner[p].thread == t
            && ThreadOk(h.(done := h.done[p := elem]), t, Finished(th, elem), side)
  {
  }

  lemma FinishThreads(threads: seq<Thread>, t: nat, h: History, elem: Elem, side: Side)
    requires t < |threads| && MayFinish(threads[t], side)
    requires BuckOk(h) && ThreadsOk(h, threads, side)
    requires side.Enq? ==> elem != NIL
    ensures ThreadsOk(h.(done := h.done[threads[t].first + Progress(threads[t]) := elem]),
                      threads[t := Finished(threads[t], elem)], side)
  {
    var th := Finished(threads[t], elem);
    var h' := h.(done := h.done[threads[t].first + Progress(threads[t]) := elem]);
    hide ThreadOk, ThreadsOk, BuckOk, Unfinished, Holds, GrowsFor;
    ThreadOfSide(h, threads, t, side);
    FinishThread(h, t, threads[t], elem, side);
    OnlyOneDone(h, h', t, threads[t].first + Progress(threads[t]), elem);
    OthersGrow(threads, t, th, h, h', side);
    FinishedLeaves(threads[t], elem, side);
    HolderStays(threads, t, th, h, side);
    ThreadsHold(threads, t, th, h, h', side);
  }

  /** What one thread finishes leaves the claims of the others. */
  lemma OthersGrow(threads: seq<Thread>, t: nat, th: Thread, h: History, h': History, side: Side)
    requires t < |threads| && ThreadsOk(h, threads, side) && ThreadOk(h', t, th, side)
    requires h'.holder == h.holder && h'.buck == h.buck
    requires forall u :: 0 <= u < |threads| && u != t ==> GrowsFor(h, h', u)
    ensures EachThreadOk(h', threads[t := th], side)
  {
    hide ThreadOk, GrowsFor, Unfinished, Holds;
    forall u | 0 <= u < |threads| && u != t ensures ThreadOk(h', u, threads[u], side) {
      ThreadGrows(h, h', u, threads[u], side);
    }
  }

  lemma OnlyOneDone(h: History, h': History, t: nat, p: nat, elem: Elem)
    requires h' == h.(done := h.done[p := elem]) && p !in h.done && p < |h.owner| && h.owner[p].thread == t
    ensures forall u :: u != t ==> GrowsFor(h, h', u)
  {
  }

  lemma HolderStays(threads: seq<Thread>, t: nat, th: Thread, h: History, side: Side)
    requires t < |threads| && ThreadsOk(h, threads, side) && !Holds(threads[t], side)
    ensures h.holder.Some? ==> h.holder.value < |threads| && Holds(threads[t := th][h.holder.value], side)
  {
    hide ThreadOk, Unfinished;
  }

  lemma FinishedLeaves(th: Thread, elem: Elem, side: Side)
    requires MayFinish(th, side)
    ensures forall p: nat :: Unfinished(th, side, p) && p != th.first + Progress(th) ==> Unfinished(Finished(th, elem), side, p)
  {
  }

  /** Thread t finishes its next slot after the first. */
  lemma FinishSide(ring: seq<Slot>, ring': seq<Slot>, threads: seq<Thread>, t: nat, h: History, elem: Elem,
                   acquired: nat, published: nat, side: Side)
    requires 0 < |ring| == |ring'| && t < |threads| && MayFinish(threads[t], side)
    requires SideOk(ring, threads, h, acquired, published, side)
    requires forall j :: 0 <= j < |ring| ==> Mark(ring'[j], side) == Mark(ring[j], side)
    requires side.Enq? ==> elem != NIL
    ensures SideOk(ring', threads[t := Finished(threads[t], elem)],
                   h.(done := h.done[threads[t].first + Progress(threads[t]) := elem]),
                   acquired, published, side)
  {
    hide ThreadsOk;
    assert ThreadOk(h, t, threads[t], side) by { ThreadOfSide(h, threads, t, side); }
    hide ThreadOk;
    FinishThread(h, t, threads[t], elem, side);
    FinishThreads(threads, t, h, elem, side);
    SumUpdate(threads, t, Finished(threads[t], elem), side);
  }

  lemma ThreadOfSide(h: History, threads: seq<Thread>, t: nat, side: Side)
    requires t < |threads| && ThreadsOk(h, threads, side)
    ensures ThreadOk(h, t, threads[t], side)
  {
  }

  lemma ContentUpdate(ring: seq<Slot>, put: map<nat, Elem>, taken: map<nat, Elem>,
                      put': map<nat, Elem>, taken': map<nat, Elem>, from: nat, p: nat, x: Slot)
    requires 0 < |ring| && ContentOk(ring, put, taken, from)
    requires from <= p < from + |ring|
    requires x.elem == Content(put', taken', p)
    requires forall q: nat :: q != p ==> Content(put', taken', q) == Content(put, taken, q)
    ensures ContentOk(ring[At(p, |ring|) := x], put', taken', from)
  {
    var ring' := ring[At(p, |ring|) := x];
    forall q | from <= q < from + |ring'| ensures SlotOf(ring', q).elem == Content(put', taken', q) {
      if q != p {
        if At(p, |ring|) == At(q, |ring|) {
          AtInjective(p, q, |ring|);
        }
        assert SlotOf(ring, q).elem == Content(put, taken, q);
      }
    }
  }

  lemma {:induction false} LocalsFrame(s: State, s': State, t: nat)
    requires t < |s.threads| && AllLocalsOk(s.threads, s.enq.done, Limit(s, Enq), Limit(s, Deq))
    requires |s'.threads| == |s.threads| && s'.threads == s.threads[t := s'.threads[t]]
    requires Limit(s, Enq) <= Limit(s', Enq) && Limit(s, Deq) <= Limit(s', Deq)
    requires forall p :: p in s.enq.done ==> p in s'.enq.done && s'.enq.done[p] == s.enq.done[p]
    requires LocalsOk(s'.threads[t], s'.enq.done, Limit(s', Enq), Limit(s', Deq))
    ensures AllLocalsOk(s'.threads, s'.enq.done, Limit(s', Enq), Limit(s', Deq))
  {
  }

  lemma WriteSlotKeepsInv(s: State, s': State, t: nat)
    requires Inv(s) && t < |s.threads| && 0 < |s.ring| && WriteSlot(s, s', t)
    ensures Inv(s')
  {
    hide Inv;
    ThreadFacts(s, t);
    if s.threads[t].side.Enq? {
      PutSlot(s, s', t);
    } else {
      LoadSlot(s, s', t);
    }
  }

  /** The loaded word of a dequeue is the element that was put there. */
  lemma LoadSlot(s: State, s': State, t: nat)
    requires Inv(s) && t < |s.threads| && 0 < |s.ring| && WriteSlot(s, s', t) && s.threads[t].side.Deq?
    ensures Inv(s')
  {
    hide Inv;
    var th := s.threads[t];
    ThreadFacts(s, t);
    OwnedContent(s, t, th.first + th.phase.k);
    LocalStep(s, t, s'.threads[t]);
  }

  /** A position acquired for dequeue and not yet taken holds the element put there. */
  lemma OwnedContent(s: State, t: nat, p: nat)
    requires Inv(s) && t < |s.threads| && 0 < |s.ring|
    requires Writing(s.threads[t], Deq) && Unfinished(s.threads[t], Deq, p)
    ensures p in s.enq.done && SlotOf(s.ring, p).elem == s.enq.done[p] != NIL
  {
    assert WritingOk(s.deq, t, s.threads[t], Deq);
    assert s.deq.buck <= p < s.consHead <= s.enq.buck <= s.deq.buck + |s.ring|;
    if p == s.deq.buck + |s.ring| {
      assert false;
    }
    assert SlotOf(s.ring, p).elem == Content(s.enq.done, s.deq.done, p);
  }

  /** A slot that is not the first of its range carries no mark. */
  lemma NonFirstUnmarked(s: State, t: nat, p: nat, side: Side)
    requires Inv(s) && t < |s.threads| && 0 < |s.ring|
    requires Writing(s.threads[t], side) && Unfinished(s.threads[t], side, p) && p != s.threads[t].first
    ensures !SlotOf(s.ring, p).enqMark && !SlotOf(s.ring, p).deqMark
    ensures side.Enq? ==> SlotOf(s.ring, p).elem == NIL
  {
    assert WritingOk(Hist(s, side), t, s.threads[t], side);
    var n := |s.ring|;
    var d, e := s.deq.buck, s.enq.buck;
    assert d < p < d + n;
    if At(p, n) == At(d, n) {
      AtInjective(p, d, n);
    }
    if At(p, n) == At(e, n) {
      if side.Deq? {
        assert p < e <= d + n;
      }
      AtInjective(p, e, n);
    }
    assert SlotOf(s.ring, p).elem == Content(s.enq.done, s.deq.done, p);
  }

  /** A thread busy on one side makes no claims on the other. */
  lemma OtherSide(h: History, t: nat, th: Thread, th': Thread, side: Side)
    requires th.Busy? && th.side != side
    requires (th'.Busy? || th'.Done?) && th'.side != side
    ensures KeepsClaims(th, th', side) && ThreadOk(h, t, th', side)
  {
  }

  lemma PutSlot(s: State, s': State, t: nat)
    requires Inv(s) && t < |s.threads| && 0 < |s.ring| && WriteSlot(s, s', t) && s.threads[t].side.Enq?
    ensures Inv(s')
  {
    hide SideOk, ContentOk, TakenOk, AllLocalsOk;
    var th := s.threads[t];
    var p, elem := th.first + th.phase.k, th.ev[th.phase.k];
    PutSides(s, s', t, p, elem);
    PutContent(s, s', t, p, elem);
    PutLocals(s, s', t, p, elem);
  }

  lemma PutContent(s: State, s': State, t: nat, p: nat, elem: Elem)
    requires Inv(s) && t < |s.threads|
    requires MayFinish(s.threads[t], Enq) && s.threads[t].phase.Write?
    requires p == s.threads[t].first + s.threads[t].phase.k && elem == s.threads[t].ev[s.threads[t].phase.k]
    requires s'.ring == s.ring[At(p, |s.ring|) := Slot(elem, false, false)]
    requires s'.enq.done == s.enq.done[p := elem] && s'.deq == s.deq
    ensures ContentOk(s'.ring, s'.enq.done, s'.deq.done, s'.deq.buck) && TakenOk(s'.enq.done, s'.deq.done)
  {
    hide SideOk, AllLocalsOk;
    PutFacts(s, t, p);
    ContentUpdate(s.ring, s.enq.done, s.deq.done, s'.enq.done, s.deq.done, s.deq.buck, p, Slot(elem, false, false));
  }

  lemma PutLocals(s: State, s': State, t: nat, p: nat, elem: Elem)
    requires Inv(s) && t < |s.threads|
    requires MayFinish(s.threads[t], Enq) && s.threads[t].phase.Write? && p == s.threads[t].first + s.threads[t].phase.k
    requires s'.threads == s.threads[t := s.threads[t].(phase := Write(s.threads[t].phase.k + 1))]
    requires s'.enq.done == s.enq.done[p := elem]
    requires Limit(s', Enq) == Limit(s, Enq) && Limit(s', Deq) == Limit(s, Deq)
    ensures AllLocalsOk(s'.threads, s'.enq.done, Limit(s', Enq), Limit(s', Deq))
  {
    PutFacts(s, t, p);
    LocalsFrame(s, s', t);
  }

  lemma PutSides(s: State, s': State, t: nat, p: nat, elem: Elem)
    requires Inv(s) && t < |s.threads| && 0 < |s.ring|
    requires MayFinish(s.threads[t], Enq) && s.threads[t].phase.Write?
    requires p == s.threads[t].first + s.threads[t].phase.k && elem == s.threads[t].ev[s.threads[t].phase.k]
    requires s'.ring == s.ring[At(p, |s.ring|) := Slot(elem, false, false)]
    requires s'.threads == s.threads[t := s.threads[t].(phase := Write(s.threads[t].phase.k + 1))]
    requires s'.enq == s.enq.(done := s.enq.done[p := elem]) && s'.deq == s.deq
    requires s'.prodTail == s.prodTail && s'.consTail == s.consTail
    requires s'.consHead == s.consHead && s'.prodHead == s.prodHead
    ensures SideOk(s'.ring, s'.threads, s'.enq, s'.prodTail, s'.consTail, Enq)
    ensures SideOk(s'.ring, s'.threads, s'.deq, s'.consHead, s'.prodHead, Deq)
  {
    hide Inv, SideOk, ThreadOk, KeepsClaims;
    var th := s.threads[t];
    PutFacts(s, t, p);
    NonFirstUnmarked(s, t, p, Enq);
    assert th.ev[th.phase.k := elem] == th.ev;
    assert s'.threads[t] == Finished(th, elem);
    InvSides(s);
    FinishSide(s.ring, s'.ring, s.threads, t, s.enq, elem, s.prodTail, s.consTail, Enq);
    OtherSide(s.deq, t, th, s'.threads[t], Deq);
    SideFrame(s.ring, s'.ring, s.threads, t, s'.threads[t], s.deq, s.consHead, s.prodHead, Deq);
  }

  lemma InvSides(s: State)
    requires Inv(s)
    ensures 0 < |s.ring|
    ensures SideOk(s.ring, s.threads, s.enq, s.prodTail, s.consTail, Enq)
    ensures SideOk(s.ring, s.threads, s.deq, s.consHead, s.prodHead, Deq)
  {
    hide SideOk;
  }

  lemma PutFacts(s: State, t: nat, p: nat)
    requires Inv(s) && t < |s.threads|
    requires Writing(s.threads[t], Enq) && Unfinished(s.threads[t], Enq, p)
    ensures WritingOk(s.enq, t, s.threads[t], Enq)
    ensures p !in s.enq.done && p !in s.deq.done && s.deq.buck <= p < s.deq.buck + |s.ring|
  {
    ThreadFacts(s, t);
  }

  // ---------- clearing slots ----------

  lemma ClearSlotKeepsInv(s: State, s': State, t: nat)
    requires Inv(s) && t < |s.threads| && 0 < |s.ring| && ClearSlot(s, s', t)
    ensures Inv(s')
  {
    hide SideOk, ContentOk, TakenOk, AllLocalsOk;
    var th := s.threads[t];
    var p, elem := th.first + th.phase.k, th.phase.loaded.elem;
    ClearSides(s, s', t, p, elem);
    ClearContent(s, s', t, p, elem);
    ClearLocals(s, s', t);
  }

  lemma ClearSides(s: State, s': State, t: nat, p: nat, elem: Elem)
    requires Inv(s) && t < |s.threads| && 0 < |s.ring|
    requires MayFinish(s.threads[t], Deq) && s.threads[t].phase.Clear?
    requires p == s.threads[t].first + s.threads[t].phase.k
    requires s'.ring == s.ring[At(p, |s.ring|) := Slot(NIL, false, false)]
    requires s'.threads == s.threads[t := Finished(s.threads[t], elem)]
    requires s'.deq == s.deq.(done := s.deq.done[p := elem]) && s'.enq == s.enq
    requires s'.prodTail == s.prodTail && s'.consTail == s.consTail
    requires s'.consHead == s.consHead && s'.prodHead == s.prodHead
    ensures SideOk(s'.ring, s'.threads, s'.enq, s'.prodTail, s'.consTail, Enq)
    ensures SideOk(s'.ring, s'.threads, s'.deq, s'.consHead, s'.prodHead, Deq)
  {
    hide Inv, SideOk, ThreadOk, KeepsClaims;
    var th := s.threads[t];
    TakeFacts(s, t, p);
    NonFirstUnmarked(s, t, p, Deq);
    InvSides(s);
    FinishSide(s.ring, s'.ring, s.threads, t, s.deq, elem, s.consHead, s.prodHead, Deq);
    OtherSide(s.enq, t, th, s'.threads[t], Enq);
    SideFrame(s.ring, s'.ring, s.threads, t, s'.threads[t], s.enq, s.prodTail, s.consTail, Enq);
  }

  lemma TakeFacts(s: State, t: nat, p: nat)
    requires Inv(s) && t < |s.threads| && 0 < |s.ring|
    requires Writing(s.threads[t], Deq) && Unfinished(s.threads[t], Deq, p)
    ensures WritingOk(s.deq, t, s.threads[t], Deq)
    ensures p in s.enq.done && p !in s.deq.done && s.deq.buck <= p < s.deq.buck + |s.ring|
    ensures SlotOf(s.ring, p).elem == s.enq.done[p] != NIL
  {
    ThreadFacts(s, t);
    OwnedContent(s, t, p);
    assert p < s.consHead <= s.enq.buck <= s.deq.buck + |s.ring|;
  }

  lemma ClearContent(s: State, s': State, t: nat, p: nat, elem: Elem)
    requires Inv(s) && t < |s.threads|
    requires MayFinish(s.threads[t], Deq) && s.threads[t].phase.Clear?
    requires p == s.threads[t].first + s.threads[t].phase.k && elem == s.threads[t].phase.loaded.elem
    requires s'.ring == s.ring[At(p, |s.ring|) := Slot(NIL, false, false)]
    requires s'.deq.done == s.deq.done[p := elem] && s'.deq.buck == s.deq.buck && s'.enq == s.enq
    ensures ContentOk(s'.ring, s'.enq.done, s'.deq.done, s'.deq.buck) && TakenOk(s'.enq.done, s'.deq.done)
  {
    hide SideOk;
    TakeFacts(s, t, p);
    assert LocalsOk(s.threads[t], s.enq.done, Limit(s, Enq), Limit(s, Deq));
    hide AllLocalsOk;
    ContentUpdate(s.ring, s.enq.done, s.deq.done, s.enq.done, s'.deq.done, s.deq.buck, p, Slot(NIL, false, false));
  }

  lemma ClearLocals(s: State, s': State, t: nat)
    requires Inv(s) && t < |s.threads| && 0 < |s.ring| && ClearSlot(s, s', t)
    ensures AllLocalsOk(s'.threads, s'.enq.done, Limit(s', Enq), Limit(s', Deq))
  {
    hide SideOk, ContentOk, TakenOk, OrderOk;
    LocalsFrame(s, s', t);
  }

  // ---------- the first slot ----------

  /** History after thread t wrote its first slot, which carried the mark or not. */
  function Blent(h: History, t: nat, first: nat, elem: Elem, marked: bool): History {
    h.(done := h.done[first := elem], holder := if marked then Some(t) else h.holder)
  }

  function AfterBlend(th: Thread, elem: Elem, marked: bool): Thread
    requires th.Busy? && |th.ev| > 0
  {
    if marked then Busy(th.side, th.first, th.ev[0 := elem], Scan(th.first + 1))
    else Done(th.side, th.first, th.ev[0 := elem])
  }

  lemma BlendThread(h: History, t: nat, th: Thread, elem: Elem, marked: bool, side: Side)
    requires th.Busy? && th.side == side && th.phase.Blend? && |th.ev| > 0
    requires ThreadOk(h, t, th, side) && BuckOk(h)
    requires marked ==> h.holder.None? && h.buck == th.first
    ensures th.first < |h.owner| && h.owner[th.first].thread == t && th.first !in h.done
    ensures ThreadOk(Blent(h, t, th.first, elem, marked), t, AfterBlend(th, elem, marked), side)
  {
    var h' := Blent(h, t, th.first, elem, marked);
    var th' := AfterBlend(th, elem, marked);
    assert ResultOk(h', t, th'.first, th'.ev);
  }

  lemma BlendThreads(threads: seq<Thread>, t: nat, h: History, elem: Elem, marked: bool, side: Side)
    requires t < |threads|
    requires var th := threads[t]; th.Busy? && th.side == side && th.phase.Blend? && |th.ev| > 0
    requires BuckOk(h) && ThreadsOk(h, threads, side)
    requires marked ==> h.holder.None? && h.buck == threads[t].first
    ensures ThreadsOk(Blent(h, t, threads[t].first, elem, marked), threads[t := AfterBlend(threads[t], elem, marked)], side)
  {
    var th := AfterBlend(threads[t], elem, marked);
    var h' := Blent(h, t, threads[t].first, elem, marked);
    BlendThread(h, t, threads[t], elem, marked, side);
    var threads' := threads[t := th];
    forall u | 0 <= u < |threads'| ensures ThreadOk(h', u, threads'[u], side) {
      if u != t {
        assert Holds(threads[u], side) ==> HoldsOk(h, u, threads[u], side);
        hide ThreadOk;
        ThreadGrows(h, h', u, threads[u], side);
      }
    }
    hide ThreadOk;
    ThreadsHold(threads, t, th, h, h', side);
  }

  lemma BlendSide(ring: seq<Slot>, ring': seq<Slot>, threads: seq<Thread>, t: nat, h: History, elem: Elem, marked: bool,
                  acquired: nat, published: nat, side: Side)
    requires 0 < |ring| == |ring'| && t < |threads|
    requires var th := threads[t]; th.Busy? && th.side == side && th.phase.Blend? && |th.ev| > 0
    requires SideOk(ring, threads, h, acquired, published, side)
    requires h.buck <= threads[t].first < h.buck + |ring|
    requires marked == Mark(SlotOf(ring, threads[t].first), side)
    requires !Mark(SlotOf(ring', threads[t].first), side)
    requires forall j :: 0 <= j < |ring| && j != At(threads[t].first, |ring|) ==>
               Mark(ring'[j], side) == Mark(ring[j], side)
    ensures SideOk(ring', threads[t := AfterBlend(threads[t], elem, marked)],
                   Blent(h, t, threads[t].first, elem, marked), acquired, published, side)
  {
    hide ThreadsOk;
    if marked {
      AtInjective(threads[t].first, h.buck, |ring|);
    }
    assert ThreadOk(h, t, threads[t], side) by { ThreadOfSide(h, threads, t, side); }
    hide ThreadOk;
    BlendThread(h, t, threads[t], elem, marked, side);
    BlendThreads(threads, t, h, elem, marked, side);
    SumUpdate(threads, t, AfterBlend(threads[t], elem, marked), side);
  }

  lemma BlendFirstKeepsInv(s: State, s': State, t: nat)
    requires Inv(s) && t < |s.threads| && 0 < |s.ring| && BlendFirst(s, s', t)
    ensures Inv(s')
  {
    hide Inv;
    var th := s.threads[t];
    ThreadFacts(s, t);
    if SlotOf(s.ring, th.first) != th.phase.seen {
      LocalStep(s, t, s'.threads[t]);
    } else if th.side.Enq? {
      BlendEnq(s, s', t);
    } else {
      BlendDeq(s, s', t);
    }
  }

  lemma BlendEnq(s: State, s': State, t: nat)
    requires Inv(s) && t < |s.threads| && 0 < |s.ring| && BlendFirst(s, s', t)
    requires s.threads[t].side.Enq? && SlotOf(s.ring, s.threads[t].first) == s.threads[t].phase.seen
    ensures Inv(s')
  {
    hide SideOk, ContentOk, TakenOk, AllLocalsOk;
    BlendEnqSides(s, s', t);
    BlendEnqContent(s, s', t);
    BlendLocals(s, s', t);
  }

  lemma BlendEnqSides(s: State, s': State, t: nat)
    requires Inv(s) && t < |s.threads| && 0 < |s.ring| && BlendFirst(s, s', t)
    requires s.threads[t].side.Enq? && SlotOf(s.ring, s.threads[t].first) == s.threads[t].phase.seen
    ensures SideOk(s'.ring, s'.threads, s'.enq, s'.prodTail, s'.consTail, Enq)
    ensures SideOk(s'.ring, s'.threads, s'.deq, s'.consHead, s'.prodHead, Deq)
  {
    hide Inv, SideOk, ThreadOk, KeepsClaims;
    var th := s.threads[t];
    PutFacts(s, t, th.first);
    PutWindow(s, t, th.first);
    InvSides(s);
    var marked := Mark(th.phase.seen, Enq);
    BlendSide(s.ring, s'.ring, s.threads, t, s.enq, th.ev[0], marked, s.prodTail, s.consTail, Enq);
    OtherSide(s.deq, t, th, s'.threads[t], Deq);
    SideFrame(s.ring, s'.ring, s.threads, t, s'.threads[t], s.deq, s.consHead, s.prodHead, Deq);
  }

  lemma PutWindow(s: State, t: nat, p: nat)
    requires Inv(s) && t < |s.threads|
    requires Writing(s.threads[t], Enq) && Unfinished(s.threads[t], Enq, p)
    ensures s.enq.buck <= p < s.enq.buck + |s.ring|
  {
    PutFacts(s, t, p);
  }

  lemma BlendEnqContent(s: State, s': State, t: nat)
    requires Inv(s) && t < |s.threads| && 0 < |s.ring| && BlendFirst(s, s', t)
    requires s.threads[t].side.Enq? && SlotOf(s.ring, s.threads[t].first) == s.threads[t].phase.seen
    ensures ContentOk(s'.ring, s'.enq.done, s'.deq.done, s'.deq.buck) && TakenOk(s'.enq.done, s'.deq.done)
  {
    hide SideOk, AllLocalsOk;
    var th := s.threads[t];
    PutFacts(s, t, th.first);
    ContentUpdate(s.ring, s.enq.done, s.deq.done, s'.enq.done, s.deq.done, s.deq.buck, th.first,
                  Blended(th.phase.seen, Enq, th.ev[0]));
  }

  lemma BlendLocals(s: State, s': State, t: nat)
    requires Inv(s) && t < |s.threads| && 0 < |s.ring| && BlendFirst(s, s', t)
    requires SlotOf(s.ring, s.threads[t].first) == s.threads[t].phase.seen
    ensures AllLocalsOk(s'.threads, s'.enq.done, Limit(s', Enq), Limit(s', Deq))
  {
    var th := s.threads[t];
    if th.side.Enq? {
      PutFacts(s, t, th.first);
    }
    hide SideOk, ContentOk, TakenOk, OrderOk;
    LocalsFrame(s, s', t);
  }

  lemma BlendDeq(s: State, s': State, t: nat)
    requires Inv(s) && t < |s.threads| && 0 < |s.ring| && BlendFirst(s, s', t)
    requires s.threads[t].side.Deq? && SlotOf(s.ring, s.threads[t].first) == s.threads[t].phase.seen
    ensures Inv(s')
  {
    hide SideOk, ContentOk, TakenOk, AllLocalsOk;
    BlendDeqSides(s, s', t);
    BlendDeqContent(s, s', t);
    BlendLocals(s, s', t);
  }

  lemma BlendDeqSides(s: State, s': State, t: nat)
    requires Inv(s) && t < |s.threads| && 0 < |s.ring| && BlendFirst(s, s', t)
    requires s.threads[t].side.Deq? && SlotOf(s.ring, s.threads[t].first) == s.threads[t].phase.seen
    ensures SideOk(s'.ring, s'.threads, s'.enq, s'.prodTail, s'.consTail, Enq)
    ensures SideOk(s'.ring, s'.threads, s'.deq, s'.consHead, s'.prodHead, Deq)
  {
    hide Inv, SideOk, ThreadOk, KeepsClaims;
    var th := s.threads[t];
    TakeFacts(s, t, th.first);
    InvSides(s);
    var marked := Mark(th.phase.seen, Deq);
    BlendSide(s.ring, s'.ring, s.threads, t, s.deq, th.phase.seen.elem, marked, s.consHead, s.prodHead, Deq);
    OtherSide(s.enq, t, th, s'.threads[t], Enq);
    SideFrame(s.ring, s'.ring, s.threads, t, s'.threads[t], s.enq, s.prodTail, s.consTail, Enq);
  }

  lemma BlendDeqContent(s: State, s': State, t: nat)
    requires Inv(s) && t < |s.threads| && 0 < |s.ring| && BlendFirst(s, s', t)
    requires s.threads[t].side.Deq? && SlotOf(s.ring, s.threads[t].first) == s.threads[t].phase.seen
    ensures ContentOk(s'.ring, s'.enq.done, s'.deq.done, s'.deq.buck) && TakenOk(s'.enq.done, s'.deq.done)
  {
    hide SideOk, AllLocalsOk;
    var th := s.threads[t];
    TakeFacts(s, t, th.first);
    ContentUpdate(s.ring, s.enq.done, s.deq.done, s.enq.done, s'.deq.done, s.deq.buck, th.first,
                  Blended(th.phase.seen, Deq, th.phase.seen.elem));
  }

  // ---------- passing the buck ----------

  /** The slot that ends the scan is not finished, so its position is the next in order. */
  lemma StopNotFinished(s: State, t: nat)
    requires Inv(s) && t < |s.threads| && 0 < |s.ring|
    requires s.threads[t].Busy? && s.threads[t].phase.Pass?
    requires SlotOf(s.ring, s.threads[t].phase.idx) == s.threads[t].phase.seen
    ensures s.threads[t].phase.idx !in Hist(s, s.threads[t].side).done
  {
    var th := s.threads[t];
    var idx, n := th.phase.idx, |s.ring|;
    assert HoldsOk(Hist(s, th.side), t, th, th.side);
    if idx in Hist(s, th.side).done {
      assert s.deq.buck < idx < s.deq.buck + n;
      assert SlotOf(s.ring, idx).elem == Content(s.enq.done, s.deq.done, idx);
      if th.side.Enq? && th.phase.seen.deqMark {
        AtInjective(idx, s.deq.buck, n);
      } else if th.side.Deq? && th.phase.seen.enqMark {
        AtInjective(idx, s.enq.buck, n);
      }
    }
  }

  lemma PassSide(ring: seq<Slot>, ring': seq<Slot>, threads: seq<Thread>, t: nat, h: History,
                 acquired: nat, published: nat, side: Side)
    requires 0 < |ring| == |ring'| && t < |threads|
    requires SideOk(ring, threads, h, acquired, published, side)
    requires var th := threads[t]; th.Busy? && th.side == side && th.phase.Pass?
    requires threads[t].phase.idx !in h.done
    requires Mark(SlotOf(ring', threads[t].phase.idx), side)
    requires forall j :: 0 <= j < |ring| && j != At(threads[t].phase.idx, |ring|) ==>
               Mark(ring'[j], side) == Mark(ring[j], side)
    ensures var th := threads[t];
            SideOk(ring', threads[t := th.(phase := Publish(th.phase.idx))],
                   h.(buck := th.phase.idx, holder := None), acquired, published, side)
  {
    var idx := threads[t].phase.idx;
    var th := threads[t].(phase := Publish(idx));
    var h' := h.(buck := idx, holder := None);
    assert ThreadOk(h, t, threads[t], side) by { ThreadOfSide(h, threads, t, side); }
    assert h.holder.Some? && BuckOk(h');
    hide ThreadsOk, MarksOk, SumUnpublished, At, BuckOk;
    SumUpdate(threads, t, th, side);
    PassThreads(threads, t, h, side);
    PassMarks(ring, ring', h, h', side);
  }

  lemma PassMarks(ring: seq<Slot>, ring': seq<Slot>, h: History, h': History, side: Side)
    requires 0 < |ring| == |ring'| && MarksOk(ring, h, side) && h.holder.Some? && h'.holder.None?
    requires Mark(SlotOf(ring', h'.buck), side)
    requires forall j :: 0 <= j < |ring| && j != At(h'.buck, |ring|) ==> Mark(ring'[j], side) == Mark(ring[j], side)
    ensures MarksOk(ring', h', side)
  {
  }

  lemma PassThreads(threads: seq<Thread>, t: nat, h: History, side: Side)
    requires t < |threads| && ThreadsOk(h, threads, side)
    requires threads[t].Busy? && threads[t].side == side && threads[t].phase.Pass?
    ensures var idx := threads[t].phase.idx;
            ThreadsOk(h.(buck := idx, holder := None), threads[t := threads[t].(phase := Publish(idx))], side)
  {
    var idx := threads[t].phase.idx;
    var th := threads[t].(phase := Publish(idx));
    var h' := h.(buck := idx, holder := None);
    var threads' := threads[t := th];
    assert HoldsOk(h, t, threads[t], side) by { ThreadOfSide(h, threads, t, side); }
    forall u | 0 <= u < |threads'| ensures ThreadOk(h', u, threads'[u], side) {
      assert ThreadOk(h, u, threads[u], side);
      if u != t {
        assert !Holds(threads[u], side);
        hide ThreadOk;
        ThreadGrows(h, h', u, threads[u], side);
      }
    }
    hide ThreadOk;
    ThreadsHold(threads, t, th, h, h', side);
  }

  lemma PassBuckKeepsInv(s: State, s': State, t: nat)
    requires Inv(s) && t < |s.threads| && 0 < |s.ring| && PassBuck(s, s', t)
    ensures Inv(s')
  {
    hide Inv;
    var th := s.threads[t];
    ThreadFacts(s, t);
    if SlotOf(s.ring, th.phase.idx) != th.phase.seen {
      LocalStep(s, t, s'.threads[t]);
    } else if th.side.Enq? {
      PassEnq(s, s', t);
    } else {
      PassDeq(s, s', t);
    }
  }

  lemma PassEnq(s: State, s': State, t: nat)
    requires Inv(s) && t < |s.threads| && 0 < |s.ring| && PassBuck(s, s', t)
    requires s.threads[t].side.Enq? && SlotOf(s.ring, s.threads[t].phase.idx) == s.threads[t].phase.seen
    ensures Inv(s')
  {
    assert HoldsOk(s.enq, t, s.threads[t], Enq);
    hide SideOk, ContentOk, TakenOk, AllLocalsOk, HoldsOk;
    PassSides(s, s', t);
    PassLocals(s, s', t);
    PassKeepsContent(s.ring, s'.ring, s.enq.done, s.deq.done, s.deq.buck);
  }

  lemma PassKeepsContent(ring: seq<Slot>, ring': seq<Slot>, put: map<nat, Elem>, taken: map<nat, Elem>, from: nat)
    requires 0 < |ring| == |ring'| && ContentOk(ring, put, taken, from)
    requires forall j :: 0 <= j < |ring| ==> ring'[j].elem == ring[j].elem
    ensures ContentOk(ring', put, taken, from)
  {
    forall p | from <= p < from + |ring'| ensures SlotOf(ring', p).elem == Content(put, taken, p) {
      assert SlotOf(ring, p).elem == Content(put, taken, p);
    }
  }

  lemma PassSides(s: State, s': State, t: nat)
    requires Inv(s) && t < |s.threads| && 0 < |s.ring| && PassBuck(s, s', t)
    requires SlotOf(s.ring, s.threads[t].phase.idx) == s.threads[t].phase.seen
    ensures SideOk(s'.ring, s'.threads, s'.enq, s'.prodTail, s'.consTail, Enq)
    ensures SideOk(s'.ring, s'.threads, s'.deq, s'.consHead, s'.prodHead, Deq)
  {
    hide Inv, SideOk, ThreadOk, KeepsClaims;
    var th := s.threads[t];
    StopNotFinished(s, t);
    InvSides(s);
    if th.side.Enq? {
      PassSide(s.ring, s'.ring, s.threads, t, s.enq, s.prodTail, s.consTail, Enq);
      OtherSide(s.deq, t, th, s'.threads[t], Deq);
      SideFrame(s.ring, s'.ring, s.threads, t, s'.threads[t], s.deq, s.consHead, s.prodHead, Deq);
    } else {
      PassSide(s.ring, s'.ring, s.threads, t, s.deq, s.consHead, s.prodHead, Deq);
      OtherSide(s.enq, t, th, s'.threads[t], Enq);
      SideFrame(s.ring, s'.ring, s.threads, t, s'.threads[t], s.enq, s.prodTail, s.consTail, Enq);
    }
  }

  lemma PassLocals(s: State, s': State, t: nat)
    requires Inv(s) && t < |s.threads| && 0 < |s.ring| && PassBuck(s, s', t)
    requires SlotOf(s.ring, s.threads[t].phase.idx) == s.threads[t].phase.seen
    ensures AllLocalsOk(s'.threads, s'.enq.done, Limit(s', Enq), Limit(s', Deq))
  {
    hide SideOk, ContentOk, TakenOk, OrderOk;
    LocalsFrame(s, s', t);
  }

  lemma PassDeq(s: State, s': State, t: nat)
    requires Inv(s) && t < |s.threads| && 0 < |s.ring| && PassBuck(s, s', t)
    requires s.threads[t].side.Deq? && SlotOf(s.ring, s.threads[t].phase.idx) == s.threads[t].phase.seen
    ensures Inv(s')
  {
    assert HoldsOk(s.deq, t, s.threads[t], Deq);
    PassWindow(s, t);
    hide SideOk, ContentOk, TakenOk, AllLocalsOk, HoldsOk;
    PassSides(s, s', t);
    PassLocals(s, s', t);
    PassKeepsContent(s.ring, s'.ring, s.enq.done, s.deq.done, s'.deq.buck);
  }

  /** When the dequeue buck moves on, the slots behind it stand for positions one lap later. */
  lemma PassWindow(s: State, t: nat)
    requires Inv(s) && t < |s.threads| && 0 < |s.ring|
    requires s.threads[t].Busy? && s.threads[t].phase.Pass? && s.threads[t].side.Deq?
    ensures ContentOk(s.ring, s.enq.done, s.deq.done, s.threads[t].phase.idx)
  {
    assert HoldsOk(s.deq, t, s.threads[t], Deq);
    hide ThreadsOk, MarksOk, ContentOk, AllLocalsOk;
    WindowShift(s.ring, s.enq.done, s.deq.done, s.deq.buck, s.threads[t].phase.idx);
  }

  lemma WindowShift(ring: seq<Slot>, put: map<nat, Elem>, taken: map<nat, Elem>, from: nat, to: nat)
    requires 0 < |ring| && ContentOk(ring, put, taken, from) && from <= to
    requires forall p :: from <= p < to ==> p in taken
    requires forall p :: p in put ==> p < from + |ring|
    requires to <= from + |ring|
    ensures ContentOk(ring, put, taken, to)
  {
    var n := |ring|;
    forall q | to <= q < to + n ensures SlotOf(ring, q).elem == Content(put, taken, q) {
      if from + n <= q {
        assert SlotOf(ring, q - n).elem == Content(put, taken, q - n);
      }
    }
  }

  // ---------- publishing ----------

  lemma PublishKeepsInv(s: State, s': State, t: nat)
    requires Inv(s) && t < |s.threads| && PublishSlots(s, s', t)
    ensures Inv(s')
  {
    hide SideOk, ContentOk, TakenOk, AllLocalsOk;
    PublishSides(s, s', t);
    PublishLocals(s, s', t);
  }

  lemma PublishSides(s: State, s': State, t: nat)
    requires Inv(s) && t < |s.threads| && PublishSlots(s, s', t)
    ensures SideOk(s'.ring, s'.threads, s'.enq, s'.prodTail, s'.consTail, Enq) && s'.consTail <= s.enq.buck
    ensures SideOk(s'.ring, s'.threads, s'.deq, s'.consHead, s'.prodHead, Deq) && s'.prodHead <= s.deq.buck
  {
    hide Inv, SideOk, ThreadOk, KeepsClaims;
    var th := s.threads[t];
    InvSides(s);
    PublishedBehind(s);
    if th.side.Enq? {
      PublishSide(s.ring, s.threads, t, s.enq, s.prodTail, s.consTail, Enq);
      OtherSide(s.deq, t, th, s'.threads[t], Deq);
      SideFrame(s.ring, s'.ring, s.threads, t, s'.threads[t], s.deq, s.consHead, s.prodHead, Deq);
    } else {
      PublishSide(s.ring, s.threads, t, s.deq, s.consHead, s.prodHead, Deq);
      OtherSide(s.enq, t, th, s'.threads[t], Enq);
      SideFrame(s.ring, s'.ring, s.threads, t, s'.threads[t], s.enq, s.prodTail, s.consTail, Enq);
    }
  }

  lemma PublishedBehind(s: State)
    requires Inv(s)
    ensures s.consTail <= s.enq.buck && s.prodHead <= s.deq.buck
  {
  }

  lemma PublishLocals(s: State, s': State, t: nat)
    requires Inv(s) && t < |s.threads| && PublishSlots(s, s', t)
    ensures AllLocalsOk(s'.threads, s'.enq.done, Limit(s', Enq), Limit(s', Deq))
  {
    hide SideOk, ContentOk, TakenOk, OrderOk;
    LocalsFrame(s, s', t);
  }

  lemma PublishSide(ring: seq<Slot>, threads: seq<Thread>, t: nat, h: History,
                    acquired: nat, published: nat, side: Side)
    requires 0 < |ring| && t < |threads|
    requires SideOk(ring, threads, h, acquired, published, side)
    requires var th := threads[t]; th.Busy? && th.side == side && th.phase.Publish? && th.first <= th.phase.idx
    ensures var th := threads[t];
            && published + (th.phase.idx - th.first) <= h.buck
            && SideOk(ring, threads[t := Done(side, th.first, th.ev)], h,
                      acquired, published + (th.phase.idx - th.first), side)
  {
    SumUpdate(threads, t, Done(side, threads[t].first, threads[t].ev), side);
  }

  // ---------- every run ----------

  lemma InitInv(s: State)
    requires Init(s)
    ensures Inv(s)
  {
    SumIdle(s.threads, Enq);
    SumIdle(s.threads, Deq);
  }

  lemma {:induction false} SumIdle(threads: seq<Thread>, side: Side)
    requires forall t :: 0 <= t < |threads| ==> Unpublished(threads[t], side) == 0
    ensures SumUnpublished(threads, side) == 0
  {
    if threads != [] {
      SumIdle(threads[..|threads| - 1], side);
    }
  }

  /** One step of any thread keeps the invariant. */
  lemma StepKeepsInv(s: State, s': State, t: nat)
    requires Inv(s) && Step(s, s', t)
    ensures Inv(s')
  {
    hide Inv;
    if Start(s, s', t) { StartKeepsInv(s, s', t); }
    else if LoadHead(s, s', t) { LoadHeadKeepsInv(s, s', t); }
    else if Acquire(s, s', t) { AcquireKeepsInv(s, s', t); }
    else if WriteSlot(s, s', t) { WriteSlotKeepsInv(s, s', t); }
    else if ClearSlot(s, s', t) { ClearSlotKeepsInv(s, s', t); }
    else if LoadFirst(s, s', t) { LoadFirstKeepsInv(s, s', t); }
    else if BlendFirst(s, s', t) { BlendFirstKeepsInv(s, s', t); }
    else if ScanSlot(s, s', t) { ScanKeepsInv(s, s', t); }
    else if PassBuck(s, s', t) { PassBuckKeepsInv(s, s', t); }
    else { PublishKeepsInv(s, s', t); }
  }

  lemma {:induction false} RunInv(run: seq<State>, i: nat)
    requires Run(run) && i < |run|
    ensures Inv(run[i])
  {
    hide Inv, Init, Step;
    if i == 0 {
      InitInv(run[0]);
    } else {
      RunInv(run, i - 1);
      assert Next(run[i - 1], run[i]);
      var t: nat :| Step(run[i - 1], run[i], t);
      StepKeepsInv(run[i - 1], run[i], t);
    }
  }

  // ---------- the properties ----------

  /** In every state of every run each buck exists exactly once: either exactly one slot carries the mark and no
      thread holds the buck, or no slot carries it and exactly one thread holds it. */
  lemma OneBuck(run: seq<State>, i: nat, side: Side)
    requires Run(run) && i < |run|
    ensures var s := run[i];
            || (&& (exists j :: 0 <= j < |s.ring| && Mark(s.ring[j], side))
                && (forall j, k :: 0 <= j < |s.ring| && 0 <= k < |s.ring| && Mark(s.ring[j], side) && Mark(s.ring[k], side)
                      ==> j == k)
                && (forall t :: 0 <= t < |s.threads| ==> !Holds(s.threads[t], side)))
            || (&& (forall j :: 0 <= j < |s.ring| ==> !Mark(s.ring[j], side))
                && (exists t :: 0 <= t < |s.threads| && Holds(s.threads[t], side))
                && (forall t, u :: (&& 0 <= t < |s.threads| && 0 <= u < |s.threads|
                                    && Holds(s.threads[t], side) && Holds(s.threads[u], side)) ==> t == u))
  {
    RunInv(run, i);
    InvSides(run[i]);
    hide Inv;
    var s := run[i];
    OneBuckSide(s.ring, s.threads, Hist(s, side), Acquired(s, side), Published(s, side), side);
  }

  lemma OneBuckSide(ring: seq<Slot>, threads: seq<Thread>, h: History, acquired: nat, published: nat, side: Side)
    requires 0 < |ring|
    requires SideOk(ring, threads, h, acquired, published, side)
    ensures h.holder.None? ==>
              && Mark(ring[At(h.buck, |ring|)], side)
              && (forall j :: 0 <= j < |ring| && Mark(ring[j], side) ==> j == At(h.buck, |ring|))
              && (forall t :: 0 <= t < |threads| ==> !Holds(threads[t], side))
    ensures h.holder.Some? ==>
              && h.holder.value < |threads| && Holds(threads[h.holder.value], side)
              && (forall j :: 0 <= j < |ring| ==> !Mark(ring[j], side))
              && (forall t :: 0 <= t < |threads| && Holds(threads[t], side) ==> t == h.holder.value)
  {
    forall t | 0 <= t < |threads| && Holds(threads[t], side) ensures h.holder == Some(t) {
      assert HoldsOk(h, t, threads[t], side);
    }
  }

  /** The shared index plus all increments not made yet is the buck's position, and every position before it is
      finished. */
  lemma BuckPosition(run: seq<State>, i: nat, side: Side)
    requires Run(run) && i < |run|
    ensures var s := run[i];
            && Published(s, side) + SumUnpublished(s.threads, side) == Hist(s, side).buck <= Acquired(s, side)
            && forall p :: 0 <= p < Hist(s, side).buck ==> p in Hist(s, side).done
  {
    RunInv(run, i);
    InvSides(run[i]);
    hide Inv, ThreadsOk, MarksOk;
  }

  /** A slot that is about to be written and is not the first of its range carries no mark, and for an enqueue it is
      empty: the debug assertion and the open question in the code. */
  lemma NonFirstSlotsClean(run: seq<State>, i: nat, t: nat, p: nat)
    requires Run(run) && i < |run| && t < |run[i].threads| && 0 < |run[i].ring|
    requires run[i].threads[t].Busy?
    requires Unfinished(run[i].threads[t], run[i].threads[t].side, p) && p != run[i].threads[t].first
    ensures !SlotOf(run[i].ring, p).enqMark && !SlotOf(run[i].ring, p).deqMark
    ensures run[i].threads[t].side.Enq? ==> SlotOf(run[i].ring, p).elem == NIL
  {
    RunInv(run, i);
    NonFirstUnmarked(run[i], t, p, run[i].threads[t].side);
  }

  ghost predicate Grew(h: History, h': History) {
    && h.owner <= h'.owner
    && forall p :: p in h.done ==> p in h'.done && h'.done[p] == h.done[p]
  }

  lemma StepGrows(s: State, s': State, t: nat, side: Side)
    requires Inv(s) && Step(s, s', t)
    ensures Grew(Hist(s, side), Hist(s', side))
  {
    hide Inv;
    var th := s.threads[t];
    if ClearSlot(s, s', t) || (WriteSlot(s, s', t) && th.side.Enq?) || BlendFirst(s, s', t) {
      WriteGrows(s, s', t, side);
    } else {
      hide ClearSlot, BlendFirst, SlotOf, Matches, Limit;
    }
  }

  /** Writing a slot finishes a position that was not finished. */
  lemma WriteGrows(s: State, s': State, t: nat, side: Side)
    requires Inv(s) && t < |s.threads| && 0 < |s.ring|
    requires ClearSlot(s, s', t) || (WriteSlot(s, s', t) && s.threads[t].side.Enq?) || BlendFirst(s, s', t)
    ensures Grew(Hist(s, side), Hist(s', side))
  {
    hide Inv, SlotOf, Blended, At;
    var th := s.threads[t];
    if ClearSlot(s, s', t) {
      TakeFacts(s, t, th.first + th.phase.k);
    } else if WriteSlot(s, s', t) && th.side.Enq? {
      PutFacts(s, t, th.first + th.phase.k);
    } else if th.side.Enq? {
      PutFacts(s, t, th.first);
    } else {
      TakeFacts(s, t, th.first);
    }
  }

  lemma {:induction false} HistoryGrows(run: seq<State>, i: nat, j: nat, side: Side)
    requires Run(run) && i <= j < |run|
    ensures Grew(Hist(run[i], side), Hist(run[j], side))
  {
    hide Inv, Init, Step;
    if i < j {
      HistoryGrows(run, i, j - 1, side);
      RunInv(run, j - 1);
      assert Next(run[j - 1], run[j]);
      var t: nat :| Step(run[j - 1], run[j], t);
      StepGrows(run[j - 1], run[j], t, side);
    }
  }

  lemma DoneFacts(run: seq<State>, i: nat, t: nat)
    requires Run(run) && i < |run| && t < |run[i].threads| && run[i].threads[t].Done?
    ensures var th := run[i].threads[t]; ResultOk(Hist(run[i], th.side), t, th.first, th.ev)
  {
    RunInv(run, i);
    ThreadFacts(run[i], t);
  }

  lemma AllTaken(run: seq<State>, i: nat)
    requires Run(run) && i < |run|
    ensures TakenOk(run[i].enq.done, run[i].deq.done)
  {
    RunInv(run, i);
  }

  /** Whatever a dequeue returns for a position is what an enqueue put there, whichever threads and whichever moments:
      the ring is first in, first out in position order. */
  lemma DequeueMatchesEnqueue(run: seq<State>, i: nat, j: nat, t: nat, u: nat, p: nat)
    requires Run(run) && i < |run| && j < |run| && t < |run[i].threads| && u < |run[j].threads|
    requires run[i].threads[t].Done? && run[i].threads[t].side.Enq?
    requires run[j].threads[u].Done? && run[j].threads[u].side.Deq?
    requires run[i].threads[t].first <= p < run[i].threads[t].first + |run[i].threads[t].ev|
    requires run[j].threads[u].first <= p < run[j].threads[u].first + |run[j].threads[u].ev|
    ensures run[j].threads[u].ev[p - run[j].threads[u].first] == run[i].threads[t].ev[p - run[i].threads[t].first]
  {
    hide Inv, Run;
    DoneFacts(run, i, t);
    DoneFacts(run, j, u);
    assert p in run[j].deq.done && p in run[i].enq.done;
    AllTaken(run, j);
    HistoryGrows(run, if i < j then i else j, if i < j then j else i, Enq);
  }

  /** No position is returned by two dequeues: when dequeues have returned position p at two moments, they are one call
      of one thread, which has not started another call between them. */
  lemma DequeuedOnce(run: seq<State>, i: nat, j: nat, t: nat, u: nat, p: nat)
    requires Run(run) && i <= j < |run| && t < |run[i].threads| && u < |run[j].threads|
    requires run[i].threads[t].Done? && run[i].threads[t].side.Deq?
    requires run[j].threads[u].Done? && run[j].threads[u].side.Deq?
    requires run[i].threads[t].first <= p < run[i].threads[t].first + |run[i].threads[t].ev|
    requires run[j].threads[u].first <= p < run[j].threads[u].first + |run[j].threads[u].ev|
    ensures t == u
    ensures forall k :: i <= k <= j ==> t < |run[k].threads| && run[k].threads[t] == run[i].threads[t]
  {
    hide Inv, Run;
    DoneFacts(run, i, t);
    DoneFacts(run, j, u);
    HistoryGrows(run, i, j, Deq);
    assert run[i].deq.owner[p] == run[j].deq.owner[p] == Claim(t, run[i].threads[t].first);
    AcquiredIsOwned(run, i);
    hide Grew, ResultOk;
    SameOrLater(run, i, j, t, Deq);
    forall k | i <= k <= j ensures t < |run[k].threads| && run[k].threads[t] == run[i].threads[t] {
      assert Stays(run, i, k, t);
    }
  }

  lemma AcquiredIsOwned(run: seq<State>, i: nat)
    requires Run(run) && i < |run|
    ensures |run[i].enq.owner| == run[i].prodTail && |run[i].deq.owner| == run[i].consHead
  {
    RunInv(run, i);
    hide ThreadsOk, BuckOk, MarksOk, OrderOk, ContentOk, TakenOk, AllLocalsOk;
  }

  predicate Has(th: Thread, side: Side) { (th.Busy? || th.Done?) && th.side == side }

  /** The thread is as it was. */
  ghost predicate Stays(run: seq<State>, i: nat, k: nat, t: nat) {
    && i < |run| && k < |run| && t < |run[i].threads| && t < |run[k].threads|
    && run[k].threads[t] == run[i].threads[t]
  }

  lemma StaysHere(run: seq<State>, i: nat, t: nat)
    requires i < |run| && t < |run[i].threads|
    ensures Stays(run, i, i, t)
  {
  }

  lemma StaysIs(run: seq<State>, i: nat, k: nat, t: nat)
    requires Stays(run, i, k, t)
    ensures i < |run| && k < |run| && t < |run[i].threads| && t < |run[k].threads|
    ensures run[k].threads[t] == run[i].threads[t]
  {
  }

  lemma StaysOn(run: seq<State>, i: nat, j: nat, t: nat)
    requires 0 < j < |run| && Stays(run, i, j - 1, t) && t < |run[j].threads|
    requires run[j].threads[t] == run[j - 1].threads[t]
    ensures Stays(run, i, j, t)
  {
  }

  /** A thread whose operation was over at one moment and that has a range at a later one has stayed as it was, or the
      later range lies behind everything acquired at the first moment. */
  lemma {:induction false} SameOrLater(run: seq<State>, i: nat, j: nat, t: nat, side: Side)
    requires Run(run) && i <= j < |run| && t < |run[i].threads| && t < |run[j].threads|
    requires run[i].threads[t].Done? && Has(run[j].threads[t], side)
    ensures || (forall k :: i <= k <= j ==> Stays(run, i, k, t))
            || Acquired(run[i], side) <= run[j].threads[t].first
  {
    hide *;
    if i == j {
      StaysHere(run, i, t);
    } else {
      NextAt(run, j - 1);
      RangeFrom(run[j - 1], run[j], t, side);
      if Has(run[j - 1].threads[t], side) {
        SameOrLater(run, i, j - 1, t, side);
        if run[j].threads[t] == run[j - 1].threads[t] && forall k :: i <= k <= j - 1 ==> Stays(run, i, k, t) {
          StaysOn(run, i, j, t);
        } else if forall k :: i <= k <= j - 1 ==> Stays(run, i, k, t) {
          StaysIs(run, i, j - 1, t);
        }
      } else {
        AcquiredGrows(run, i, j - 1, side);
      }
    }
  }

  lemma NextAt(run: seq<State>, i: nat)
    requires Run(run) && i + 1 < |run|
    ensures Next(run[i], run[i + 1])
  {
    hide Next, Init;
  }

  lemma AcquiredGrows(run: seq<State>, i: nat, j: nat, side: Side)
    requires Run(run) && i <= j < |run|
    ensures Acquired(run[i], side) <= Acquired(run[j], side)
  {
    hide Run;
    AcquiredIsOwned(run, i);
    AcquiredIsOwned(run, j);
    HistoryGrows(run, i, j, side);
  }

  /** Where a thread's range comes from: it was there, or has just been acquired. */
  lemma RangeFrom(s: State, s': State, t: nat, side: Side)
    requires Next(s, s') && t < |s'.threads| && Has(s'.threads[t], side)
    ensures t < |s.threads|
    ensures || s'.threads[t] == s.threads[t]
            || (Has(s.threads[t], side) && s.threads[t].Busy? && s'.threads[t].first == s.threads[t].first)
            || (!Has(s.threads[t], side) && s'.threads[t].first == Acquired(s, side))
  {
    var u: nat :| Step(s, s', u);
    Mine(s, s', u);
    if u == t {
      MyRange(s, s', t, side);
    }
  }

  /** A step changes only the thread that takes it. */
  lemma Mine(s: State, s': State, t: nat)
    requires Step(s, s', t)
    ensures t < |s.threads| && |s'.threads| == |s.threads| && s'.threads == s.threads[t := s'.threads[t]]
  {
    hide SlotOf, Blended, Matches;
  }

  lemma MyRange(s: State, s': State, t: nat, side: Side)
    requires Step(s, s', t) && t < |s'.threads| && Has(s'.threads[t], side)
    ensures || (Has(s.threads[t], side) && s.threads[t].Busy? && s'.threads[t].first == s.threads[t].first)
            || (!Has(s.threads[t], side) && s'.threads[t].first == Acquired(s, side))
  {
    hide SlotOf, Blended, Matches, Mark, WithMark, Published, Limit, At, WriteSlot, ClearSlot, LoadFirst, BlendFirst,
         ScanSlot, PassBuck, PublishSlots;
    if Owns(s, s', t) {
      OwnerKeepsRange(s, s', t);
    }
  }

  /** The steps of a thread that has acquired a range. */
  ghost predicate Owns(s: State, s': State, t: nat)
    requires t < |s.threads| && 0 < |s.ring|
  {
    || WriteSlot(s, s', t) || ClearSlot(s, s', t) || LoadFirst(s, s', t) || BlendFirst(s, s', t) || ScanSlot(s, s', t)
    || PassBuck(s, s', t) || PublishSlots(s, s', t)
  }

  lemma OwnerKeepsRange(s: State, s': State, t: nat)
    requires t < |s.threads| && 0 < |s.ring| && Owns(s, s', t)
    ensures KeepsRange(s, s', t)
  {
    hide WriteSlot, ClearSlot, LoadFirst, BlendFirst, ScanSlot, PassBuck, PublishSlots, KeepsRange;
    if WriteSlot(s, s', t) || ClearSlot(s, s', t) || LoadFirst(s, s', t) {
      WriterKeepsRange(s, s', t);
    } else {
      HolderKeepsRange(s, s', t);
    }
  }

  predicate KeepsRange(s: State, s': State, t: nat)
    requires t < |s.threads|
  {
    && s.threads[t].Busy? && t < |s'.threads| && (s'.threads[t].Busy? || s'.threads[t].Done?)
    && s'.threads[t].first == s.threads[t].first && s'.threads[t].side == s.threads[t].side
  }

  lemma WriterKeepsRange(s: State, s': State, t: nat)
    requires t < |s.threads| && 0 < |s.ring| && (WriteSlot(s, s', t) || ClearSlot(s, s', t) || LoadFirst(s, s', t))
    ensures KeepsRange(s, s', t)
  {
    hide SlotOf, At;
  }

  lemma HolderKeepsRange(s: State, s': State, t: nat)
    requires t < |s.threads| && 0 < |s.ring|
    requires BlendFirst(s, s', t) || ScanSlot(s, s', t) || PassBuck(s, s', t) || PublishSlots(s, s', t)
    ensures KeepsRange(s, s', t)
  {
    hide SlotOf, Blended, Matches, Mark, WithMark, Published, Hist, At;
  }

  /** When no operation is in progress, every acquired position has been published on both sides and the ring holds
      exactly the elements enqueued and not dequeued, each in the slot of its position. */
  lemma NothingStranded(run: seq<State>, i: nat)
    requires Run(run) && i < |run|
    requires forall t :: 0 <= t < |run[i].threads| ==> !run[i].threads[t].Busy?
    ensures var s := run[i];
            && s.consTail == s.prodTail && s.prodHead == s.consHead
            && s.prodTail - s.consHead <= |s.ring|
            && (forall p :: s.consHead <= p < s.prodTail ==>
                  p in s.enq.done && SlotOf(s.ring, p).elem == s.enq.done[p] != NIL)
  {
    var s := run[i];
    RunInv(run, i);
    assert s.enq.holder.None? && s.deq.holder.None?;
    SumIdle(s.threads, Enq);
    SumIdle(s.threads, Deq);
    assert s.enq.buck == s.prodTail && s.deq.buck == s.consHead;
    forall p | s.consHead <= p < s.prodTail
      ensures p in s.enq.done && SlotOf(s.ring, p).elem == s.enq.done[p] != NIL
    {
      assert SlotOf(s.ring, p).elem == Content(s.enq.done, s.deq.done, p);
    }
  }
}

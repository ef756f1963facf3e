/** The pass-the-buck ring buffer as a machine of atomic steps.

    Any number of threads enqueue and dequeue. Both operations acquire a range of ring positions, write their
    slots in any order and write the first slot last. The right to make a prefix of finished positions visible (the
    "buck") is a mark on the slot that is next in order, or is held by the thread that took the mark. There is one
    buck for enqueue and one for dequeue, and the two protocols run over the same slots. */
module BuckRing {
  import opened RingIndex

  type Elem = nat
  const NIL: Elem := 0

  datatype Side = Enq | Deq

  /** A ring slot: the element word and its two low mark bits. */
  datatype Slot = Slot(elem: Elem, enqMark: bool, deqMark: bool)

  /** What a thread that owns a range of positions is doing. `Write(k)` is about to write its k-th slot, or, when all
      but the first are written, to load the first one; `Clear` has loaded slot k of a dequeue; `Blend` has loaded the
      first slot and is about to CAS it; `Scan` looks for the next slot to mark; `Pass` is about to CAS the mark;
      `Publish` is about to add to the shared index. */
  datatype Phase =
    | Write(k: nat)
    | Clear(k: nat, loaded: Slot)
    | Blend(seen: Slot)
    | Scan(idx: nat)
    | Pass(idx: nat, seen: Slot)
    | Publish(idx: nat)

  datatype Thread =
    | Idle
    | Head(side: Side, ev: seq<Elem>, tail: nat)
    | Take(side: Side, ev: seq<Elem>, tail: nat, actual: nat)
    | Busy(side: Side, first: nat, ev: seq<Elem>, phase: Phase)
    | Done(side: Side, first: nat, ev: seq<Elem>)

  /** Who acquired a position: a thread, and the first position of the range it acquired. */
  datatype Claim = Claim(thread: nat, first: nat)

  /** History of one side: the position of its buck, the thread that holds the buck, the claim on each acquired
      position, and the element that went through each finished position. */
  datatype History = History(buck: nat, holder: Option<nat>, owner: seq<Claim>, done: map<nat, Elem>)

  datatype State = State(
    ring: seq<Slot>,
    prodHead: nat, prodTail: nat, consHead: nat, consTail: nat,
    threads: seq<Thread>,
    enq: History, deq: History)

  // ---------- the parameters of enq_deq that depend on the side ----------

  function Hist(s: State, side: Side): History { if side.Enq? then s.enq else s.deq }

  function WithHist(s: State, side: Side, h: History): State { if side.Enq? then s.(enq := h) else s.(deq := h) }

  /** The index CASed to acquire positions: prod.tail or cons.head. */
  function Acquired(s: State, side: Side): nat { if side.Enq? then s.prodTail else s.consHead }

  function WithAcquired(s: State, side: Side, n: nat): State {
    if side.Enq? then s.(prodTail := n) else s.(consHead := n)
  }

  /** The index that this side advances for the other side: cons.tail or prod.head. */
  function Published(s: State, side: Side): nat { if side.Enq? then s.consTail else s.prodHead }

  function WithPublished(s: State, side: Side, n: nat): State {
    if side.Enq? then s.(consTail := n) else s.(prodHead := n)
  }

  /** One past the last position that may be acquired. */
  function Limit(s: State, side: Side): nat { if side.Enq? then s.prodHead + |s.ring| else s.consTail }

  function Mark(x: Slot, side: Side): bool { if side.Enq? then x.enqMark else x.deqMark }

  function WithMark(x: Slot, side: Side): Slot { if side.Enq? then x.(enqMark := true) else x.(deqMark := true) }

  /** The blend of the first slot: the new element, the other side's mark preserved, this side's mark cleared. */
  function Blended(x: Slot, side: Side, elem: Elem): Slot {
    if side.Enq? then Slot(elem, false, x.deqMark) else Slot(NIL, x.enqMark, false)
  }

  /** Does the scan for consecutive finished slots go past this slot? */
  predicate Matches(x: Slot, side: Side) {
    if side.Enq? then x.elem != NIL && !x.deqMark else x.elem == NIL && !x.enqMark
  }

  function SlotOf(ring: seq<Slot>, p: nat): Slot
    requires 0 < |ring|
  {
    ring[At(p, |ring|)]
  }

  function WithSlot(s: State, p: nat, x: Slot): State
    requires 0 < |s.ring|
  {
    s.(ring := s.ring[At(p, |s.ring|) := x])
  }

  function WithThread(s: State, t: nat, th: Thread): State
    requires t < |s.threads|
  {
    s.(threads := s.threads[t := th])
  }

  // ---------- the steps ----------

  ghost predicate Init(s: State) {
    && 1 <= |s.ring|
    && s.prodHead == s.prodTail == s.consHead == s.consTail == 0
    && s.ring == seq(|s.ring|, j requires 0 <= j < |s.ring| => Slot(NIL, j == 0, j == 0))
    && (forall t :: 0 <= t < |s.threads| ==> s.threads[t].Idle?)
    && s.enq == s.deq == History(0, None, [], map[])
  }

  /** Start an operation: load the index to be CASed. */
  ghost predicate StartOp(s: State, s': State, t: nat, side: Side, ev: seq<Elem>)
    requires t < |s.threads|
  {
    && (s.threads[t].Idle? || s.threads[t].Done?)
    && (side.Enq? ==> forall j :: 0 <= j < |ev| ==> ev[j] != NIL)
    && s' == WithThread(s, t, Head(side, ev, Acquired(s, side)))
  }

  ghost predicate Start(s: State, s': State, t: nat)
    requires t < |s.threads|
  {
    exists side: Side, ev: seq<Elem> :: StartOp(s, s', t, side, ev)
  }

  /** Load the limit; give up when no position is free. */
  ghost predicate LoadHead(s: State, s': State, t: nat)
    requires t < |s.threads|
  {
    && s.threads[t].Head?
    && var th := s.threads[t];
       var room := Limit(s, th.side) - th.tail;
       var actual := if |th.ev| < room then |th.ev| else room;
       s' == WithThread(s, t, if actual <= 0 then Idle else Take(th.side, th.ev, th.tail, actual))
  }

  /** CAS the acquire index. */
  ghost predicate Acquire(s: State, s': State, t: nat)
    requires t < |s.threads|
  {
    && s.threads[t].Take?
    && var th := s.threads[t];
       if Acquired(s, th.side) != th.tail then
         s' == WithThread(s, t, Head(th.side, th.ev, Acquired(s, th.side)))
       else
         && th.actual <= |th.ev|
         && var h := Hist(s, th.side);
            s' == WithThread(
                    WithHist(WithAcquired(s, th.side, th.tail + th.actual), th.side,
                             h.(owner := h.owner + seq(th.actual, _ => Claim(t, th.tail)))),
                    t, Busy(th.side, th.tail, th.ev[..th.actual], Write(1)))
  }

  /** Write a slot that is not the first: an enqueue stores its element, a dequeue first loads the old one. */
  ghost predicate WriteSlot(s: State, s': State, t: nat)
    requires t < |s.threads| && 0 < |s.ring|
  {
    && s.threads[t].Busy? && s.threads[t].phase.Write?
    && var th := s.threads[t];
       var k := th.phase.k;
       && k < |th.ev|
       && if th.side.Enq? then
            s' == WithThread(
                    WithHist(WithSlot(s, th.first + k, Slot(th.ev[k], false, false)), Enq,
                             s.enq.(done := s.enq.done[th.first + k := th.ev[k]])),
                    t, th.(phase := Write(k + 1)))
          else
            s' == WithThread(s, t, th.(phase := Clear(k, SlotOf(s.ring, th.first + k))))
  }

  /** A dequeue stores NIL into a slot that is not the first and keeps the element it loaded. */
  ghost predicate ClearSlot(s: State, s': State, t: nat)
    requires t < |s.threads| && 0 < |s.ring|
  {
    && s.threads[t].Busy? && s.threads[t].phase.Clear? && s.threads[t].side.Deq?
    && var th := s.threads[t];
       var k := th.phase.k;
       var elem := th.phase.loaded.elem;
       && k < |th.ev|
       && s' == WithThread(
                  WithHist(WithSlot(s, th.first + k, Slot(NIL, false, false)), Deq,
                           s.deq.(done := s.deq.done[th.first + k := elem])),
                  t, th.(phase := Write(k + 1), ev := th.ev[k := elem]))
  }

  /** All but the first slot are written: load the first. */
  ghost predicate LoadFirst(s: State, s': State, t: nat)
    requires t < |s.threads| && 0 < |s.ring|
  {
    && s.threads[t].Busy? && s.threads[t].phase.Write?
    && var th := s.threads[t];
       && th.phase.k == |th.ev|
       && s' == WithThread(s, t, th.(phase := Blend(SlotOf(s.ring, th.first))))
  }

  /** CAS the blended first slot; whoever removes the mark takes the buck. */
  ghost predicate BlendFirst(s: State, s': State, t: nat)
    requires t < |s.threads| && 0 < |s.ring|
  {
    && s.threads[t].Busy? && s.threads[t].phase.Blend? && |s.threads[t].ev| > 0
    && var th := s.threads[t];
       var seen := th.phase.seen;
       if SlotOf(s.ring, th.first) != seen then
         s' == WithThread(s, t, th.(phase := Blend(SlotOf(s.ring, th.first))))
       else
         var elem := if th.side.Enq? then th.ev[0] else seen.elem;
         var ev' := th.ev[0 := elem];
         var h := Hist(s, th.side);
         var h' := h.(done := h.done[th.first := elem], holder := if Mark(seen, th.side) then Some(t) else h.holder);
         s' == WithThread(
                 WithHist(WithSlot(s, th.first, Blended(seen, th.side, elem)), th.side, h'),
                 t, if Mark(seen, th.side)
                    then Busy(th.side, th.first, ev', Scan(th.first + 1))
                    else Done(th.side, th.first, ev'))
  }

  /** The buck holder loads the next slot. */
  ghost predicate ScanSlot(s: State, s': State, t: nat)
    requires t < |s.threads| && 0 < |s.ring|
  {
    && s.threads[t].Busy? && s.threads[t].phase.Scan?
    && var th := s.threads[t];
       var x := SlotOf(s.ring, th.phase.idx);
       s' == WithThread(s, t, th.(phase := if Matches(x, th.side)
                                           then Scan(th.phase.idx + 1)
                                           else Pass(th.phase.idx, x)))
  }

  /** CAS the mark onto the slot that ended the scan. */
  ghost predicate PassBuck(s: State, s': State, t: nat)
    requires t < |s.threads| && 0 < |s.ring|
  {
    && s.threads[t].Busy? && s.threads[t].phase.Pass?
    && var th := s.threads[t];
       var idx := th.phase.idx;
       if SlotOf(s.ring, idx) != th.phase.seen then
         s' == WithThread(s, t, th.(phase := Scan(idx)))
       else
         s' == WithThread(
                 WithHist(WithSlot(s, idx, WithMark(th.phase.seen, th.side)), th.side,
                          Hist(s, th.side).(buck := idx, holder := None)),
                 t, th.(phase := Publish(idx)))
  }

  /** Fetch-and-add the released slots to the shared index. */
  ghost predicate PublishSlots(s: State, s': State, t: nat)
    requires t < |s.threads|
  {
    && s.threads[t].Busy? && s.threads[t].phase.Publish? && s.threads[t].first <= s.threads[t].phase.idx
    && var th := s.threads[t];
       s' == WithThread(WithPublished(s, th.side, Published(s, th.side) + (th.phase.idx - th.first)),
                        t, Done(th.side, th.first, th.ev))
  }

  ghost predicate Step(s: State, s': State, t: nat) {
    && t < |s.threads|
    && 0 < |s.ring|
    && (|| Start(s, s', t) || LoadHead(s, s', t) || Acquire(s, s', t) || WriteSlot(s, s', t) || ClearSlot(s, s', t)
        || LoadFirst(s, s', t) || BlendFirst(s, s', t) || ScanSlot(s, s', t) || PassBuck(s, s', t)
        || PublishSlots(s, s', t))
  }

  ghost predicate Next(s: State, s': State) { exists t: nat :: Step(s, s', t) }

  /** A run: any interleaving of any length. */
  ghost predicate Run(run: seq<State>) {
    && |run| > 0
    && Init(run[0])
    && forall i :: 0 <= i < |run| - 1 ==> Next(run[i], run[i + 1])
  }

  // ---------- the invariant ----------

  /** Released but not yet added to the shared index. */
  function Unpublished(th: Thread, side: Side): nat {
    if th.Busy? && th.side == side && th.phase.Publish? && th.first <= th.phase.idx then th.phase.idx - th.first else 0
  }

  function SumUnpublished(threads: seq<Thread>, side: Side): nat {
    if threads == [] then 0
    else SumUnpublished(threads[..|threads| - 1], side) + Unpublished(threads[|threads| - 1], side)
  }

  predicate Holds(th: Thread, side: Side) {
    th.Busy? && th.side == side && (th.phase.Scan? || th.phase.Pass?)
  }

  /** Number of slots, counted from the second, that a writing thread has finished, plus one. */
  function Progress(th: Thread): nat
    requires th.Busy?
  {
    match th.phase
    case Write(k) => k
    case Clear(k, _) => k
    case _ => |th.ev|
  }

  predicate Writing(th: Thread, side: Side) {
    th.Busy? && th.side == side && (th.phase.Write? || th.phase.Clear? || th.phase.Blend?)
  }

  /** Position p belongs to the thread's range and is not finished. */
  predicate Unfinished(th: Thread, side: Side, p: nat) {
    && Writing(th, side)
    && th.first <= p < th.first + |th.ev|
    && (p == th.first || th.first + Progress(th) <= p)
  }

  ghost predicate WritingOk(h: History, t: nat, th: Thread, side: Side)
    requires Writing(th, side)
  {
    && 1 <= Progress(th) <= |th.ev|
    && th.first + |th.ev| <= |h.owner|
    && (forall p :: th.first <= p < th.first + |th.ev| ==> h.owner[p] == Claim(t, th.first))
    && th.first !in h.done
    && (forall p :: th.first < p < th.first + Progress(th) ==> p in h.done && h.done[p] == th.ev[p - th.first])
    && (forall p :: th.first + Progress(th) <= p < th.first + |th.ev| ==> p !in h.done)
    && (th.phase.Clear? ==> side.Deq? && th.phase.k < |th.ev|)
    && (side.Enq? ==> forall j :: 0 <= j < |th.ev| ==> th.ev[j] != NIL)
  }

  ghost predicate HoldsOk(h: History, t: nat, th: Thread, side: Side)
    requires Holds(th, side)
  {
    && h.holder == Some(t)
    && th.first == h.buck
    && th.first < th.phase.idx <= |h.owner|
    && (forall p :: th.first <= p < th.phase.idx ==> p in h.done)
    && (th.phase.Pass? ==> !Matches(th.phase.seen, side))
  }

  /** The elements a thread handled are those recorded for the positions it claimed. */
  ghost predicate ResultOk(h: History, t: nat, first: nat, ev: seq<Elem>) {
    && first + |ev| <= |h.owner|
    && forall p :: first <= p < first + |ev| ==>
         h.owner[p] == Claim(t, first) && p in h.done && h.done[p] == ev[p - first]
  }

  ghost predicate ThreadOk(h: History, t: nat, th: Thread, side: Side) {
    && (Writing(th, side) ==> WritingOk(h, t, th, side))
    && (Holds(th, side) ==> HoldsOk(h, t, th, side))
    && (th.Busy? && th.side == side && !Writing(th, side) ==> ResultOk(h, t, th.first, th.ev))
    && (th.Busy? && th.side == side && th.phase.Publish? ==> th.first < th.phase.idx)
    && (th.Done? && th.side == side ==> ResultOk(h, t, th.first, th.ev))
  }

  ghost predicate EachThreadOk(h: History, threads: seq<Thread>, side: Side) {
    forall t :: 0 <= t < |threads| ==> ThreadOk(h, t, threads[t], side)
  }

  ghost predicate ThreadsOk(h: History, threads: seq<Thread>, side: Side) {
    && EachThreadOk(h, threads, side)
    && (h.holder.Some? ==> h.holder.value < |threads| && Holds(threads[h.holder.value], side))
    && (forall p :: 0 <= p < |h.owner| && p !in h.done ==>
          h.owner[p].thread < |threads| && Unfinished(threads[h.owner[p].thread], side, p))
  }

  ghost predicate BuckOk(h: History) {
    && h.buck <= |h.owner|
    && (forall p :: p in h.done ==> p < |h.owner|)
    && (forall p :: 0 <= p < h.buck ==> p in h.done)
    && (h.holder.None? ==> h.buck !in h.done)
  }

  /** The mark is on the slot of the buck's position and nowhere else, or nowhere while a thread holds the buck. */
  ghost predicate MarksOk(ring: seq<Slot>, h: History, side: Side)
    requires 0 < |ring|
  {
    forall j :: 0 <= j < |ring| ==> (Mark(ring[j], side) <==> h.holder.None? && j == At(h.buck, |ring|))
  }

  ghost predicate SideOk(ring: seq<Slot>, threads: seq<Thread>, h: History, acquired: nat, published: nat, side: Side)
    requires 0 < |ring|
  {
    && |h.owner| == acquired
    && BuckOk(h)
    && ThreadsOk(h, threads, side)
    && MarksOk(ring, h, side)
    && published + SumUnpublished(threads, side) == h.buck
  }

  /** What was put at position p and not yet taken. */
  function Content(put: map<nat, Elem>, taken: map<nat, Elem>, p: nat): Elem {
    if p in put && p !in taken then put[p] else NIL
  }

  /** The slots hold the positions of one lap from the dequeue buck on. */
  ghost predicate ContentOk(ring: seq<Slot>, put: map<nat, Elem>, taken: map<nat, Elem>, from: nat)
    requires 0 < |ring|
  {
    forall p :: from <= p < from + |ring| ==> SlotOf(ring, p).elem == Content(put, taken, p)
  }

  ghost predicate TakenOk(put: map<nat, Elem>, taken: map<nat, Elem>) {
    && (forall p :: p in put ==> put[p] != NIL)
    && (forall p :: p in taken ==> p in put && taken[p] == put[p])
  }

  ghost predicate LocalsOk(th: Thread, put: map<nat, Elem>, enqLimit: nat, deqLimit: nat) {
    && ((th.Head? || th.Take?) && th.side.Enq? ==> forall j :: 0 <= j < |th.ev| ==> th.ev[j] != NIL)
    && (th.Take? ==> 0 < th.actual <= |th.ev| && th.tail + th.actual <= if th.side.Enq? then enqLimit else deqLimit)
    && (th.Busy? && th.phase.Clear? ==>
          && th.first + th.phase.k in put
          && th.phase.loaded.elem == put[th.first + th.phase.k])
  }

  ghost predicate OrderOk(s: State) {
    && s.deq.buck <= s.consHead <= s.consTail <= s.enq.buck <= s.prodTail
    && s.prodTail <= s.prodHead + |s.ring|
    && s.prodHead <= s.deq.buck
  }

  ghost predicate AllLocalsOk(threads: seq<Thread>, put: map<nat, Elem>, enqLimit: nat, deqLimit: nat) {
    forall t :: 0 <= t < |threads| ==> LocalsOk(threads[t], put, enqLimit, deqLimit)
  }

  ghost predicate Inv(s: State) {
    && 0 < |s.ring|
    && SideOk(s.ring, s.threads, s.enq, s.prodTail, s.consTail, Enq)
    && SideOk(s.ring, s.threads, s.deq, s.consHead, s.prodHead, Deq)
    && OrderOk(s)
    && ContentOk(s.ring, s.enq.done, s.deq.done, s.deq.buck)
    && TakenOk(s.enq.done, s.deq.done)
    && AllLocalsOk(s.threads, s.enq.done, Limit(s, Enq), Limit(s, Deq))
  }
}

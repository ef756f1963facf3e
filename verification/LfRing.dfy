/** The lock-free multi-producer, multi-consumer ring as a machine of atomic steps. A slot carries the position it was
    last used for, and those positions alone say which elements are in the ring: the shared tail is only a hint. */
module LfRing {
  import opened RingIndex

  type Elem = nat

  /** A slot: the element and the position it was enqueued at, negative one lap before the first use. */
  datatype Slot = Slot(ptr: Elem, idx: int)

  datatype EnqPc = Check | LoadPtr | LoadIdx(ptr: Elem) | Cas(seen: Slot) | Reload | Publish | PublishCas(tailSeen: nat)

  /** `Test` decides from head and tail; `Scan` walks over unpublished elements; the others are the atomic steps. */
  datatype DeqPc =
    | LoadTail
    | Test
    | Scan
    | Advance(sawEmpty: bool, lapped: bool)
    | AdvanceCas(sawEmpty: bool, lapped: bool, seen: nat)
    | Read(actual: nat, got: seq<Elem>)
    | CasHead(got: seq<Elem>)

  /** An enqueue has placed its first |at| elements, at these positions (history). */
  datatype Thread =
    | Idle
    | Enq(elems: seq<Elem>, at: seq<nat>, tail: nat, epc: EnqPc)
    | Deq(num: nat, head: nat, tail: nat, dpc: DeqPc)
    | Enqueued(elems: seq<Elem>, at: seq<nat>)
    | Dequeued(first: nat, got: seq<Elem>)
    | Nothing(sawEmpty: bool, lapped: bool)

  datatype Claim = Claim(thread: nat, first: nat)

  /** `log` is the history of enqueued elements in position order, `takers` who dequeued each position. */
  datatype State = State(head: nat, tail: nat, ring: seq<Slot>, threads: seq<Thread>, log: seq<Elem>, takers: seq<Claim>)

  ghost predicate Init(s: State) {
    && |s.ring| > 0 && s.head == s.tail == 0 && s.log == [] && s.takers == []
    && s.ring == seq(|s.ring|, i requires 0 <= i < |s.ring| => Slot(0, i - |s.ring|))
    && forall t :: 0 <= t < |s.threads| ==> s.threads[t].Idle?
  }

  function SlotOf(ring: seq<Slot>, p: nat): Slot
    requires |ring| > 0
  {
    ring[At(p, |ring|)]
  }

  // ---------- enqueue ----------

  /** What an enqueue does with the slot it has read: used one lap back, already enqueued, or far behind. */
  function Judge(th: Thread, seen: Slot, size: nat): Thread
    requires th.Enq?
  {
    if seen.idx == th.tail - size then th.(epc := Cas(seen))
    else if seen.idx == th.tail then th.(tail := th.tail + 1, epc := Check)
    else th.(epc := Reload)
  }

  predicate EnqStep(s: State, s': State, t: nat, th: Thread)
    requires t < |s.threads| && |s.ring| > 0 && th.Enq?
  {
    match th.epc
    case Check =>
      var more := |th.at| < |th.elems| && th.tail < s.head + |s.ring|;
      s' == s.(threads := s.threads[t := th.(epc := if more then LoadPtr else Publish)])
    case LoadPtr => s' == s.(threads := s.threads[t := th.(epc := LoadIdx(SlotOf(s.ring, th.tail).ptr))])
    case LoadIdx(ptr) =>
      s' == s.(threads := s.threads[t := Judge(th, Slot(ptr, SlotOf(s.ring, th.tail).idx), |s.ring|)])
    case Cas(seen) =>
      var slot := SlotOf(s.ring, th.tail);
      if slot != seen || |th.elems| <= |th.at| then s' == s.(threads := s.threads[t := Judge(th, slot, |s.ring|)])
      else
        var elem := th.elems[|th.at|];
        s' == s.(ring := s.ring[At(th.tail, |s.ring|) := Slot(elem, th.tail)],
                 log := s.log + [elem],
                 threads := s.threads[t := Enq(th.elems, th.at + [th.tail], th.tail + 1, Check)])
    case Reload =>
      var tail := if th.tail < s.tail then s.tail else th.tail + 1;
      s' == s.(threads := s.threads[t := th.(tail := tail, epc := Check)])
    case Publish =>
      s' == s.(threads := s.threads[t := if th.tail < s.tail then Enqueued(th.elems[..Placed(th)], th.at)
                                         else th.(epc := PublishCas(s.tail))])
    case PublishCas(seen) =>
      if s.tail == seen then
        s' == s.(tail := th.tail, threads := s.threads[t := Enqueued(th.elems[..Placed(th)], th.at)])
      else
        s' == s.(threads := s.threads[t := if th.tail < s.tail then Enqueued(th.elems[..Placed(th)], th.at)
                                           else th.(epc := PublishCas(s.tail))])
  }

  function Placed(th: Thread): (n: nat)
    requires th.Enq?
    ensures n <= |th.elems|
  {
    if |th.at| <= |th.elems| then |th.at| else |th.elems|
  }

  // ---------- dequeue ----------

  /** Decide from a head and a tail: scan when the ring looks empty, else read. */
  function Decide(th: Thread): Thread
    requires th.Deq?
  {
    var actual := if th.tail - th.head < th.num then th.tail - th.head else th.num;
    if actual <= 0 then th.(dpc := Scan) else th.(dpc := Read(actual, []))
  }

  /** After the scan: give up when the ring still looks empty. */
  function DecideAgain(th: Thread, tail: nat, sawEmpty: bool, lapped: bool): Thread
    requires th.Deq?
  {
    var actual := if tail - th.head < th.num then tail - th.head else th.num;
    if actual <= 0 then Nothing(sawEmpty || th.num == 0, lapped) else th.(tail := tail, dpc := Read(actual, []))
  }

  predicate DeqStep(s: State, s': State, t: nat, th: Thread)
    requires t < |s.threads| && |s.ring| > 0 && th.Deq?
  {
    match th.dpc
    case LoadTail => s' == s.(threads := s.threads[t := th.(tail := s.tail, dpc := Test)])
    case Test => s' == s.(threads := s.threads[t := Decide(th)])
    case Scan =>
      if th.tail < th.head + |s.ring| && SlotOf(s.ring, th.tail).idx == th.tail then
        s' == s.(threads := s.threads[t := th.(tail := th.tail + 1)])
      else
        s' == s.(threads := s.threads[t := th.(dpc := Advance(s.head == |s.log|, th.tail + |s.ring| < |s.log|))])
    case Advance(sawEmpty, lapped) =>
      s' == s.(threads := s.threads[t := if th.tail < s.tail then DecideAgain(th, s.tail, sawEmpty, lapped)
                                         else th.(dpc := AdvanceCas(sawEmpty, lapped, s.tail))])
    case AdvanceCas(sawEmpty, lapped, seen) =>
      if s.tail == seen then
        s' == s.(tail := th.tail, threads := s.threads[t := DecideAgain(th, th.tail, sawEmpty, lapped)])
      else
        s' == s.(threads := s.threads[t := if th.tail < s.tail then DecideAgain(th, s.tail, sawEmpty, lapped)
                                           else th.(dpc := AdvanceCas(sawEmpty, lapped, s.tail))])
    case Read(actual, got) =>
      s' == s.(threads := s.threads[t := if |got| < actual
                                         then th.(dpc := Read(actual, got + [SlotOf(s.ring, th.head + |got|).ptr]))
                                         else th.(dpc := CasHead(got))])
    case CasHead(got) =>
      if s.head == th.head then
        s' == s.(head := th.head + |got|,
                 takers := s.takers + seq(|got|, _ => Claim(t, th.head)),
                 threads := s.threads[t := Dequeued(th.head, got)])
      else
        s' == s.(threads := s.threads[t := th.(head := s.head, dpc := Test)])
  }

  ghost predicate Start(s: State, s': State, t: nat, th': Thread)
    requires t < |s.threads|
  {
    && !s.threads[t].Enq? && !s.threads[t].Deq?
    && ((th'.Enq? && th'.at == [] && th'.tail == s.tail && th'.epc == Check)
        || (th'.Deq? && th'.head == s.head && th'.tail == 0 && th'.dpc == LoadTail))
    && s' == s.(threads := s.threads[t := th'])
  }

  ghost predicate Step(s: State, s': State, t: nat) {
    && t < |s.threads| && |s.ring| > 0
    && var th := s.threads[t];
       || (th.Enq? && EnqStep(s, s', t, th))
       || (th.Deq? && DeqStep(s, s', t, th))
       || (exists th' :: Start(s, s', t, th'))
  }

  ghost predicate Next(s: State, s': State) { exists t: nat :: Step(s, s', t) }

  ghost predicate Run(run: seq<State>) {
    && |run| > 0 && Init(run[0])
    && forall i :: 0 <= i < |run| - 1 ==> Next(run[i], run[i + 1])
  }

  // ---------- the invariant ----------

  /** Each slot holds the largest enqueued position that selects it: the last lap of positions is in the ring. */
  ghost predicate RingOk(ring: seq<Slot>, log: seq<Elem>)
    requires |ring| > 0
  {
    forall q: nat :: |log| <= q < |log| + |ring| ==>
      SlotOf(ring, q).idx == q - |ring| && (|ring| <= q ==> SlotOf(ring, q).ptr == log[q - |ring|])
  }

  ghost predicate EnqOk(s: State, th: Thread)
    requires th.Enq?
  {
    && th.tail <= |s.log| && |th.at| <= |th.elems| && PlacedOk(s.log, th.elems[..|th.at|], th.at)
    && (forall k :: 0 <= k < |th.at| ==> th.at[k] < th.tail)
    && (th.epc.LoadPtr? || th.epc.LoadIdx? || th.epc.Cas? || th.epc.Reload? ==>
          |th.at| < |th.elems| && th.tail < s.head + |s.ring|)
    && (th.epc.Cas? ==> th.epc.seen.idx == th.tail - |s.ring|)
    && (th.epc.Reload? ==> th.tail < |s.log|)
    && (th.epc.PublishCas? ==> th.epc.tailSeen <= th.tail)
  }

  /** The placed elements are in the log at strictly increasing positions. */
  ghost predicate PlacedOk(log: seq<Elem>, elems: seq<Elem>, at: seq<nat>) {
    && |elems| == |at|
    && (forall k :: 0 <= k < |at| ==> at[k] < |log| && log[at[k]] == elems[k])
    && (forall j, k :: 0 <= j < k < |at| ==> at[j] < at[k])
  }

  ghost predicate DeqOk(s: State, th: Thread)
    requires th.Deq?
  {
    && th.head <= s.head && th.tail <= |s.log|
    && match th.dpc
       case LoadTail => true
       case Test => th.tail <= s.tail
       case Scan => true
       case Advance(sawEmpty, lapped) => th.tail <= th.head ==> sawEmpty || lapped
       case AdvanceCas(sawEmpty, lapped, seen) => (th.tail <= th.head ==> sawEmpty || lapped) && seen <= th.tail
       case Read(actual, got) =>
         && 0 < actual && |got| <= actual && th.head + actual <= th.tail <= s.tail
         && (th.head == s.head ==> got == s.log[th.head..th.head + |got|])
       case CasHead(got) =>
         && 0 < |got| && th.head + |got| <= th.tail <= s.tail
         && (th.head == s.head ==> got == s.log[th.head..th.head + |got|])
  }

  ghost predicate ThreadOk(s: State, t: nat, th: Thread) {
    match th
    case Idle => true
    case Enq(_, _, _, _) => EnqOk(s, th)
    case Deq(_, _, _, _) => DeqOk(s, th)
    case Enqueued(elems, at) => PlacedOk(s.log, elems, at) && forall k :: 0 <= k < |at| ==> at[k] < s.tail
    case Dequeued(first, got) =>
      && first + |got| <= |s.takers| <= |s.log| && got == s.log[first..first + |got|]
      && forall p :: first <= p < first + |got| ==> s.takers[p] == Claim(t, first)
    case Nothing(sawEmpty, lapped) => sawEmpty || lapped
  }

  ghost predicate Inv(s: State) {
    && |s.ring| > 0
    && s.head <= s.tail <= |s.log| <= s.head + |s.ring|
    && |s.takers| == s.head
    && RingOk(s.ring, s.log)
    && forall t :: 0 <= t < |s.threads| ==> ThreadOk(s, t, s.threads[t])
  }

  // ---------- one step ----------

  /** The slot of a position up to the next one to enqueue shows that position's lap. */
  lemma SlotMeaning(s: State, p: nat)
    requires Inv(s) && p <= |s.log|
    ensures SlotOf(s.ring, p).idx == p - |s.ring| <==> p == |s.log|
    ensures SlotOf(s.ring, p).idx == p <==> |s.log| - |s.ring| <= p < |s.log|
    ensures SlotOf(s.ring, p).idx == p ==> SlotOf(s.ring, p).ptr == s.log[p]
    ensures SlotOf(s.ring, p).idx < |s.log|
  {
    var q := Representative(p, |s.log|, |s.ring|);
    assert SlotOf(s.ring, q).idx == q - |s.ring|;
    AtPeriodic(p, |s.ring|);
    if |s.log| <= p + |s.ring| && p < |s.log| {
      AtInjective(q, p + |s.ring|, |s.ring|);
    }
    if SlotOf(s.ring, p).idx == p {
      assert q == p + |s.ring|;
      assert SlotOf(s.ring, q).ptr == s.log[q - |s.ring|];
    }
  }

  /** The position of the lap that starts at `from` that shares p's slot. */
  lemma {:induction false} Representative(p: nat, from: nat, size: nat) returns (q: nat)
    requires size > 0 && p <= from
    ensures from <= q < from + size && At(q, size) == At(p, size) && p <= q
    ensures p == from ==> q == p
    decreases from - p
  {
    q := p;
    while q < from
      invariant p <= q < from + size && At(q, size) == At(p, size)
      invariant p == from ==> q == p
    {
      AtPeriodic(q, size);
      q := q + size;
    }
  }

  lemma ThreadIs(s: State, t: nat)
    requires Inv(s) && t < |s.threads|
    ensures ThreadOk(s, t, s.threads[t]) && |s.ring| > 0 && s.head <= s.tail <= |s.log| <= s.head + |s.ring|
  {
    hide ThreadOk, RingOk;
  }

  /** Shared state moves only forward. */
  ghost predicate Forward(s: State, s': State) {
    && |s'.ring| == |s.ring| && s.head <= s'.head && s.tail <= s'.tail
    && s.log <= s'.log && s.takers <= s'.takers
  }

  lemma ThreadStays(s: State, s': State, t: nat, th: Thread)
    requires ThreadOk(s, t, th) && Forward(s, s') && |s.takers| == s.head && |s'.takers| == s'.head <= |s'.log|
    requires s.tail <= |s.log| && s'.tail <= |s'.log|
    ensures ThreadOk(s', t, th)
  {
  }

  lemma Locally(s: State, s': State, t: nat, th': Thread)
    requires Inv(s) && t < |s.threads|
    requires s' == s.(threads := s.threads[t := th'], tail := s'.tail)
    requires s.tail <= s'.tail <= |s.log|
    requires ThreadOk(s', t, th')
    ensures Inv(s')
  {
    forall u | 0 <= u < |s'.threads| ensures ThreadOk(s', u, s'.threads[u]) {
      if u != t {
        assert ThreadOk(s, u, s.threads[u]);
        ThreadStays(s, s', u, s.threads[u]);
      }
    }
  }

  lemma EnqKeepsInv(s: State, s': State, t: nat)
    requires Inv(s) && t < |s.threads| && s.threads[t].Enq? && EnqStep(s, s', t, s.threads[t])
    ensures Inv(s')
  {
    var th := s.threads[t];
    if th.epc.Cas? && SlotOf(s.ring, th.tail) == th.epc.seen {
      Placing(s, s', t);
    } else {
      EnqThread(s, s', t);
      hide EnqStep, ThreadOk, RingOk, Inv;
      Locally(s, s', t, s'.threads[t]);
    }
  }

  /** The steps of an enqueue that touch only its locals and the tail. */
  lemma EnqThread(s: State, s': State, t: nat)
    requires Inv(s) && t < |s.threads| && s.threads[t].Enq? && EnqStep(s, s', t, s.threads[t])
    requires !(s.threads[t].epc.Cas? && SlotOf(s.ring, s.threads[t].tail) == s.threads[t].epc.seen)
    ensures |s'.threads| == |s.threads| && s.tail <= s'.tail <= |s.log| && ThreadOk(s', t, s'.threads[t])
    ensures s' == s.(threads := s.threads[t := s'.threads[t]], tail := s'.tail)
  {
    hide Inv, RingOk, DeqOk, PlacedOk, SlotOf;
    ThreadIs(s, t);
    var th := s.threads[t];
    if th.epc.Publish? || th.epc.PublishCas? {
      EnqPublishes(s, s', t);
    } else {
      SlotMeaning(s, th.tail);
      if th.epc.LoadIdx? || th.epc.Cas? {
        JudgeOk(s, t, SlotOf(s.ring, th.tail));
      }
    }
  }

  lemma EnqPublishes(s: State, s': State, t: nat)
    requires Inv(s) && t < |s.threads| && s.threads[t].Enq? && EnqStep(s, s', t, s.threads[t])
    requires s.threads[t].epc.Publish? || s.threads[t].epc.PublishCas?
    ensures |s'.threads| == |s.threads| && s.tail <= s'.tail <= |s.log| && ThreadOk(s', t, s'.threads[t])
    ensures s' == s.(threads := s.threads[t := s'.threads[t]], tail := s'.tail)
  {
    hide Inv, RingOk, DeqOk, PlacedOk, SlotOf, Judge;
    ThreadIs(s, t);
    var th := s.threads[t];
    assert th.elems[..Placed(th)] == th.elems[..|th.at|];
  }

  /** What a slot read by an enqueue tells. */
  lemma JudgeOk(s: State, t: nat, slot: Slot)
    requires t < |s.threads| && s.threads[t].Enq? && EnqOk(s, s.threads[t])
    requires s.threads[t].epc.LoadIdx? || s.threads[t].epc.Cas?
    requires slot.idx == s.threads[t].tail <==> |s.log| - |s.ring| <= s.threads[t].tail < |s.log|
    requires slot.idx == s.threads[t].tail - |s.ring| <==> s.threads[t].tail == |s.log|
    requires |s.ring| > 0
    ensures forall ptr :: Judge(s.threads[t], Slot(ptr, slot.idx), |s.ring|).Enq?
    ensures forall ptr :: EnqOk(s, Judge(s.threads[t], Slot(ptr, slot.idx), |s.ring|))
  {
    hide PlacedOk;
  }

  lemma Placing(s: State, s': State, t: nat)
    requires Inv(s) && t < |s.threads| && s.threads[t].Enq? && EnqStep(s, s', t, s.threads[t])
    requires s.threads[t].epc.Cas? && SlotOf(s.ring, s.threads[t].tail) == s.threads[t].epc.seen
    ensures Inv(s')
  {
    var th := s.threads[t];
    assert ThreadOk(s, t, th);
    SlotMeaning(s, th.tail);
    assert th.tail == |s.log|;
    RingPut(s.ring, s.log, th.elems[|th.at|]);
    assert th.elems[..|th.at| + 1] == th.elems[..|th.at|] + [th.elems[|th.at|]];
    forall u | 0 <= u < |s'.threads| ensures ThreadOk(s', u, s'.threads[u]) {
      if u != t {
        assert ThreadOk(s, u, s.threads[u]);
        ThreadStays(s, s', u, s.threads[u]);
      }
    }
  }

  lemma RingPut(ring: seq<Slot>, log: seq<Elem>, elem: Elem)
    requires |ring| > 0 && RingOk(ring, log)
    ensures RingOk(ring[At(|log|, |ring|) := Slot(elem, |log|)], log + [elem])
  {
    hide At;
    var ring' := ring[At(|log|, |ring|) := Slot(elem, |log|)];
    var log' := log + [elem];
    forall q: nat | |log'| <= q < |log'| + |ring'|
      ensures SlotOf(ring', q).idx == q - |ring'| && (|ring'| <= q ==> SlotOf(ring', q).ptr == log'[q - |ring'|])
    {
      if q == |log| + |ring| {
        AtPeriodic(|log|, |ring|);
      } else {
        if At(q, |ring|) == At(|log|, |ring|) {
          AtInjective(q, |log|, |ring|);
        }
        assert SlotOf(ring, q).idx == q - |ring|;
      }
    }
  }

  lemma DeqKeepsInv(s: State, s': State, t: nat)
    requires Inv(s) && t < |s.threads| && s.threads[t].Deq? && DeqStep(s, s', t, s.threads[t])
    ensures Inv(s')
  {
    var th := s.threads[t];
    if th.dpc.Read? {
      Reading(s, s', t);
    } else if th.dpc.CasHead? && s.head == th.head {
      Taking(s, s', t);
    } else {
      DeqThread(s, s', t);
      Locally(s, s', t, s'.threads[t]);
    }
  }

  /** The steps of a dequeue that touch only its locals and the tail. */
  lemma DeqThread(s: State, s': State, t: nat)
    requires Inv(s) && t < |s.threads| && s.threads[t].Deq? && DeqStep(s, s', t, s.threads[t])
    requires !s.threads[t].dpc.Read? && !(s.threads[t].dpc.CasHead? && s.head == s.threads[t].head)
    ensures |s'.threads| == |s.threads| && s.tail <= s'.tail <= |s.log| && ThreadOk(s', t, s'.threads[t])
    ensures s' == s.(threads := s.threads[t := s'.threads[t]], tail := s'.tail)
  {
    hide Inv, RingOk, EnqOk, PlacedOk, SlotOf, Start;
    ThreadIs(s, t);
    var th := s.threads[t];
    if th.dpc.Scan? {
      SlotMeaning(s, th.tail);
      assert ThreadOk(s', t, s'.threads[t]);
    } else if th.dpc.Advance? || th.dpc.AdvanceCas? {
      DeqAdvances(s, s', t);
    } else {
      assert s.log[th.head..th.head] == [];
    }
  }

  lemma DeqAdvances(s: State, s': State, t: nat)
    requires Inv(s) && t < |s.threads| && s.threads[t].Deq? && DeqStep(s, s', t, s.threads[t])
    requires s.threads[t].dpc.Advance? || s.threads[t].dpc.AdvanceCas?
    ensures |s'.threads| == |s.threads| && s.tail <= s'.tail <= |s.log| && ThreadOk(s', t, s'.threads[t])
    ensures s' == s.(threads := s.threads[t := s'.threads[t]], tail := s'.tail)
  {
    hide Inv, RingOk, EnqOk, PlacedOk, SlotOf, Start;
    ThreadIs(s, t);
    var th := s.threads[t];
    assert s.log[th.head..th.head] == [];
  }

  lemma Reading(s: State, s': State, t: nat)
    requires Inv(s) && t < |s.threads| && s.threads[t].Deq? && DeqStep(s, s', t, s.threads[t])
    requires s.threads[t].dpc.Read?
    ensures Inv(s')
  {
    hide Inv, RingOk, PlacedOk, SlotOf;
    ThreadIs(s, t);
    var th := s.threads[t];
    var got := th.dpc.got;
    if |got| < th.dpc.actual {
      SlotMeaning(s, th.head + |got|);
      if th.head == s.head {
        assert s.log[th.head..th.head + |got| + 1] == s.log[th.head..th.head + |got|] + [s.log[th.head + |got|]];
      }
    }
    assert ThreadOk(s', t, s'.threads[t]);
    hide ThreadOk;
    Locally(s, s', t, s'.threads[t]);
  }

  lemma Taking(s: State, s': State, t: nat)
    requires Inv(s) && t < |s.threads| && s.threads[t].Deq? && DeqStep(s, s', t, s.threads[t])
    requires s.threads[t].dpc.CasHead? && s.head == s.threads[t].head
    ensures Inv(s')
  {
    assert ThreadOk(s, t, s.threads[t]);
    forall u | 0 <= u < |s'.threads| ensures ThreadOk(s', u, s'.threads[u]) {
      if u != t {
        assert ThreadOk(s, u, s.threads[u]);
        ThreadStays(s, s', u, s.threads[u]);
      }
    }
  }

  /** One step of any thread keeps the invariant and moves the shared state forward. */
  lemma StepKeepsInv(s: State, s': State, t: nat)
    requires Inv(s) && Step(s, s', t)
    ensures Inv(s') && Forward(s, s')
  {
    var th := s.threads[t];
    if th.Enq? && EnqStep(s, s', t, th) {
      EnqKeepsInv(s, s', t);
      EnqForward(s, s', t);
    } else if th.Deq? && DeqStep(s, s', t, th) {
      DeqKeepsInv(s, s', t);
      DeqForward(s, s', t);
    } else {
      var th' :| Start(s, s', t, th');
      Locally(s, s', t, th');
    }
  }

  lemma EnqForward(s: State, s': State, t: nat)
    requires Inv(s) && t < |s.threads| && s.threads[t].Enq? && EnqStep(s, s', t, s.threads[t])
    ensures Forward(s, s')
  {
    assert ThreadOk(s, t, s.threads[t]);
  }

  lemma DeqForward(s: State, s': State, t: nat)
    requires Inv(s) && t < |s.threads| && s.threads[t].Deq? && DeqStep(s, s', t, s.threads[t])
    ensures Forward(s, s')
  {
    assert ThreadOk(s, t, s.threads[t]);
  }

  // ---------- every run ----------

  lemma InitInv(s: State)
    requires Init(s)
    ensures Inv(s)
  {
    forall q: nat | 0 <= q < |s.ring| ensures SlotOf(s.ring, q).idx == q - |s.ring| {
    }
  }

  lemma {:induction false} RunInv(run: seq<State>, i: nat, j: nat)
    requires Run(run) && i <= j < |run|
    ensures Inv(run[j]) && Forward(run[i], run[j])
  {
    hide Inv, Init, Step;
    if j == 0 {
      InitInv(run[0]);
    } else {
      RunInv(run, if i < j then i else j - 1, j - 1);
      assert Next(run[j - 1], run[j]);
      var t: nat :| Step(run[j - 1], run[j], t);
      StepKeepsInv(run[j - 1], run[j], t);
    }
  }

  // ---------- the properties ----------

  /** In every state the slots alone determine the enqueued positions: position p was enqueued, and not yet overwritten,
      exactly when its slot says so; nothing is overwritten before it is dequeued; the shared tail is behind. */
  lemma SlotsDefineTheTail(run: seq<State>, i: nat, p: nat)
    requires Run(run) && i < |run|
    ensures var s := run[i];
            && |s.ring| > 0 && s.head <= s.tail <= |s.log| <= s.head + |s.ring|
            && (s.head <= p <= |s.log| ==> (SlotOf(s.ring, p).idx == p <==> p < |s.log|))
            && (s.head <= p < |s.log| ==> SlotOf(s.ring, p).ptr == s.log[p])
  {
    RunInv(run, i, i);
    if run[i].head <= p <= |run[i].log| {
      SlotMeaning(run[i], p);
    }
  }

  /** A dequeue returns what was enqueued at its positions, whichever enqueue put it there and whichever moments. */
  lemma DequeueMatchesEnqueue(run: seq<State>, i: nat, j: nat, t: nat, u: nat, k: nat)
    requires Run(run) && i < |run| && j < |run| && t < |run[i].threads| && u < |run[j].threads|
    requires run[i].threads[t].Enqueued? && k < |run[i].threads[t].at|
    requires run[j].threads[u].Dequeued?
    requires run[j].threads[u].first <= run[i].threads[t].at[k] < run[j].threads[u].first + |run[j].threads[u].got|
    ensures k < |run[i].threads[t].elems|
    ensures run[j].threads[u].got[run[i].threads[t].at[k] - run[j].threads[u].first] == run[i].threads[t].elems[k]
  {
    RunInv(run, i, i);
    RunInv(run, j, j);
    if i < j {
      RunInv(run, i, j);
    } else {
      RunInv(run, j, i);
    }
    assert ThreadOk(run[i], t, run[i].threads[t]) && ThreadOk(run[j], u, run[j].threads[u]);
  }

  /** An enqueue places its elements in argument order. */
  lemma EnqueueInOrder(run: seq<State>, i: nat, t: nat)
    requires Run(run) && i < |run| && t < |run[i].threads| && run[i].threads[t].Enqueued?
    ensures var th := run[i].threads[t];
            && |th.elems| == |th.at|
            && (forall j, k :: 0 <= j < k < |th.at| ==> th.at[j] < th.at[k])
            && (forall k :: 0 <= k < |th.at| ==> th.at[k] < |run[i].log| && run[i].log[th.at[k]] == th.elems[k])
  {
    RunInv(run, i, i);
    assert ThreadOk(run[i], t, run[i].threads[t]);
  }

  /** No position is returned by two dequeues: when dequeues have returned position p at two moments, they are one call
      of one thread, which has not started another call between them. */
  lemma DequeuedOnce(run: seq<State>, i: nat, j: nat, t: nat, u: nat, p: nat)
    requires Run(run) && i <= j < |run| && t < |run[i].threads| && u < |run[j].threads|
    requires run[i].threads[t].Dequeued? && run[j].threads[u].Dequeued?
    requires run[i].threads[t].first <= p < run[i].threads[t].first + |run[i].threads[t].got|
    requires run[j].threads[u].first <= p < run[j].threads[u].first + |run[j].threads[u].got|
    ensures t == u
    ensures forall k :: i <= k <= j ==> t < |run[k].threads| && run[k].threads[t] == run[i].threads[t]
  {
    RunInv(run, i, i);
    RunInv(run, i, j);
    assert ThreadOk(run[i], t, run[i].threads[t]) && ThreadOk(run[j], u, run[j].threads[u]);
    assert run[i].takers[p] == run[j].takers[p];
    hide Run, Inv, ThreadOk;
    SameOrLater(run, i, j, t);
    forall k | i <= k <= j ensures t < |run[k].threads| && run[k].threads[t] == run[i].threads[t] {
      assert Stays(run, i, k, t);
    }
  }

  /** The thread is as it was. */
  ghost predicate Stays(run: seq<State>, i: nat, k: nat, t: nat) {
    && i < |run| && k < |run| && t < |run[i].threads| && t < |run[k].threads|
    && run[k].threads[t] == run[i].threads[t]
  }

  lemma StaysHere(run: seq<State>, i: nat, t: nat)
    requires i < |run| && t < |run[i].threads|
    ensures Stays(run, i, i, t)
  {
  }

  lemma StaysOn(run: seq<State>, i: nat, j: nat, t: nat)
    requires 0 < j < |run| && Stays(run, i, j - 1, t) && t < |run[j].threads|
    requires run[j].threads[t] == run[j - 1].threads[t]
    ensures Stays(run, i, j, t)
  {
  }

  /** A thread that has returned from a dequeue at two moments has stayed as it was, or the later call took positions from
      behind everything taken at the first moment. */
  lemma {:induction false} SameOrLater(run: seq<State>, i: nat, j: nat, t: nat)
    requires Run(run) && i <= j < |run| && t < |run[i].threads| && t < |run[j].threads|
    requires run[i].threads[t].Dequeued? && run[j].threads[t].Dequeued?
    ensures || (forall k :: i <= k <= j ==> Stays(run, i, k, t))
            || run[i].head <= run[j].threads[t].first
  {
    hide *;
    if i == j {
      StaysHere(run, i, t);
    } else {
      NextAt(run, j - 1);
      RunInv(run, i, j - 1);
      RunForward(run, i, j - 1);
      ReturnedFrom(run[j - 1], run[j], t);
      if run[j - 1].threads[t].Dequeued? {
        SameOrLater(run, i, j - 1, t);
        if run[j].threads[t] == run[j - 1].threads[t] && forall k :: i <= k <= j - 1 ==> Stays(run, i, k, t) {
          StaysOn(run, i, j, t);
        }
      }
    }
  }

  lemma NextAt(run: seq<State>, i: nat)
    requires Run(run) && i + 1 < |run|
    ensures Next(run[i], run[i + 1])
  {
    hide Next, Init;
  }

  lemma RunForward(run: seq<State>, i: nat, j: nat)
    requires Run(run) && i <= j < |run|
    ensures run[i].head <= run[j].head && run[i].tail <= run[j].tail
  {
    RunInv(run, i, j);
    hide Inv, Run;
  }

  /** A step changes only the thread that takes it. */
  lemma Mine(s: State, s': State, t: nat)
    requires Step(s, s', t)
    ensures t < |s.threads| && |s'.threads| == |s.threads| && s'.threads == s.threads[t := s'.threads[t]]
  {
    hide Judge, Decide, DecideAgain, SlotOf;
  }

  lemma ReturnedFrom(s: State, s': State, t: nat)
    requires Next(s, s') && t < |s'.threads| && s'.threads[t].Dequeued?
    ensures t < |s.threads| && (s'.threads[t] == s.threads[t] || (!s.threads[t].Dequeued? && s'.threads[t].first == s.head))
  {
    var u: nat :| Step(s, s', u);
    Mine(s, s', u);
    if u == t {
      Returns(s, s', t);
    }
  }

  lemma Returns(s: State, s': State, t: nat)
    requires Step(s, s', t) && t < |s'.threads| && s'.threads[t].Dequeued?
    ensures !s.threads[t].Dequeued? && s'.threads[t].first == s.head
  {
    hide SlotOf;
  }

  // ---------- returning nothing ----------

  /** A dequeue of at least one element that returns nothing found the ring empty at the moment its scan ended, unless
      its own tail had by then fallen more than a whole lap behind. */
  lemma NothingMeansEmptyOrLapped(run: seq<State>, i: nat, t: nat)
    requires Run(run) && i < |run| && t < |run[i].threads| && run[i].threads[t].Nothing?
    ensures run[i].threads[t].sawEmpty || run[i].threads[t].lapped
  {
    RunInv(run, i, i);
    assert ThreadOk(run[i], t, run[i].threads[t]);
  }

  /** When a dequeue of at least one element returns nothing, everything published has been dequeued: head and tail are
      equal, so every element of every enqueue that has returned is out of the ring. */
  lemma NothingMissesNothingPublished(run: seq<State>, i: nat, t: nat, j: nat, u: nat, k: nat)
    requires Run(run) && i + 1 < |run| && t < |run[i].threads| && run[i].threads[t].Deq? && run[i].threads[t].num > 0
    requires t < |run[i + 1].threads| && run[i + 1].threads[t].Nothing?
    ensures run[i + 1].head == run[i + 1].tail
    ensures j <= i + 1 && u < |run[j].threads| && run[j].threads[u].Enqueued? && k < |run[j].threads[u].at|
            ==> run[j].threads[u].at[k] < run[i + 1].head
  {
    RunInv(run, i, i);
    RunInv(run, i + 1, i + 1);
    GivesUp(run[i], run[i + 1], t);
    if j <= i + 1 && u < |run[j].threads| && run[j].threads[u].Enqueued? {
      RunInv(run, j, i + 1);
      RunInv(run, j, j);
      assert ThreadOk(run[j], u, run[j].threads[u]);
    }
  }

  lemma GivesUp(s: State, s': State, t: nat)
    requires Inv(s) && Inv(s') && Next(s, s') && t < |s.threads| && s.threads[t].Deq? && s.threads[t].num > 0
    requires t < |s'.threads| && s'.threads[t].Nothing?
    ensures s'.head == s'.tail
  {
    hide Step, Inv;
    var u: nat :| Step(s, s', u);
    Mine(s, s', u);
    assert u == t;
    GivesUpStep(s, s', t);
  }

  lemma GivesUpStep(s: State, s': State, t: nat)
    requires Inv(s) && Inv(s') && Step(s, s', t) && t < |s.threads| && s.threads[t].Deq? && s.threads[t].num > 0
    requires t < |s'.threads| && s'.threads[t].Nothing?
    ensures s'.head == s'.tail
  {
    assert ThreadOk(s, t, s.threads[t]);
    hide RingOk, PlacedOk, Judge, SlotOf, Start;
  }

  /** While the ring is not empty, a scan that has not reached the dequeue's head stops without a find exactly when its own
      tail is more than a whole lap behind the end of the elements. */
  lemma ScanMissesIff(run: seq<State>, i: nat, t: nat, s': State)
    requires Run(run) && i < |run| && t < |run[i].threads| && run[i].threads[t].Deq? && run[i].threads[t].dpc.Scan?
    requires run[i].threads[t].tail <= run[i].threads[t].head && run[i].head < |run[i].log|
    requires Step(run[i], s', t)
    ensures s'.threads[t].dpc.Advance? <==> run[i].threads[t].tail + |run[i].ring| < |run[i].log|
  {
    RunInv(run, i, i);
    var s, th := run[i], run[i].threads[t];
    assert ThreadOk(s, t, th);
    SlotMeaning(s, th.tail);
  }

  /** After its scan a dequeue of at least one element returns nothing exactly when its head is current and all that is
      published has been dequeued; otherwise it goes on to read. */
  lemma DecidesNothingIff(run: seq<State>, i: nat, t: nat, s': State)
    requires Run(run) && i < |run| && t < |run[i].threads| && run[i].threads[t].Deq? && run[i].threads[t].num > 0
    requires run[i].threads[t].dpc.Advance? || run[i].threads[t].dpc.AdvanceCas?
    requires Step(run[i], s', t)
    requires !(s'.threads[t].Deq? && s'.threads[t].dpc.AdvanceCas?)
    ensures s'.threads[t].Nothing? <==> s'.tail == s'.head == run[i].threads[t].head
    ensures !s'.threads[t].Nothing? ==> s'.threads[t].Deq? && s'.threads[t].dpc.Read? && run[i].threads[t].head < s'.tail
  {
    RunInv(run, i, i);
    assert ThreadOk(run[i], t, run[i].threads[t]);
    hide RingOk, Run;
  }

  // ---------- a run in which a dequeue misses an element ----------

  /** The states of consecutive steps. */
  ghost predicate Path(p: seq<State>, from: State, to: State) {
    && |p| > 0 && p[0] == from && p[|p| - 1] == to
    && forall i :: 0 <= i < |p| - 1 ==> Next(p[i], p[i + 1])
  }

  ghost predicate NeverEmpty(p: seq<State>) {
    forall i :: 0 <= i < |p| ==> p[i].head < |p[i].log|
  }

  lemma Join(p: seq<State>, q: seq<State>, a: State, b: State, c: State) returns (r: seq<State>)
    requires Path(p, a, b) && Path(q, b, c)
    ensures Path(r, a, c) && r == p + q[1..] && (NeverEmpty(p) && NeverEmpty(q) ==> NeverEmpty(r))
  {
    hide Next;
    r := p + q[1..];
    forall i | 0 <= i < |r| - 1 ensures Next(r[i], r[i + 1]) {
      if |p| <= i + 1 {
        assert r[i + 1] == q[i + 1 - (|p| - 1)] && r[i] == q[i - (|p| - 1)];
      }
    }
  }

  function Put(s: State, t: nat, th: Thread): State
    requires t < |s.threads|
  {
    s.(threads := s.threads[t := th])
  }

  /** An enqueue of one element, up to the placing of it. */
  function Placing1(s: State, t: nat, e: Elem): State
    requires t < |s.threads| && |s.ring| > 0
  {
    State(s.head, s.tail, s.ring[At(|s.log|, |s.ring|) := Slot(e, |s.log|)],
          s.threads[t := Enq([e], [|s.log|], |s.log| + 1, Check)], s.log + [e], s.takers)
  }

  lemma Place(s: State, t: nat, e: Elem) returns (p: seq<State>)
    requires t < |s.threads| && |s.ring| > 0 && !s.threads[t].Enq? && !s.threads[t].Deq?
    requires s.tail == |s.log| < s.head + |s.ring| && SlotOf(s.ring, |s.log|).idx == |s.log| - |s.ring|
    ensures Path(p, s, Placing1(s, t, e)) && |p| == 6 && (s.head < |s.log| ==> NeverEmpty(p))
  {
    hide SlotOf, At;
    var n := |s.log|;
    var slot := SlotOf(s.ring, n);
    var s1 := Put(s, t, Enq([e], [], n, Check));
    var s2 := Put(s1, t, Enq([e], [], n, LoadPtr));
    var s3 := Put(s2, t, Enq([e], [], n, LoadIdx(slot.ptr)));
    var s4 := Put(s3, t, Enq([e], [], n, Cas(slot)));
    assert Start(s, s1, t, s1.threads[t]);
    assert Step(s, s1, t) && Step(s1, s2, t) && Step(s2, s3, t) && Step(s3, s4, t);
    var s5 := Placing1(s, t, e);
    assert s5.threads == s4.threads[t := Enq([e], [n], n + 1, Check)];
    var none: seq<nat> := [];
    assert none + [n] == [n];
    assert Step(s4, s5, t);
    p := [s, s1, s2, s3, s4, s5];
  }

  /** The rest of that enqueue. */
  lemma Publish1(s: State, t: nat, e: Elem, n: nat) returns (p: seq<State>)
    requires t < |s.threads| && |s.ring| > 0 && s.threads[t] == Enq([e], [n], n + 1, Check) && s.tail == n
    ensures Path(p, s, s.(tail := n + 1, threads := s.threads[t := Enqueued([e], [n])])) && |p| == 4
    ensures s.head < |s.log| ==> NeverEmpty(p)
  {
    var s1 := Put(s, t, Enq([e], [n], n + 1, Publish));
    var s2 := Put(s1, t, Enq([e], [n], n + 1, PublishCas(n)));
    var s3 := s.(tail := n + 1, threads := s.threads[t := Enqueued([e], [n])]);
    assert [e][..1] == [e];
    assert s3.threads == s2.threads[t := Enqueued([e], [n])];
    assert Step(s, s1, t) && Step(s1, s2, t) && Step(s2, s3, t);
    p := [s, s1, s2, s3];
  }

  /** A dequeue of one element, up to the change of the head. */
  lemma Look(s: State, t: nat) returns (p: seq<State>)
    requires t < |s.threads| && |s.ring| > 0 && !s.threads[t].Enq? && !s.threads[t].Deq? && s.head < s.tail <= |s.log|
    ensures Path(p, s, Put(s, t, Deq(1, s.head, s.tail, CasHead([SlotOf(s.ring, s.head).ptr]))))
    ensures |p| == 6 && NeverEmpty(p)
  {
    hide SlotOf;
    var h := s.head;
    var x := SlotOf(s.ring, h).ptr;
    var s1 := Put(s, t, Deq(1, h, 0, LoadTail));
    var s2 := Put(s1, t, Deq(1, h, s.tail, Test));
    var s3 := Put(s2, t, Deq(1, h, s.tail, Read(1, [])));
    var s4 := Put(s3, t, Deq(1, h, s.tail, Read(1, [x])));
    var s5 := Put(s, t, Deq(1, h, s.tail, CasHead([x])));
    assert s5 == Put(s4, t, Deq(1, h, s.tail, CasHead([x])));
    var none: seq<Elem> := [];
    assert none + [x] == [x];
    assert Start(s, s1, t, s1.threads[t]);
    assert Step(s, s1, t) && Step(s1, s2, t) && Step(s2, s3, t) && Step(s3, s4, t) && Step(s4, s5, t);
    p := [s, s1, s2, s3, s4, s5];
  }

  /** That change, when nobody has taken the position before. */
  lemma Take(s: State, t: nat, h: nat, tail: nat, x: Elem) returns (p: seq<State>)
    requires t < |s.threads| && |s.ring| > 0 && s.threads[t] == Deq(1, h, tail, CasHead([x])) && s.head == h
    requires h + 1 < |s.log|
    ensures Path(p, s, s.(head := h + 1, takers := s.takers + [Claim(t, h)], threads := s.threads[t := Dequeued(h, [x])]))
    ensures |p| == 2 && NeverEmpty(p)
  {
    var s1 := s.(head := h + 1, takers := s.takers + [Claim(t, h)], threads := s.threads[t := Dequeued(h, [x])]);
    assert seq(1, _ => Claim(t, h)) == [Claim(t, h)];
    assert Step(s, s1, t);
    p := [s, s1];
  }

  /** An enqueue and a dequeue of one element. */
  function AfterEnqueue(s: State, t: nat, e: Elem): State
    requires t < |s.threads| && |s.ring| > 0
  {
    State(s.head, |s.log| + 1, s.ring[At(|s.log|, |s.ring|) := Slot(e, |s.log|)],
          s.threads[t := Enqueued([e], [|s.log|])], s.log + [e], s.takers)
  }

  function AfterDequeue(s: State, t: nat): State
    requires t < |s.threads| && |s.ring| > 0
  {
    State(s.head + 1, s.tail, s.ring, s.threads[t := Dequeued(s.head, [SlotOf(s.ring, s.head).ptr])], s.log,
          s.takers + [Claim(t, s.head)])
  }

  lemma Enqueue1(s: State, t: nat, e: Elem) returns (p: seq<State>)
    requires t < |s.threads| && |s.ring| > 0 && !s.threads[t].Enq? && !s.threads[t].Deq?
    requires s.tail == |s.log| < s.head + |s.ring| && SlotOf(s.ring, |s.log|).idx == |s.log| - |s.ring|
    ensures Path(p, s, AfterEnqueue(s, t, e))
    ensures |p| == 9 && (s.head < |s.log| ==> NeverEmpty(p))
  {
    var n := |s.log|;
    var s1 := Placing1(s, t, e);
    hide Path, NeverEmpty, At, SlotOf;
    var q := Place(s, t, e);
    var r := Publish1(s1, t, e, n);
    var s2 := s1.(tail := n + 1, threads := s1.threads[t := Enqueued([e], [n])]);
    p := Join(q, r, s, s1, s2);
    assert s2.threads == s.threads[t := Enqueued([e], [n])];
  }

  lemma Dequeue1(s: State, t: nat) returns (p: seq<State>)
    requires t < |s.threads| && |s.ring| > 0 && !s.threads[t].Enq? && !s.threads[t].Deq?
    requires s.head < s.tail <= |s.log| && s.head + 1 < |s.log|
    ensures Path(p, s, AfterDequeue(s, t))
    ensures |p| == 7 && NeverEmpty(p)
  {
    var x := SlotOf(s.ring, s.head).ptr;
    var s1 := Put(s, t, Deq(1, s.head, s.tail, CasHead([x])));
    hide Path, NeverEmpty, SlotOf;
    var q := Look(s, t);
    var r := Take(s1, t, s.head, s.tail, x);
    var s2 := s1.(head := s.head + 1, takers := s.takers + [Claim(t, s.head)], threads := s1.threads[t := Dequeued(s.head, [x])]);
    p := Join(q, r, s, s1, s2);
    assert s2.threads == s.threads[t := Dequeued(s.head, [x])];
  }

  /** A dequeue whose head is out of date and whose tail is a lap behind the slot it selects, with nothing published. */
  lemma GiveUp(s: State, t: nat, h: nat, tail: nat, x: Elem) returns (p: seq<State>)
    requires t < |s.threads| && |s.ring| > 0 && s.threads[t] == Deq(1, h, tail, CasHead([x]))
    requires h != s.head == s.tail < |s.log| && tail < s.tail && tail + |s.ring| < |s.log| && SlotOf(s.ring, tail).idx != tail
    ensures Path(p, s, Put(s, t, Nothing(false, true))) && |p| == 5 && NeverEmpty(p)
  {
    hide SlotOf;
    var s1 := Put(s, t, Deq(1, s.head, tail, Test));
    var s2 := Put(s1, t, Deq(1, s.head, tail, Scan));
    var s3 := Put(s2, t, Deq(1, s.head, tail, Advance(false, true)));
    var s4 := Put(s, t, Nothing(false, true));
    assert s4 == Put(s3, t, Nothing(false, true));
    assert Step(s, s1, t) && Step(s1, s2, t) && Step(s2, s3, t) && Step(s3, s4, t);
    p := [s, s1, s2, s3, s4];
  }

  lemma Same(s: State, s': State)
    requires s.head == s'.head && s.tail == s'.tail && s.ring == s'.ring
    requires s.threads == s'.threads && s.log == s'.log && s.takers == s'.takers
    ensures s == s'
  {
  }

  /** Slots of a ring of two. */
  lemma SlotsOfTwo(x: Slot, y: Slot, size: nat)
    requires size == 2
    ensures At(0, size) == 0 && At(1, size) == 1 && At(2, size) == 0 && At(3, size) == 1
    ensures SlotOf([x, y], 0) == x && SlotOf([x, y], 1) == y && SlotOf([x, y], 2) == x && SlotOf([x, y], 3) == y
  {
  }

  /** Threads 1 and 2 at work while thread 0 stands still: `b` in, `a` out, `c` in, `b` out. */
  lemma PassingBy(a: Elem, b: Elem, c: Elem, slow: Thread) returns (p: seq<State>)
    ensures Path(p, State(0, 1, [Slot(a, 0), Slot(0, -1)], [slow, Enqueued([a], [0]), Idle], [a], []),
                 State(2, 3, [Slot(c, 2), Slot(b, 1)], [slow, Enqueued([c], [2]), Dequeued(1, [b])], [a, b, c],
                       [Claim(2, 0), Claim(2, 1)]))
    ensures NeverEmpty(p)
  {
    hide Path, NeverEmpty, At, SlotOf;
    var s0 := State(0, 1, [Slot(a, 0), Slot(0, -1)], [slow, Enqueued([a], [0]), Idle], [a], []);
    var s1 := State(0, 2, [Slot(a, 0), Slot(b, 1)], [slow, Enqueued([b], [1]), Idle], [a, b], []);
    var s2 := State(1, 2, s1.ring, [slow, Enqueued([b], [1]), Dequeued(0, [a])], [a, b], [Claim(2, 0)]);
    var s3 := State(1, 3, [Slot(c, 2), Slot(b, 1)], [slow, Enqueued([c], [2]), Dequeued(0, [a])], [a, b, c], s2.takers);
    var s4 := State(2, 3, s3.ring, [slow, Enqueued([c], [2]), Dequeued(1, [b])], [a, b, c], [Claim(2, 0), Claim(2, 1)]);
    SlotsOfTwo(Slot(a, 0), Slot(0, -1), 2);
    SlotsOfTwo(Slot(a, 0), Slot(b, 1), 2);
    SlotsOfTwo(Slot(c, 2), Slot(b, 1), 2);
    var p1 := Enqueue1(s0, 1, b);
    Same(AfterEnqueue(s0, 1, b), s1);
    var p2 := Dequeue1(s1, 2);
    Same(AfterDequeue(s1, 2), s2);
    var p3 := Enqueue1(s2, 1, c);
    Same(AfterEnqueue(s2, 1, c), s3);
    var p4 := Dequeue1(s3, 2);
    Same(AfterDequeue(s3, 2), s4);
    var p12 := Join(p1, p2, s0, s1, s2);
    var p34 := Join(p3, p4, s2, s3, s4);
    p := Join(p12, p34, s0, s2, s4);
  }

  /** Then `d` is placed, `c` goes out, and thread 0 goes on. */
  lemma ComingTooLate(a: Elem, b: Elem, c: Elem, d: Elem, s: State) returns (p: seq<State>, last: State)
    requires s == State(2, 3, [Slot(c, 2), Slot(b, 1)],
                        [Deq(1, 0, 1, CasHead([a])), Enqueued([c], [2]), Dequeued(1, [b])], [a, b, c],
                        [Claim(2, 0), Claim(2, 1)])
    ensures Path(p, s, last) && NeverEmpty(p)
    ensures last.threads == [Nothing(false, true), Enq([d], [3], 4, Check), Dequeued(2, [c])]
    ensures last.head == last.tail == 3 && last.log == [a, b, c, d]
  {
    hide Path, NeverEmpty, At, SlotOf;
    var slow := Deq(1, 0, 1, CasHead([a]));
    var s1 := State(2, 3, [Slot(c, 2), Slot(d, 3)], [slow, Enq([d], [3], 4, Check), Dequeued(1, [b])], [a, b, c, d], s.takers);
    var s2 := State(3, 3, s1.ring, [slow, Enq([d], [3], 4, Check), Dequeued(2, [c])], [a, b, c, d],
                    [Claim(2, 0), Claim(2, 1), Claim(2, 2)]);
    SlotsOfTwo(Slot(c, 2), Slot(b, 1), 2);
    SlotsOfTwo(Slot(c, 2), Slot(d, 3), 2);
    var p1 := Place(s, 1, d);
    Same(Placing1(s, 1, d), s1);
    var p2 := Dequeue1(s1, 2);
    Same(AfterDequeue(s1, 2), s2);
    var p3 := GiveUp(s2, 0, 0, 1, a);
    last := Put(s2, 0, Nothing(false, true));
    var p12 := Join(p1, p2, s, s1, s2);
    p := Join(p12, p3, s, s2, last);
  }

  /** The concrete run, in a ring of two: thread 0 is about to take `a` when thread 1 enqueues and thread 2 dequeues until
      thread 0's tail is a lap behind; then `d` is placed and not yet published. Thread 0 returns nothing, and in no state
      since before its call was the ring empty. */
  lemma MissingExample(a: Elem, b: Elem, c: Elem, d: Elem) returns (run: seq<State>)
    ensures Run(run) && |run| > 9 && run[8].threads == [Idle, Enqueued([a], [0]), Idle]
    ensures forall i :: 8 <= i < |run| ==> run[i].head < |run[i].log|
    ensures var s := run[|run| - 1];
            && s.threads == [Nothing(false, true), Enq([d], [3], 4, Check), Dequeued(2, [c])]
            && s.head == s.tail == 3 && s.log == [a, b, c, d]
  {
    hide Path, NeverEmpty, At, SlotOf, Next;
    var s0 := State(0, 0, [Slot(0, -2), Slot(0, -1)], [Idle, Idle, Idle], [], []);
    var s1 := State(0, 1, [Slot(a, 0), Slot(0, -1)], [Idle, Enqueued([a], [0]), Idle], [a], []);
    var slow := Deq(1, 0, 1, CasHead([a]));
    var s2 := s1.(threads := [slow, Enqueued([a], [0]), Idle]);
    var s3 := State(2, 3, [Slot(c, 2), Slot(b, 1)], [slow, Enqueued([c], [2]), Dequeued(1, [b])], [a, b, c],
                    [Claim(2, 0), Claim(2, 1)]);
    SlotsOfTwo(Slot(0, -2), Slot(0, -1), 2);
    SlotsOfTwo(Slot(a, 0), Slot(0, -1), 2);
    var p1 := Enqueue1(s0, 1, a);
    Same(AfterEnqueue(s0, 1, a), s1);
    var p2 := Look(s1, 0);
    Same(Put(s1, 0, slow), s2);
    var p3 := PassingBy(a, b, c, slow);
    var p4, s4 := ComingTooLate(a, b, c, d, s3);
    var p23 := Join(p2, p3, s1, s2, s3);
    var p234 := Join(p23, p4, s1, s3, s4);
    run := Join(p1, p234, s0, s1, s4);
    FromStart(run, p1, p234, s0, s1, s4);
  }

  lemma FromStart(run: seq<State>, p: seq<State>, q: seq<State>, s: State, mid: State, last: State)
    requires |p| == 9 && |q| > 1 && run == p + q[1..]
    requires Path(run, s, last) && Init(s) && Path(p, s, mid) && Path(q, mid, last) && NeverEmpty(q)
    ensures Run(run) && run[8] == mid && run[|run| - 1] == last
    ensures forall i :: 8 <= i < |run| ==> run[i].head < |run[i].log|
  {
    hide Next, Init;
    forall i | 8 <= i < |run| ensures run[i].head < |run[i].log| {
      assert run[i] == q[i - 8];
    }
  }
}

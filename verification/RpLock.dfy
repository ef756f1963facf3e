/** The reciprocating lock as a machine of atomic steps, one process per lock node: whoever uses a node, its uses follow
    each other, and it may be used again as soon as it is released. */
module RpLock {
  import opened Sequences

  type Node = nat

  /** A node address, null, or the invalid address that says locked without arrivals. */
  datatype Ptr = Null | LockedEmpty | To(node: Node)

  datatype Pc =
    | Idle
    | Swap
    | TrySwap
    | Link(tail: Ptr)
    | Wait
    | Check
    | Hold
    | Release
    | Detach
    | Give(top: Ptr)

  /** History: `lead` is the node that owns the lock or has been handed it, `entry` the waiting nodes of the entry
      segment in the order they will be served, `end` the end-of-segment address passed along it, `stack` the waiting
      nodes of the arrivals segment from the top, and `floor` what the arrivals pointer is without them. */
  datatype State = State(arrivals: Ptr, gate: seq<Ptr>, succ: seq<Ptr>, eos: seq<Ptr>, pcs: seq<Pc>,
                         lead: Ptr, entry: seq<Node>, end: Ptr, stack: seq<Node>, floor: Ptr)

  ghost predicate Init(s: State) {
    && s.arrivals == Null && |s.gate| == |s.succ| == |s.eos| == |s.pcs|
    && (forall x :: 0 <= x < |s.pcs| ==> s.pcs[x].Idle?)
    && s.lead == s.floor == Null && s.entry == s.stack == [] && s.end == LockedEmpty
  }

  predicate Sized(s: State) { |s.gate| == |s.succ| == |s.eos| == |s.pcs| }

  /** Without the low bit. */
  function Strip(p: Ptr): Ptr { if p == LockedEmpty then Null else p }

  // ---------- the steps ----------

  /** The node's fields are private until it is in the arrivals. */
  predicate Prepare(s: State, s': State, x: Node)
    requires Sized(s) && x < |s.pcs|
  {
    && s.pcs[x].Idle?
    && (s' == s.(gate := s.gate[x := Null], succ := s.succ[x := Null], eos := s.eos[x := To(x)], pcs := s.pcs[x := Swap])
        || s' == s.(gate := s.gate[x := Null], succ := s.succ[x := Null], eos := s.eos[x := To(x)],
                    pcs := s.pcs[x := TrySwap]))
  }

  predicate Arrive(s: State, s': State, x: Node)
    requires Sized(s) && x < |s.pcs|
  {
    match s.pcs[x]
    case Swap =>
      if s.arrivals == Null then s' == s.(arrivals := To(x), pcs := s.pcs[x := Hold], lead := To(x), floor := To(x))
      else s' == s.(arrivals := To(x), pcs := s.pcs[x := Link(s.arrivals)], stack := [x] + s.stack)
    case TrySwap =>
      if s.arrivals == Null then s' == s.(arrivals := To(x), pcs := s.pcs[x := Hold], lead := To(x), floor := To(x))
      else s' == s.(pcs := s.pcs[x := Idle])
    case Link(tail) => s' == s.(succ := s.succ[x := Strip(tail)], pcs := s.pcs[x := Wait])
    case Wait =>
      s' == if s.gate[x] == Null then s else s.(eos := s.eos[x := s.gate[x]], pcs := s.pcs[x := Check])
    case Check =>
      if s.succ[x] == s.eos[x] then
        s' == s.(succ := s.succ[x := Null], eos := s.eos[x := LockedEmpty], pcs := s.pcs[x := Hold])
      else s' == s.(pcs := s.pcs[x := Hold])
    case _ => false
  }

  /** Handing the lock on: a store to another node's gate. */
  predicate HandOver(s: State, s': State, x: Node, p: Ptr)
    requires Sized(s) && x < |s.pcs|
  {
    && p.To? && p.node < |s.gate| && s.entry != []
    && s' == s.(gate := s.gate[p.node := s.eos[x]], pcs := s.pcs[x := Idle],
                lead := p, entry := s.entry[1..])
  }

  predicate Leave(s: State, s': State, x: Node)
    requires Sized(s) && x < |s.pcs|
  {
    match s.pcs[x]
    case Hold => s' == s.(pcs := s.pcs[x := Release])
    case Release =>
      if s.succ[x] != Null then HandOver(s, s', x, s.succ[x])
      else if s.arrivals == s.eos[x] then
        s' == s.(arrivals := Null, pcs := s.pcs[x := Idle], lead := Null, floor := Null)
      else s' == s.(pcs := s.pcs[x := Detach])
    case Detach =>
      s' == s.(arrivals := LockedEmpty, pcs := s.pcs[x := Give(s.arrivals)],
               entry := s.stack, stack := [], end := s.floor, floor := LockedEmpty)
    case Give(top) => HandOver(s, s', x, top)
    case _ => false
  }

  predicate Step(s: State, s': State, x: Node) {
    Sized(s) && x < |s.pcs| && (Prepare(s, s', x) || Arrive(s, s', x) || Leave(s, s', x))
  }

  ghost predicate Next(s: State, s': State) { exists x: Node :: Step(s, s', x) }

  ghost predicate Run(run: seq<State>) {
    && |run| > 0 && Init(run[0])
    && forall i :: 0 <= i < |run| - 1 ==> Next(run[i], run[i + 1])
  }

  // ---------- the invariant ----------

  /** The address below the node at position i of a segment. */
  function Below(segment: seq<Node>, i: nat, base: Ptr): Ptr
    requires i < |segment|
  {
    if i + 1 < |segment| then To(segment[i + 1]) else Strip(base)
  }

  /** A waiting node knows the node below it, or is just storing it. */
  predicate Knows(s: State, x: Node, below: Ptr)
    requires Sized(s) && x < |s.pcs|
  {
    (s.pcs[x].Link? && Strip(s.pcs[x].tail) == below) || (s.pcs[x].Wait? && s.succ[x] == below)
  }

  ghost predicate SegmentOk(s: State, segment: seq<Node>, base: Ptr)
    requires Sized(s)
  {
    && (forall i :: 0 <= i < |segment| ==>
          segment[i] < |s.pcs| && Knows(s, segment[i], Below(segment, i, base)) && s.gate[segment[i]] == Null)
    && forall i, j :: 0 <= i < j < |segment| ==> segment[i] != segment[j]
  }

  predicate Owner(pc: Pc) { pc.Check? || pc.Hold? || pc.Release? || pc.Detach? || pc.Give? }

  predicate Waiting(pc: Pc) { pc.Link? || pc.Wait? }

  /** The address below the lead's node: the rest of the entry segment. */
  function Rest(s: State): Ptr { if s.entry == [] then Strip(s.end) else To(s.entry[0]) }

  /** What the node that has the lock knows: its successor, and the end-of-segment address to pass on. */
  ghost predicate LeadOk(s: State, h: Node)
    requires Sized(s) && h < |s.pcs|
  {
    && h !in s.entry && h !in s.stack
    && match s.pcs[h]
       case Link(_) =>
         Knows(s, h, Rest(s)) && s.gate[h] == s.end && s.floor == LockedEmpty && s.end != Null && s.end != To(h)
       case Wait =>
         Knows(s, h, Rest(s)) && s.gate[h] == s.end && s.floor == LockedEmpty && s.end != Null && s.end != To(h)
       case Check =>
         s.succ[h] == Rest(s) && s.eos[h] == s.end && s.floor == LockedEmpty && s.end != Null && s.end != To(h)
       case Hold => Equipped(s, h)
       case Release => Equipped(s, h)
       case Detach => s.entry == [] && s.succ[h] == Null && s.eos[h] == s.floor && s.stack != []
       case Give(top) =>
         s.entry != [] && top == To(s.entry[0]) && s.eos[h] == s.end && s.floor == LockedEmpty && s.end != Null
       case _ => false
  }

  ghost predicate Equipped(s: State, h: Node)
    requires Sized(s) && h < |s.pcs|
  {
    if s.entry == [] then s.succ[h] == Null && s.eos[h] == s.floor
    else s.succ[h] == To(s.entry[0]) && s.eos[h] == s.end && s.floor == LockedEmpty && s.end != Null
  }

  /** Where a node stands: every owner is the lead, every other waiting node is in one of the segments. */
  ghost predicate PlaceOk(s: State, x: Node)
    requires Sized(s) && x < |s.pcs|
  {
    && (Owner(s.pcs[x]) ==> s.lead == To(x))
    && (Waiting(s.pcs[x]) ==> s.lead == To(x) || x in s.entry || x in s.stack)
    && (s.pcs[x].Swap? || s.pcs[x].TrySwap? ==> s.gate[x] == s.succ[x] == Null && s.eos[x] == To(x))
  }

  ghost predicate HistoryOk(s: State) {
    && s.arrivals == (if s.stack == [] then s.floor else To(s.stack[0]))
    && (forall x :: x in s.entry ==> x !in s.stack)
    && (s.end.To? ==> s.end.node !in s.entry && (s.entry != [] ==> s.end != s.lead || OwnEnd(s)))
    && !s.lead.LockedEmpty?
    && (s.lead == Null ==> s.floor == Null && s.stack == s.entry == [])
    && (s.lead.To? ==> s.floor == LockedEmpty || s.floor == s.lead)
  }

  ghost predicate Inv(s: State) {
    && Sized(s) && HistoryOk(s)
    && SegmentOk(s, s.entry, s.end) && SegmentOk(s, s.stack, s.floor)
    && (forall x :: 0 <= x < |s.pcs| ==> PlaceOk(s, x))
    && (s.lead.To? ==> s.lead.node < |s.pcs| && LeadOk(s, s.lead.node))
  }

  /** The end of the segment may be the lead's own node only while it hands the segment over. */
  predicate OwnEnd(s: State) { s.lead.To? && s.lead.node < |s.pcs| && s.pcs[s.lead.node].Give? }

  // ---------- one step ----------

  /** Only node x's own fields and program counter change. */
  ghost predicate OnlyAt(s: State, s': State, x: Node) {
    && Sized(s) && Sized(s') && |s'.pcs| == |s.pcs| && x < |s.pcs|
    && forall y :: 0 <= y < |s.pcs| && y != x ==>
         s'.pcs[y] == s.pcs[y] && s'.gate[y] == s.gate[y] && s'.succ[y] == s.succ[y] && s'.eos[y] == s.eos[y]
  }

  /** Node x stores its successor. */
  predicate Stores(s: State, s': State, x: Node)
    requires Sized(s) && Sized(s') && |s'.pcs| == |s.pcs| && x < |s.pcs|
  {
    s.pcs[x].Link? && s'.pcs[x] == Wait && s'.succ[x] == Strip(s.pcs[x].tail) && s'.gate[x] == s.gate[x]
  }

  lemma SegmentStays(s: State, s': State, x: Node, segment: seq<Node>, base: Ptr)
    requires OnlyAt(s, s', x) && SegmentOk(s, segment, base)
    requires x !in segment || Stores(s, s', x) || (s'.pcs[x] == s.pcs[x] && s'.gate[x] == s.gate[x] && s'.succ[x] == s.succ[x])
    ensures SegmentOk(s', segment, base)
  {
    forall i | 0 <= i < |segment| ensures segment[i] < |s'.pcs| && Knows(s', segment[i], Below(segment, i, base)) {
      assert Knows(s, segment[i], Below(segment, i, base));
    }
  }

  lemma PlacesStay(s: State, s': State, x: Node)
    requires OnlyAt(s, s', x) && (forall y :: 0 <= y < |s.pcs| ==> PlaceOk(s, y)) && PlaceOk(s', x)
    requires forall y :: y != x && s.lead == To(y) ==> s'.lead == To(y)
    requires forall y :: y != x && (y in s.entry || y in s.stack) ==> y in s'.entry || y in s'.stack || s'.lead == To(y)
    ensures forall y :: 0 <= y < |s'.pcs| ==> PlaceOk(s', y)
  {
    forall y | 0 <= y < |s'.pcs| ensures PlaceOk(s', y) {
      assert PlaceOk(s, y);
    }
  }

  lemma NodeIs(s: State, x: Node)
    requires Inv(s) && x < |s.pcs|
    ensures Sized(s) && PlaceOk(s, x)
  {
    hide PlaceOk, SegmentOk, HistoryOk, LeadOk;
  }

  lemma Segments(s: State)
    requires Inv(s)
    ensures Sized(s) && HistoryOk(s) && SegmentOk(s, s.entry, s.end) && SegmentOk(s, s.stack, s.floor)
    ensures s.lead.To? ==> s.lead.node < |s.pcs| && LeadOk(s, s.lead.node)
  {
    hide PlaceOk, SegmentOk, HistoryOk, LeadOk;
  }

  /** A node in a segment is waiting. */
  lemma InSegment(s: State, segment: seq<Node>, base: Ptr, x: Node)
    requires Sized(s) && SegmentOk(s, segment, base) && x in segment
    ensures x < |s.pcs| && Waiting(s.pcs[x]) && s.gate[x] == Null
  {
    var i :| 0 <= i < |segment| && segment[i] == x;
    assert Knows(s, segment[i], Below(segment, i, base));
  }

  lemma Outside(s: State, x: Node)
    requires Inv(s) && x < |s.pcs| && (!Waiting(s.pcs[x]) || s.gate[x] != Null)
    ensures x !in s.entry && x !in s.stack
  {
    hide SegmentOk, HistoryOk, PlaceOk, LeadOk;
    if x in s.entry {
      InSegment(s, s.entry, s.end, x);
    }
    if x in s.stack {
      InSegment(s, s.stack, s.floor, x);
    }
  }

  /** The rest of the invariant, when the history stays and only x's fields change. */
  lemma Privately(s: State, s': State, x: Node)
    requires Inv(s) && OnlyAt(s, s', x)
    requires s' == s.(gate := s'.gate, succ := s'.succ, eos := s'.eos, pcs := s'.pcs)
    requires PlaceOk(s', x) && (s.lead == To(x) ==> LeadOk(s', x))
    requires (s.lead != To(x) && Stores(s, s', x)) || (x !in s.entry && x !in s.stack)
    requires s.end == To(x) ==> s.pcs[x].Give? == s'.pcs[x].Give?
    ensures Inv(s')
  {
    hide SegmentOk, PlaceOk;
    SegmentStays(s, s', x, s.entry, s.end);
    SegmentStays(s, s', x, s.stack, s.floor);
    PlacesStay(s, s', x);
  }

  lemma PrepareKeepsInv(s: State, s': State, x: Node)
    requires Inv(s) && x < |s.pcs| && Prepare(s, s', x)
    ensures Inv(s')
  {
    Outside(s, x);
    assert PlaceOk(s, x) && (s.lead == To(x) ==> LeadOk(s, x));
    hide Inv;
    Privately(s, s', x);
  }

  /** The lock is free: the node becomes the owner. */
  lemma TakeKeepsInv(s: State, s': State, x: Node)
    requires Inv(s) && x < |s.pcs| && Arrive(s, s', x) && (s.pcs[x].Swap? || s.pcs[x].TrySwap?) && s.arrivals == Null
    ensures Inv(s')
  {
    Outside(s, x);
    assert PlaceOk(s, x);
    assert s.lead == Null;
    hide PlaceOk;
    assert PlaceOk(s', x) by { assert PlaceOk(s, x); }
    PlacesStay(s, s', x);
  }

  /** The lock is not free: the node goes on top of the arrivals. */
  lemma PushKeepsInv(s: State, s': State, x: Node)
    requires Inv(s) && x < |s.pcs| && Arrive(s, s', x) && s.pcs[x].Swap? && s.arrivals != Null
    ensures Inv(s')
  {
    PushPlaces(s, s', x);
    PushSegments(s, s', x);
    PushRest(s, s', x);
    hide SegmentOk, PlaceOk, HistoryOk, LeadOk;
  }

  lemma PushRest(s: State, s': State, x: Node)
    requires Inv(s) && x < |s.pcs| && Arrive(s, s', x) && s.pcs[x].Swap? && s.arrivals != Null
    ensures Sized(s') && HistoryOk(s')
    ensures s'.lead.To? ==> s'.lead.node < |s'.pcs| && LeadOk(s', s'.lead.node)
  {
    Outside(s, x);
    hide SegmentOk;
    NodeIs(s, x);
  }

  lemma PushSegments(s: State, s': State, x: Node)
    requires Inv(s) && x < |s.pcs| && Arrive(s, s', x) && s.pcs[x].Swap? && s.arrivals != Null
    ensures SegmentOk(s', s'.stack, s'.floor) && SegmentOk(s', s'.entry, s'.end)
  {
    hide Inv, LeadOk, SegmentOk;
    Outside(s, x);
    NodeIs(s, x);
    Segments(s);
    SegmentStays(s, s', x, s.entry, s.end);
    SegmentStays(s, s', x, s.stack, s.floor);
    OnTop(s', s.stack, s.floor, x);
  }

  lemma OnTop(s: State, segment: seq<Node>, base: Ptr, x: Node)
    requires Sized(s) && SegmentOk(s, segment, base) && x < |s.pcs| && x !in segment && s.gate[x] == Null
    requires Knows(s, x, if segment == [] then Strip(base) else To(segment[0]))
    ensures SegmentOk(s, [x] + segment, base)
  {
    var longer := [x] + segment;
    forall i | 0 <= i < |longer|
      ensures longer[i] < |s.pcs| && Knows(s, longer[i], Below(longer, i, base)) && s.gate[longer[i]] == Null
    {
      if i > 0 {
        assert Knows(s, segment[i - 1], Below(segment, i - 1, base));
      }
    }
  }

  lemma PushPlaces(s: State, s': State, x: Node)
    requires Inv(s) && x < |s.pcs| && Arrive(s, s', x) && s.pcs[x].Swap? && s.arrivals != Null
    ensures forall y :: 0 <= y < |s'.pcs| ==> PlaceOk(s', y)
  {
    assert PlaceOk(s, x);
    assert PlaceOk(s', x);
    hide PlaceOk;
    PlacesStay(s, s', x);
  }

  lemma ArriveKeepsInv(s: State, s': State, x: Node)
    requires Inv(s) && x < |s.pcs| && Arrive(s, s', x)
    requires !s.pcs[x].Swap? && (s.pcs[x].TrySwap? ==> s.arrivals != Null)
    ensures Inv(s')
  {
    hide Inv, SegmentOk, HistoryOk, LeadOk, PlaceOk;
    if s' != s {
      ArrivesOutside(s, s', x);
      ArriveLead(s, s', x);
      ArrivePlace(s, s', x);
      Privately(s, s', x);
    }
  }

  lemma ArrivesOutside(s: State, s': State, x: Node)
    requires Inv(s) && x < |s.pcs| && Arrive(s, s', x) && s' != s
    requires !s.pcs[x].Swap? && (s.pcs[x].TrySwap? ==> s.arrivals != Null)
    ensures Sized(s') && OnlyAt(s, s', x)
    ensures (s.lead != To(x) && Stores(s, s', x)) || (x !in s.entry && x !in s.stack)
  {
    hide Inv, SegmentOk, HistoryOk, PlaceOk;
    Segments(s);
    if !Waiting(s.pcs[x]) || s.gate[x] != Null {
      Outside(s, x);
    }
  }

  lemma ArriveLead(s: State, s': State, x: Node)
    requires Inv(s) && x < |s.pcs| && Arrive(s, s', x) && s' != s
    requires !s.pcs[x].Swap? && (s.pcs[x].TrySwap? ==> s.arrivals != Null)
    ensures Sized(s') && |s'.pcs| == |s.pcs| && (s.lead == To(x) ==> LeadOk(s', x))
  {
    hide Inv, SegmentOk;
    NodeIs(s, x);
    Segments(s);
  }

  lemma ArrivePlace(s: State, s': State, x: Node)
    requires Inv(s) && x < |s.pcs| && Arrive(s, s', x) && s' != s
    requires !s.pcs[x].Swap? && (s.pcs[x].TrySwap? ==> s.arrivals != Null)
    ensures Sized(s') && |s'.pcs| == |s.pcs| && PlaceOk(s', x)
  {
    hide Inv, SegmentOk, HistoryOk, LeadOk;
    NodeIs(s, x);
    if Waiting(s.pcs[x]) && s.gate[x] != Null {
      LeadWaits(s, x);
    }
  }

  /** A waiting node with an open gate is the lead. */
  lemma LeadWaits(s: State, x: Node)
    requires Inv(s) && x < |s.pcs| && Waiting(s.pcs[x]) && s.gate[x] != Null
    ensures s.lead == To(x)
  {
    hide Inv;
    NodeIs(s, x);
    Outside(s, x);
  }

  lemma HandOverKeepsInv(s: State, s': State, x: Node, p: Ptr)
    requires Inv(s) && x < |s.pcs| && HandOver(s, s', x, p) && s.lead == To(x)
    requires (s.pcs[x].Release? && p == s.succ[x] != Null) || s.pcs[x] == Give(p)
    ensures Inv(s')
  {
    HandOverPlaces(s, s', x, p);
    HandOverSegments(s, s', x, p);
    HandOverLead(s, s', x, p);
    hide SegmentOk, PlaceOk, HistoryOk, LeadOk;
  }

  lemma GivesFirst(s: State, x: Node, p: Ptr)
    requires Inv(s) && x < |s.pcs| && s.lead == To(x) && s.entry != []
    requires (s.pcs[x].Release? && p == s.succ[x] != Null) || s.pcs[x] == Give(p)
    ensures p == To(s.entry[0]) && s.eos[x] == s.end && s.floor == LockedEmpty && s.end != Null
    ensures x !in s.entry && x !in s.stack
  {
    hide PlaceOk, SegmentOk, HistoryOk;
  }

  lemma HandOverPlaces(s: State, s': State, x: Node, p: Ptr)
    requires Inv(s) && x < |s.pcs| && HandOver(s, s', x, p) && s.lead == To(x)
    requires (s.pcs[x].Release? && p == s.succ[x] != Null) || s.pcs[x] == Give(p)
    ensures Sized(s') && forall y :: 0 <= y < |s'.pcs| ==> PlaceOk(s', y)
  {
    hide Inv, LeadOk, SegmentOk, HistoryOk;
    GivesFirst(s, x, p);
    Segments(s);
    InSegment(s, s.entry, s.end, s.entry[0]);
    forall y | 0 <= y < |s'.pcs| ensures PlaceOk(s', y) {
      NodeIs(s, y);
    }
  }

  lemma HandOverSegments(s: State, s': State, x: Node, p: Ptr)
    requires Inv(s) && x < |s.pcs| && HandOver(s, s', x, p) && s.lead == To(x)
    requires (s.pcs[x].Release? && p == s.succ[x] != Null) || s.pcs[x] == Give(p)
    ensures Sized(s') && SegmentOk(s', s'.entry, s'.end) && SegmentOk(s', s'.stack, s'.floor)
  {
    hide Inv, LeadOk, PlaceOk, SegmentOk;
    GivesFirst(s, x, p);
    Segments(s);
    FirstOnce(s, s.entry, s.end);
    Popped(s, s.entry, s.end);
    HandedSegment(s, s', x, s.entry[0], s.eos[x], s.entry[1..], s.end);
    HandedSegment(s, s', x, s.entry[0], s.eos[x], s.stack, s.floor);
  }

  lemma FirstOnce(s: State, segment: seq<Node>, base: Ptr)
    requires Sized(s) && segment != [] && SegmentOk(s, segment, base)
    ensures segment[0] in segment && segment[0] !in segment[1..] && segment[0] < |s.pcs|
    ensures forall x :: x in segment[1..] ==> x in segment
  {
  }

  lemma Popped(s: State, segment: seq<Node>, base: Ptr)
    requires Sized(s) && segment != [] && SegmentOk(s, segment, base)
    ensures SegmentOk(s, segment[1..], base)
  {
    var rest := segment[1..];
    forall i | 0 <= i < |rest|
      ensures rest[i] < |s.pcs| && Knows(s, rest[i], Below(rest, i, base)) && s.gate[rest[i]] == Null
    {
      assert rest[i] == segment[i + 1] && Knows(s, segment[i + 1], Below(segment, i + 1, base));
    }
  }

  /** A segment that contains neither the node that hands the lock over nor the one it is handed to. */
  lemma HandedSegment(s: State, s': State, x: Node, y: Node, e: Ptr, segment: seq<Node>, base: Ptr)
    requires Sized(s) && Sized(s') && |s'.pcs| == |s.pcs| && x < |s.pcs| && y < |s.pcs|
    requires x !in segment && y !in segment && SegmentOk(s, segment, base)
    requires s'.succ == s.succ && s'.pcs == s.pcs[x := Idle] && s'.gate == s.gate[y := e]
    ensures SegmentOk(s', segment, base)
  {
    forall i | 0 <= i < |segment|
      ensures segment[i] < |s'.pcs| && Knows(s', segment[i], Below(segment, i, base)) && s'.gate[segment[i]] == Null
    {
      assert Knows(s, segment[i], Below(segment, i, base));
    }
  }

  lemma HandOverLead(s: State, s': State, x: Node, p: Ptr)
    requires Inv(s) && x < |s.pcs| && HandOver(s, s', x, p) && s.lead == To(x)
    requires (s.pcs[x].Release? && p == s.succ[x] != Null) || s.pcs[x] == Give(p)
    ensures Sized(s') && HistoryOk(s')
    ensures s'.lead.To? && s'.lead.node < |s'.pcs| && LeadOk(s', s'.lead.node)
  {
    hide Inv, PlaceOk, SegmentOk;
    GivesFirst(s, x, p);
    Segments(s);
    InSegment(s, s.entry, s.end, s.entry[0]);
    FirstOnce(s, s.entry, s.end);
    FirstKnows(s, s.entry, s.end);
  }

  lemma FirstKnows(s: State, segment: seq<Node>, base: Ptr)
    requires Sized(s) && segment != [] && SegmentOk(s, segment, base)
    ensures segment[0] < |s.pcs| && Knows(s, segment[0], if 1 < |segment| then To(segment[1]) else Strip(base))
  {
    assert Knows(s, segment[0], Below(segment, 0, base));
  }

  /** Freeing the lock, or taking over the arrivals as the next entry segment. */
  lemma LeaveKeepsInv(s: State, s': State, x: Node)
    requires Inv(s) && x < |s.pcs| && Leave(s, s', x)
    ensures Inv(s')
  {
    assert PlaceOk(s, x);
    if s.pcs[x].Release? && s.succ[x] != Null {
      HandOverKeepsInv(s, s', x, s.succ[x]);
    } else if s.pcs[x].Give? {
      HandOverKeepsInv(s, s', x, s.pcs[x].top);
    } else {
      Outside(s, x);
      assert PlaceOk(s', x);
      if s.pcs[x].Hold? || (s.pcs[x].Release? && s.arrivals != s.eos[x]) {
        assert LeadOk(s', x);
        hide Inv, PlaceOk, LeadOk;
        Privately(s, s', x);
      } else {
        DetachKeepsInv(s, s', x);
      }
    }
  }

  lemma DetachKeepsInv(s: State, s': State, x: Node)
    requires Inv(s) && x < |s.pcs| && Leave(s, s', x)
    requires s.pcs[x].Detach? || (s.pcs[x].Release? && s.succ[x] == Null && s.arrivals == s.eos[x])
    ensures Inv(s')
  {
    LeaverFacts(s, x);
    Outside(s, x);
    DetachHistory(s, s', x);
    assert PlaceOk(s', x) by { assert PlaceOk(s, x); }
    hide PlaceOk, SegmentOk, HistoryOk, LeadOk;
    SegmentStays(s, s', x, s.stack, s.floor);
    PlacesStay(s, s', x);
    EmptySegment(s', s'.floor);
    EmptySegment(s', s'.end);
  }

  lemma DetachHistory(s: State, s': State, x: Node)
    requires Inv(s) && x < |s.pcs| && Leave(s, s', x)
    requires s.pcs[x].Detach? || (s.pcs[x].Release? && s.succ[x] == Null && s.arrivals == s.eos[x])
    ensures Sized(s') && HistoryOk(s')
    ensures s'.lead.To? ==> s'.lead.node < |s'.pcs| && LeadOk(s', s'.lead.node)
  {
    LeaverFacts(s, x);
    Outside(s, x);
    hide SegmentOk, PlaceOk;
  }

  /** Whoever frees the lock or takes over the arrivals leads, and has served its entry segment. */
  lemma LeaverFacts(s: State, x: Node)
    requires Inv(s) && x < |s.pcs|
    requires s.pcs[x].Detach? || (s.pcs[x].Release? && s.succ[x] == Null && s.arrivals == s.eos[x])
    ensures s.lead == To(x) && s.entry == [] && s.eos[x] == s.floor && s.succ[x] == Null
    ensures s.pcs[x].Release? ==> s.stack == []
    ensures s.pcs[x].Detach? ==> s.stack != []
  {
    assert PlaceOk(s, x);
    hide SegmentOk;
  }

  lemma EmptySegment(s: State, base: Ptr)
    requires Sized(s)
    ensures SegmentOk(s, [], base)
  {
  }

  /** One step of any process. */
  lemma StepKeepsInv(s: State, s': State, x: Node)
    requires Inv(s) && Step(s, s', x)
    ensures Inv(s')
  {
    hide Inv, Prepare, Leave;
    if Prepare(s, s', x) {
      PrepareKeepsInv(s, s', x);
    } else if Leave(s, s', x) {
      LeaveKeepsInv(s, s', x);
    } else if (s.pcs[x].Swap? || s.pcs[x].TrySwap?) && s.arrivals == Null {
      TakeKeepsInv(s, s', x);
    } else if s.pcs[x].Swap? {
      PushKeepsInv(s, s', x);
    } else {
      ArriveKeepsInv(s, s', x);
    }
  }

  // ---------- every run ----------

  lemma {:induction false} RunInv(run: seq<State>, i: nat)
    requires Run(run) && i < |run|
    ensures Inv(run[i])
  {
    hide Inv, Step;
    if i == 0 {
      InitInv(run[0]);
    } else {
      RunInv(run, i - 1);
      assert Next(run[i - 1], run[i]);
      var x: Node :| Step(run[i - 1], run[i], x);
      StepKeepsInv(run[i - 1], run[i], x);
    }
  }

  lemma InitInv(s: State)
    requires Init(s)
    ensures Inv(s)
  {
  }

  // ---------- the properties ----------

  /** At most one node owns the lock in any state. */
  lemma OneOwner(run: seq<State>, i: nat, x: Node, y: Node)
    requires Run(run) && i < |run| && x < |run[i].pcs| && y < |run[i].pcs|
    requires Owner(run[i].pcs[x]) && Owner(run[i].pcs[y])
    ensures x == y
  {
    RunInv(run, i);
    assert PlaceOk(run[i], x) && PlaceOk(run[i], y);
  }

  /** A waiting node that has not been handed the lock is in exactly one segment, at one place, and the lock has an owner
      or has been handed to another node. */
  lemma WaiterHasOnePlace(run: seq<State>, i: nat, x: Node)
    requires Run(run) && i < |run| && Sized(run[i]) && x < |run[i].pcs|
    requires Waiting(run[i].pcs[x]) && run[i].gate[x] == Null
    ensures multiset(run[i].entry + run[i].stack)[x] == 1
    ensures run[i].lead.To? && run[i].lead != To(x)
  {
    RunInv(run, i);
    var s := run[i];
    assert PlaceOk(s, x);
    Once(s.entry, x);
    Once(s.stack, x);
    assert multiset(s.entry + s.stack) == multiset(s.entry) + multiset(s.stack);
  }

  /** A release signals one live waiter, or else finds the arrivals as they are without waiters and frees the lock; the
      assertions of the code hold, also when an end-of-segment node has arrived again meanwhile. */
  lemma ReleaseSignalsAWaiter(run: seq<State>, i: nat, x: Node)
    requires Run(run) && i < |run| && Sized(run[i]) && x < |run[i].pcs|
    ensures var s := run[i];
            && (s.pcs[x].Swap? ==> s.arrivals != To(x))
            && (s.pcs[x].Wait? && s.gate[x] != Null ==> s.gate[x] != To(x))
            && (s.pcs[x].Hold? ==> s.eos[x] != Null && s.arrivals != Null)
            && (s.pcs[x].Release? && s.succ[x] != Null ==> s.eos[x] != To(x) && Waiter(s, s.succ[x]))
            && (s.pcs[x].Release? && s.succ[x] == Null ==> s.eos[x] == LockedEmpty || s.eos[x] == To(x))
            && (s.pcs[x].Release? && s.succ[x] == Null && s.arrivals == s.eos[x] ==> s.entry == s.stack == [])
            && (s.pcs[x].Detach? ==> s.arrivals != To(x) && Waiter(s, s.arrivals))
            && (s.pcs[x].Give? ==> Waiter(s, s.pcs[x].top))
  {
    RunInv(run, i);
    var s := run[i];
    assert PlaceOk(s, x);
    if s.entry != [] {
      InSegment(s, s.entry, s.end, s.entry[0]);
    }
    if s.stack != [] {
      InSegment(s, s.stack, s.floor, s.stack[0]);
    }
    hide SegmentOk;
  }

  predicate Waiter(s: State, p: Ptr)
    requires Sized(s)
  {
    p.To? && p.node < |s.pcs| && Waiting(s.pcs[p.node]) && s.gate[p.node] == Null
  }

  // ---------- bounded bypass ----------

  ghost predicate Before(segment: seq<Node>, y: Node, x: Node) {
    exists i, j :: 0 <= i < j < |segment| && segment[i] == y && segment[j] == x
  }

  predicate Queued(s: State, x: Node) { x in s.entry || x in s.stack }

  /** How often y may still be handed the lock before x is. */
  ghost function Chances(s: State, x: Node, y: Node): nat {
    if x in s.entry then (if Before(s.entry, y, x) then 1 else 0) else 1 + (if y in s.entry then 1 else 0)
  }

  predicate Granted(s: State, s': State, y: Node) { s.lead != To(y) && s'.lead == To(y) }

  lemma {:induction false} ChancesFall(s: State, s': State, z: Node, x: Node, y: Node)
    requires Inv(s) && Step(s, s', z) && Queued(s, x) && Queued(s', x)
    ensures Chances(s', x, y) + (if Granted(s, s', y) then 1 else 0) <= Chances(s, x, y)
  {
    hide Inv, SegmentOk, LeadOk, PlaceOk, HistoryOk, Chances, Queued;
    if s'.entry != s.entry && s.entry != [] {
      Serves(s, s', z);
      EntryServed(s, s', x, y);
    } else if s'.entry != s.entry {
      TakenOver(s, s', z, x, y);
    } else {
      SameEntry(s, s', z, x, y);
    }
  }

  /** A step that changes an entry segment with nodes in it hands the lock to the first. */
  lemma Serves(s: State, s': State, z: Node)
    requires Inv(s) && Step(s, s', z) && s'.entry != s.entry && s.entry != []
    ensures s'.entry == s.entry[1..] && s'.stack == s.stack && s'.lead == To(s.entry[0])
  {
    hide SegmentOk;
    NodeIs(s, z);
  }

  /** The arrivals become the entry segment, which was empty; nobody is handed the lock. */
  lemma TakenOver(s: State, s': State, z: Node, x: Node, y: Node)
    requires Inv(s) && Step(s, s', z) && s'.entry != s.entry && s.entry == [] && Queued(s, x) && Queued(s', x)
    ensures Chances(s', x, y) + (if Granted(s, s', y) then 1 else 0) <= Chances(s, x, y)
  {
    hide Inv, SegmentOk, LeadOk, PlaceOk, HistoryOk, Before;
  }

  /** The entry segment stays; the lock is taken by an arrival only when nobody waits. */
  lemma SameEntry(s: State, s': State, z: Node, x: Node, y: Node)
    requires Inv(s) && Step(s, s', z) && s'.entry == s.entry && Queued(s, x) && Queued(s', x)
    ensures Chances(s', x, y) + (if Granted(s, s', y) then 1 else 0) <= Chances(s, x, y)
  {
    hide SegmentOk, LeadOk, PlaceOk, Before;
  }

  /** The first node of the entry segment has been handed the lock. */
  lemma EntryServed(s: State, s': State, x: Node, y: Node)
    requires Inv(s) && s.entry != [] && s'.entry == s.entry[1..] && s'.stack == s.stack && s'.lead == To(s.entry[0])
    requires Queued(s, x) && Queued(s', x)
    ensures Chances(s', x, y) + (if s'.lead == To(y) then 1 else 0) <= Chances(s, x, y)
  {
    var first := s.entry[0];
    EachOnce(s);
    hide Inv;
    NoLongerBefore(s.entry, x, y);
    if x !in s'.entry {
      assert x != first by { NotAgain(s, x); }
    }
  }

  lemma EachOnce(s: State)
    requires Inv(s)
    ensures forall i, j :: 0 <= i < j < |s.entry| ==> s.entry[i] != s.entry[j]
  {
    hide PlaceOk, LeadOk, HistoryOk;
  }

  lemma NotAgain(s: State, x: Node)
    requires Inv(s) && x in s.stack
    ensures x !in s.entry
  {
    hide PlaceOk, LeadOk, SegmentOk;
  }

  /** Without its first node, a segment has the same nodes before x, except that one. */
  lemma NoLongerBefore(segment: seq<Node>, x: Node, y: Node)
    requires segment != [] && forall i, j :: 0 <= i < j < |segment| ==> segment[i] != segment[j]
    ensures y in segment <==> y == segment[0] || y in segment[1..]
    ensures x in segment[1..] ==>
              if y == segment[0] then Before(segment, y, x) && !Before(segment[1..], y, x)
              else Before(segment[1..], y, x) ==> Before(segment, y, x)
    ensures x in segment[1..] ==> x in segment
  {
    var rest := segment[1..];
    assert forall i :: 0 <= i < |rest| ==> rest[i] == segment[i + 1];
    assert segment == [segment[0]] + rest;
    if x in rest {
      var k :| 0 <= k < |rest| && rest[k] == x;
      assert segment[k + 1] == x;
      if y != segment[0] && Before(rest, y, x) {
        var i, j :| 0 <= i < j < |rest| && rest[i] == y && rest[j] == x;
        assert segment[i + 1] == y && segment[j + 1] == x;
      }
    }
  }

  /** The times from state i to state j that y was handed the lock. */
  ghost function Grants(run: seq<State>, i: nat, j: nat, y: Node): nat
    requires i <= j < |run|
  {
    if i == j then 0 else Grants(run, i, j - 1, y) + if Granted(run[j - 1], run[j], y) then 1 else 0
  }

  /** While a node waits in the queue, no other node is handed the lock more than twice. */
  lemma {:induction false} BypassedAtMostTwice(run: seq<State>, i: nat, j: nat, x: Node, y: Node)
    requires Run(run) && i <= j < |run| && (forall k :: i <= k <= j ==> Queued(run[k], x))
    ensures Grants(run, i, j, y) + Chances(run[j], x, y) <= Chances(run[i], x, y) <= 2
    ensures Grants(run, i, j, y) <= 2
  {
    hide Inv, Step, Chances, Granted, Init;
    assert Chances(run[i], x, y) <= 2 by { AtMostTwo(run[i], x, y); }
    if i < j {
      BypassedAtMostTwice(run, i, j - 1, x, y);
      RunInv(run, j - 1);
      assert Next(run[j - 1], run[j]);
      var z: Node :| Step(run[j - 1], run[j], z);
      ChancesFall(run[j - 1], run[j], z, x, y);
    }
  }

  lemma AtMostTwo(s: State, x: Node, y: Node)
    ensures Chances(s, x, y) <= 2
  {
  }
}

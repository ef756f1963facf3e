/** Hazard pointers as a machine of atomic steps. A thread announces a reference in one of its slots and validates it by
    reading the location again; collectors read the slots of all threads one at a time, in any order. */
module HazardPtr {
  import opened Sequences
  import opened RingIndex

  type Obj = nat

  /** A shared location: a pointer and the bits outside the mask. */
  datatype Word = Word(ref: Option<Obj>, tag: nat)

  /** The life of an address: free, linked somewhere, removed from all locations, being retired, retired. A reclaimed
      address is free and may be linked again. */
  datatype Status = Free | Linked | Unlinked | Claimed(thread: nat) | Retired(owner: nat)

  /** A slot of a thread: not allocated, allocated, or allocated and holding a validated reference. */
  datatype Slot = Unused | Taken | Valid

  datatype AcqPc = Reset | Read | Alloc(ptr: Word) | Publish(ptr: Word) | Verify(ptr: Word) | Clear

  /** Collection: the references read so far and where, then which retired objects have been dealt with. */
  datatype GcPc =
    | LoadWatermark
    | Gather(num: nat, done: set<(nat, nat)>, refs: set<Obj>)
    | Traverse(refs: set<Obj>, kept: nat)

  datatype Pc =
    | Out
    | Watermark
    | Ready
    | Acquire(loc: nat, hp: Option<nat>, apc: AcqPc)
    | Release(slot: nat)
    | CheckSpace(obj: Obj)
    | Put(obj: Obj)
    | Gc(pending: Option<Obj>, gpc: GcPc)
    | Collected(pending: Option<Obj>)

  datatype Thread = Thread(idx: Option<nat>, slots: seq<Slot>, queue: seq<Obj>, pc: Pc)

  datatype State = State(locs: seq<Word>, hps: seq<seq<Option<Obj>>>, highWm: nat, nrefs: nat, maxobjs: nat,
                         used: set<nat>, objs: seq<Status>, threads: seq<Thread>)

  ghost predicate Init(s: State) {
    && s.highWm == 0 && s.used == {} && 0 < s.nrefs
    && (forall x :: 0 <= x < |s.hps| ==> s.hps[x] == seq(s.nrefs, _ => None))
    && (forall l :: 0 <= l < |s.locs| ==> s.locs[l].ref == None)
    && (forall o :: 0 <= o < |s.objs| ==> s.objs[o].Free?)
    && forall t :: 0 <= t < |s.threads| ==> s.threads[t] == Thread(None, [], [], Out)
  }

  /** The least slot not allocated. */
  predicate IsFirstFree(slots: seq<Slot>, i: nat) {
    i < |slots| && slots[i].Unused? && forall j :: 0 <= j < i ==> !slots[j].Unused?
  }

  // ---------- registration and the client's own steps ----------

  ghost predicate Register(s: State, s': State, t: nat, th: Thread)
    requires t < |s.threads|
  {
    match th.pc
    case Out =>
      exists x :: 0 <= x < |s.hps| && x !in s.used &&
        s' == s.(used := s.used + {x},
                 threads := s.threads[t := Thread(Some(x), seq(s.nrefs, _ => Unused), [], Watermark)])
    case Watermark =>
      && th.idx.Some?
      && s' == s.(highWm := if s.highWm < th.idx.value + 1 then th.idx.value + 1 else s.highWm,
                  threads := s.threads[t := th.(pc := Ready)])
    case Ready =>
      && th.idx.Some? && th.queue == [] && (forall i :: 0 <= i < |th.slots| ==> th.slots[i].Unused?)
      && s' == s.(used := s.used - {th.idx.value}, threads := s.threads[t := Thread(None, [], [], Out)])
    case _ => false
  }

  /** The client allocates objects, stores linked ones to locations, and removes one from all locations for good before it
      retires it. */
  ghost predicate Client(s: State, s': State) {
    || (exists o :: 0 <= o < |s.objs| && s.objs[o].Free? && s' == s.(objs := s.objs[o := Linked]))
    || (exists l: nat, w: Word :: Stores(s, s', l, w))
    || (exists o :: 0 <= o < |s.objs| && s.objs[o].Linked?
          && (forall l :: 0 <= l < |s.locs| ==> s.locs[l].ref != Some(o)) && s' == s.(objs := s.objs[o := Unlinked]))
  }

  ghost predicate Stores(s: State, s': State, l: nat, w: Word) {
    && l < |s.locs| && (w.ref.Some? ==> w.ref.value < |s.objs| && s.objs[w.ref.value].Linked?)
    && s' == s.(locs := s.locs[l := w])
  }

  // ---------- acquire and release ----------

  function SetHp(hps: seq<seq<Option<Obj>>>, x: nat, i: nat, ref: Option<Obj>): seq<seq<Option<Obj>>>
    requires x < |hps| && i < |hps[x]|
  {
    hps[x := hps[x][i := ref]]
  }

  /** Where the thread's hazard pointer lives. */
  predicate HasSlot(s: State, th: Thread, i: nat) {
    th.idx.Some? && th.idx.value < |s.hps| && i < |s.hps[th.idx.value]| && i < |th.slots|
  }

  ghost predicate Acquires(s: State, s': State, t: nat, th: Thread)
    requires t < |s.threads| && th.pc.Acquire? && th.pc.loc < |s.locs|
  {
    var pc := th.pc;
    match pc.apc
    case Reset =>
      if pc.hp.None? then s' == s.(threads := s.threads[t := th.(pc := pc.(apc := Read))])
      else
        && HasSlot(s, th, pc.hp.value)
        && s' == s.(hps := SetHp(s.hps, th.idx.value, pc.hp.value, None),
                    threads := s.threads[t := th.(slots := th.slots[pc.hp.value := Taken], pc := pc.(apc := Read))])
    case Read =>
      var ptr := s.locs[pc.loc];
      s' == s.(threads := s.threads[t := th.(pc := if ptr.ref.None? then Ready else pc.(apc := Alloc(ptr)))])
    case Alloc(ptr) =>
      if pc.hp.Some? then s' == s.(threads := s.threads[t := th.(pc := pc.(apc := Publish(ptr)))])
      else
        || ((forall i :: 0 <= i < |th.slots| ==> !th.slots[i].Unused?)
            && s' == s.(threads := s.threads[t := th.(pc := Ready)]))
        || (exists i: nat :: IsFirstFree(th.slots, i) &&
              s' == s.(threads := s.threads[t := th.(slots := th.slots[i := Taken],
                                                     pc := Acquire(pc.loc, Some(i), Publish(ptr)))]))
    case Publish(ptr) =>
      && pc.hp.Some? && HasSlot(s, th, pc.hp.value)
      && s' == s.(hps := SetHp(s.hps, th.idx.value, pc.hp.value, ptr.ref),
                  threads := s.threads[t := th.(pc := pc.(apc := Verify(ptr)))])
    case Verify(ptr) =>
      && pc.hp.Some? && pc.hp.value < |th.slots|
      && if s.locs[pc.loc] == ptr then
           s' == s.(threads := s.threads[t := th.(slots := th.slots[pc.hp.value := Valid], pc := Ready)])
         else s' == s.(threads := s.threads[t := th.(pc := pc.(apc := Clear))])
    case Clear =>
      && pc.hp.Some? && HasSlot(s, th, pc.hp.value)
      && s' == s.(hps := SetHp(s.hps, th.idx.value, pc.hp.value, None),
                  threads := s.threads[t := th.(pc := pc.(apc := Read))])
  }

  ghost predicate Starts(s: State, s': State, t: nat, th: Thread)
    requires t < |s.threads|
  {
    && th.pc.Ready?
    && (|| (exists l, hp: Option<nat> :: 0 <= l < |s.locs|
              && (hp.Some? ==> hp.value < |th.slots| && !th.slots[hp.value].Unused?)
              && s' == s.(threads := s.threads[t := th.(pc := Acquire(l, hp, Reset))]))
        || (exists i :: 0 <= i < |th.slots| && !th.slots[i].Unused? && HasSlot(s, th, i)
              && s' == s.(hps := SetHp(s.hps, th.idx.value, i, None),
                          threads := s.threads[t := th.(slots := th.slots[i := Taken], pc := Release(i))]))
        || (exists o :: 0 <= o < |s.objs| && s.objs[o].Unlinked? &&
              s' == s.(objs := s.objs[o := Claimed(t)], threads := s.threads[t := th.(pc := CheckSpace(o))]))
        || (th.queue != [] && s' == s.(threads := s.threads[t := th.(pc := Gc(None, LoadWatermark))])))
  }

  // ---------- retirement and collection ----------

  predicate Retires(s: State, s': State, t: nat, th: Thread)
    requires t < |s.threads|
  {
    match th.pc
    case Release(i) =>
      i < |th.slots| && s' == s.(threads := s.threads[t := th.(slots := th.slots[i := Unused], pc := Ready)])
    case CheckSpace(o) =>
      s' == s.(threads := s.threads[t := th.(pc := if |th.queue| == s.maxobjs then Gc(Some(o), LoadWatermark) else Put(o))])
    case Put(o) =>
      && o < |s.objs|
      && s' == s.(objs := s.objs[o := Retired(t)], threads := s.threads[t := th.(queue := th.queue + [o], pc := Ready)])
    case Collected(pending) =>
      if pending.None? then s' == s.(threads := s.threads[t := th.(pc := Ready)])
      else if |th.queue| == s.maxobjs then
        && pending.value < |s.objs|
        && s' == s.(objs := s.objs[pending.value := Unlinked], threads := s.threads[t := th.(pc := Ready)])
      else s' == s.(threads := s.threads[t := th.(pc := Put(pending.value))])
    case _ => false
  }

  /** All slots of the first num threads. */
  predicate AllRead(num: nat, nrefs: nat, done: set<(nat, nat)>) {
    forall x, i :: 0 <= x < num && 0 <= i < nrefs ==> (x, i) in done
  }

  ghost predicate Collects(s: State, s': State, t: nat, th: Thread)
    requires t < |s.threads| && th.pc.Gc?
  {
    match th.pc.gpc
    case LoadWatermark =>
      s' == s.(threads := s.threads[t := th.(pc := Gc(th.pc.pending, Gather(s.highWm, {}, {})))])
    case Gather(num, done, refs) =>
      || (exists x: nat, i: nat :: x < num && x < |s.hps| && i < |s.hps[x]| && (x, i) !in done &&
            var refs' := if s.hps[x][i].Some? then refs + {s.hps[x][i].value} else refs;
            s' == s.(threads := s.threads[t := th.(pc := Gc(th.pc.pending, Gather(num, done + {(x, i)}, refs')))]))
      || (AllRead(num, s.nrefs, done) &&
          s' == s.(threads := s.threads[t := th.(pc := Gc(th.pc.pending, Traverse(refs, 0)))]))
    case Traverse(refs, kept) =>
      if |th.queue| <= kept then s' == s.(threads := s.threads[t := th.(pc := Collected(th.pc.pending))])
      else if th.queue[kept] in refs then
        s' == s.(threads := s.threads[t := th.(pc := Gc(th.pc.pending, Traverse(refs, kept + 1)))])
      else
        && th.queue[kept] < |s.objs|
        && s' == s.(objs := s.objs[th.queue[kept] := Free],
                    threads := s.threads[t := th.(queue := th.queue[..kept] + th.queue[kept + 1..])])
  }

  ghost predicate Step(s: State, s': State, t: nat) {
    && t < |s.threads|
    && var th := s.threads[t];
       || Register(s, s', t, th) || Client(s, s') || Starts(s, s', t, th) || Retires(s, s', t, th)
       || (th.pc.Acquire? && th.pc.loc < |s.locs| && Acquires(s, s', t, th))
       || (th.pc.Gc? && Collects(s, s', t, th))
  }

  ghost predicate Next(s: State, s': State) { exists t: nat :: Step(s, s', t) }

  ghost predicate Run(run: seq<State>) {
    && |run| > 0 && Init(run[0])
    && forall i :: 0 <= i < |run| - 1 ==> Next(run[i], run[i + 1])
  }

  // ---------- the invariant ----------

  ghost predicate LocsOk(locs: seq<Word>, objs: seq<Status>) {
    forall l :: 0 <= l < |locs| && locs[l].ref.Some? ==> locs[l].ref.value < |objs| && objs[locs[l].ref.value].Linked?
  }

  ghost predicate RowsOk(hps: seq<seq<Option<Obj>>>, nrefs: nat, used: set<nat>) {
    && (forall x :: 0 <= x < |hps| ==> |hps[x]| == nrefs)
    && forall x, i :: 0 <= x < |hps| && x !in used && 0 <= i < nrefs ==> hps[x][i] == None
  }

  /** A thread's row of hazard pointers agrees with its slots, and no validated reference is to a free object. */
  ghost predicate RowOk(row: seq<Option<Obj>>, slots: seq<Slot>, objs: seq<Status>) {
    && |row| == |slots|
    && forall i :: 0 <= i < |row| ==>
         && (slots[i].Unused? ==> row[i] == None)
         && (slots[i].Valid? ==> row[i].Some? && row[i].value < |objs| && !objs[row[i].value].Free?)
  }

  ghost predicate QueueOk(objs: seq<Status>, t: nat, queue: seq<Obj>) {
    && (forall k :: 0 <= k < |queue| ==> queue[k] < |objs| && objs[queue[k]] == Retired(t))
    && forall j, k :: 0 <= j < k < |queue| ==> queue[j] != queue[k]
  }

  ghost predicate PcOk(s: State, t: nat, th: Thread) {
    && (th.idx.Some? <==> !th.pc.Out?)
    && match th.pc
       case Acquire(loc, hp, apc) =>
         && loc < |s.locs|
         && (hp.Some? ==> hp.value < |th.slots| && if apc.Reset? then !th.slots[hp.value].Unused?
                                                   else th.slots[hp.value].Taken?)
         && (apc.Publish? || apc.Verify? || apc.Clear? ==> hp.Some?)
         && (apc.Alloc? || apc.Publish? || apc.Verify? ==> apc.ptr.ref.Some?)
         && (apc.Verify? ==> th.idx.value < |s.hps| && hp.value < |s.hps[th.idx.value]|
                             && s.hps[th.idx.value][hp.value] == apc.ptr.ref)
       case Release(i) =>
         && i < |th.slots| && th.slots[i].Taken? && th.idx.value < |s.hps| && i < |s.hps[th.idx.value]|
         && s.hps[th.idx.value][i] == None
       case CheckSpace(o) => o < |s.objs| && s.objs[o] == Claimed(t)
       case Put(o) => o < |s.objs| && s.objs[o] == Claimed(t) && |th.queue| < s.maxobjs
       case Gc(pending, gpc) =>
         && (pending.Some? ==> pending.value < |s.objs| && s.objs[pending.value] == Claimed(t))
         && (gpc.Gather? ==> gpc.num <= s.highWm) && (gpc.Traverse? ==> gpc.kept <= |th.queue|)
       case Collected(pending) => pending.Some? ==> pending.value < |s.objs| && s.objs[pending.value] == Claimed(t)
       case _ => true
  }

  ghost predicate IdxOk(s: State, th: Thread) {
    th.idx.Some? ==>
      && th.idx.value in s.used && th.idx.value < |s.hps| && RowOk(s.hps[th.idx.value], th.slots, s.objs)
      && (!th.pc.Watermark? ==> th.idx.value < s.highWm)
      && (th.pc.Watermark? ==> forall i :: 0 <= i < |th.slots| ==> th.slots[i].Unused?)
  }

  ghost predicate ThreadOk(s: State, t: nat, th: Thread) {
    && QueueOk(s.objs, t, th.queue) && |th.queue| <= s.maxobjs && IdxOk(s, th) && PcOk(s, t, th)
    && (th.idx.None? ==> th.queue == [])
  }

  /** A collection that has one of its objects validated by a thread in slot i has yet to read the slot or has the
      reference. */
  ghost predicate Seen(gc: Thread, x: nat, i: nat, o: Obj) {
    gc.pc.Gc? && o in gc.queue ==>
      match gc.pc.gpc
      case LoadWatermark => true
      case Gather(num, done, refs) => (x < num && (x, i) !in done) || o in refs
      case Traverse(refs, kept) => o in refs
  }

  /** Thread th holds object o through a validated hazard pointer in slot i. */
  predicate Holds(hps: seq<seq<Option<Obj>>>, th: Thread, i: nat, o: Obj) {
    && th.idx.Some? && th.idx.value < |hps| && i < |hps[th.idx.value]| && i < |th.slots|
    && th.slots[i].Valid? && hps[th.idx.value][i] == Some(o)
  }

  ghost predicate AllSeen(threads: seq<Thread>, hps: seq<seq<Option<Obj>>>) {
    forall t, u, i: nat, o :: 0 <= t < |threads| && 0 <= u < |threads| && Holds(hps, threads[u], i, o) ==>
      Seen(threads[t], threads[u].idx.value, i, o)
  }

  ghost predicate IdxUnique(threads: seq<Thread>) {
    forall t, u :: 0 <= t < u < |threads| && threads[t].idx.Some? ==> threads[t].idx != threads[u].idx
  }

  /** A retired object waits in its owner's queue. */
  ghost predicate Kept(threads: seq<Thread>, o: Obj, status: Status) {
    status.Retired? ==> status.owner < |threads| && o in threads[status.owner].queue
  }

  ghost predicate AllKept(threads: seq<Thread>, objs: seq<Status>) {
    forall o :: 0 <= o < |objs| ==> Kept(threads, o, objs[o])
  }

  ghost predicate SharedOk(s: State) {
    && s.highWm <= |s.hps| && LocsOk(s.locs, s.objs) && RowsOk(s.hps, s.nrefs, s.used)
  }

  ghost predicate ThreadsOk(s: State) { forall t :: 0 <= t < |s.threads| ==> ThreadOk(s, t, s.threads[t]) }

  ghost predicate Inv(s: State) {
    && SharedOk(s) && ThreadsOk(s) && AllSeen(s.threads, s.hps) && IdxUnique(s.threads) && AllKept(s.threads, s.objs)
  }

  // ---------- one step ----------

  predicate OthersStatus(status: Status, t: nat) {
    (status.Claimed? && status.thread != t) || (status.Retired? && status.owner != t)
  }

  /** How an object's status may change in a step of thread t. */
  ghost predicate ObjMoves(s: State, s': State, t: nat, o: Obj)
    requires o < |s.objs| == |s'.objs|
  {
    s'.objs[o] == s.objs[o]
    || (!OthersStatus(s.objs[o], t)
        && (s'.objs[o].Free? ==> forall u, i: nat :: 0 <= u < |s.threads| ==> !Holds(s.hps, s.threads[u], i, o)))
  }

  /** What a step of thread t leaves alone. */
  ghost predicate Frame(s: State, s': State, t: nat) {
    && t < |s.threads| && |s'.threads| == |s.threads| && s'.threads == s.threads[t := s'.threads[t]]
    && |s'.objs| == |s.objs| && |s'.hps| == |s.hps| && |s'.locs| == |s.locs|
    && s'.maxobjs == s.maxobjs && s'.nrefs == s.nrefs && s.highWm <= s'.highWm
    && (forall x :: x in s.used ==> x in s'.used || s.threads[t].idx == Some(x))
    && (forall x :: 0 <= x < |s.hps| ==> s'.hps[x] == s.hps[x] || s.threads[t].idx == Some(x))
    && forall o :: 0 <= o < |s.objs| ==> ObjMoves(s, s', t, o)
  }

  lemma OtherQueue(s: State, s': State, t: nat, u: nat)
    requires Frame(s, s', t) && u < |s.threads| && u != t && QueueOk(s.objs, u, s.threads[u].queue)
    ensures QueueOk(s'.objs, u, s.threads[u].queue)
  {
    var queue := s.threads[u].queue;
    forall k | 0 <= k < |queue| ensures s'.objs[queue[k]] == Retired(u) {
      assert ObjMoves(s, s', t, queue[k]);
    }
  }

  lemma OtherRow(s: State, s': State, t: nat, u: nat)
    requires Frame(s, s', t) && u < |s.threads| && u != t && IdxOk(s, s.threads[u])
    requires s.threads[u].idx.Some? ==> s.threads[t].idx != s.threads[u].idx
    ensures IdxOk(s', s.threads[u])
  {
    var tu := s.threads[u];
    if tu.idx.Some? {
      var x := tu.idx.value;
      assert s'.hps[x] == s.hps[x];
      forall i | 0 <= i < |s.hps[x]| && tu.slots[i].Valid? ensures !s'.objs[s.hps[x][i].value].Free? {
        assert Holds(s.hps, tu, i, s.hps[x][i].value);
        assert ObjMoves(s, s', t, s.hps[x][i].value);
      }
    }
  }

  lemma OtherPc(s: State, s': State, t: nat, u: nat)
    requires Frame(s, s', t) && u < |s.threads| && u != t && PcOk(s, u, s.threads[u])
    requires s.threads[u].idx.Some? ==> s.threads[t].idx != s.threads[u].idx
    ensures PcOk(s', u, s.threads[u])
  {
    var pc := s.threads[u].pc;
    if pc.CheckSpace? || pc.Put? {
      assert ObjMoves(s, s', t, pc.obj);
    } else if (pc.Gc? || pc.Collected?) && pc.pending.Some? {
      assert ObjMoves(s, s', t, pc.pending.value);
    }
  }

  lemma OtherIdx(threads: seq<Thread>, t: nat, u: nat)
    requires IdxUnique(threads) && t < |threads| && u < |threads| && u != t
    ensures threads[u].idx.Some? ==> threads[t].idx != threads[u].idx
  {
  }

  lemma Others(s: State, s': State, t: nat)
    requires Inv(s) && Frame(s, s', t) && ThreadOk(s', t, s'.threads[t])
    ensures ThreadsOk(s')
  {
    hide QueueOk, IdxOk, PcOk, Frame;
    FrameThreads(s, s', t);
    forall u | 0 <= u < |s'.threads| ensures ThreadOk(s', u, s'.threads[u]) {
      if u != t {
        assert ThreadOk(s, u, s.threads[u]);
        OtherIdx(s.threads, t, u);
        OtherQueue(s, s', t, u);
        OtherRow(s, s', t, u);
        OtherPc(s, s', t, u);
      }
    }
  }

  lemma FrameThreads(s: State, s': State, t: nat)
    requires Frame(s, s', t)
    ensures t < |s.threads| == |s'.threads| && s'.threads == s.threads[t := s'.threads[t]] && s'.maxobjs == s.maxobjs
  {
  }

  /** New validated references are to linked objects, which nobody has retired. */
  ghost predicate HoldsOk(s: State, s': State, t: nat)
    requires t < |s.threads| == |s'.threads|
  {
    forall i: nat, o: Obj :: Holds(s'.hps, s'.threads[t], i, o) ==>
      && s'.threads[t].idx == s.threads[t].idx
      && (Holds(s.hps, s.threads[t], i, o) || (o < |s.objs| && s.objs[o].Linked?))
  }

  /** A step that is not a collector reading or dealing with its objects. */
  lemma SeenStays(s: State, s': State, t: nat)
    requires Inv(s) && Frame(s, s', t) && HoldsOk(s, s', t)
    requires s'.threads[t].pc.Gc? ==> s'.threads[t].pc.gpc == LoadWatermark
                                      || (s'.threads[t].pc == s.threads[t].pc && s'.threads[t].queue == s.threads[t].queue)
    ensures AllSeen(s'.threads, s'.hps)
  {
    forall g, u, i: nat, o | 0 <= g < |s'.threads| && 0 <= u < |s'.threads| && Holds(s'.hps, s'.threads[u], i, o)
      ensures Seen(s'.threads[g], s'.threads[u].idx.value, i, o)
    {
      OtherHolds(s, s', t, u, i, o);
      if Holds(s.hps, s.threads[u], i, o) {
        assert Seen(s.threads[g], s.threads[u].idx.value, i, o);
      } else if g != t {
        assert ThreadOk(s, g, s.threads[g]);
      }
      hide Inv, Frame;
    }
  }

  lemma OtherHolds(s: State, s': State, t: nat, u: nat, i: nat, o: Obj)
    requires Inv(s) && Frame(s, s', t) && HoldsOk(s, s', t) && u < |s.threads| && Holds(s'.hps, s'.threads[u], i, o)
    ensures s'.threads[u].idx == s.threads[u].idx
    ensures Holds(s.hps, s.threads[u], i, o) || (o < |s.objs| && s.objs[o].Linked?)
  {
    if u != t {
      OtherIdx(s.threads, t, u);
    }
  }

  /** Owners that keep their queues keep their objects. */
  lemma KeptStays(threads: seq<Thread>, objs: seq<Status>, t: nat, th': Thread)
    requires AllKept(threads, objs) && t < |threads| && forall o :: o in threads[t].queue ==> o in th'.queue
    ensures AllKept(threads[t := th'], objs)
  {
    forall o | 0 <= o < |objs| ensures Kept(threads[t := th'], o, objs[o]) {
      assert Kept(threads, o, objs[o]);
    }
  }

  lemma KeptUnretired(threads: seq<Thread>, objs: seq<Status>, o: Obj, status: Status)
    requires AllKept(threads, objs) && o < |objs| && !status.Retired?
    ensures AllKept(threads, objs[o := status])
  {
    var objs' := objs[o := status];
    forall p | 0 <= p < |objs| ensures Kept(threads, p, objs'[p]) {
      assert Kept(threads, p, objs[p]);
    }
  }

  // ---------- registration and the client ----------

  lemma RegisterKeepsInv(s: State, s': State, t: nat)
    requires Inv(s) && t < |s.threads| && Register(s, s', t, s.threads[t])
    ensures Inv(s')
  {
    RegisterKeepsThreads(s, s', t);
    assert ThreadOk(s, t, s.threads[t]);
    hide ThreadOk, AllSeen, Frame, RowsOk, LocsOk;
    SeenStays(s, s', t);
    Others(s, s', t);
    KeptStays(s.threads, s.objs, t, s'.threads[t]);
  }

  lemma RegisterKeepsThreads(s: State, s': State, t: nat)
    requires Inv(s) && t < |s.threads| && Register(s, s', t, s.threads[t])
    ensures Frame(s, s', t) && HoldsOk(s, s', t) && ThreadOk(s', t, s'.threads[t]) && SharedOk(s')
    ensures IdxUnique(s'.threads) && s'.threads[t].queue == s.threads[t].queue && !s'.threads[t].pc.Gc?
    ensures s'.objs == s.objs
  {
    assert ThreadOk(s, t, s.threads[t]);
    forall u | 0 <= u < |s.threads| && s.threads[u].idx.Some? ensures s.threads[u].idx.value in s.used {
      assert ThreadOk(s, u, s.threads[u]);
    }
    hide AllSeen, Seen, Kept, LocsOk;
  }

  lemma ClientKeepsInv(s: State, s': State, t: nat)
    requires Inv(s) && t < |s.threads| && Client(s, s')
    ensures Inv(s')
  {
    hide AllSeen, IdxUnique, RowsOk;
    assert Frame(s, s', t);
    assert ThreadOk(s', t, s.threads[t]) by { ClientThread(s, s', t); }
    assert SharedOk(s');
    hide LocsOk;
    Others(s, s', t);
    assert AllKept(s'.threads, s'.objs) by {
      if s'.objs != s.objs {
        var o :| 0 <= o < |s.objs| && (s'.objs == s.objs[o := Linked] || s'.objs == s.objs[o := Unlinked]);
        KeptUnretired(s.threads, s.objs, o, s'.objs[o]);
      }
    }
  }

  lemma ClientThread(s: State, s': State, t: nat)
    requires Inv(s) && t < |s.threads| && Client(s, s')
    ensures ThreadOk(s', t, s.threads[t])
  {
    assert ThreadOk(s, t, s.threads[t]);
    hide AllSeen, IdxUnique, AllKept, SharedOk;
  }

  // ---------- acquire and release ----------

  lemma AcquiresFrame(s: State, s': State, t: nat)
    requires t < |s.threads| && ThreadOk(s, t, s.threads[t]) && s.threads[t].pc.Acquire?
    requires s.threads[t].pc.loc < |s.locs| && Acquires(s, s', t, s.threads[t])
    ensures Frame(s, s', t)
    ensures s'.objs == s.objs && s'.locs == s.locs && s'.highWm == s.highWm && s'.used == s.used
    ensures s'.threads[t].queue == s.threads[t].queue && s'.threads[t].idx == s.threads[t].idx && !s'.threads[t].pc.Gc?
  {
    hide QueueOk, RowOk;
  }

  lemma AcquiresRow(s: State, s': State, t: nat)
    requires t < |s.threads| && ThreadOk(s, t, s.threads[t]) && s.threads[t].pc.Acquire?
    requires s.threads[t].pc.loc < |s.locs| && Acquires(s, s', t, s.threads[t])
    requires LocsOk(s.locs, s.objs)
    ensures |s'.threads| == |s.threads| && IdxOk(s', s'.threads[t])
  {
    hide QueueOk;
  }

  lemma AcquiresPc(s: State, s': State, t: nat)
    requires t < |s.threads| && ThreadOk(s, t, s.threads[t]) && s.threads[t].pc.Acquire?
    requires s.threads[t].pc.loc < |s.locs| && Acquires(s, s', t, s.threads[t])
    requires LocsOk(s.locs, s.objs)
    ensures |s'.threads| == |s.threads| && PcOk(s', t, s'.threads[t])
  {
    hide QueueOk;
  }

  lemma AcquiresHolds(s: State, s': State, t: nat)
    requires t < |s.threads| && ThreadOk(s, t, s.threads[t]) && s.threads[t].pc.Acquire?
    requires s.threads[t].pc.loc < |s.locs| && Acquires(s, s', t, s.threads[t])
    requires LocsOk(s.locs, s.objs)
    ensures |s'.threads| == |s.threads| && HoldsOk(s, s', t)
    ensures forall x :: 0 <= x < |s'.hps| && x < |s.hps| ==> |s'.hps[x]| == |s.hps[x]|
    ensures |s'.hps| == |s.hps|
  {
    hide QueueOk;
  }

  lemma AcquiresKeepsInv(s: State, s': State, t: nat)
    requires Inv(s) && t < |s.threads| && s.threads[t].pc.Acquire? && s.threads[t].pc.loc < |s.locs|
    requires Acquires(s, s', t, s.threads[t])
    ensures Inv(s')
  {
    hide Acquires, QueueOk, RowOk, Frame, HoldsOk, LocsOk, PcOk, AllSeen;
    assert ThreadOk(s, t, s.threads[t]);
    AcquiresFrame(s, s', t);
    AcquiresRow(s, s', t);
    AcquiresPc(s, s', t);
    AcquiresHolds(s, s', t);
    SeenStays(s, s', t);
    FrameThreads(s, s', t);
    Others(s, s', t);
    KeptStays(s.threads, s.objs, t, s'.threads[t]);
    assert RowsOk(s'.hps, s'.nrefs, s'.used) by { FrameRows(s, s', t); }
  }

  lemma FrameRows(s: State, s': State, t: nat)
    requires SharedOk(s) && Frame(s, s', t) && s'.used == s.used
    requires s.threads[t].idx.Some? ==> s.threads[t].idx.value in s.used
    requires forall x :: 0 <= x < |s.hps| ==> |s'.hps[x]| == |s.hps[x]|
    ensures RowsOk(s'.hps, s'.nrefs, s'.used)
  {
  }

  // ---------- other calls ----------

  lemma StartsFrame(s: State, s': State, t: nat)
    requires t < |s.threads| && ThreadOk(s, t, s.threads[t]) && Starts(s, s', t, s.threads[t])
    ensures Frame(s, s', t)
    ensures s'.locs == s.locs && s'.highWm == s.highWm && s'.used == s.used && s'.threads[t].idx == s.threads[t].idx
    ensures s'.threads[t].pc.Gc? ==> s'.threads[t].pc.gpc == LoadWatermark && s'.threads[t].queue == s.threads[t].queue
    ensures forall x :: 0 <= x < |s.hps| ==> |s'.hps[x]| == |s.hps[x]|
  {
    hide QueueOk, RowOk;
  }

  lemma StartsThread(s: State, s': State, t: nat)
    requires t < |s.threads| && ThreadOk(s, t, s.threads[t]) && Starts(s, s', t, s.threads[t])
    ensures |s'.threads| == |s.threads| && ThreadOk(s', t, s'.threads[t])
  {
  }

  lemma StartsHolds(s: State, s': State, t: nat)
    requires t < |s.threads| && ThreadOk(s, t, s.threads[t]) && Starts(s, s', t, s.threads[t])
    ensures |s'.threads| == |s.threads| && HoldsOk(s, s', t)
  {
    hide QueueOk;
  }

  lemma RetiresFrame(s: State, s': State, t: nat)
    requires t < |s.threads| && ThreadOk(s, t, s.threads[t]) && Retires(s, s', t, s.threads[t])
    ensures Frame(s, s', t)
    ensures s'.locs == s.locs && s'.highWm == s.highWm && s'.used == s.used && s'.threads[t].idx == s.threads[t].idx
    ensures s'.threads[t].pc.Gc? ==> s'.threads[t].pc.gpc == LoadWatermark && s'.threads[t].queue == s.threads[t].queue
    ensures forall x :: 0 <= x < |s.hps| ==> |s'.hps[x]| == |s.hps[x]|
  {
    hide QueueOk, RowOk;
  }

  lemma RetiresThread(s: State, s': State, t: nat)
    requires t < |s.threads| && ThreadOk(s, t, s.threads[t]) && Retires(s, s', t, s.threads[t])
    ensures |s'.threads| == |s.threads| && ThreadOk(s', t, s'.threads[t])
  {
    RetiresRow(s, s', t);
    hide IdxOk;
    var th := s.threads[t];
    if th.pc.Put? {
      Longer(s.objs, t, th.queue, th.pc.obj);
    } else if th.pc.Collected? && th.pc.pending.Some? {
      Unqueued(s.objs, t, th.queue, th.pc.pending.value);
    }
    hide QueueOk;
  }

  lemma Longer(objs: seq<Status>, t: nat, queue: seq<Obj>, o: Obj)
    requires QueueOk(objs, t, queue) && o < |objs| && objs[o] == Claimed(t)
    ensures QueueOk(objs[o := Retired(t)], t, queue + [o])
  {
  }

  lemma Unqueued(objs: seq<Status>, t: nat, queue: seq<Obj>, o: Obj)
    requires QueueOk(objs, t, queue) && o < |objs| && objs[o] == Claimed(t)
    ensures QueueOk(objs[o := Unlinked], t, queue)
  {
  }

  lemma RetiresRow(s: State, s': State, t: nat)
    requires t < |s.threads| && ThreadOk(s, t, s.threads[t]) && Retires(s, s', t, s.threads[t])
    ensures |s'.threads| == |s.threads| && IdxOk(s', s'.threads[t])
  {
    hide QueueOk;
  }

  lemma RetiresHolds(s: State, s': State, t: nat)
    requires t < |s.threads| && ThreadOk(s, t, s.threads[t]) && Retires(s, s', t, s.threads[t])
    ensures |s'.threads| == |s.threads| && HoldsOk(s, s', t)
  {
    hide QueueOk;
  }

  /** Claiming an object, or giving it up, or retiring it: the locations and the queues agree. */
  lemma StatusEffect(s: State, s': State, t: nat)
    requires Inv(s) && t < |s.threads| && (Starts(s, s', t, s.threads[t]) || Retires(s, s', t, s.threads[t]))
    ensures LocsOk(s'.locs, s'.objs) && |s'.threads| == |s.threads| && AllKept(s'.threads, s'.objs)
  {
    var th := s.threads[t];
    assert ThreadOk(s, t, th);
    assert s'.threads == s.threads[t := s'.threads[t]];
    forall o | o in th.queue ensures o in s'.threads[t].queue {
    }
    hide IdxOk, AllSeen, IdxUnique, RowsOk, QueueOk;
    forall o | 0 <= o < |s'.objs| ensures Kept(s'.threads, o, s'.objs[o]) {
      assert Kept(s.threads, o, s.objs[o]);
    }
  }

  lemma StartsKeepsInv(s: State, s': State, t: nat)
    requires Inv(s) && t < |s.threads| && (Starts(s, s', t, s.threads[t]) || Retires(s, s', t, s.threads[t]))
    ensures Inv(s')
  {
    StatusEffect(s, s', t);
    hide Starts, Retires, QueueOk, IdxOk, PcOk, Frame, HoldsOk, LocsOk, AllSeen, AllKept;
    assert ThreadOk(s, t, s.threads[t]);
    if Starts(s, s', t, s.threads[t]) {
      StartsFrame(s, s', t);
      StartsThread(s, s', t);
      StartsHolds(s, s', t);
    } else {
      RetiresFrame(s, s', t);
      RetiresThread(s, s', t);
      RetiresHolds(s, s', t);
    }
    SeenStays(s, s', t);
    FrameThreads(s, s', t);
    Others(s, s', t);
    IdxInUse(s, t);
    FrameRows(s, s', t);
    assert |s'.hps| == |s.hps| by { FrameSizes(s, s', t); }
  }

  lemma IdxInUse(s: State, t: nat)
    requires t < |s.threads| && ThreadOk(s, t, s.threads[t])
    ensures s.threads[t].idx.Some? ==> s.threads[t].idx.value in s.used
  {
  }

  lemma FrameSizes(s: State, s': State, t: nat)
    requires Frame(s, s', t)
    ensures |s'.hps| == |s.hps| && |s'.objs| == |s.objs|
  {
  }

  // ---------- collection ----------

  /** Nobody holds an object that a collection is about to reclaim. */
  lemma NoHolder(s: State, t: nat, u: nat, i: nat, o: Obj)
    requires Inv(s) && t < |s.threads| && s.threads[t].pc.Gc? && s.threads[t].pc.gpc.Traverse?
    requires o in s.threads[t].queue && o !in s.threads[t].pc.gpc.refs && u < |s.threads|
    ensures !Holds(s.hps, s.threads[u], i, o)
  {
  }

  lemma CollectsFrame(s: State, s': State, t: nat)
    requires Inv(s) && t < |s.threads| && s.threads[t].pc.Gc? && Collects(s, s', t, s.threads[t])
    ensures Frame(s, s', t)
    ensures s'.locs == s.locs && s'.highWm == s.highWm && s'.used == s.used && s'.hps == s.hps
    ensures s'.threads[t].idx == s.threads[t].idx && s'.threads[t].slots == s.threads[t].slots
  {
    var th := s.threads[t];
    assert ThreadOk(s, t, th);
    if th.pc.gpc.Traverse? && th.pc.gpc.kept < |th.queue| && th.queue[th.pc.gpc.kept] !in th.pc.gpc.refs {
      forall u, i: nat | 0 <= u < |s.threads| ensures !Holds(s.hps, s.threads[u], i, th.queue[th.pc.gpc.kept]) {
        NoHolder(s, t, u, i, th.queue[th.pc.gpc.kept]);
      }
    }
    hide Inv, Holds, IdxOk;
  }

  lemma CollectsThread(s: State, s': State, t: nat)
    requires t < |s.threads| && ThreadOk(s, t, s.threads[t]) && s.threads[t].pc.Gc? && Collects(s, s', t, s.threads[t])
    requires Frame(s, s', t) && s'.used == s.used && s'.hps == s.hps && s'.highWm == s.highWm
    requires s'.threads[t].idx == s.threads[t].idx && s'.threads[t].slots == s.threads[t].slots
    ensures ThreadOk(s', t, s'.threads[t])
  {
    CollectsReclaim(s, s', t);
    CollectsRow(s, s', t);
    CollectsPc(s, s', t);
    FrameThreads(s, s', t);
    var th := s.threads[t];
    hide Collects, Frame, QueueOk, IdxOk, PcOk;
    if th.pc.gpc.Traverse? && th.pc.gpc.kept < |th.queue| {
      Shorter(s.objs, t, th.queue, th.pc.gpc.kept);
    }
  }

  /** Without the reclaimed object the queue is in order. */
  lemma Shorter(objs: seq<Status>, t: nat, queue: seq<Obj>, k: nat)
    requires QueueOk(objs, t, queue) && k < |queue|
    ensures queue[k] < |objs| && QueueOk(objs[queue[k] := Free], t, queue[..k] + queue[k + 1..])
  {
  }

  lemma CollectsRow(s: State, s': State, t: nat)
    requires t < |s.threads| && ThreadOk(s, t, s.threads[t]) && s.threads[t].pc.Gc? && Collects(s, s', t, s.threads[t])
    requires Frame(s, s', t) && s'.used == s.used && s'.hps == s.hps && s'.highWm == s.highWm
    requires s'.threads[t].idx == s.threads[t].idx && s'.threads[t].slots == s.threads[t].slots
    ensures IdxOk(s', s'.threads[t])
  {
    hide QueueOk, PcOk;
    var th, th' := s.threads[t], s'.threads[t];
    assert !th'.pc.Watermark?;
    hide Collects;
    if th.idx.Some? {
      var row := s.hps[th.idx.value];
      forall i | 0 <= i < |row| && th.slots[i].Valid? ensures !s'.objs[row[i].value].Free? {
        assert Holds(s.hps, th, i, row[i].value);
        assert ObjMoves(s, s', t, row[i].value);
      }
    }
  }

  lemma CollectsPc(s: State, s': State, t: nat)
    requires t < |s.threads| && ThreadOk(s, t, s.threads[t]) && s.threads[t].pc.Gc? && Collects(s, s', t, s.threads[t])
    ensures |s'.threads| == |s.threads| && s'.maxobjs == s.maxobjs && PcOk(s', t, s'.threads[t])
  {
    hide IdxOk;
    var th := s.threads[t];
    if th.pc.gpc.Traverse? && th.pc.gpc.kept < |th.queue| {
      assert s.objs[th.queue[th.pc.gpc.kept]] == Retired(t);
    }
    hide QueueOk;
  }

  lemma CollectsSees(s: State, s': State, t: nat)
    requires Inv(s) && t < |s.threads| && s.threads[t].pc.Gc? && Collects(s, s', t, s.threads[t])
    ensures AllSeen(s'.threads, s'.hps)
  {
    CollectsFrame(s, s', t);
    FrameThreads(s, s', t);
    assert ThreadOk(s, t, s.threads[t]);
    hide Frame, Collects;
    forall g, u, i: nat, o | 0 <= g < |s'.threads| && 0 <= u < |s'.threads| && Holds(s'.hps, s'.threads[u], i, o)
      ensures Seen(s'.threads[g], s'.threads[u].idx.value, i, o)
    {
      assert Holds(s.hps, s.threads[u], i, o);
      assert Seen(s.threads[g], s.threads[u].idx.value, i, o);
      if g == t {
        assert ThreadOk(s, u, s.threads[u]);
        SeenOn(s, s', t, s.threads[u], i, o);
      }
    }
  }

  /** A collection that reads one more slot, or deals with one more object, still sees a holder. */
  lemma SeenOn(s: State, s': State, t: nat, holder: Thread, i: nat, o: Obj)
    requires t < |s.threads| && s.threads[t].pc.Gc? && Collects(s, s', t, s.threads[t])
    requires Holds(s.hps, holder, i, o) && IdxOk(s, holder)
    requires RowsOk(s.hps, s.nrefs, s.used) && Seen(s.threads[t], holder.idx.value, i, o) && PcOk(s, t, s.threads[t])
    ensures |s'.threads| == |s.threads| && Seen(s'.threads[t], holder.idx.value, i, o)
  {
    var gc, gc' := s.threads[t], s'.threads[t];
    assert o in gc'.queue ==> o in gc.queue;
  }

  lemma CollectsEffect(s: State, s': State, t: nat)
    requires Inv(s) && t < |s.threads| && s.threads[t].pc.Gc? && Collects(s, s', t, s.threads[t])
    ensures LocsOk(s'.locs, s'.objs) && |s'.threads| == |s.threads| && AllKept(s'.threads, s'.objs)
  {
    var th, th' := s.threads[t], s'.threads[t];
    CollectsReclaim(s, s', t);
    assert ThreadOk(s, t, th);
    hide Collects, IdxOk, PcOk, AllSeen, IdxUnique, RowsOk, AllKept;
    if s'.objs != s.objs || th'.queue != th.queue {
      Reclaims(s.threads, s.objs, t, th', th.pc.gpc.kept);
    } else {
      KeptStays(s.threads, s.objs, t, th');
    }
  }

  /** A collector's step either leaves the objects and its queue alone or takes one object out of both. */
  lemma CollectsReclaim(s: State, s': State, t: nat)
    requires t < |s.threads| && s.threads[t].pc.Gc? && Collects(s, s', t, s.threads[t])
    ensures |s'.threads| == |s.threads| && s'.threads == s.threads[t := s'.threads[t]] && s'.locs == s.locs
    ensures || (s'.objs == s.objs && s'.threads[t].queue == s.threads[t].queue)
            || (&& s.threads[t].pc.gpc.Traverse? && s.threads[t].pc.gpc.kept < |s.threads[t].queue|
                && var k := s.threads[t].pc.gpc.kept;
                   && s.threads[t].queue[k] < |s.objs| && s'.objs == s.objs[s.threads[t].queue[k] := Free]
                   && s'.threads[t].queue == s.threads[t].queue[..k] + s.threads[t].queue[k + 1..])
  {
  }

  /** The reclaimed object leaves the queue, the others stay. */
  lemma Reclaims(threads: seq<Thread>, objs: seq<Status>, t: nat, th': Thread, kept: nat)
    requires AllKept(threads, objs) && t < |threads| && QueueOk(objs, t, threads[t].queue) && kept < |threads[t].queue|
    requires th'.queue == threads[t].queue[..kept] + threads[t].queue[kept + 1..]
    ensures AllKept(threads[t := th'], objs[threads[t].queue[kept] := Free])
  {
    var queue, objs' := threads[t].queue, objs[threads[t].queue[kept] := Free];
    forall o | o in queue && o != queue[kept] ensures o in th'.queue {
      var k :| 0 <= k < |queue| && queue[k] == o;
      assert th'.queue[if k < kept then k else k - 1] == o;
    }
    forall o | 0 <= o < |objs'| ensures Kept(threads[t := th'], o, objs'[o]) {
      assert Kept(threads, o, objs[o]);
    }
  }

  lemma CollectsKeepsInv(s: State, s': State, t: nat)
    requires Inv(s) && t < |s.threads| && s.threads[t].pc.Gc? && Collects(s, s', t, s.threads[t])
    ensures Inv(s')
  {
    hide Collects, QueueOk, IdxOk, PcOk, Frame, LocsOk, AllSeen, AllKept;
    assert ThreadOk(s, t, s.threads[t]);
    CollectsFrame(s, s', t);
    CollectsThread(s, s', t);
    CollectsSees(s, s', t);
    CollectsEffect(s, s', t);
    FrameThreads(s, s', t);
    Others(s, s', t);
    IdxInUse(s, t);
    FrameRows(s, s', t);
  }

  /** One step of any thread. */
  lemma StepKeepsInv(s: State, s': State, t: nat)
    requires Inv(s) && Step(s, s', t)
    ensures Inv(s')
  {
    hide Inv, Register, Client, Starts, Retires, Acquires, Collects;
    var th := s.threads[t];
    if Register(s, s', t, th) {
      RegisterKeepsInv(s, s', t);
    } else if Client(s, s') {
      ClientKeepsInv(s, s', t);
    } else if Starts(s, s', t, th) || Retires(s, s', t, th) {
      StartsKeepsInv(s, s', t);
    } else if th.pc.Acquire? && th.pc.loc < |s.locs| && Acquires(s, s', t, th) {
      AcquiresKeepsInv(s, s', t);
    } else {
      CollectsKeepsInv(s, s', t);
    }
  }

  // ---------- every run ----------

  lemma InitInv(s: State)
    requires Init(s)
    ensures Inv(s)
  {
  }

  lemma {:induction false} RunInv(run: seq<State>, i: nat)
    requires Run(run) && i < |run|
    ensures Inv(run[i])
  {
    hide Inv, Step, Init;
    if i == 0 {
      InitInv(run[0]);
    } else {
      RunInv(run, i - 1);
      assert Next(run[i - 1], run[i]);
      var t: nat :| Step(run[i - 1], run[i], t);
      StepKeepsInv(run[i - 1], run[i], t);
    }
  }

  // ---------- the properties ----------

  /** No object is reclaimed while a thread holds it through a validated hazard pointer: it is free in no state of any
      run. In particular a reference is validated only while the object has not been reclaimed. */
  lemma NoHeldObjectIsFree(run: seq<State>, k: nat, t: nat, i: nat, o: Obj)
    requires Run(run) && k < |run| && t < |run[k].threads| && Holds(run[k].hps, run[k].threads[t], i, o)
    ensures o < |run[k].objs| && !run[k].objs[o].Free?
  {
    RunInv(run, k);
    assert ThreadOk(run[k], t, run[k].threads[t]);
  }

  /** A collection reclaims an object only if the references it has read, from every slot of every thread registered when
      it began, do not include it, and then nobody holds it. */
  lemma OnlyUnheldIsReclaimed(run: seq<State>, k: nat, t: nat, u: nat, i: nat)
    requires Run(run) && k < |run| && t < |run[k].threads| && u < |run[k].threads|
    requires run[k].threads[t].pc.Gc? && run[k].threads[t].pc.gpc.Traverse?
    requires run[k].threads[t].pc.gpc.kept < |run[k].threads[t].queue|
    requires run[k].threads[t].queue[run[k].threads[t].pc.gpc.kept] !in run[k].threads[t].pc.gpc.refs
    ensures !Holds(run[k].hps, run[k].threads[u], i, run[k].threads[t].queue[run[k].threads[t].pc.gpc.kept])
  {
    RunInv(run, k);
    NoHolder(run[k], t, u, i, run[k].threads[t].queue[run[k].threads[t].pc.gpc.kept]);
  }

  /** A retired object waits exactly once, in its owner's queue, which never exceeds its limit; a slot not allocated holds
      nothing. */
  lemma RetiredIsKept(run: seq<State>, k: nat, o: Obj)
    requires Run(run) && k < |run| && o < |run[k].objs| && run[k].objs[o].Retired?
    ensures var s := run[k];
            && s.objs[o].owner < |s.threads| && |s.threads[s.objs[o].owner].queue| <= s.maxobjs
            && multiset(s.threads[s.objs[o].owner].queue)[o] == 1
    ensures forall t :: 0 <= t < |run[k].threads| && o in run[k].threads[t].queue ==> t == run[k].objs[o].owner
  {
    RunInv(run, k);
    var s := run[k];
    assert Kept(s.threads, o, s.objs[o]);
    var t := s.objs[o].owner;
    assert ThreadOk(s, t, s.threads[t]);
    Once(s.threads[t].queue, o);
    forall u | 0 <= u < |s.threads| && o in s.threads[u].queue ensures u == t {
      assert ThreadOk(s, u, s.threads[u]);
    }
  }
}

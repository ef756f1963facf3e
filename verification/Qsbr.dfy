/** Reclamation by quiescent states as a machine of atomic steps. Threads register, go quiescent and deactivate while
    others read the array of intervals one entry at a time. */
module Qsbr {
  import opened Sequences
  import opened RingIndex

  type Obj = nat

  /** Larger than any interval. */
  const Infinite: nat := 0xFFFF_FFFF_FFFF_FFFF

  /** The life of a shared object: linked, removed by its user, being retired, retired by a thread, reclaimed. */
  datatype Status = Linked | Unlinked | Claimed(thread: nat) | Retired(owner: nat, interval: nat) | Reclaimed

  datatype Entry = Entry(obj: Obj, interval: nat)

  /** A collection, for a retirement that found no space or by itself. `vals` are the intervals read (history). */
  datatype GcPc =
    | LoadWatermark
    | Minimum(num: nat, min: nat, vals: seq<nat>)
    | Sweep(min: nat, vals: seq<nat>)

  datatype Pc =
    | Out
    | Watermark(idx: nat)
    | Ready
    | Activate
    | Activating(current: nat)
    | Quiescent(current: nat)
    | Freeing
    | CheckSpace(obj: Obj)
    | FetchAdd(obj: Obj)
    | Put(obj: Obj, previous: nat)
    | Gc(pending: Option<Obj>, gpc: GcPc)
    | Swept(pending: Option<Obj>, min: nat, vals: seq<nat>)

  /** `refs` are the objects the thread holds references to; `queue` those it has retired, oldest first. */
  datatype Thread = Thread(idx: Option<nat>, interval: nat, recur: nat, refs: set<Obj>, queue: seq<Entry>, pc: Pc)

  /** `used` are the allocated thread indices; `log` are the objects called back, in order (history). */
  datatype State = State(current: nat, highWm: nat, intervals: seq<nat>, maxobjs: nat, used: set<nat>, objs: seq<Status>,
                         threads: seq<Thread>, log: seq<Obj>)

  ghost predicate Init(s: State) {
    && s.current == s.highWm == 0 && s.used == {} && s.log == [] && 0 < s.maxobjs
    && (forall i :: 0 <= i < |s.intervals| ==> s.intervals[i] == Infinite)
    && (forall o :: 0 <= o < |s.objs| ==> s.objs[o].Linked?)
    && forall t :: 0 <= t < |s.threads| ==> s.threads[t] == Thread(None, Infinite, 0, {}, [], Out)
  }

  predicate Active(th: Thread) { th.idx.Some? && th.interval != Infinite && th.pc.Ready? }

  // ---------- registration and quiescence ----------

  predicate Register(s: State, s': State, t: nat, th: Thread)
    requires t < |s.threads|
  {
    match th.pc
    case Out =>
      exists i :: 0 <= i < |s.intervals| && i !in s.used &&
        s' == s.(used := s.used + {i}, threads := s.threads[t := th.(idx := Some(i), recur := 0, pc := Watermark(i))])
    case Watermark(i) =>
      s' == s.(highWm := if s.highWm < i + 1 then i + 1 else s.highWm, threads := s.threads[t := th.(pc := Activate)])
    case Activate => s' == s.(threads := s.threads[t := th.(pc := Activating(s.current))])
    case Activating(current) =>
      && th.idx.Some? && th.idx.value < |s.intervals|
      && s' == s.(intervals := s.intervals[th.idx.value := current],
                  threads := s.threads[t := th.(interval := current, pc := Ready)])
    case Freeing =>
      && th.idx.Some?
      && s' == s.(used := s.used - {th.idx.value}, threads := s.threads[t := th.(idx := None, pc := Out)])
    case _ => false
  }

  /** The steps of a registered thread outside of retirement. A release looks only at the count of nested acquires, so a
      thread may also release after it has deactivated. Whoever goes quiescent or deactivates has dropped all its
      references, and references are taken to linked objects only. */
  predicate Use(s: State, s': State, t: nat, th: Thread)
    requires t < |s.threads|
  {
    match th.pc
    case Ready =>
      || (th.refs == {} && s' == s.(threads := s.threads[t := th.(pc := Activate)]))
      || (Active(th) && th.refs == {} && s' == s.(threads := s.threads[t := th.(pc := Quiescent(s.current))]))
      || (Active(th) && s' == s.(threads := s.threads[t := th.(recur := th.recur + 1)]))
      || (1 < th.recur && s' == s.(threads := s.threads[t := th.(recur := th.recur - 1)]))
      || (th.recur == 1 && th.refs == {}
          && s' == s.(threads := s.threads[t := th.(recur := 0, pc := Quiescent(s.current))]))
      || (th.refs == {} && th.idx.Some? && th.idx.value < |s.intervals|
          && s' == s.(intervals := s.intervals[th.idx.value := Infinite],
                      threads := s.threads[t := th.(interval := Infinite)]))
      || (th.refs == {} && th.queue == [] && th.idx.Some? && th.idx.value < |s.intervals|
          && s' == s.(intervals := s.intervals[th.idx.value := Infinite],
                      threads := s.threads[t := th.(interval := Infinite, pc := Freeing)]))
      || (Active(th) && exists o :: 0 <= o < |s.objs| && s.objs[o].Linked?
                          && s' == s.(threads := s.threads[t := th.(refs := th.refs + {o})]))
      || (exists o :: o in th.refs && s' == s.(threads := s.threads[t := th.(refs := th.refs - {o})]))
      || (exists o :: 0 <= o < |s.objs| && s.objs[o].Linked? && s' == s.(objs := s.objs[o := Unlinked]))
    case Quiescent(current) =>
      if current == th.interval then s' == s.(threads := s.threads[t := th.(pc := Ready)])
      else
        && th.idx.Some? && th.idx.value < |s.intervals|
        && s' == s.(intervals := s.intervals[th.idx.value := current],
                    threads := s.threads[t := th.(interval := current, pc := Ready)])
    case _ => false
  }

  // ---------- retirement ----------

  predicate Retire(s: State, s': State, t: nat, th: Thread)
    requires t < |s.threads|
  {
    match th.pc
    case Ready =>
      || (exists o :: 0 <= o < |s.objs| && s.objs[o].Unlinked? &&
            s' == s.(objs := s.objs[o := Claimed(t)], threads := s.threads[t := th.(pc := CheckSpace(o))]))
      || (th.queue != [] && s' == s.(threads := s.threads[t := th.(pc := Gc(None, LoadWatermark))]))
    case CheckSpace(o) =>
      s' == s.(threads := s.threads[t := th.(pc := if |th.queue| == s.maxobjs then Gc(Some(o), LoadWatermark)
                                                   else FetchAdd(o))])
    case FetchAdd(o) =>
      && o < |s.objs| && s.current + 1 < Infinite
      && s' == s.(current := s.current + 1, objs := s.objs[o := Retired(t, s.current)],
                  threads := s.threads[t := th.(pc := Put(o, s.current))])
    case Put(o, previous) =>
      s' == s.(threads := s.threads[t := th.(queue := th.queue + [Entry(o, previous)], pc := Ready)])
    case Swept(pending, _, _) =>
      if pending.None? then s' == s.(threads := s.threads[t := th.(pc := Ready)])
      else if |th.queue| == s.maxobjs then
        && pending.value < |s.objs|
        && s' == s.(objs := s.objs[pending.value := Unlinked], threads := s.threads[t := th.(pc := Ready)])
      else s' == s.(threads := s.threads[t := th.(pc := FetchAdd(pending.value))])
    case _ => false
  }

  predicate Collect(s: State, s': State, t: nat, th: Thread)
    requires t < |s.threads| && th.pc.Gc?
  {
    match th.pc.gpc
    case LoadWatermark =>
      s' == s.(threads := s.threads[t := th.(pc := Gc(th.pc.pending, Minimum(s.highWm, Infinite, [])))])
    case Minimum(num, min, vals) =>
      if |vals| < num then
        && |vals| < |s.intervals|
        && var v := s.intervals[|vals|];
           s' == s.(threads := s.threads[t := th.(pc :=
                   Gc(th.pc.pending, Minimum(num, if v < min then v else min, vals + [v])))])
      else s' == s.(threads := s.threads[t := th.(pc := Gc(th.pc.pending, Sweep(min, vals)))])
    case Sweep(min, vals) =>
      if th.queue == [] || min <= th.queue[0].interval then
        s' == s.(threads := s.threads[t := th.(pc := Swept(th.pc.pending, min, vals))])
      else
        && th.queue[0].obj < |s.objs|
        && s' == s.(objs := s.objs[th.queue[0].obj := Reclaimed], log := s.log + [th.queue[0].obj],
                    threads := s.threads[t := th.(queue := th.queue[1..])])
  }

  predicate Step(s: State, s': State, t: nat) {
    && t < |s.threads|
    && var th := s.threads[t];
       Register(s, s', t, th) || Use(s, s', t, th) || Retire(s, s', t, th) || (th.pc.Gc? && Collect(s, s', t, th))
  }

  ghost predicate Next(s: State, s': State) { exists t: nat :: Step(s, s', t) }

  ghost predicate Run(run: seq<State>) {
    && |run| > 0 && Init(run[0])
    && forall i :: 0 <= i < |run| - 1 ==> Next(run[i], run[i + 1])
  }

  // ---------- the invariant ----------

  /** Retired objects wait in the order of strictly increasing intervals. */
  ghost predicate QueueOk(objs: seq<Status>, t: nat, queue: seq<Entry>, bound: nat) {
    && (forall k :: 0 <= k < |queue| ==>
          queue[k].obj < |objs| && objs[queue[k].obj] == Retired(t, queue[k].interval) && queue[k].interval < bound)
    && forall j, k :: 0 <= j < k < |queue| ==> queue[j].interval < queue[k].interval
  }

  /** A thread that holds a reference has published an interval no later than the object's retirement. */
  ghost predicate RefsOk(objs: seq<Status>, intervals: seq<nat>, highWm: nat, th: Thread) {
    th.refs != {} ==>
      && th.idx.Some? && th.idx.value < |intervals| && th.idx.value < highWm
      && intervals[th.idx.value] == th.interval < Infinite
      && forall o :: o in th.refs ==>
           o < |objs| && !objs[o].Reclaimed? && (objs[o].Retired? ==> th.interval <= objs[o].interval)
  }

  predicate Registered(pc: Pc) { !pc.Out? }

  ghost predicate IdxOk(s: State, th: Thread) {
    && (th.idx.Some? <==> Registered(th.pc))
    && (th.idx.Some? ==> th.idx.value in s.used && th.idx.value < |s.intervals| && s.intervals[th.idx.value] == th.interval)
    && (th.pc.Watermark? ==> th.idx == Some(th.pc.idx))
    && (th.idx.Some? && !th.pc.Watermark? ==> th.idx.value < s.highWm)
    && (th.interval != Infinite ==> th.interval <= s.current && th.idx.Some?)
  }

  /** The smallest interval read so far. */
  ghost predicate IsMin(min: nat, vals: seq<nat>) {
    && (forall k :: 0 <= k < |vals| ==> min <= vals[k])
    && (min == Infinite || min in vals)
  }

  ghost predicate PcOk(s: State, t: nat, th: Thread) {
    match th.pc
    case Out => th.refs == {} && th.queue == []
    case Watermark(_) => th.refs == {}
    case Activate => th.refs == {}
    case Activating(current) => th.refs == {} && current <= s.current
    case Quiescent(current) => th.refs == {} && current <= s.current
    case Freeing => th.refs == {} && th.queue == [] && th.interval == Infinite
    case CheckSpace(o) => o < |s.objs| && s.objs[o] == Claimed(t)
    case FetchAdd(o) => o < |s.objs| && s.objs[o] == Claimed(t) && |th.queue| < s.maxobjs
    case Put(o, previous) =>
      && o < |s.objs| && s.objs[o] == Retired(t, previous) && |th.queue| < s.maxobjs && previous < s.current
      && forall k :: 0 <= k < |th.queue| ==> th.queue[k].interval < previous
    case Gc(pending, gpc) =>
      && (pending.Some? ==> pending.value < |s.objs| && s.objs[pending.value] == Claimed(t))
      && (gpc.Minimum? ==> |gpc.vals| <= gpc.num <= s.highWm && IsMin(gpc.min, gpc.vals))
      && (gpc.Sweep? ==> IsMin(gpc.min, gpc.vals))
    case Swept(pending, min, vals) =>
      && (pending.Some? ==> pending.value < |s.objs| && s.objs[pending.value] == Claimed(t))
      && IsMin(min, vals) && forall k :: 0 <= k < |th.queue| ==> min <= th.queue[k].interval
    case _ => true
  }

  ghost predicate ThreadOk(s: State, t: nat, th: Thread) {
    && QueueOk(s.objs, t, th.queue, s.current) && |th.queue| <= s.maxobjs
    && RefsOk(s.objs, s.intervals, s.highWm, th) && IdxOk(s, th) && PcOk(s, t, th)
  }

  /** A collection is not misled by a thread that holds one of the collector's objects: it has yet to read its interval
      or its minimum is no later. */
  ghost predicate Seen(gc: Thread, holder: Thread) {
    forall k :: 0 <= k < |gc.queue| && gc.queue[k].obj in holder.refs && gc.pc.Gc? ==>
      match gc.pc.gpc
      case LoadWatermark => true
      case Minimum(num, min, vals) =>
        (holder.idx.Some? && |vals| <= holder.idx.value < num) || min <= holder.interval
      case Sweep(min, vals) => min <= holder.interval
  }

  ghost predicate LogOk(objs: seq<Status>, log: seq<Obj>) {
    && (forall o :: 0 <= o < |objs| ==> (objs[o].Reclaimed? <==> o in log))
    && (forall k :: 0 <= k < |log| ==> log[k] < |objs|)
    && forall j, k :: 0 <= j < k < |log| ==> log[j] != log[k]
  }

  /** A retired object waits in its owner's queue, or is about to. */
  ghost predicate Kept(threads: seq<Thread>, o: Obj, status: Status) {
    status.Retired? ==>
      && status.owner < |threads|
      && var th := threads[status.owner];
         Entry(o, status.interval) in th.queue || th.pc == Put(o, status.interval)
  }

  /** A thread index not in use has no interval. */
  ghost predicate FreeOk(intervals: seq<nat>, used: set<nat>) {
    forall i :: 0 <= i < |intervals| && i !in used ==> intervals[i] == Infinite
  }

  ghost predicate Inv(s: State) {
    && s.highWm <= |s.intervals| && s.current < Infinite && LogOk(s.objs, s.log) && FreeOk(s.intervals, s.used)
    && (forall t :: 0 <= t < |s.threads| ==> ThreadOk(s, t, s.threads[t]))
    && AllSeen(s.threads) && IdxUnique(s.threads) && AllKept(s.threads, s.objs)
  }

  ghost predicate AllSeen(threads: seq<Thread>) {
    forall t, u :: 0 <= t < |threads| && 0 <= u < |threads| ==> Seen(threads[t], threads[u])
  }

  ghost predicate IdxUnique(threads: seq<Thread>) {
    forall t, u :: 0 <= t < u < |threads| && threads[t].idx.Some? ==> threads[t].idx != threads[u].idx
  }

  ghost predicate AllKept(threads: seq<Thread>, objs: seq<Status>) {
    forall o :: 0 <= o < |objs| ==> Kept(threads, o, objs[o])
  }

  // ---------- one step ----------

  predicate OthersStatus(status: Status, t: nat) {
    (status.Claimed? && status.thread != t) || (status.Retired? && status.owner != t) || status.Reclaimed?
  }

  /** What a step of thread t leaves alone: objects that others retire or have retired, and their intervals. */
  ghost predicate Frame(s: State, s': State, t: nat) {
    && t < |s.threads| && |s'.threads| == |s.threads| && |s'.objs| == |s.objs| && |s'.intervals| == |s.intervals|
    && s'.maxobjs == s.maxobjs && s.current <= s'.current && s.highWm <= s'.highWm
    && (forall u :: 0 <= u < |s.threads| && u != t ==> s'.threads[u] == s.threads[u])
    && (forall i :: i in s.used ==> i in s'.used || s.threads[t].idx == Some(i))
    && (forall i :: 0 <= i < |s.intervals| ==> s'.intervals[i] == s.intervals[i] || s.threads[t].idx == Some(i))
    && (forall o :: 0 <= o < |s.objs| ==> ObjMoves(s, s', t, o))
  }

  /** How an object's status may change in a step of thread t. */
  ghost predicate ObjMoves(s: State, s': State, t: nat, o: Obj)
    requires o < |s.objs| == |s'.objs|
  {
    s'.objs[o] == s.objs[o]
    || (!OthersStatus(s.objs[o], t)
        && (s'.objs[o].Retired? ==> s'.objs[o].owner == t && s.current <= s'.objs[o].interval)
        && (s'.objs[o].Reclaimed? ==> forall u :: 0 <= u < |s.threads| ==> o !in s.threads[u].refs))
  }

  lemma OtherStays(s: State, s': State, t: nat, u: nat)
    requires Frame(s, s', t) && u < |s.threads| && u != t && ThreadOk(s, u, s.threads[u])
    requires s.threads[u].idx.Some? ==> s.threads[t].idx != s.threads[u].idx
    ensures ThreadOk(s', u, s.threads[u])
  {
    var tu := s.threads[u];
    assert QueueOk(s'.objs, u, tu.queue, s'.current) by {
      hide RefsOk, IdxOk, PcOk;
      forall k | 0 <= k < |tu.queue| ensures s'.objs[tu.queue[k].obj] == Retired(u, tu.queue[k].interval) {
        assert ObjMoves(s, s', t, tu.queue[k].obj);
      }
    }
    assert RefsOk(s'.objs, s'.intervals, s'.highWm, tu) by {
      hide QueueOk, PcOk;
      forall o | o in tu.refs
        ensures o < |s'.objs| && !s'.objs[o].Reclaimed? && (s'.objs[o].Retired? ==> tu.interval <= s'.objs[o].interval)
      {
        assert ObjMoves(s, s', t, o);
      }
    }
    assert IdxOk(s', tu) by { hide QueueOk, PcOk, RefsOk, ObjMoves; }
    hide QueueOk, RefsOk, IdxOk;
    OtherPc(s, s', t, u);
  }

  lemma OtherPc(s: State, s': State, t: nat, u: nat)
    requires Frame(s, s', t) && u < |s.threads| && u != t && PcOk(s, u, s.threads[u])
    ensures PcOk(s', u, s.threads[u])
  {
    var pc := s.threads[u].pc;
    if pc.CheckSpace? || pc.FetchAdd? || pc.Put? {
      assert ObjMoves(s, s', t, pc.obj);
    } else if (pc.Gc? || pc.Swept?) && pc.pending.Some? {
      assert ObjMoves(s, s', t, pc.pending.value);
    }
  }

  /** The parts of the invariant about single threads and objects, after a step of thread t. */
  lemma Others(s: State, s': State, t: nat)
    requires Inv(s) && Frame(s, s', t) && ThreadOk(s', t, s'.threads[t])
    ensures forall u :: 0 <= u < |s'.threads| ==> ThreadOk(s', u, s'.threads[u])
  {
    hide ThreadOk, Frame;
    FrameThreads(s, s', t);
    forall u | 0 <= u < |s'.threads| ensures ThreadOk(s', u, s'.threads[u]) {
      if u != t {
        OtherStays(s, s', t, u);
      }
    }
  }

  lemma FrameThreads(s: State, s': State, t: nat)
    requires Frame(s, s', t)
    ensures t < |s.threads| == |s'.threads| && forall u :: 0 <= u < |s.threads| && u != t ==> s'.threads[u] == s.threads[u]
  {
  }

  /** A thread that is not collecting, or collects as before, and takes references to linked objects only. */
  lemma SeenStays(s: State, t: nat, th': Thread)
    requires Inv(s) && t < |s.threads|
    requires th'.pc.Gc? ==> (th'.pc.gpc == LoadWatermark || (s.threads[t].pc.Gc? && th'.pc.gpc == s.threads[t].pc.gpc))
                            && th'.queue == s.threads[t].queue
    requires th'.refs != {} ==> th'.idx == s.threads[t].idx && th'.interval == s.threads[t].interval
    requires forall o :: o in th'.refs ==> o in s.threads[t].refs || (o < |s.objs| && s.objs[o].Linked?)
    ensures AllSeen(s.threads[t := th'])
  {
    var threads' := s.threads[t := th'];
    forall g, u | 0 <= g < |threads'| && 0 <= u < |threads'| ensures Seen(threads'[g], threads'[u]) {
      assert Seen(s.threads[g], s.threads[u]);
      assert ThreadOk(s, g, s.threads[g]);
      assert QueueOk(s.objs, g, s.threads[g].queue, s.current);
      hide ThreadOk, Inv;
    }
  }

  // ---------- registration and use ----------

  lemma RegisterKeepsThreads(s: State, s': State, t: nat)
    requires Inv(s) && t < |s.threads| && Register(s, s', t, s.threads[t])
    ensures Frame(s, s', t) && ThreadOk(s', t, s'.threads[t])
    ensures s'.highWm <= |s'.intervals| && s'.current < Infinite && s'.objs == s.objs && s'.log == s.log
    ensures IdxUnique(s'.threads) && FreeOk(s'.intervals, s'.used)
    ensures s'.threads == s.threads[t := s'.threads[t]] && s'.threads[t].queue == s.threads[t].queue
    ensures s'.threads[t].refs == {} && !s'.threads[t].pc.Gc? && !s.threads[t].pc.Put?
  {
    assert ThreadOk(s, t, s.threads[t]);
    forall u | 0 <= u < |s.threads| && s.threads[u].idx.Some? ensures s.threads[u].idx.value in s.used {
      assert ThreadOk(s, u, s.threads[u]);
    }
    hide AllSeen, Seen, Kept, LogOk;
  }

  /** An owner that keeps its queue keeps its objects. */
  lemma KeptStays(threads: seq<Thread>, objs: seq<Status>, t: nat, th': Thread)
    requires AllKept(threads, objs) && t < |threads|
    requires forall e :: e in threads[t].queue ==> e in th'.queue
    requires threads[t].pc.Put? ==> th'.pc == threads[t].pc
    ensures AllKept(threads[t := th'], objs)
  {
    forall o | 0 <= o < |objs| ensures Kept(threads[t := th'], o, objs[o]) {
      assert Kept(threads, o, objs[o]);
    }
  }

  lemma RegisterKeepsInv(s: State, s': State, t: nat)
    requires Inv(s) && t < |s.threads| && Register(s, s', t, s.threads[t])
    ensures Inv(s')
  {
    RegisterKeepsThreads(s, s', t);
    SeenStays(s, t, s'.threads[t]);
    Others(s, s', t);
    KeptStays(s.threads, s.objs, t, s'.threads[t]);
    hide ThreadOk, AllSeen, IdxUnique, AllKept, LogOk, FreeOk;
  }

  lemma UseKeepsThread(s: State, s': State, t: nat)
    requires t < |s.threads| && ThreadOk(s, t, s.threads[t]) && s.current < Infinite && Use(s, s', t, s.threads[t])
    ensures |s'.threads| == |s.threads| && ThreadOk(s', t, s'.threads[t])
  {
  }

  lemma UseFrame(s: State, s': State, t: nat)
    requires t < |s.threads| && ThreadOk(s, t, s.threads[t]) && Use(s, s', t, s.threads[t]) && FreeOk(s.intervals, s.used)
    ensures Frame(s, s', t) && FreeOk(s'.intervals, s'.used)
    ensures s'.highWm == s.highWm && s'.current == s.current && s'.log == s.log
    ensures |s'.intervals| == |s.intervals|
    ensures s'.threads == s.threads[t := s'.threads[t]] && s'.threads[t].queue == s.threads[t].queue
    ensures s'.threads[t].idx == s.threads[t].idx && !s'.threads[t].pc.Gc? && !s.threads[t].pc.Put?
  {
    hide QueueOk, RefsOk;
  }

  /** The log and the queues do not care about an object that is neither retired nor reclaimed, before and after. */
  lemma ObjSet(threads: seq<Thread>, objs: seq<Status>, log: seq<Obj>, o: Obj, status: Status)
    requires o < |objs| && !objs[o].Reclaimed? && !status.Reclaimed? && !status.Retired?
    requires LogOk(objs, log) && AllKept(threads, objs)
    ensures LogOk(objs[o := status], log) && AllKept(threads, objs[o := status])
  {
    var objs' := objs[o := status];
    forall p | 0 <= p < |objs| ensures Kept(threads, p, objs'[p]) {
      assert Kept(threads, p, objs[p]);
    }
  }

  /** A use changes at most one object, from linked to unlinked, and takes references to linked objects only. */
  lemma UseEffect(s: State, s': State, t: nat)
    requires t < |s.threads| && PcOk(s, t, s.threads[t]) && Use(s, s', t, s.threads[t])
    ensures s'.objs == s.objs || exists o :: 0 <= o < |s.objs| && s.objs[o].Linked? && s'.objs == s.objs[o := Unlinked]
    ensures s'.threads == s.threads || s'.threads == s.threads[t := s'.threads[t]]
    ensures |s'.threads| == |s.threads|
    ensures forall o :: o in s'.threads[t].refs ==> o in s.threads[t].refs || (o < |s.objs| && s.objs[o].Linked?)
    ensures s'.threads[t].refs != {} ==>
              s'.threads[t].idx == s.threads[t].idx && s'.threads[t].interval == s.threads[t].interval
  {
  }

  lemma UseKeepsInv(s: State, s': State, t: nat)
    requires Inv(s) && t < |s.threads| && Use(s, s', t, s.threads[t])
    ensures Inv(s')
  {
    hide ThreadOk, AllSeen, IdxUnique, AllKept, LogOk, FreeOk, Use, Frame;
    assert Quiet(s, t) by { UseIsQuiet(s, s', t); }
    assert ThreadOk(s, t, s.threads[t]);
    UseKeepsThread(s, s', t);
    UseFrame(s, s', t);
    assert IdxUnique(s'.threads) by { SameIdx(s.threads, t, s'.threads[t]); }
    assert PcOk(s, t, s.threads[t]) by { ThreadPc(s, t); }
    UseEffect(s, s', t);
    SeenStays(s, t, s'.threads[t]);
    Others(s, s', t);
    KeptStays(s.threads, s.objs, t, s'.threads[t]);
    if s'.objs != s.objs {
      var o :| 0 <= o < |s.objs| && s.objs[o].Linked? && s'.objs == s.objs[o := Unlinked];
      ObjSet(s'.threads, s.objs, s.log, o, Unlinked);
    }
  }

  lemma SameIdx(threads: seq<Thread>, t: nat, th': Thread)
    requires IdxUnique(threads) && t < |threads| && th'.idx == threads[t].idx
    ensures IdxUnique(threads[t := th'])
  {
  }

  lemma ThreadPc(s: State, t: nat)
    requires Inv(s) && t < |s.threads|
    ensures PcOk(s, t, s.threads[t])
  {
    assert ThreadOk(s, t, s.threads[t]);
  }

  ghost predicate Quiet(s: State, t: nat)
    requires t < |s.threads|
  {
    s.threads[t].pc.Ready? || s.threads[t].pc.Quiescent?
  }

  lemma UseIsQuiet(s: State, s': State, t: nat)
    requires t < |s.threads| && Use(s, s', t, s.threads[t])
    ensures Quiet(s, t)
  {
  }

  // ---------- retirement ----------

  lemma RetireFrame(s: State, s': State, t: nat)
    requires Inv(s) && t < |s.threads| && Retire(s, s', t, s.threads[t])
    ensures Frame(s, s', t)
    ensures s'.highWm == s.highWm && s'.current < Infinite && s'.log == s.log
    ensures s'.threads == s.threads[t := s'.threads[t]]
    ensures s'.threads[t].idx == s.threads[t].idx && s'.threads[t].interval == s.threads[t].interval
    ensures s'.threads[t].refs == s.threads[t].refs && s'.intervals == s.intervals && s'.used == s.used
    ensures s'.threads[t].pc.Gc? ==>
              s'.threads[t].pc.gpc == LoadWatermark && s'.threads[t].queue == s.threads[t].queue
  {
    ThreadPc(s, t);
    hide AllSeen, Seen, Kept, LogOk, FreeOk, IdxUnique, AllKept, ThreadOk;
  }

  lemma RetireQueue(s: State, s': State, t: nat)
    requires t < |s.threads| && ThreadOk(s, t, s.threads[t]) && s.current < Infinite && Retire(s, s', t, s.threads[t])
    ensures |s'.threads| == |s.threads| && QueueOk(s'.objs, t, s'.threads[t].queue, s'.current)
    ensures |s'.threads[t].queue| <= s'.maxobjs == s.maxobjs
  {
    hide RefsOk, IdxOk;
  }

  lemma RetireRefs(s: State, s': State, t: nat)
    requires t < |s.threads| && ThreadOk(s, t, s.threads[t]) && s.current < Infinite && Retire(s, s', t, s.threads[t])
    ensures |s'.threads| == |s.threads| && RefsOk(s'.objs, s'.intervals, s'.highWm, s'.threads[t])
    ensures IdxOk(s', s'.threads[t])
  {
    hide QueueOk;
  }

  lemma RetirePc(s: State, s': State, t: nat)
    requires t < |s.threads| && ThreadOk(s, t, s.threads[t]) && s.current < Infinite && Retire(s, s', t, s.threads[t])
    ensures |s'.threads| == |s.threads| && PcOk(s', t, s'.threads[t])
  {
    hide RefsOk, IdxOk;
  }

  lemma RetireKeepsThreads(s: State, s': State, t: nat)
    requires t < |s.threads| && ThreadOk(s, t, s.threads[t]) && s.current < Infinite && Retire(s, s', t, s.threads[t])
    ensures |s'.threads| == |s.threads| && ThreadOk(s', t, s'.threads[t])
  {
    hide QueueOk, RefsOk, PcOk, IdxOk, Retire;
    RetireQueue(s, s', t);
    RetireRefs(s, s', t);
    RetirePc(s, s', t);
  }

  /** Which object a step of a retirement is about. */
  lemma RetireEffect(s: State, s': State, t: nat)
    requires Inv(s) && t < |s.threads| && Retire(s, s', t, s.threads[t])
    ensures LogOk(s'.objs, s'.log) && AllKept(s'.threads, s'.objs)
  {
    var th, th' := s.threads[t], s'.threads[t];
    assert ThreadOk(s, t, th);
    hide AllSeen, Seen, FreeOk, IdxUnique, Frame, QueueOk, RefsOk, IdxOk;
    if th.pc.FetchAdd? {
      assert s'.objs == s.objs[th.pc.obj := Retired(t, s.current)];
      forall o | 0 <= o < |s'.objs| ensures Kept(s'.threads, o, s'.objs[o]) {
        assert Kept(s.threads, o, s.objs[o]);
      }
    } else if th.pc.Put? {
      forall o | 0 <= o < |s'.objs| ensures Kept(s'.threads, o, s'.objs[o]) {
        assert Kept(s.threads, o, s.objs[o]);
      }
    } else {
      hide LogOk, AllKept;
      KeptStays(s.threads, s.objs, t, th');
      if s'.objs != s.objs {
        var o := if th.pc.Ready? then th'.pc.obj else th.pc.pending.value;
        ObjSet(s'.threads, s.objs, s.log, o, s'.objs[o]);
      }
    }
  }

  lemma RetireKeepsInv(s: State, s': State, t: nat)
    requires Inv(s) && t < |s.threads| && Retire(s, s', t, s.threads[t])
    ensures Inv(s')
  {
    RetireFrame(s, s', t);
    assert ThreadOk(s, t, s.threads[t]);
    RetireKeepsThreads(s, s', t);
    RetireEffect(s, s', t);
    hide Retire, Frame, ThreadOk, AllSeen, LogOk, AllKept;
    SeenStays(s, t, s'.threads[t]);
    Others(s, s', t);
  }

  // ---------- collection ----------

  /** Nobody holds an object that a collection is about to call back. */
  lemma NoHolder(s: State, t: nat, u: nat)
    requires Inv(s) && t < |s.threads| && s.threads[t].pc.Gc? && s.threads[t].pc.gpc.Sweep?
    requires s.threads[t].queue != [] && s.threads[t].queue[0].interval < s.threads[t].pc.gpc.min && u < |s.threads|
    ensures s.threads[t].queue[0].obj !in s.threads[u].refs
  {
    assert ThreadOk(s, t, s.threads[t]) && ThreadOk(s, u, s.threads[u]);
    assert Seen(s.threads[t], s.threads[u]);
  }

  /** The object called back, if any, is held by nobody. */
  lemma CollectUnheld(s: State, s': State, t: nat)
    requires Inv(s) && t < |s.threads| && s.threads[t].pc.Gc? && Collect(s, s', t, s.threads[t])
    ensures |s'.objs| == |s.objs|
    ensures forall o, u :: 0 <= o < |s.objs| && s'.objs[o] != s.objs[o] && 0 <= u < |s.threads| ==> o !in s.threads[u].refs
  {
    var th := s.threads[t];
    if th.pc.gpc.Sweep? && th.queue != [] && th.queue[0].interval < th.pc.gpc.min {
      forall u | 0 <= u < |s.threads| ensures th.queue[0].obj !in s.threads[u].refs {
        NoHolder(s, t, u);
      }
    }
    hide Inv;
  }

  lemma CollectFrame(s: State, s': State, t: nat)
    requires Inv(s) && t < |s.threads| && s.threads[t].pc.Gc? && Collect(s, s', t, s.threads[t])
    ensures Frame(s, s', t)
    ensures s'.threads == s.threads[t := s'.threads[t]] && s'.intervals == s.intervals && s'.used == s.used
    ensures s'.highWm == s.highWm && s'.current == s.current && s'.maxobjs == s.maxobjs
    ensures s'.threads[t].idx == s.threads[t].idx && s'.threads[t].interval == s.threads[t].interval
    ensures s'.threads[t].refs == s.threads[t].refs
  {
    CollectUnheld(s, s', t);
    assert ThreadOk(s, t, s.threads[t]);
    hide Inv, RefsOk, IdxOk, PcOk;
  }

  lemma CollectKeepsThreads(s: State, s': State, t: nat)
    requires Inv(s) && t < |s.threads| && s.threads[t].pc.Gc? && Collect(s, s', t, s.threads[t])
    ensures |s'.threads| == |s.threads| && ThreadOk(s', t, s'.threads[t])
  {
    CollectFrame(s, s', t);
    CollectUnheld(s, s', t);
    assert ThreadOk(s, t, s.threads[t]);
    assert s.highWm <= |s.intervals|;
    CollectQueue(s, s', t);
    CollectPc(s, s', t);
    hide Inv, Frame, Collect, QueueOk, PcOk;
  }

  lemma CollectQueue(s: State, s': State, t: nat)
    requires t < |s.threads| && ThreadOk(s, t, s.threads[t]) && s.threads[t].pc.Gc? && Collect(s, s', t, s.threads[t])
    ensures |s'.threads| == |s.threads| && QueueOk(s'.objs, t, s'.threads[t].queue, s'.current)
    ensures |s'.threads[t].queue| <= s.maxobjs
  {
    hide RefsOk, IdxOk, PcOk;
  }

  lemma CollectPc(s: State, s': State, t: nat)
    requires t < |s.threads| && ThreadOk(s, t, s.threads[t]) && s.threads[t].pc.Gc? && Collect(s, s', t, s.threads[t])
    requires s.highWm <= |s.intervals|
    ensures |s'.threads| == |s.threads| && PcOk(s', t, s'.threads[t])
    ensures s'.threads[t].pc.Gc? || s'.threads[t].pc.Swept?
  {
    hide RefsOk, IdxOk;
  }

  /** A collection that reads on, or sweeps on, still sees a holder. */
  lemma SeenOn(s: State, s': State, t: nat, holder: Thread)
    requires t < |s.threads| && s.threads[t].pc.Gc? && Collect(s, s', t, s.threads[t]) && s.highWm <= |s.intervals|
    requires Seen(s.threads[t], holder) && RefsOk(s.objs, s.intervals, s.highWm, holder)
    requires PcOk(s, t, s.threads[t])
    ensures Seen(s'.threads[t], holder)
  {
    var gc, gc' := s.threads[t], s'.threads[t];
    forall k | 0 <= k < |gc'.queue| && gc'.queue[k].obj in holder.refs ensures gc'.queue[k] in gc.queue {
    }
    if gc.pc.gpc.Minimum? && gc'.pc.Gc? && gc'.pc.gpc.Minimum? {
      forall k | 0 <= k < |gc.queue| && gc.queue[k].obj in holder.refs
        ensures |gc'.pc.gpc.vals| <= holder.idx.value < gc.pc.gpc.num || gc'.pc.gpc.min <= holder.interval
      {
      }
    }
  }

  lemma CollectSees(s: State, s': State, t: nat)
    requires Inv(s) && t < |s.threads| && s.threads[t].pc.Gc? && Collect(s, s', t, s.threads[t])
    ensures AllSeen(s'.threads)
  {
    CollectOne(s, s', t);
    hide Collect, Seen;
    forall g, u | 0 <= g < |s'.threads| && 0 <= u < |s'.threads| ensures Seen(s'.threads[g], s'.threads[u]) {
      assert Seen(s.threads[g], s.threads[u]);
      assert ThreadOk(s, u, s.threads[u]);
      assert ThreadOk(s, t, s.threads[t]);
      if g == t {
        SeenOn(s, s', t, s.threads[u]);
      }
      SameHolder(s'.threads[g], s.threads[u], s'.threads[u]);
    }
  }

  lemma CollectOne(s: State, s': State, t: nat)
    requires t < |s.threads| && s.threads[t].pc.Gc? && Collect(s, s', t, s.threads[t])
    ensures |s'.threads| == |s.threads| && forall u :: 0 <= u < |s.threads| ==>
              && (u != t ==> s'.threads[u] == s.threads[u])
              && s'.threads[u].refs == s.threads[u].refs && s'.threads[u].idx == s.threads[u].idx
              && s'.threads[u].interval == s.threads[u].interval
  {
  }

  lemma SameHolder(gc: Thread, holder: Thread, holder': Thread)
    requires Seen(gc, holder)
    requires holder'.refs == holder.refs && holder'.idx == holder.idx && holder'.interval == holder.interval
    ensures Seen(gc, holder')
  {
  }

  lemma CollectEffect(s: State, s': State, t: nat)
    requires Inv(s) && t < |s.threads| && s.threads[t].pc.Gc? && Collect(s, s', t, s.threads[t])
    ensures LogOk(s'.objs, s'.log) && AllKept(s'.threads, s'.objs)
  {
    var th, th' := s.threads[t], s'.threads[t];
    CollectReclaim(s, s', t);
    assert ThreadOk(s, t, th);
    hide Collect, AllSeen, FreeOk, IdxUnique, RefsOk, IdxOk, PcOk, AllKept, LogOk;
    if s'.objs != s.objs || th'.queue != th.queue {
      Reclaims(s.threads, s.objs, s.log, t, th', s.current);
    } else {
      KeptStays(s.threads, s.objs, t, th');
    }
  }

  /** A collector's step either leaves the objects and its queue alone or calls back the first object of its queue. */
  lemma CollectReclaim(s: State, s': State, t: nat)
    requires t < |s.threads| && s.threads[t].pc.Gc? && Collect(s, s', t, s.threads[t])
    ensures |s'.threads| == |s.threads| && s'.threads == s.threads[t := s'.threads[t]]
    ensures || (s'.objs == s.objs && s'.log == s.log && s'.threads[t].queue == s.threads[t].queue)
            || (&& s.threads[t].queue != [] && s.threads[t].queue[0].obj < |s.objs|
                && s'.objs == s.objs[s.threads[t].queue[0].obj := Reclaimed]
                && s'.log == s.log + [s.threads[t].queue[0].obj] && s'.threads[t].queue == s.threads[t].queue[1..])
  {
  }

  lemma Reclaims(threads: seq<Thread>, objs: seq<Status>, log: seq<Obj>, t: nat, th': Thread, bound: nat)
    requires AllKept(threads, objs) && LogOk(objs, log) && t < |threads| && QueueOk(objs, t, threads[t].queue, bound)
    requires threads[t].queue != [] && th'.queue == threads[t].queue[1..] && !threads[t].pc.Put?
    ensures var o := threads[t].queue[0].obj;
            LogOk(objs[o := Reclaimed], log + [o]) && AllKept(threads[t := th'], objs[o := Reclaimed])
  {
    var queue, o := threads[t].queue, threads[t].queue[0].obj;
    forall e | e in queue && e != queue[0] ensures e in th'.queue {
      var k :| 0 <= k < |queue| && queue[k] == e;
      assert th'.queue[k - 1] == e;
    }
    var objs' := objs[o := Reclaimed];
    forall p | 0 <= p < |objs'| ensures Kept(threads[t := th'], p, objs'[p]) {
      assert Kept(threads, p, objs[p]);
    }
  }

  lemma CollectKeepsInv(s: State, s': State, t: nat)
    requires Inv(s) && t < |s.threads| && s.threads[t].pc.Gc? && Collect(s, s', t, s.threads[t])
    ensures Inv(s')
  {
    CollectFrame(s, s', t);
    CollectKeepsThreads(s, s', t);
    CollectSees(s, s', t);
    CollectEffect(s, s', t);
    hide Collect, Frame, ThreadOk, AllSeen, LogOk, AllKept;
    Others(s, s', t);
  }

  /** One step of any thread. */
  lemma StepKeepsInv(s: State, s': State, t: nat)
    requires Inv(s) && Step(s, s', t)
    ensures Inv(s')
  {
    hide Inv, Register, Use, Retire, Collect;
    var th := s.threads[t];
    if Register(s, s', t, th) {
      RegisterKeepsInv(s, s', t);
    } else if Use(s, s', t, th) {
      UseKeepsInv(s, s', t);
    } else if Retire(s, s', t, th) {
      RetireKeepsInv(s, s', t);
    } else {
      CollectKeepsInv(s, s', t);
    }
  }

  // ---------- every run ----------

  lemma InitInv(s: State)
    requires Init(s)
    ensures Inv(s)
  {
  }

  lemma {:induction false} RunInv(run: seq<State>, i: nat)
    requires Run(run) && i < |run|
    ensures Inv(run[i])
  {
    hide Inv, Step, Init;
    if i == 0 {
      InitInv(run[0]);
    } else {
      RunInv(run, i - 1);
      assert Next(run[i - 1], run[i]);
      var t: nat :| Step(run[i - 1], run[i], t);
      StepKeepsInv(run[i - 1], run[i], t);
    }
  }

  // ---------- the properties ----------

  /** No reclaimed object is referenced by any thread, in any state of any run. */
  lemma NothingReclaimedIsHeld(run: seq<State>, i: nat, o: Obj, t: nat)
    requires Run(run) && i < |run| && o in run[i].log && t < |run[i].threads|
    ensures o !in run[i].threads[t].refs
  {
    RunInv(run, i);
    hide AllSeen, IdxUnique, AllKept, FreeOk;
    assert ThreadOk(run[i], t, run[i].threads[t]);
  }

  /** An object is called back at most once, and a retired object waits in its owner's queue until then. */
  lemma ReclaimedOnceOrKept(run: seq<State>, i: nat, o: Obj)
    requires Run(run) && i < |run| && o < |run[i].objs|
    ensures multiset(run[i].log)[o] == (if run[i].objs[o].Reclaimed? then 1 else 0)
    ensures Kept(run[i].threads, o, run[i].objs[o])
  {
    RunInv(run, i);
    Once(run[i].log, o);
  }

  /** Stopping at the first object that must wait loses nothing: after a sweep each object left was retired in an interval
      not before the minimum, and the minimum is an interval that was read. So whatever all intervals read have passed is
      called back; and a thread never has more than the allowed number of objects waiting. */
  lemma SweepKeepsNothingBack(run: seq<State>, i: nat, t: nat, k: nat)
    requires Run(run) && i < |run| && t < |run[i].threads| && run[i].threads[t].pc.Swept?
    requires k < |run[i].threads[t].queue|
    ensures |run[i].threads[t].queue| <= run[i].maxobjs
    ensures exists j :: 0 <= j < |run[i].threads[t].pc.vals|
                        && run[i].threads[t].pc.vals[j] <= run[i].threads[t].queue[k].interval
  {
    RunInv(run, i);
    hide AllSeen, IdxUnique, AllKept, FreeOk;
    var th := run[i].threads[t];
    assert ThreadOk(run[i], t, th);
    assert th.pc.min <= th.queue[k].interval < run[i].current;
    assert th.pc.min in th.pc.vals;
  }

  /** A retired object's interval is one in which every holder has already published its own. */
  lemma HoldersAreSeen(run: seq<State>, i: nat, t: nat, o: Obj)
    requires Run(run) && i < |run| && t < |run[i].threads| && o in run[i].threads[t].refs
    ensures var s, th := run[i], run[i].threads[t];
            && o < |s.objs| && !s.objs[o].Reclaimed?
            && th.idx.Some? && th.idx.value < s.highWm <= |s.intervals| && s.intervals[th.idx.value] == th.interval
            && (s.objs[o].Retired? ==> th.interval <= s.objs[o].interval)
  {
    RunInv(run, i);
    hide AllSeen, IdxUnique, AllKept, FreeOk;
    assert ThreadOk(run[i], t, run[i].threads[t]);
  }

  /** Whoever announces quiescence is active afterwards: a last release after a deactivation puts a finite interval back,
      which holds back every collection until the thread deactivates again. */
  lemma QuiescentActivates(run: seq<State>, i: nat, t: nat, s': State)
    requires Run(run) && i < |run| && t < |run[i].threads| && run[i].threads[t].pc.Quiescent? && Step(run[i], s', t)
    ensures t < |s'.threads| && Active(s'.threads[t])
    ensures s'.threads[t].idx.value < s'.highWm <= |s'.intervals|
    ensures s'.intervals[s'.threads[t].idx.value] == s'.threads[t].interval <= s'.current
  {
    RunInv(run, i);
    assert ThreadOk(run[i], t, run[i].threads[t]);
    hide QueueOk, RefsOk, LogOk, FreeOk, AllSeen, IdxUnique, AllKept, Run;
  }
}

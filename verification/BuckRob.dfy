/** The reorder buffer that passes a buck, as a machine of atomic steps. The right to retire elements lies in the ring as
    a mark on the first missing position; who finds it there retires from that position on and passes it. */
module BuckRob {
  import opened RingIndex
  import Reorder

  type Elem = Reorder.Elem

  const Null: Elem := Reorder.Null

  /** The mark, a value no element has. */
  const Buck: Elem := 1

  datatype RelPc =
    | Check
    | Store(i: nat)
    | First
    | Got
    | Load(at: nat)
    | Take(at: nat, elem: Elem)
    | Pass(at: nat)
    | AddHead(at: nat)

  datatype Thread =
    | Idle
    | AcqLoad(requested: nat)
    | AcqHead(requested: nat, tail: nat)
    | AcqCas(requested: nat, tail: nat, actual: nat)
    | Acquired(sn: nat, count: nat)
    | Rel(sn: nat, elems: seq<Elem>, rpc: RelPc)

  /** History: `given` are the positions passed to a release, `stored` what was released for them, `retired` the first
      position not called back yet, where the buck is, `holder` the thread that has taken the buck, `calls` the elements
      called back. */
  datatype State = State(head: nat, tail: nat, ring: seq<Elem>, user: bool, threads: seq<Thread>, given: set<nat>,
                         stored: map<nat, Elem>, retired: nat, holder: Option<nat>, calls: seq<Reorder.Call>)

  ghost predicate Init(s: State) {
    && |s.ring| > 0 && s.head == s.tail == s.retired == 0 && s.holder == None
    && s.ring[0] == Buck && (forall k :: 1 <= k < |s.ring| ==> s.ring[k] == Null)
    && s.given == {} && s.stored == map[] && s.calls == []
    && forall t :: 0 <= t < |s.threads| ==> s.threads[t].Idle?
  }

  // ---------- the steps ----------

  predicate AcqStep(s: State, s': State, t: nat, th: Thread)
    requires t < |s.threads| && (th.AcqLoad? || th.AcqHead? || th.AcqCas?)
  {
    match th
    case AcqLoad(requested) => s' == s.(threads := s.threads[t := AcqHead(requested, s.tail)])
    case AcqHead(requested, tail) =>
      var available := |s.ring| - (tail - s.head);
      var actual := if available < requested then available else requested;
      s' == s.(threads := s.threads[t := if actual <= 0 then Idle else AcqCas(requested, tail, actual)])
    case AcqCas(requested, tail, actual) =>
      if s.tail == tail then s' == s.(tail := tail + actual, threads := s.threads[t := Acquired(tail, actual)])
      else s' == s.(threads := s.threads[t := AcqHead(requested, s.tail)])
  }

  predicate InRange(th: Thread, p: nat) { th.Rel? && th.sn <= p < th.sn + |th.elems| }

  ghost predicate RelStep(s: State, s': State, t: nat, th: Thread)
    requires t < |s.threads| && |s.ring| > 0 && th.Rel?
  {
    match th.rpc
    case Check =>
      if s.user then
        // Waits until the range fits in the window.
        th.sn + |th.elems| <= s.head + |s.ring| && s' == s.(threads := s.threads[t := th.(rpc := Store(1))])
      else if th.sn + |th.elems| > s.tail then
        s' == s.(given := s.given - Reorder.Range(th.sn, |th.elems|), threads := s.threads[t := Idle])
      else s' == s.(threads := s.threads[t := th.(rpc := Store(1))])
    case Store(i) =>
      if i < |th.elems| then
        s' == s.(ring := s.ring[At(th.sn + i, |s.ring|) := th.elems[i]], stored := s.stored[th.sn + i := th.elems[i]],
                 threads := s.threads[t := th.(rpc := Store(i + 1))])
      else s' == s.(threads := s.threads[t := th.(rpc := First)])
    case First =>
      && 0 < |th.elems|
      && var slot := At(th.sn, |s.ring|);
         if s.ring[slot] == Null then
           s' == s.(ring := s.ring[slot := th.elems[0]], stored := s.stored[th.sn := th.elems[0]],
                    threads := s.threads[t := Idle])
         else s' == s.(holder := Some(t), threads := s.threads[t := th.(rpc := Got)])
    case Got =>
      && 0 < |th.elems|
      && s' == s.(ring := s.ring[At(th.sn, |s.ring|) := Null], stored := s.stored[th.sn := th.elems[0]],
                  retired := th.sn + 1, calls := s.calls + [Reorder.Call(th.elems[0], th.sn)],
                  threads := s.threads[t := th.(rpc := Load(th.sn + 1))])
    case Load(at) =>
      var elem := s.ring[At(at, |s.ring|)];
      s' == s.(threads := s.threads[t := th.(rpc := if elem == Null then Pass(at) else Take(at, elem))])
    case Take(at, elem) =>
      s' == s.(ring := s.ring[At(at, |s.ring|) := Null], retired := at + 1,
               calls := s.calls + [Reorder.Call(elem, at)], threads := s.threads[t := th.(rpc := Load(at + 1))])
    case Pass(at) =>
      var elem := s.ring[At(at, |s.ring|)];
      if elem == Null then
        s' == s.(ring := s.ring[At(at, |s.ring|) := Buck], holder := None,
                 threads := s.threads[t := th.(rpc := AddHead(at))])
      else s' == s.(threads := s.threads[t := th.(rpc := Take(at, elem))])
    case AddHead(at) =>
      && th.sn <= at && s' == s.(head := s.head + (at - th.sn), threads := s.threads[t := Idle])
  }

  /** A position is passed to a release at most once; elements are neither null nor the reserved value. */
  ghost predicate Start(s: State, s': State, t: nat, th': Thread)
    requires t < |s.threads|
  {
    && (s.threads[t].Idle? || s.threads[t].Acquired?)
    && ((th'.AcqLoad? && !s.user && s' == s.(threads := s.threads[t := th']))
        || (th'.Rel? && th'.rpc == Check && 0 < |th'.elems| && (forall k :: 0 <= k < |th'.elems| ==> th'.elems[k] > Buck)
            && Reorder.Range(th'.sn, |th'.elems|) !! s.given
            && s' == s.(given := s.given + Reorder.Range(th'.sn, |th'.elems|), threads := s.threads[t := th'])))
  }

  ghost predicate Step(s: State, s': State, t: nat) {
    && t < |s.threads| && |s.ring| > 0
    && var th := s.threads[t];
       || ((th.AcqLoad? || th.AcqHead? || th.AcqCas?) && AcqStep(s, s', t, th))
       || (th.Rel? && RelStep(s, s', t, th))
       || (exists th' :: Start(s, s', t, th'))
  }

  ghost predicate Next(s: State, s': State) { exists t: nat :: Step(s, s', t) }

  ghost predicate Run(run: seq<State>) {
    && |run| > 0 && Init(run[0])
    && forall i :: 0 <= i < |run| - 1 ==> Next(run[i], run[i + 1])
  }

  // ---------- the invariant ----------

  /** Whether the buck lies in the ring: nobody has taken it, or has only just found it. */
  predicate Marked(s: State) {
    s.holder.Some? ==> s.holder.value < |s.threads| && s.threads[s.holder.value].Rel? && s.threads[s.holder.value].rpc.Got?
  }

  ghost predicate RingOk(ring: seq<Elem>, stored: map<nat, Elem>, retired: nat, marked: bool)
    requires |ring| > 0
  {
    forall p: nat :: retired <= p < retired + |ring| ==>
      ring[At(p, |ring|)] == if p in stored then stored[p] else if p == retired && marked then Buck else Null
  }

  predicate Holding(th: Thread) { th.Rel? && (th.rpc.Got? || th.rpc.Load? || th.rpc.Take? || th.rpc.Pass?) }

  /** The head increment a thread has still to make for what it retired. */
  function Unpublished(th: Thread): (u: nat) {
    if th.Rel? && (th.rpc.Load? || th.rpc.Take? || th.rpc.Pass? || th.rpc.AddHead?) && th.sn <= th.rpc.at then
      th.rpc.at - th.sn
    else 0
  }

  function Total(threads: seq<Thread>): nat {
    if threads == [] then 0 else Total(threads[..|threads| - 1]) + Unpublished(threads[|threads| - 1])
  }

  /** Which of its elements a release has stored: the first comes last. */
  predicate HasStored(th: Thread, p: nat)
    requires InRange(th, p)
  {
    match th.rpc
    case Check => false
    case Store(i) => th.sn < p < th.sn + i
    case First => th.sn < p
    case Got => th.sn < p
    case _ => true
  }

  ghost predicate RelOk(s: State, t: nat, th: Thread)
    requires th.Rel?
  {
    && 0 < |th.elems| && (forall k :: 0 <= k < |th.elems| ==> th.elems[k] > Buck)
    && (forall p :: InRange(th, p) ==> p in s.given)
    && (forall p: nat :: InRange(th, p) ==>
          if HasStored(th, p) then p in s.stored && s.stored[p] == th.elems[p - th.sn] else p !in s.stored)
    && (!th.rpc.Check? ==> th.sn + |th.elems| <= s.head + |s.ring|)
    && (Holding(th) <==> s.holder == Some(t))
    && match th.rpc
       case Store(i) => 1 <= i <= |th.elems|
       case Got => th.sn == s.retired
       case Load(at) => at == s.retired && th.sn < at
       case Take(at, elem) => at == s.retired && th.sn < at && at in s.stored && s.stored[at] == elem
       case Pass(at) => at == s.retired && th.sn < at
       case AddHead(at) => th.sn < at <= s.retired
       case _ => true
  }

  ghost predicate ThreadOk(s: State, t: nat, th: Thread) {
    match th
    case AcqCas(_, tail, actual) => 0 < actual && tail + actual <= s.head + |s.ring| && s.holder != Some(t)
    case Rel(_, _, _) => RelOk(s, t, th)
    case _ => s.holder != Some(t)
  }

  ghost predicate Disjoint(threads: seq<Thread>) {
    forall t, u, p :: 0 <= t < u < |threads| && InRange(threads[t], p) ==> !InRange(threads[u], p)
  }

  ghost predicate SharedOk(s: State) {
    && |s.ring| > 0
    && s.head + Total(s.threads) == s.retired
    && RingOk(s.ring, s.stored, s.retired, Marked(s))
    && (forall p :: p in s.stored ==> p in s.given && p < s.head + |s.ring| && s.stored[p] > Buck)
    && (forall p: nat :: p < s.retired ==> p in s.stored)
    && s.calls == Reorder.Calls(s.stored, s.retired)
    && (s.holder == None ==> s.retired !in s.stored)
    && (s.holder.Some? ==> s.holder.value < |s.threads|)
    && (!s.user ==> s.tail <= s.head + |s.ring|)
  }

  ghost predicate ThreadsOk(s: State) { forall t :: 0 <= t < |s.threads| ==> ThreadOk(s, t, s.threads[t]) }

  ghost predicate Inv(s: State) { SharedOk(s) && ThreadsOk(s) && Disjoint(s.threads) }

  lemma ThreadIs(s: State, t: nat)
    requires Inv(s) && t < |s.threads|
    ensures ThreadOk(s, t, s.threads[t]) && |s.ring| > 0 && (!s.user ==> s.tail <= s.head + |s.ring|)
  {
    hide ThreadOk, RingOk, Marked, Disjoint;
  }

  // ---------- sums ----------

  lemma {:induction false} TotalUpdate(threads: seq<Thread>, t: nat, th': Thread)
    requires t < |threads|
    ensures Total(threads[t := th']) + Unpublished(threads[t]) == Total(threads) + Unpublished(th')
  {
    var n := |threads| - 1;
    if t < n {
      assert threads[t := th'][..n] == threads[..n][t := th'];
      TotalUpdate(threads[..n], t, th');
    } else {
      assert threads[t := th'][..n] == threads[..n];
    }
  }

  lemma {:induction false} TotalAtLeast(threads: seq<Thread>, t: nat)
    requires t < |threads|
    ensures Unpublished(threads[t]) <= Total(threads)
  {
    if t < |threads| - 1 {
      TotalAtLeast(threads[..|threads| - 1], t);
    }
  }

  lemma {:induction false} TotalNone(threads: seq<Thread>)
    requires forall t :: 0 <= t < |threads| ==> !threads[t].Rel?
    ensures Total(threads) == 0
  {
    if threads != [] {
      TotalNone(threads[..|threads| - 1]);
    }
  }

  // ---------- one step ----------

  /** What a step of thread t may do to the rest without disturbing the other threads. */
  ghost predicate Frame(s: State, s': State, t: nat, th: Thread, th': Thread) {
    && t < |s.threads| && s.threads[t] == th && s'.threads == s.threads[t := th'] && |s'.ring| == |s.ring|
    && s'.user == s.user && s.head <= s'.head && s.retired <= s'.retired
    && (forall p :: !InRange(th, p) ==> (p in s.given ==> p in s'.given) && (p in s'.stored ==> p in s.stored))
    && (forall p :: p in s.stored ==> p in s'.stored && s'.stored[p] == s.stored[p])
    && (forall p :: InRange(th', p) ==> InRange(th, p) || p !in s.given)
    && (forall u: nat :: u != t ==> (s'.holder == Some(u) <==> s.holder == Some(u)))
    && (s.holder.Some? && s.holder.value != t ==> s'.retired == s.retired)
  }

  lemma Apart(threads: seq<Thread>, t: nat, u: nat, p: nat)
    requires Disjoint(threads) && t < |threads| && u < |threads| && t != u && InRange(threads[t], p)
    ensures !InRange(threads[u], p)
  {
  }

  lemma OtherStays(s: State, s': State, t: nat, th: Thread, th': Thread, u: nat)
    requires Inv(s) && Frame(s, s', t, th, th') && u < |s.threads| && u != t
    ensures ThreadOk(s', u, s'.threads[u])
  {
    var tu := s.threads[u];
    assert ThreadOk(s, u, tu);
    if tu.Rel? {
      forall p | InRange(tu, p) ensures !InRange(th, p) {
        Apart(s.threads, u, t, p);
      }
      hide SharedOk, Disjoint;
    }
  }

  lemma StillDisjoint(s: State, s': State, t: nat, th: Thread, th': Thread)
    requires Inv(s) && Frame(s, s', t, th, th')
    ensures Disjoint(s'.threads)
  {
    forall u, p | 0 <= u < |s.threads| && InRange(s.threads[u], p) ensures p in s.given {
      assert ThreadOk(s, u, s.threads[u]);
    }
    hide SharedOk, ThreadsOk;
  }

  lemma Together(s: State, s': State, t: nat, th: Thread, th': Thread)
    requires Inv(s) && Frame(s, s', t, th, th') && SharedOk(s') && ThreadOk(s', t, th')
    ensures Inv(s')
  {
    StillDisjoint(s, s', t, th, th');
    hide Inv, Frame, ThreadOk, SharedOk, Disjoint;
    FrameThreads(s, s', t, th, th');
    forall u | 0 <= u < |s'.threads| ensures ThreadOk(s', u, s'.threads[u]) {
      if u != t {
        OtherStays(s, s', t, th, th', u);
      }
    }
  }

  lemma FrameThreads(s: State, s': State, t: nat, th: Thread, th': Thread)
    requires Frame(s, s', t, th, th')
    ensures t < |s.threads| == |s'.threads| && s'.threads == s.threads[t := th']
  {
  }

  // ---------- acquire and start ----------

  /** Steps that touch neither the ring nor the history. */
  lemma SharedStays(s: State, s': State, t: nat, th': Thread)
    requires SharedOk(s) && t < |s.threads| && s'.threads == s.threads[t := th']
    requires s' == s.(threads := s'.threads, given := s'.given, tail := s'.tail)
    requires Unpublished(th') == Unpublished(s.threads[t]) && Marked(s') == Marked(s)
    requires (forall p :: p in s.stored ==> p in s'.given) && (!s.user ==> s'.tail <= s.head + |s.ring|)
    ensures SharedOk(s')
  {
    TotalUpdate(s.threads, t, th');
  }

  lemma AcqEffect(s: State, s': State, t: nat, th: Thread)
    requires t < |s.threads| && th == s.threads[t] && (th.AcqLoad? || th.AcqHead? || th.AcqCas?)
    requires AcqStep(s, s', t, th) && ThreadOk(s, t, th) && (!s.user ==> s.tail <= s.head + |s.ring|)
    ensures s'.threads == s.threads[t := s'.threads[t]] && s' == s.(threads := s'.threads, tail := s'.tail)
    ensures !s'.threads[t].Rel? && ThreadOk(s', t, s'.threads[t]) && s.holder != Some(t)
    ensures !s.user ==> s'.tail <= s.head + |s.ring|
  {
  }

  lemma SameMark(s: State, s': State, t: nat, th': Thread)
    requires t < |s.threads| && s'.threads == s.threads[t := th'] && s'.holder == s.holder && s.holder != Some(t)
    ensures Marked(s') == Marked(s)
  {
  }

  lemma AcqKeepsInv(s: State, s': State, t: nat)
    requires Inv(s) && t < |s.threads| && (s.threads[t].AcqLoad? || s.threads[t].AcqHead? || s.threads[t].AcqCas?)
    requires AcqStep(s, s', t, s.threads[t])
    ensures Inv(s')
  {
    hide Inv, AcqStep, ThreadOk, Marked, Disjoint, SharedOk, Frame;
    ThreadIs(s, t);
    SharedIs(s);
    var th := s.threads[t];
    AcqEffect(s, s', t, th);
    var th' := s'.threads[t];
    SameMark(s, s', t, th');
    SharedStays(s, s', t, th');
    AcqFrame(s, s', t, th');
    Together(s, s', t, th, th');
  }

  lemma AcqFrame(s: State, s': State, t: nat, th': Thread)
    requires t < |s.threads| && s' == s.(threads := s.threads[t := th'], tail := s'.tail) && !th'.Rel?
    ensures Frame(s, s', t, s.threads[t], th')
  {
  }

  lemma StartKeepsInv(s: State, s': State, t: nat, th': Thread)
    requires Inv(s) && t < |s.threads| && Start(s, s', t, th')
    ensures Inv(s')
  {
    hide Inv, ThreadOk, SharedOk, Frame, Marked, Disjoint;
    StartEffect(s, s', t, th');
    SharedIs(s);
    SameMark(s, s', t, th');
    SharedStays(s, s', t, th');
    Together(s, s', t, s.threads[t], th');
  }

  lemma SharedIs(s: State)
    requires Inv(s)
    ensures SharedOk(s) && (forall p :: p in s.stored ==> p in s.given) && (!s.user ==> s.tail <= s.head + |s.ring|)
  {
    hide RingOk, Marked, ThreadsOk, Disjoint;
  }

  lemma StartEffect(s: State, s': State, t: nat, th': Thread)
    requires Inv(s) && t < |s.threads| && Start(s, s', t, th')
    ensures s' == s.(threads := s.threads[t := th'], given := s'.given) && s.given <= s'.given
    ensures s.holder != Some(t) && Unpublished(th') == Unpublished(s.threads[t])
    ensures ThreadOk(s', t, th') && Frame(s, s', t, s.threads[t], th')
  {
    hide RingOk, Disjoint, ThreadsOk, Marked;
    ThreadIs(s, t);
  }

  // ---------- storing ----------

  lemma RingPut(ring: seq<Elem>, stored: map<nat, Elem>, retired: nat, marked: bool, pos: nat, elem: Elem)
    requires |ring| > 0 && RingOk(ring, stored, retired, marked) && retired <= pos < retired + |ring|
    ensures RingOk(ring[At(pos, |ring|) := elem], stored[pos := elem], retired, marked)
  {
    hide At;
    forall p: nat | retired <= p < retired + |ring| && p != pos ensures At(p, |ring|) != At(pos, |ring|) {
      if At(p, |ring|) == At(pos, |ring|) {
        AtInjective(p, pos, |ring|);
      }
    }
  }

  /** Where a release stores to is behind the retired positions, in the window, and empty. */
  lemma SlotIsEmpty(s: State, t: nat, p: nat)
    requires Inv(s) && t < |s.threads| && InRange(s.threads[t], p) && p !in s.stored && !s.threads[t].rpc.Check?
    ensures s.retired <= p < s.head + |s.ring| <= s.retired + |s.ring|
    ensures s.ring[At(p, |s.ring|)] == if p == s.retired && Marked(s) then Buck else Null
  {
    assert ThreadOk(s, t, s.threads[t]);
  }

  /** A mark never lies on a position that is not the first of a range being released. */
  lemma NonFirstUnmarked(s: State, t: nat, p: nat)
    requires Inv(s) && t < |s.threads| && InRange(s.threads[t], p) && s.threads[t].sn < p && s.threads[t].sn !in s.stored
    ensures p != s.retired
  {
    assert s.retired <= s.threads[t].sn;
  }

  lemma StoreShared(s: State, s': State, t: nat)
    requires Inv(s) && t < |s.threads| && s.threads[t].Rel? && RelStep(s, s', t, s.threads[t])
    requires s.threads[t].rpc.Store? && s.threads[t].rpc.i < |s.threads[t].elems|
    ensures SharedOk(s')
  {
    hide Inv, ThreadOk, RelOk, Marked, SharedOk, Frame;
    var th := s.threads[t];
    var pos, elem := th.sn + th.rpc.i, th.elems[th.rpc.i];
    ToStore(s, t);
    SlotIsEmpty(s, t, pos);
    NonFirstUnmarked(s, t, pos);
    SharedIs(s);
    SameMark(s, s', t, s'.threads[t]);
    TotalUpdate(s.threads, t, s'.threads[t]);
    Behind(s);
    Puts(s, s', pos, elem);
  }

  lemma Behind(s: State)
    requires Inv(s)
    ensures s.head <= s.retired && |s.ring| > 0
  {
    hide RingOk, Marked, ThreadsOk, Disjoint;
  }

  /** What a release has still to store is given to it and not stored. */
  lemma ToStore(s: State, t: nat)
    requires Inv(s) && t < |s.threads| && s.threads[t].Rel? && s.threads[t].rpc.Store?
    requires s.threads[t].rpc.i < |s.threads[t].elems|
    ensures var th := s.threads[t];
            var pos := th.sn + th.rpc.i;
            && InRange(th, pos) && InRange(th, th.sn) && pos !in s.stored && th.sn !in s.stored && pos in s.given
            && th.elems[th.rpc.i] > Buck && s.holder != Some(t) && th.sn < pos
  {
    hide Inv;
    ThreadIs(s, t);
    var th := s.threads[t];
    assert InRange(th, th.sn + th.rpc.i) && InRange(th, th.sn);
  }

  lemma StoreThread(s: State, s': State, t: nat)
    requires Inv(s) && t < |s.threads| && s.threads[t].Rel? && RelStep(s, s', t, s.threads[t])
    requires s.threads[t].rpc.Store? && s.threads[t].rpc.i < |s.threads[t].elems|
    ensures t < |s'.threads| && ThreadOk(s', t, s'.threads[t])
  {
    hide Inv, SharedOk, Disjoint, At;
    ThreadIs(s, t);
    OneMoreStored(s, t);
  }

  /** A release that stores its next element has then stored exactly one position more. */
  lemma OneMoreStored(s: State, t: nat)
    requires t < |s.threads| && s.threads[t].Rel? && s.threads[t].rpc.Store? && s.threads[t].rpc.i < |s.threads[t].elems|
    requires RelOk(s, t, s.threads[t])
    ensures var th := s.threads[t];
            var i, th' := th.rpc.i, th.(rpc := Store(th.rpc.i + 1));
            forall p: nat :: InRange(th', p) ==>
              if HasStored(th', p) then p == th.sn + i || (p in s.stored && s.stored[p] == th.elems[p - th.sn])
              else p != th.sn + i && p !in s.stored
  {
  }

  lemma StoreFrame(s: State, s': State, t: nat)
    requires Inv(s) && t < |s.threads| && s.threads[t].Rel? && RelStep(s, s', t, s.threads[t])
    requires s.threads[t].rpc.Store? && s.threads[t].rpc.i < |s.threads[t].elems|
    ensures t < |s'.threads| && Frame(s, s', t, s.threads[t], s'.threads[t])
  {
    var th := s.threads[t];
    assert ThreadOk(s, t, th);
    assert InRange(th, th.sn + th.rpc.i) && th.sn + th.rpc.i !in s.stored;
    hide Inv, SharedOk, Disjoint, ThreadOk;
  }

  /** The checks before storing, and the end of storing. */
  lemma CheckKeepsInv(s: State, s': State, t: nat)
    requires Inv(s) && t < |s.threads| && s.threads[t].Rel? && RelStep(s, s', t, s.threads[t])
    requires s.threads[t].rpc.Check? || (s.threads[t].rpc.Store? && s.threads[t].rpc.i >= |s.threads[t].elems|)
    ensures Inv(s')
  {
    var th, th' := s.threads[t], s'.threads[t];
    assert ThreadOk(s, t, th);
    CheckEffect(s, s', t, th);
    SameMark(s, s', t, th');
    hide RelStep, Marked, Disjoint, RingOk, ThreadsOk;
    assert forall p :: p in s.stored ==> p in s.given;
    SharedStays(s, s', t, th');
    hide SharedOk;
    CheckThread(s, s', t);
    hide RelOk;
    Together(s, s', t, th, th');
  }

  lemma CheckEffect(s: State, s': State, t: nat, th: Thread)
    requires t < |s.threads| && th == s.threads[t] && th.Rel? && ThreadOk(s, t, th) && |s.ring| > 0
    requires th.rpc.Check? || (th.rpc.Store? && th.rpc.i >= |th.elems|)
    requires RelStep(s, s', t, th)
    ensures s'.threads == s.threads[t := s'.threads[t]] && s' == s.(threads := s'.threads, given := s'.given)
    ensures s.holder != Some(t) && Unpublished(s'.threads[t]) == Unpublished(th)
    ensures forall p :: p in s.given && p !in s'.given ==> InRange(th, p) && p !in s.stored
    ensures forall p :: InRange(s'.threads[t], p) ==> InRange(th, p)
    ensures s'.given <= s.given
  {
  }

  lemma CheckThread(s: State, s': State, t: nat)
    requires Inv(s) && t < |s.threads| && s.threads[t].Rel? && RelStep(s, s', t, s.threads[t])
    requires s.threads[t].rpc.Check? || (s.threads[t].rpc.Store? && s.threads[t].rpc.i >= |s.threads[t].elems|)
    ensures t < |s'.threads| && ThreadOk(s', t, s'.threads[t])
  {
    hide Inv, SharedOk, Disjoint, At;
    ThreadIs(s, t);
  }

  // ---------- the first element ----------

  /** The slot of a release's first position: empty, or marked when the position is the first missing one. */
  lemma FirstSlot(s: State, t: nat)
    requires Inv(s) && t < |s.threads| && s.threads[t].Rel? && s.threads[t].rpc.First?
    ensures var sn := s.threads[t].sn;
            && s.retired <= sn < s.head + |s.ring| <= s.retired + |s.ring| && sn in s.given && sn !in s.stored
            && s.ring[At(sn, |s.ring|)] == (if sn == s.retired && s.holder == None then Buck else Null)
    ensures s.holder != Some(t)
  {
    var th := s.threads[t];
    assert ThreadOk(s, t, th);
    assert InRange(th, th.sn);
    SlotIsEmpty(s, t, th.sn);
    if s.holder.Some? && Marked(s) && th.sn == s.retired {
      var u := s.holder.value;
      assert ThreadOk(s, u, s.threads[u]);
      Apart(s.threads, t, u, th.sn);
    }
  }

  lemma FirstShared(s: State, s': State, t: nat)
    requires Inv(s) && t < |s.threads| && s.threads[t].Rel? && RelStep(s, s', t, s.threads[t])
    requires s.threads[t].rpc.First?
    ensures SharedOk(s')
  {
    var th := s.threads[t];
    FirstSlot(s, t);
    assert th.elems[0] > Buck by { assert ThreadOk(s, t, th); }
    hide ThreadOk, ThreadsOk, Disjoint, RingOk;
    TotalUpdate(s.threads, t, s'.threads[t]);
    if s'.holder == s.holder {
      SameMark(s, s', t, s'.threads[t]);
      hide Marked;
      Puts(s, s', th.sn, th.elems[0]);
    } else {
      assert Marked(s) && Marked(s');
    }
  }

  /** The first element goes to an empty slot, possibly the one the buck's holder is looking at. */
  lemma Puts(s: State, s': State, pos: nat, elem: Elem)
    requires SharedOk(s) && s.retired <= pos < s.head + |s.ring| <= s.retired + |s.ring| && pos in s.given && elem > Buck
    requires pos == s.retired ==> s.holder.Some?
    requires s' == s.(ring := s.ring[At(pos, |s.ring|) := elem], stored := s.stored[pos := elem], threads := s'.threads)
    requires Total(s'.threads) == Total(s.threads) && |s'.threads| == |s.threads| && Marked(s') == Marked(s)
    ensures SharedOk(s')
  {
    RingPut(s.ring, s.stored, s.retired, Marked(s), pos, elem);
    Reorder.CallsSame(s.stored, s'.stored, s.retired);
    hide RingOk, Marked;
  }

  lemma FirstThread(s: State, s': State, t: nat)
    requires Inv(s) && t < |s.threads| && s.threads[t].Rel? && RelStep(s, s', t, s.threads[t])
    requires s.threads[t].rpc.First?
    ensures t < |s'.threads| && ThreadOk(s', t, s'.threads[t])
  {
    hide Inv, SharedOk, Disjoint, At;
    FirstSlot(s, t);
    ThreadIs(s, t);
  }

  lemma ThreadRange(s: State, t: nat)
    requires Inv(s) && t < |s.threads| && s.threads[t].Rel?
    ensures RelOk(s, t, s.threads[t])
  {
    hide RelOk, RingOk, Marked, Disjoint;
    assert ThreadOk(s, t, s.threads[t]);
  }

  lemma FirstFrame(s: State, s': State, t: nat)
    requires Inv(s) && t < |s.threads| && s.threads[t].Rel? && RelStep(s, s', t, s.threads[t])
    requires s.threads[t].rpc.First?
    ensures t < |s'.threads| && Frame(s, s', t, s.threads[t], s'.threads[t])
  {
    hide Inv, SharedOk, Disjoint, ThreadOk;
    FirstSlot(s, t);
    ThreadRange(s, t);
  }

  // ---------- retiring ----------

  lemma ClearedAt(ring: seq<Elem>, stored: map<nat, Elem>, retired: nat, marked: bool, p: nat)
    requires |ring| > 0 && RingOk(ring, stored, retired, marked) && retired + |ring| !in stored
    requires retired < p <= retired + |ring|
    ensures ring[At(retired, |ring|) := Null][At(p, |ring|)] == if p in stored then stored[p] else Null
  {
    hide At;
    if p == retired + |ring| {
      AtPeriodic(retired, |ring|);
    } else {
      if At(p, |ring|) == At(retired, |ring|) {
        AtInjective(p, retired, |ring|);
      }
      assert ring[At(p, |ring|)] == if p in stored then stored[p] else Null;
    }
  }

  lemma RingClear(ring: seq<Elem>, stored: map<nat, Elem>, retired: nat, marked: bool)
    requires |ring| > 0 && RingOk(ring, stored, retired, marked) && retired + |ring| !in stored
    ensures RingOk(ring[At(retired, |ring|) := Null], stored, retired + 1, false)
  {
    hide At;
    forall p: nat | retired < p <= retired + |ring|
      ensures ring[At(retired, |ring|) := Null][At(p, |ring|)] == if p in stored then stored[p] else Null
    {
      ClearedAt(ring, stored, retired, marked, p);
    }
  }

  lemma RingAgree(ring: seq<Elem>, stored: map<nat, Elem>, stored': map<nat, Elem>, retired: nat, marked: bool)
    requires |ring| > 0 && RingOk(ring, stored, retired, marked)
    requires forall p: nat :: retired <= p ==> (p in stored' <==> p in stored) && (p in stored ==> stored'[p] == stored[p])
    ensures RingOk(ring, stored', retired, marked)
  {
    hide At;
  }

  /** Taking the element at the first position not retired yet. */
  lemma Retires(s: State, s': State, t: nat, elem: Elem, th': Thread)
    requires SharedOk(s) && t < |s.threads| && s.holder == Some(t)
    requires elem > Buck && (s.retired in s.stored ==> s.stored[s.retired] == elem)
    requires s.retired in s.given && s.retired < s.head + |s.ring|
    requires s' == s.(ring := s.ring[At(s.retired, |s.ring|) := Null], stored := s.stored[s.retired := elem],
                      retired := s.retired + 1, calls := s.calls + [Reorder.Call(elem, s.retired)],
                      threads := s.threads[t := th'])
    requires th'.Rel? && th'.rpc.Load? && Unpublished(th') == Unpublished(s.threads[t]) + 1
    ensures SharedOk(s')
  {
    hide RingOk, At, Marked;
    TotalUpdate(s.threads, t, th');
    assert !Marked(s') by { NotMarked(s', t); }
    RetiredRing(s, elem);
    Reorder.CallsSame(s.stored, s'.stored, s.retired);
  }

  lemma NotMarked(s: State, t: nat)
    requires t < |s.threads| && s.holder == Some(t) && s.threads[t].Rel? && !s.threads[t].rpc.Got?
    ensures !Marked(s)
  {
  }

  lemma RetiredRing(s: State, elem: Elem)
    requires SharedOk(s) && s.retired < s.head + |s.ring|
    ensures RingOk(s.ring[At(s.retired, |s.ring|) := Null], s.stored[s.retired := elem], s.retired + 1, false)
  {
    hide At;
    RingClear(s.ring, s.stored, s.retired, Marked(s));
    RingAgree(s.ring[At(s.retired, |s.ring|) := Null], s.stored, s.stored[s.retired := elem], s.retired + 1, false);
  }

  lemma GotShared(s: State, s': State, t: nat)
    requires Inv(s) && t < |s.threads| && s.threads[t].Rel? && RelStep(s, s', t, s.threads[t])
    requires s.threads[t].rpc.Got?
    ensures SharedOk(s')
  {
    var th := s.threads[t];
    assert ThreadOk(s, t, th);
    assert InRange(th, th.sn);
    hide RingOk, ThreadsOk, Disjoint;
    Retires(s, s', t, th.elems[0], s'.threads[t]);
  }

  lemma GotThread(s: State, s': State, t: nat)
    requires Inv(s) && t < |s.threads| && s.threads[t].Rel? && RelStep(s, s', t, s.threads[t])
    requires s.threads[t].rpc.Got?
    ensures t < |s'.threads| && ThreadOk(s', t, s'.threads[t])
  {
    var th := s.threads[t];
    assert ThreadOk(s, t, th);
    hide Inv, SharedOk, Disjoint;
  }

  lemma GotFrame(s: State, s': State, t: nat)
    requires Inv(s) && t < |s.threads| && s.threads[t].Rel? && RelStep(s, s', t, s.threads[t])
    requires s.threads[t].rpc.Got?
    ensures t < |s'.threads| && Frame(s, s', t, s.threads[t], s'.threads[t])
  {
    var th := s.threads[t];
    assert ThreadOk(s, t, th);
    assert InRange(th, th.sn) && th.sn !in s.stored;
    hide Inv, SharedOk, Disjoint, ThreadOk, RelOk;
  }

  /** What the buck's holder sees at its position. */
  lemma HolderSlot(s: State, t: nat)
    requires Inv(s) && t < |s.threads| && s.threads[t].Rel?
    requires s.threads[t].rpc.Load? || s.threads[t].rpc.Take? || s.threads[t].rpc.Pass?
    ensures s.holder == Some(t) && s.threads[t].rpc.at == s.retired && !Marked(s)
    ensures s.ring[At(s.retired, |s.ring|)] == if s.retired in s.stored then s.stored[s.retired] else Null
    ensures s.retired in s.stored ==> s.stored[s.retired] > Buck
  {
    assert ThreadOk(s, t, s.threads[t]);
  }

  lemma LoadShared(s: State, s': State, t: nat)
    requires Inv(s) && t < |s.threads| && s.threads[t].Rel? && RelStep(s, s', t, s.threads[t])
    requires s.threads[t].rpc.Load? || (s.threads[t].rpc.Pass? && s.ring[At(s.threads[t].rpc.at, |s.ring|)] != Null)
    ensures SharedOk(s')
  {
    var th := s.threads[t];
    HolderSlot(s, t);
    assert !Marked(s');
    assert forall p :: p in s.stored ==> p in s.given;
    hide ThreadsOk, Disjoint, RingOk;
    SharedStays(s, s', t, s'.threads[t]);
  }

  lemma LoadThread(s: State, s': State, t: nat)
    requires Inv(s) && t < |s.threads| && s.threads[t].Rel? && RelStep(s, s', t, s.threads[t])
    requires s.threads[t].rpc.Load? || (s.threads[t].rpc.Pass? && s.ring[At(s.threads[t].rpc.at, |s.ring|)] != Null)
    ensures t < |s'.threads| && ThreadOk(s', t, s'.threads[t])
  {
    hide Inv, SharedOk, Disjoint;
    HolderSlot(s, t);
    ThreadIs(s, t);
  }

  lemma LoadFrame(s: State, s': State, t: nat)
    requires Inv(s) && t < |s.threads| && s.threads[t].Rel? && RelStep(s, s', t, s.threads[t])
    requires s.threads[t].rpc.Load? || (s.threads[t].rpc.Pass? && s.ring[At(s.threads[t].rpc.at, |s.ring|)] != Null)
    ensures t < |s'.threads| && Frame(s, s', t, s.threads[t], s'.threads[t])
  {
    HolderSlot(s, t);
    hide Inv, SharedOk, Disjoint, ThreadOk;
  }

  lemma TakeShared(s: State, s': State, t: nat)
    requires Inv(s) && t < |s.threads| && s.threads[t].Rel? && RelStep(s, s', t, s.threads[t])
    requires s.threads[t].rpc.Take?
    ensures SharedOk(s')
  {
    var th := s.threads[t];
    assert ThreadOk(s, t, th);
    HolderSlot(s, t);
    assert s.stored[s.retired := th.rpc.elem] == s.stored;
    hide RingOk, ThreadsOk, Disjoint, Marked;
    Retires(s, s', t, th.rpc.elem, s'.threads[t]);
  }

  lemma TakeThread(s: State, s': State, t: nat)
    requires Inv(s) && t < |s.threads| && s.threads[t].Rel? && RelStep(s, s', t, s.threads[t])
    requires s.threads[t].rpc.Take?
    ensures t < |s'.threads| && ThreadOk(s', t, s'.threads[t])
  {
    hide Inv, SharedOk, Disjoint;
    HolderSlot(s, t);
    ThreadIs(s, t);
  }

  lemma TakeFrame(s: State, s': State, t: nat)
    requires Inv(s) && t < |s.threads| && s.threads[t].Rel? && RelStep(s, s', t, s.threads[t])
    requires s.threads[t].rpc.Take?
    ensures t < |s'.threads| && Frame(s, s', t, s.threads[t], s'.threads[t])
  {
    HolderSlot(s, t);
    hide Inv, SharedOk, Disjoint, ThreadOk;
  }

  lemma RingMark(ring: seq<Elem>, stored: map<nat, Elem>, retired: nat)
    requires |ring| > 0 && RingOk(ring, stored, retired, false) && retired !in stored
    ensures RingOk(ring[At(retired, |ring|) := Buck], stored, retired, true)
  {
    hide At;
    forall p: nat | retired < p < retired + |ring| ensures At(p, |ring|) != At(retired, |ring|) {
      if At(p, |ring|) == At(retired, |ring|) {
        AtInjective(p, retired, |ring|);
      }
    }
  }

  lemma PassShared(s: State, s': State, t: nat)
    requires Inv(s) && t < |s.threads| && s.threads[t].Rel? && RelStep(s, s', t, s.threads[t])
    requires s.threads[t].rpc.Pass? && s.ring[At(s.threads[t].rpc.at, |s.ring|)] == Null
    ensures SharedOk(s')
  {
    var th := s.threads[t];
    HolderSlot(s, t);
    RingMark(s.ring, s.stored, s.retired);
    TotalUpdate(s.threads, t, s'.threads[t]);
    hide ThreadsOk, Disjoint, RingOk;
  }

  lemma PassThread(s: State, s': State, t: nat)
    requires Inv(s) && t < |s.threads| && s.threads[t].Rel? && RelStep(s, s', t, s.threads[t])
    requires s.threads[t].rpc.Pass? && s.ring[At(s.threads[t].rpc.at, |s.ring|)] == Null
    ensures t < |s'.threads| && ThreadOk(s', t, s'.threads[t])
  {
    HolderSlot(s, t);
    var th := s.threads[t];
    assert ThreadOk(s, t, th);
    hide Inv, SharedOk, Disjoint;
  }

  lemma PassFrame(s: State, s': State, t: nat)
    requires Inv(s) && t < |s.threads| && s.threads[t].Rel? && RelStep(s, s', t, s.threads[t])
    requires s.threads[t].rpc.Pass? && s.ring[At(s.threads[t].rpc.at, |s.ring|)] == Null
    ensures t < |s'.threads| && Frame(s, s', t, s.threads[t], s'.threads[t])
  {
    HolderSlot(s, t);
    hide Inv, SharedOk, Disjoint, ThreadOk;
  }

  lemma AddShared(s: State, s': State, t: nat)
    requires Inv(s) && t < |s.threads| && s.threads[t].Rel? && RelStep(s, s', t, s.threads[t])
    requires s.threads[t].rpc.AddHead?
    ensures SharedOk(s')
  {
    var th := s.threads[t];
    assert ThreadOk(s, t, th);
    TotalUpdate(s.threads, t, s'.threads[t]);
    TotalAtLeast(s.threads, t);
    SameMark(s, s', t, s'.threads[t]);
    hide ThreadsOk, Disjoint, RingOk, Marked, RelOk;
  }

  lemma AddThread(s: State, s': State, t: nat)
    requires Inv(s) && t < |s.threads| && s.threads[t].Rel? && RelStep(s, s', t, s.threads[t])
    requires s.threads[t].rpc.AddHead?
    ensures t < |s'.threads| && ThreadOk(s', t, s'.threads[t])
  {
    var th := s.threads[t];
    assert ThreadOk(s, t, th);
    hide Inv, SharedOk, Disjoint;
  }

  lemma AddFrame(s: State, s': State, t: nat)
    requires Inv(s) && t < |s.threads| && s.threads[t].Rel? && RelStep(s, s', t, s.threads[t])
    requires s.threads[t].rpc.AddHead?
    ensures t < |s'.threads| && Frame(s, s', t, s.threads[t], s'.threads[t])
  {
    var th := s.threads[t];
    assert ThreadOk(s, t, th);
    hide Inv, SharedOk, Disjoint;
  }

  /** One step of a release. */
  lemma RelKeepsInv(s: State, s': State, t: nat)
    requires Inv(s) && t < |s.threads| && s.threads[t].Rel? && RelStep(s, s', t, s.threads[t])
    ensures Inv(s')
  {
    assert |s.ring| > 0;
    hide *;
    var th := s.threads[t];
    match th.rpc
    case Check => CheckKeepsInv(s, s', t);
    case Store(i) =>
      if i < |th.elems| {
        StoreShared(s, s', t);
        StoreThread(s, s', t);
        StoreFrame(s, s', t);
        Together(s, s', t, th, s'.threads[t]);
      } else {
        CheckKeepsInv(s, s', t);
      }
    case First =>
      FirstShared(s, s', t);
      FirstThread(s, s', t);
      FirstFrame(s, s', t);
      Together(s, s', t, th, s'.threads[t]);
    case Got =>
      GotShared(s, s', t);
      GotThread(s, s', t);
      GotFrame(s, s', t);
      Together(s, s', t, th, s'.threads[t]);
    case Load(_) =>
      LoadShared(s, s', t);
      LoadThread(s, s', t);
      LoadFrame(s, s', t);
      Together(s, s', t, th, s'.threads[t]);
    case Take(_, _) =>
      TakeShared(s, s', t);
      TakeThread(s, s', t);
      TakeFrame(s, s', t);
      Together(s, s', t, th, s'.threads[t]);
    case Pass(at) =>
      if s.ring[At(at, |s.ring|)] == Null {
        PassShared(s, s', t);
        PassThread(s, s', t);
        PassFrame(s, s', t);
      } else {
        LoadShared(s, s', t);
        LoadThread(s, s', t);
        LoadFrame(s, s', t);
      }
      Together(s, s', t, th, s'.threads[t]);
    case AddHead(_) =>
      AddShared(s, s', t);
      AddThread(s, s', t);
      AddFrame(s, s', t);
      Together(s, s', t, th, s'.threads[t]);
  }

  /** One step of any thread. */
  lemma StepKeepsInv(s: State, s': State, t: nat)
    requires Inv(s) && Step(s, s', t)
    ensures Inv(s')
  {
    hide Inv, AcqStep, RelStep, Start;
    var th := s.threads[t];
    if (th.AcqLoad? || th.AcqHead? || th.AcqCas?) && AcqStep(s, s', t, th) {
      AcqKeepsInv(s, s', t);
    } else if th.Rel? && RelStep(s, s', t, th) {
      RelKeepsInv(s, s', t);
    } else {
      var th' :| Start(s, s', t, th');
      StartKeepsInv(s, s', t, th');
    }
  }

  // ---------- every run ----------

  lemma InitInv(s: State)
    requires Init(s)
    ensures Inv(s)
  {
    TotalNone(s.threads);
  }

  /** What was released and called back stays so. */
  ghost predicate Onward(s: State, s': State) {
    && s.stored.Keys <= s'.stored.Keys && (forall p :: p in s.stored ==> s'.stored[p] == s.stored[p])
    && s.retired <= s'.retired && s.calls <= s'.calls
  }

  lemma RelOnward(s: State, s': State, t: nat)
    requires Inv(s) && t < |s.threads| && s.threads[t].Rel? && RelStep(s, s', t, s.threads[t])
    ensures Onward(s, s')
  {
    hide Inv, SharedOk;
    var th := s.threads[t];
    if th.rpc.First? {
      FirstSlot(s, t);
    } else if th.rpc.Store? {
      NotStored(s, t);
    } else if th.rpc.Got? {
      NotStored(s, t);
    } else if th.rpc.Take? {
      HolderSlot(s, t);
    }
  }

  lemma NotStored(s: State, t: nat)
    requires Inv(s) && t < |s.threads| && s.threads[t].Rel?
    ensures var th := s.threads[t];
            && (th.rpc.Store? && th.rpc.i < |th.elems| ==> th.sn + th.rpc.i !in s.stored)
            && (th.rpc.Got? ==> th.sn !in s.stored && th.sn == s.retired)
  {
    var th := s.threads[t];
    assert ThreadOk(s, t, th);
    if th.rpc.Store? && th.rpc.i < |th.elems| {
      assert InRange(th, th.sn + th.rpc.i);
    }
    assert InRange(th, th.sn);
  }

  lemma StepOnward(s: State, s': State, t: nat)
    requires Inv(s) && Step(s, s', t)
    ensures Onward(s, s')
  {
    hide Inv;
    var th := s.threads[t];
    if th.Rel? && RelStep(s, s', t, th) {
      RelOnward(s, s', t);
    }
  }

  lemma {:induction false} RunInv(run: seq<State>, i: nat, j: nat)
    requires Run(run) && i <= j < |run|
    ensures Inv(run[j]) && Onward(run[i], run[j])
  {
    hide Inv, Init, Step;
    if j == 0 {
      InitInv(run[0]);
    } else {
      RunInv(run, if i < j then i else j - 1, j - 1);
      assert Next(run[j - 1], run[j]);
      var t: nat :| Step(run[j - 1], run[j], t);
      StepKeepsInv(run[j - 1], run[j], t);
      StepOnward(run[j - 1], run[j], t);
    }
  }

  // ---------- the properties ----------

  lemma HolderHolds(s: State)
    requires Inv(s)
    ensures s.holder.Some? ==> s.holder.value < |s.threads| && Holding(s.threads[s.holder.value])
  {
    if s.holder.Some? {
      assert ThreadOk(s, s.holder.value, s.threads[s.holder.value]);
    }
  }

  /** There is one buck: either one thread holds it, or it lies in exactly one slot of the ring, that of the first
      position not retired; and that position is the head plus all increments not made yet. */
  lemma OneBuck(run: seq<State>, i: nat, t: nat, u: nat, k: nat)
    requires Run(run) && i < |run| && t < |run[i].threads| && u < |run[i].threads| && |run[i].ring| > 0
    ensures run[i].head + Total(run[i].threads) == run[i].retired
    ensures Holding(run[i].threads[t]) && Holding(run[i].threads[u]) ==> t == u
    ensures (forall v :: 0 <= v < |run[i].threads| ==> !Holding(run[i].threads[v])) ==>
              (k < |run[i].ring| ==>
                (run[i].ring[k] == Buck <==> k == At(run[i].retired, |run[i].ring|)))
  {
    RunInv(run, i, i);
    var s := run[i];
    assert ThreadOk(s, t, s.threads[t]) && ThreadOk(s, u, s.threads[u]);
    if (forall v :: 0 <= v < |s.threads| ==> !Holding(s.threads[v])) && k < |s.ring| {
      HolderHolds(s);
      hide ThreadsOk, Disjoint, ThreadOk;
      var p := PositionOf(s.retired, k, |s.ring|);
      assert s.ring[At(p, |s.ring|)] == if p in s.stored then s.stored[p] else if p == s.retired then Buck else Null;
    }
  }

  /** In every state the call-backs made so far are, in the order of sequence numbers and each once, exactly the elements
      released for the positions below one number. */
  lemma CalledInOrderOnce(run: seq<State>, i: nat, c: Reorder.Call, j: nat, k: nat)
    requires Run(run) && i < |run|
    ensures c in run[i].calls <==> c.sn < run[i].retired && c.sn in run[i].stored && c.elem == run[i].stored[c.sn]
    ensures multiset(run[i].calls)[c] <= 1
    ensures j < k < |run[i].calls| ==> run[i].calls[j].sn < run[i].calls[k].sn
  {
    RunInv(run, i, i);
    Reorder.CallsExactly(run[i].stored, run[i].retired, c);
    if j < k < |run[i].calls| {
      Reorder.CallsOrdered(run[i].stored, run[i].retired, j, k);
    }
  }

  /** A release never meets anything but the empty slot or the mark at its first position, and never overwrites the mark
      with a later element. */
  lemma AssertionsHold(run: seq<State>, i: nat, t: nat)
    requires Run(run) && i < |run| && t < |run[i].threads| && run[i].threads[t].Rel? && |run[i].ring| > 0
    ensures var s, th := run[i], run[i].threads[t];
            && (th.rpc.First? ==> s.ring[At(th.sn, |s.ring|)] == Null || s.ring[At(th.sn, |s.ring|)] == Buck)
            && (th.rpc.Store? && th.rpc.i < |th.elems| ==> s.ring[At(th.sn + th.rpc.i, |s.ring|)] == Null)
  {
    RunInv(run, i, i);
    var s, th := run[i], run[i].threads[t];
    assert ThreadOk(s, t, th);
    if th.rpc.First? {
      FirstSlot(s, t);
    } else if th.rpc.Store? && th.rpc.i < |th.elems| {
      assert InRange(th, th.sn + th.rpc.i) && InRange(th, th.sn);
      SlotIsEmpty(s, t, th.sn + th.rpc.i);
      NonFirstUnmarked(s, t, th.sn + th.rpc.i);
    }
  }

  /** When all releases have returned, the head is published, everything below it has been called back, and nothing has
      been released for the head. */
  lemma NothingStranded(run: seq<State>, i: nat)
    requires Run(run) && i < |run| && (forall t :: 0 <= t < |run[i].threads| ==> !run[i].threads[t].Rel?)
    ensures run[i].head == run[i].retired && run[i].head !in run[i].stored
    ensures forall p: nat :: p < run[i].head ==> p in run[i].stored
  {
    RunInv(run, i, i);
    var s := run[i];
    TotalNone(s.threads);
    HolderHolds(s);
  }

  /** What a release has stored, in the ring or by calling it back itself, is what is called back for its sequence
      numbers, then and later. */
  lemma CallsWhatWasReleased(run: seq<State>, i: nat, j: nat, t: nat, c: Reorder.Call)
    requires Run(run) && i <= j < |run| && t < |run[i].threads| && run[i].threads[t].Rel?
    requires InRange(run[i].threads[t], c.sn) && HasStored(run[i].threads[t], c.sn) && c in run[j].calls
    ensures c.elem == run[i].threads[t].elems[c.sn - run[i].threads[t].sn]
  {
    hide Run, Inv, Onward;
    RunInv(run, i, i);
    RunInv(run, j, j);
    StoredAs(run[i], t, c.sn);
    StoredStays(run, i, j, c.sn);
    CallsMatch(run[j], c);
  }

  lemma StoredStays(run: seq<State>, i: nat, j: nat, p: nat)
    requires Run(run) && i <= j < |run| && p in run[i].stored
    ensures p in run[j].stored && run[j].stored[p] == run[i].stored[p]
  {
    hide Run, Inv;
    RunInv(run, i, j);
  }

  lemma StoredAs(s: State, t: nat, p: nat)
    requires Inv(s) && t < |s.threads| && InRange(s.threads[t], p) && HasStored(s.threads[t], p)
    ensures p in s.stored && s.stored[p] == s.threads[t].elems[p - s.threads[t].sn]
  {
    assert ThreadOk(s, t, s.threads[t]);
  }

  lemma CallsMatch(s: State, c: Reorder.Call)
    requires Inv(s) && c in s.calls
    ensures c.sn in s.stored && c.elem == s.stored[c.sn]
  {
    Reorder.CallsExactly(s.stored, s.retired, c);
  }
}

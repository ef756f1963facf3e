/** The strict reorder buffer as a machine of atomic steps. Elements are stored in any order; the thread whose range
    contains the first missing position retires everything consecutive, and the change indicator tells it whether
    elements may have arrived behind its back. */
module Reorder {
  import opened RingIndex

  type Elem = nat

  /** The empty slot, and the element that takes a position but is not reported. */
  const Null: Elem := 0
  const Dummy: Elem := 1

  /** Head, the first missing position, and the change indicator, in one word. */
  datatype Hi = Hi(head: nat, chgi: nat)

  datatype Call = Call(elem: Elem, sn: nat)

  datatype RelPc =
    | Check
    | Store(i: nat)
    | LoadHi
    | ChgCas(seen: Hi)
    | Scan(at: nat, seen: Hi)
    | HeadCas(at: nat, seen: Hi)

  datatype Thread =
    | Idle
    | AcqLoad(requested: nat)
    | AcqHead(requested: nat, tail: nat)
    | AcqCas(requested: nat, tail: nat, actual: nat)
    | Acquired(sn: nat, count: nat)
    | Rel(sn: nat, elems: seq<Elem>, rpc: RelPc)

  datatype Claim = Claim(thread: nat, first: nat)

  /** `user` tells that the callers choose the sequence numbers. History: `given` are the positions passed to a release,
      `stored` what was stored for them, `retired` the first position not called back yet, `calls` the elements called
      back, `claims` who acquired each position. */
  datatype State = State(hi: Hi, tail: nat, ring: seq<Elem>, user: bool, threads: seq<Thread>,
                         given: set<nat>, stored: map<nat, Elem>, retired: nat, calls: seq<Call>, claims: seq<Claim>)

  ghost predicate Init(s: State) {
    && |s.ring| > 0 && s.hi == Hi(0, 0) && s.tail == s.retired == 0
    && (forall k :: 0 <= k < |s.ring| ==> s.ring[k] == Null)
    && s.given == {} && s.stored == map[] && s.calls == [] && s.claims == []
    && forall t :: 0 <= t < |s.threads| ==> s.threads[t].Idle?
  }

  // ---------- acquire ----------

  predicate AcqStep(s: State, s': State, t: nat, th: Thread)
    requires t < |s.threads| && (th.AcqLoad? || th.AcqHead? || th.AcqCas?)
  {
    match th
    case AcqLoad(requested) => s' == s.(threads := s.threads[t := AcqHead(requested, s.tail)])
    case AcqHead(requested, tail) =>
      var available := |s.ring| - (tail - s.hi.head);
      var actual := if available < requested then available else requested;
      s' == s.(threads := s.threads[t := if actual <= 0 then Idle else AcqCas(requested, tail, actual)])
    case AcqCas(requested, tail, actual) =>
      || s' == s.(threads := s.threads[t := AcqHead(requested, s.tail)])
      || (s.tail == tail &&
          s' == s.(tail := tail + actual, claims := s.claims + seq(actual, _ => Claim(t, tail)),
                   threads := s.threads[t := Acquired(tail, actual)]))
  }

  // ---------- release ----------

  predicate NotBelow(sn: nat, p: nat) { sn <= p }

  /** The positions from sn on, count of them. */
  function Range(sn: nat, count: nat): (r: set<nat>)
    ensures forall p :: p in r <==> sn <= p < sn + count
  {
    set p: nat | p < sn + count && NotBelow(sn, p)
  }

  predicate InRange(th: Thread, p: nat) { th.Rel? && th.sn <= p < th.sn + |th.elems| }

  /** What a release does with a freshly read head: retire from there if it is in its range. */
  function Judge(th: Thread, hi: Hi): Thread
    requires th.Rel?
  {
    th.(rpc := if InRange(th, hi.head) then Scan(hi.head, hi) else ChgCas(hi))
  }

  /** The compare-and-swaps are weak: they may also fail when nothing has changed. */
  ghost predicate RelStep(s: State, s': State, t: nat, th: Thread)
    requires t < |s.threads| && |s.ring| > 0 && th.Rel?
  {
    match th.rpc
    case Check =>
      if s.user then
        // Waits until the range fits in the window.
        th.sn + |th.elems| <= s.hi.head + |s.ring| && s' == s.(threads := s.threads[t := th.(rpc := Store(0))])
      else if th.sn + |th.elems| > s.tail then
        s' == s.(given := s.given - Range(th.sn, |th.elems|), threads := s.threads[t := Idle])
      else s' == s.(threads := s.threads[t := th.(rpc := Store(0))])
    case Store(i) =>
      if i < |th.elems| then
        s' == s.(ring := s.ring[At(th.sn + i, |s.ring|) := th.elems[i]], stored := s.stored[th.sn + i := th.elems[i]],
                 threads := s.threads[t := th.(rpc := Store(i + 1))])
      else s' == s.(threads := s.threads[t := th.(rpc := LoadHi)])
    case LoadHi => s' == s.(threads := s.threads[t := Judge(th, s.hi)])
    case ChgCas(seen) =>
      || s' == s.(threads := s.threads[t := Judge(th, s.hi)])
      || (s.hi == seen && s' == s.(hi := Hi(seen.head, seen.chgi + 1), threads := s.threads[t := Idle]))
    case Scan(at, seen) =>
      var elem := s.ring[At(at, |s.ring|)];
      if elem == Null then s' == s.(threads := s.threads[t := th.(rpc := HeadCas(at, seen))])
      else
        s' == s.(ring := s.ring[At(at, |s.ring|) := Null], retired := at + 1,
                 calls := if elem > Dummy then s.calls + [Call(elem, at)] else s.calls,
                 threads := s.threads[t := th.(rpc := Scan(at + 1, seen))])
    case HeadCas(at, seen) =>
      || s' == s.(threads := s.threads[t := th.(rpc := Scan(at, s.hi))])
      || (s.hi == seen && s' == s.(hi := Hi(at, seen.chgi), threads := s.threads[t := Idle]))
  }

  /** A position is passed to a release at most once; elements are not null. */
  ghost predicate Start(s: State, s': State, t: nat, th': Thread)
    requires t < |s.threads|
  {
    && (s.threads[t].Idle? || s.threads[t].Acquired?)
    && ((th'.AcqLoad? && !s.user && s' == s.(threads := s.threads[t := th']))
        || (th'.Rel? && th'.rpc == Check && (forall k :: 0 <= k < |th'.elems| ==> th'.elems[k] != Null)
            && Range(th'.sn, |th'.elems|) !! s.given
            && s' == s.(given := s.given + Range(th'.sn, |th'.elems|), threads := s.threads[t := th'])))
  }

  ghost predicate Step(s: State, s': State, t: nat) {
    && t < |s.threads| && |s.ring| > 0
    && var th := s.threads[t];
       || ((th.AcqLoad? || th.AcqHead? || th.AcqCas?) && AcqStep(s, s', t, th))
       || (th.Rel? && RelStep(s, s', t, th))
       || (exists th' :: Start(s, s', t, th'))
  }

  ghost predicate Next(s: State, s': State) { exists t: nat :: Step(s, s', t) }

  ghost predicate Run(run: seq<State>) {
    && |run| > 0 && Init(run[0])
    && forall i :: 0 <= i < |run| - 1 ==> Next(run[i], run[i + 1])
  }

  // ---------- the invariant ----------

  /** The call-backs due for the first n positions, in order. */
  ghost function Calls(stored: map<nat, Elem>, n: nat): seq<Call>
    requires forall p: nat :: p < n ==> p in stored
  {
    if n == 0 then []
    else Calls(stored, n - 1) + if stored[n - 1] > Dummy then [Call(stored[n - 1], n - 1)] else []
  }

  /** The slots of the window behind the retired positions hold what was stored for them. */
  ghost predicate RingOk(ring: seq<Elem>, stored: map<nat, Elem>, retired: nat)
    requires |ring| > 0
  {
    forall p: nat :: retired <= p < retired + |ring| ==>
      ring[At(p, |ring|)] == if p in stored then stored[p] else Null
  }

  ghost predicate HistoryOk(stored: map<nat, Elem>, given: set<nat>, calls: seq<Call>, retired: nat, bound: nat) {
    && (forall p :: p in stored ==> p in given && p < bound && stored[p] != Null)
    && (forall p: nat :: p < retired ==> p in stored)
    && calls == Calls(stored, retired)
  }

  predicate Retiring(th: Thread) { th.Rel? && (th.rpc.Scan? || th.rpc.HeadCas?) }

  /** Between storing elements and finding out who retires them. */
  predicate Deciding(th: Thread) { th.Rel? && (th.rpc.Store? || th.rpc.LoadHi? || th.rpc.ChgCas?) }

  /** Whoever stored an element at p is still going to look at the head. */
  ghost predicate Attended(threads: seq<Thread>, p: nat) {
    exists t :: 0 <= t < |threads| && Deciding(threads[t]) && InRange(threads[t], p)
  }

  /** How many of its elements a release has stored. */
  function Progress(th: Thread): nat
    requires th.Rel?
  {
    match th.rpc
    case Check => 0
    case Store(i) => i
    case _ => |th.elems|
  }

  ghost predicate RelOk(s: State, th: Thread)
    requires th.Rel?
  {
    && (forall p :: InRange(th, p) ==> p in s.given)
    && (forall k :: 0 <= k < |th.elems| ==> th.elems[k] != Null)
    && Progress(th) <= |th.elems|
    && (forall p: nat :: InRange(th, p) ==>
          if p < th.sn + Progress(th) then p in s.stored && s.stored[p] == th.elems[p - th.sn] else p !in s.stored)
    && (!th.rpc.Check? && 0 < |th.elems| ==> th.sn + |th.elems| <= s.hi.head + |s.ring|)
    && match th.rpc
       case ChgCas(seen) => !InRange(th, seen.head)
       case Scan(at, seen) =>
         at == s.retired && seen.head == s.hi.head && seen.chgi <= s.hi.chgi && InRange(th, s.hi.head)
       case HeadCas(at, seen) =>
         && at == s.retired && seen.head == s.hi.head && seen.chgi <= s.hi.chgi && InRange(th, s.hi.head)
         && s.hi.head < at && (s.hi.chgi == seen.chgi && at in s.stored ==> Attended(s.threads, at))
       case _ => true
  }

  ghost predicate ThreadOk(s: State, t: nat, th: Thread) {
    match th
    case AcqCas(_, tail, actual) => 0 < actual && tail + actual <= s.hi.head + |s.ring|
    case Acquired(sn, count) =>
      sn + count <= |s.claims| && forall p :: sn <= p < sn + count ==> s.claims[p] == Claim(t, sn)
    case Rel(_, _, _) => RelOk(s, th)
    case _ => true
  }

  ghost predicate Disjoint(threads: seq<Thread>) {
    forall t, u, p :: 0 <= t < u < |threads| && InRange(threads[t], p) ==> !InRange(threads[u], p)
  }

  /** Without a thread retiring, everything retired is published, and an element at the head is attended to. */
  ghost predicate NotStranded(s: State) {
    (forall t :: 0 <= t < |s.threads| ==> !Retiring(s.threads[t])) ==>
      s.retired == s.hi.head && (s.hi.head in s.stored ==> Attended(s.threads, s.hi.head))
  }

  ghost predicate SharedOk(s: State) {
    && |s.ring| > 0 && s.hi.head <= s.retired && |s.claims| == s.tail
    && RingOk(s.ring, s.stored, s.retired)
    && HistoryOk(s.stored, s.given, s.calls, s.retired, s.hi.head + |s.ring|)
    && (!s.user ==> s.tail <= s.hi.head + |s.ring|)
  }

  ghost predicate ThreadsOk(s: State) {
    forall t :: 0 <= t < |s.threads| ==> ThreadOk(s, t, s.threads[t])
  }

  ghost predicate Inv(s: State) {
    SharedOk(s) && ThreadsOk(s) && Disjoint(s.threads) && NotStranded(s)
  }

  // ---------- one step ----------

  /** What a step of thread t may do to the rest without disturbing the other threads. */
  ghost predicate Frame(s: State, s': State, t: nat, th: Thread, th': Thread) {
    && t < |s.threads| && s.threads[t] == th && s'.threads == s.threads[t := th']
    && |s'.ring| == |s.ring| && s'.user == s.user
    && s.hi.head <= s'.hi.head && s.hi.chgi <= s'.hi.chgi && s.claims <= s'.claims && s.stored.Keys <= s'.stored.Keys
    && (forall p :: !InRange(th, p) ==>
          && (p in s.given ==> p in s'.given)
          && (p in s'.stored ==> p in s.stored && s'.stored[p] == s.stored[p]))
    && (InRange(th, s.hi.head) || Quiet(s, s', th, th'))
  }

  /** A step that is not about the head: retirement is where it was, and either the change indicator tells, or whoever
      was attending to an element still is. */
  ghost predicate Quiet(s: State, s': State, th: Thread, th': Thread) {
    && s'.hi.head == s.hi.head && s'.retired == s.retired
    && (s.hi.chgi < s'.hi.chgi
        || ((forall p :: Deciding(th) && InRange(th, p) ==> Deciding(th') && InRange(th', p))
            && forall p :: p in s'.stored && p !in s.stored ==> Deciding(th') && InRange(th', p)))
  }

  lemma AttendedStays(s: State, s': State, t: nat, th: Thread, th': Thread, p: nat)
    requires t < |s.threads| && s.threads[t] == th && s'.threads == s.threads[t := th']
    requires Attended(s.threads, p)
    requires Deciding(th) && InRange(th, p) ==> Deciding(th') && InRange(th', p)
    ensures Attended(s'.threads, p)
  {
    var u :| 0 <= u < |s.threads| && Deciding(s.threads[u]) && InRange(s.threads[u], p);
    assert Deciding(s'.threads[u]) && InRange(s'.threads[u], p);
  }

  lemma Attends(threads: seq<Thread>, t: nat, p: nat)
    requires t < |threads| && Deciding(threads[t]) && InRange(threads[t], p)
    ensures Attended(threads, p)
  {
  }

  lemma Apart(threads: seq<Thread>, t: nat, u: nat, p: nat)
    requires Disjoint(threads) && t < |threads| && u < |threads| && t != u && InRange(threads[t], p)
    ensures !InRange(threads[u], p)
  {
  }

  lemma OtherStays(s: State, s': State, t: nat, th: Thread, th': Thread, u: nat)
    requires Inv(s) && Frame(s, s', t, th, th') && u < |s.threads| && u != t
    ensures ThreadOk(s', u, s'.threads[u])
  {
    hide SharedOk, NotStranded, Attended, Disjoint, RelOk;
    var tu := s.threads[u];
    ThreadIs(s, u);
    if tu.Rel? {
      OtherRelStays(s, s', t, th, th', u);
    }
  }

  lemma OtherRelStays(s: State, s': State, t: nat, th: Thread, th': Thread, u: nat)
    requires Inv(s) && Frame(s, s', t, th, th') && u < |s.threads| && u != t && s.threads[u].Rel?
    ensures RelOk(s', s.threads[u])
  {
    hide Inv, Attended;
    ThreadIs(s, u);
    var tu := s.threads[u];
    forall p | InRange(tu, p) ensures !InRange(th, p) {
      NotBoth(s, u, t, p);
    }
    if tu.rpc.HeadCas? && s'.hi.chgi == tu.rpc.seen.chgi && tu.rpc.at in s'.stored {
      StillAttended(s, s', t, th, th', tu.rpc.at);
    }
  }

  lemma NotBoth(s: State, u: nat, t: nat, p: nat)
    requires Inv(s) && u < |s.threads| && t < |s.threads| && u != t && InRange(s.threads[u], p)
    ensures !InRange(s.threads[t], p)
  {
    Apart(s.threads, u, t, p);
  }

  lemma StillAttended(s: State, s': State, t: nat, th: Thread, th': Thread, at: nat)
    requires Frame(s, s', t, th, th') && !InRange(th, s.hi.head) && s'.hi.chgi <= s.hi.chgi && at in s'.stored
    requires at in s.stored ==> Attended(s.threads, at)
    ensures Attended(s'.threads, at)
  {
    hide Attended;
    if at in s.stored {
      AttendedStays(s, s', t, th, th', at);
    } else {
      Attends(s'.threads, t, at);
    }
  }

  lemma OthersStay(s: State, s': State, t: nat, th: Thread, th': Thread)
    requires Inv(s) && Frame(s, s', t, th, th') && ThreadOk(s', t, th')
    ensures ThreadsOk(s')
  {
    hide Inv, Frame, ThreadOk;
    FrameThreads(s, s', t, th, th');
    forall u | 0 <= u < |s'.threads| ensures ThreadOk(s', u, s'.threads[u]) {
      if u != t {
        OtherStays(s, s', t, th, th', u);
      }
    }
  }

  lemma FrameThreads(s: State, s': State, t: nat, th: Thread, th': Thread)
    requires Frame(s, s', t, th, th')
    ensures |s'.threads| == |s.threads| && s'.threads == s.threads[t := th'] && s'.threads[t] == th'
  {
  }

  /** A thread keeps or gives up its range. */
  lemma StillDisjoint(threads: seq<Thread>, t: nat, th': Thread)
    requires Disjoint(threads) && t < |threads|
    requires forall p :: InRange(th', p) ==> InRange(threads[t], p)
    ensures Disjoint(threads[t := th'])
  {
  }

  /** A step by a thread that neither retires nor starts to, and does not stop attending to the head. */
  lemma StillNotStranded(s: State, s': State, t: nat, th: Thread, th': Thread)
    requires NotStranded(s) && t < |s.threads| && s.threads[t] == th && s'.threads == s.threads[t := th']
    requires !Retiring(th) && s'.retired == s.retired && s'.hi.head == s.hi.head
    requires Deciding(th) && InRange(th, s.hi.head) && !Retiring(th') ==> Deciding(th') && InRange(th', s.hi.head)
    requires s.hi.head in s'.stored ==> s.hi.head in s.stored || (Deciding(th') && InRange(th', s.hi.head))
    ensures NotStranded(s')
  {
    assert s'.threads[t] == th';
    if forall u :: 0 <= u < |s'.threads| ==> !Retiring(s'.threads[u]) {
      forall u | 0 <= u < |s.threads| ensures !Retiring(s.threads[u]) {
        assert u != t ==> s'.threads[u] == s.threads[u];
      }
      hide Retiring, Attended;
      if s'.hi.head in s'.stored {
        if s.hi.head in s.stored {
          AttendedStays(s, s', t, th, th', s.hi.head);
        } else {
          Attends(s'.threads, t, s.hi.head);
        }
      }
    }
  }

  /** A thread retiring: nothing to attend to. */
  lemma BusyNotStranded(s: State, t: nat)
    requires t < |s.threads| && Retiring(s.threads[t])
    ensures NotStranded(s)
  {
  }

  lemma Together(s: State, s': State, t: nat, th: Thread, th': Thread)
    requires Inv(s) && Frame(s, s', t, th, th') && (forall p :: InRange(th', p) ==> InRange(th, p))
    requires SharedOk(s') && ThreadOk(s', t, th') && NotStranded(s')
    ensures Inv(s')
  {
    StillDisjoint(s.threads, t, th');
    OthersStay(s, s', t, th, th');
    hide Frame, SharedOk, ThreadOk, NotStranded, Disjoint, ThreadsOk;
    FrameThreads(s, s', t, th, th');
  }

  lemma ThreadIs(s: State, t: nat)
    requires Inv(s) && t < |s.threads|
    ensures ThreadOk(s, t, s.threads[t]) && |s.ring| > 0
    ensures s.hi.head <= s.retired && (!s.user ==> s.tail <= s.hi.head + |s.ring|)
  {
    hide ThreadOk, RingOk, HistoryOk, Disjoint, NotStranded;
  }

  lemma RetirerHasHead(s: State, u: nat)
    requires Inv(s) && u < |s.threads| && Retiring(s.threads[u])
    ensures InRange(s.threads[u], s.hi.head)
  {
    hide Inv, Attended;
    ThreadIs(s, u);
  }

  lemma AcqKeepsInv(s: State, s': State, t: nat)
    requires Inv(s) && t < |s.threads| && |s.ring| > 0
    requires s.threads[t].AcqLoad? || s.threads[t].AcqHead? || s.threads[t].AcqCas?
    requires AcqStep(s, s', t, s.threads[t])
    ensures Inv(s')
  {
    hide Inv, RelOk, RelStep, Attended, Disjoint, SharedOk, ThreadsOk, ThreadOk;
    var th, th' := s.threads[t], s'.threads[t];
    NotStrandedIn(s);
    AcqMoves(s, s', t);
    StillNotStranded(s, s', t, th, th');
    hide *;
    Together(s, s', t, th, th');
  }

  lemma NotStrandedIn(s: State)
    requires Inv(s)
    ensures NotStranded(s)
  {
  }

  lemma AcqMoves(s: State, s': State, t: nat)
    requires Inv(s) && t < |s.threads| && |s.ring| > 0
    requires s.threads[t].AcqLoad? || s.threads[t].AcqHead? || s.threads[t].AcqCas?
    requires AcqStep(s, s', t, s.threads[t])
    ensures SharedOk(s') && t < |s'.threads| && ThreadOk(s', t, s'.threads[t])
    ensures Frame(s, s', t, s.threads[t], s'.threads[t]) && !s'.threads[t].Rel?
  {
    hide RingOk, HistoryOk, Disjoint, NotStranded, RelOk, RelStep, ThreadsOk;
    ThreadIs(s, t);
  }

  lemma StartKeepsInv(s: State, s': State, t: nat, th': Thread)
    requires Inv(s) && t < |s.threads| && Start(s, s', t, th')
    ensures Inv(s')
  {
    var th := s.threads[t];
    assert Disjoint(s'.threads) by { StartsApart(s, s', t, th'); }
    StartMoves(s, s', t, th');
    hide Disjoint, RelOk, Inv, SharedOk, ThreadsOk, ThreadOk, Attended, Frame;
    NotStrandedIn(s);
    StillNotStranded(s, s', t, th, th');
    OthersStay(s, s', t, th, th');
    Gathered(s');
  }

  lemma Gathered(s: State)
    requires SharedOk(s) && ThreadsOk(s) && Disjoint(s.threads) && NotStranded(s)
    ensures Inv(s)
  {
  }

  lemma StartsApart(s: State, s': State, t: nat, th': Thread)
    requires Inv(s) && t < |s.threads| && Start(s, s', t, th')
    ensures Disjoint(s'.threads)
  {
    hide RelOk, RingOk, HistoryOk, NotStranded, ThreadsOk, SharedOk;
    forall u, p | 0 <= u < |s.threads| && InRange(s.threads[u], p) ensures !InRange(th', p) {
      GivenIs(s, u, p);
    }
    WithApart(s.threads, t, th');
  }

  lemma WithApart(threads: seq<Thread>, t: nat, th': Thread)
    requires Disjoint(threads) && t < |threads|
    requires forall u, p :: 0 <= u < |threads| && InRange(threads[u], p) ==> !InRange(th', p)
    ensures Disjoint(threads[t := th'])
  {
  }

  lemma GivenIs(s: State, u: nat, p: nat)
    requires Inv(s) && u < |s.threads| && InRange(s.threads[u], p)
    ensures p in s.given
  {
    hide Inv;
    ThreadIs(s, u);
  }

  lemma StartMoves(s: State, s': State, t: nat, th': Thread)
    requires Inv(s) && t < |s.threads| && Start(s, s', t, th')
    ensures SharedOk(s') && t < |s'.threads| && ThreadOk(s', t, th') && Frame(s, s', t, s.threads[t], th')
  {
    hide RingOk, Disjoint, NotStranded, ThreadsOk, Attended, Calls;
  }

  /** The positions a release has still to store lie in the window, and their slots are empty. */
  lemma SlotIsEmpty(s: State, t: nat, k: nat)
    requires Inv(s) && t < |s.threads| && s.threads[t].Rel? && s.threads[t].rpc.Store?
    requires s.threads[t].rpc.i <= k < |s.threads[t].elems|
    ensures s.retired <= s.threads[t].sn + k < s.hi.head + |s.ring| && s.threads[t].sn + k !in s.stored
    ensures s.ring[At(s.threads[t].sn + k, |s.ring|)] == Null
  {
    assert ThreadOk(s, t, s.threads[t]);
    assert InRange(s.threads[t], s.threads[t].sn + k);
  }

  lemma StoreShared(s: State, s': State, t: nat)
    requires Inv(s) && t < |s.threads| && s.threads[t].Rel? && s.threads[t].rpc.Store?
    requires s.threads[t].rpc.i < |s.threads[t].elems| && RelStep(s, s', t, s.threads[t])
    ensures SharedOk(s')
  {
    hide ThreadOk, RelOk, RingOk, HistoryOk, Disjoint, NotStranded, At;
    var th := s.threads[t];
    SlotIsEmpty(s, t, th.rpc.i);
    var pos, elem := th.sn + th.rpc.i, th.elems[th.rpc.i];
    ToStore(s, t);
    Puts(s, s', pos, elem);
  }

  lemma ToStore(s: State, t: nat)
    requires Inv(s) && t < |s.threads| && s.threads[t].Rel? && s.threads[t].rpc.Store?
    requires s.threads[t].rpc.i < |s.threads[t].elems|
    ensures s.threads[t].sn + s.threads[t].rpc.i in s.given && s.threads[t].elems[s.threads[t].rpc.i] != Null
  {
    hide Inv;
    ThreadIs(s, t);
    assert InRange(s.threads[t], s.threads[t].sn + s.threads[t].rpc.i);
  }

  lemma Puts(s: State, s': State, pos: nat, elem: Elem)
    requires SharedOk(s) && s.retired <= pos < s.hi.head + |s.ring| && pos in s.given && elem != Null
    requires s' == s.(ring := s.ring[At(pos, |s.ring|) := elem], stored := s.stored[pos := elem], threads := s'.threads)
    ensures SharedOk(s')
  {
    RingPut(s.ring, s.stored, s.retired, pos, elem);
    CallsSame(s.stored, s'.stored, s.retired);
    hide RingOk, Calls;
  }

  lemma StoreThread(s: State, s': State, t: nat)
    requires Inv(s) && t < |s.threads| && s.threads[t].Rel? && s.threads[t].rpc.Store?
    requires s.threads[t].rpc.i < |s.threads[t].elems| && RelStep(s, s', t, s.threads[t])
    ensures t < |s'.threads| && ThreadOk(s', t, s'.threads[t])
  {
    hide Inv, SharedOk, Disjoint, NotStranded, Attended, At;
    ThreadIs(s, t);
    var th := s.threads[t];
    assert th.rpc.i <= |th.elems|;
    assert forall p: nat :: InRange(th, p) ==>
        if p < th.sn + th.rpc.i then p in s.stored && s.stored[p] == th.elems[p - th.sn] else p !in s.stored;
  }

  lemma StoreFrame(s: State, s': State, t: nat)
    requires Inv(s) && t < |s.threads| && s.threads[t].Rel? && s.threads[t].rpc.Store?
    requires s.threads[t].rpc.i < |s.threads[t].elems| && RelStep(s, s', t, s.threads[t])
    ensures t < |s'.threads| && Frame(s, s', t, s.threads[t], s'.threads[t])
    ensures forall p :: InRange(s'.threads[t], p) ==> InRange(s.threads[t], p)
  {
    assert ThreadOk(s, t, s.threads[t]);
    hide SharedOk, Disjoint, NotStranded, Attended;
    var th := s.threads[t];
    assert InRange(th, th.sn + th.rpc.i);
  }

  lemma StoreKeepsInv(s: State, s': State, t: nat)
    requires Inv(s) && t < |s.threads| && s.threads[t].Rel? && s.threads[t].rpc.Store?
    requires s.threads[t].rpc.i < |s.threads[t].elems| && RelStep(s, s', t, s.threads[t])
    ensures Inv(s')
  {
    var th, th' := s.threads[t], s'.threads[t];
    assert NotStranded(s') by { hide SharedOk, Disjoint, Attended, RelOk; StillNotStranded(s, s', t, th, th'); }
    StoreShared(s, s', t);
    StoreThread(s, s', t);
    StoreFrame(s, s', t);
    hide *;
    Together(s, s', t, th, th');
  }

  lemma RingPut(ring: seq<Elem>, stored: map<nat, Elem>, retired: nat, pos: nat, elem: Elem)
    requires |ring| > 0 && RingOk(ring, stored, retired) && retired <= pos < retired + |ring|
    ensures RingOk(ring[At(pos, |ring|) := elem], stored[pos := elem], retired)
  {
    hide At;
    forall p: nat | retired <= p < retired + |ring| && p != pos ensures At(p, |ring|) != At(pos, |ring|) {
      if At(p, |ring|) == At(pos, |ring|) {
        AtInjective(p, pos, |ring|);
      }
    }
  }

  lemma {:induction false} CallsSame(stored: map<nat, Elem>, stored': map<nat, Elem>, n: nat)
    requires forall p: nat :: p < n ==> p in stored && p in stored' && stored'[p] == stored[p]
    ensures Calls(stored', n) == Calls(stored, n)
  {
    if n > 0 {
      CallsSame(stored, stored', n - 1);
    }
  }

  lemma NobodyRetires(s: State, t: nat)
    requires Inv(s) && t < |s.threads| && InRange(s.threads[t], s.hi.head) && !Retiring(s.threads[t])
    ensures forall u :: 0 <= u < |s.threads| ==> !Retiring(s.threads[u])
  {
    hide Inv, Retiring, InRange;
    forall u | 0 <= u < |s.threads| ensures !Retiring(s.threads[u]) {
      if u != t {
        NotRetiring(s, t, u);
      }
    }
  }

  lemma NotRetiring(s: State, t: nat, u: nat)
    requires Inv(s) && t < |s.threads| && u < |s.threads| && t != u && InRange(s.threads[t], s.hi.head)
    ensures !Retiring(s.threads[u])
  {
    Apart(s.threads, t, u, s.hi.head);
    hide Inv;
    if Retiring(s.threads[u]) {
      RetirerHasHead(s, u);
    }
  }

  /** A release that reads the head retires from there if it is in its range: nobody else is retiring then. */
  lemma JudgeOk(s: State, t: nat)
    requires Inv(s) && t < |s.threads| && Deciding(s.threads[t]) && !s.threads[t].rpc.Store?
    ensures ThreadOk(s, t, Judge(s.threads[t], s.hi))
  {
    hide RingOk, HistoryOk, Disjoint, ThreadsOk;
    ThreadIs(s, t);
    if InRange(s.threads[t], s.hi.head) {
      NobodyRetires(s, t);
    }
  }

  lemma DecideShared(s: State, s': State, t: nat)
    requires Inv(s) && t < |s.threads| && Deciding(s.threads[t]) && !s.threads[t].rpc.Store?
    requires RelStep(s, s', t, s.threads[t])
    ensures SharedOk(s')
  {
    hide RingOk, HistoryOk, ThreadsOk, Disjoint, NotStranded;
  }

  lemma DecideThread(s: State, s': State, t: nat)
    requires Inv(s) && t < |s.threads| && Deciding(s.threads[t]) && !s.threads[t].rpc.Store?
    requires RelStep(s, s', t, s.threads[t])
    ensures t < |s'.threads| && ThreadOk(s', t, s'.threads[t])
  {
    hide Inv, SharedOk, Disjoint, NotStranded, Attended;
    JudgeOk(s, t);
    ThreadIs(s, t);
    if s'.threads[t].Rel? {
      hide RelOk, ThreadOk;
      assert s'.threads[t] == Judge(s.threads[t], s.hi) && s' == s.(threads := s.threads[t := Judge(s.threads[t], s.hi)]);
      JudgedStays(s, s', t, s'.threads[t]);
    }
  }

  /** What holds of a thread that is in a decision holds whatever the threads are. */
  lemma JudgedStays(s: State, s': State, t: nat, th': Thread)
    requires ThreadOk(s, t, th') && th'.Rel? && !th'.rpc.HeadCas? && s' == s.(threads := s'.threads)
    ensures ThreadOk(s', t, th')
  {
  }

  lemma DecideFrame(s: State, s': State, t: nat)
    requires Inv(s) && t < |s.threads| && Deciding(s.threads[t]) && !s.threads[t].rpc.Store?
    requires RelStep(s, s', t, s.threads[t])
    ensures t < |s'.threads| && Frame(s, s', t, s.threads[t], s'.threads[t])
    ensures forall p :: InRange(s'.threads[t], p) ==> InRange(s.threads[t], p)
  {
    hide Inv, SharedOk, Disjoint, NotStranded, Attended, RelOk;
    ThreadIs(s, t);
  }

  lemma DecideKeepsInv(s: State, s': State, t: nat)
    requires Inv(s) && t < |s.threads| && Deciding(s.threads[t]) && !s.threads[t].rpc.Store?
    requires RelStep(s, s', t, s.threads[t])
    ensures Inv(s')
  {
    var th, th' := s.threads[t], s'.threads[t];
    assert NotStranded(s') by {
      hide SharedOk, Disjoint, Attended;
      assert ThreadOk(s, t, th);
      StillNotStranded(s, s', t, th, th');
    }
    DecideShared(s, s', t);
    DecideThread(s, s', t);
    DecideFrame(s, s', t);
    hide *;
    Together(s, s', t, th, th');
  }

  lemma CheckShared(s: State, s': State, t: nat)
    requires Inv(s) && t < |s.threads| && s.threads[t].Rel?
    requires s.threads[t].rpc.Check? || (s.threads[t].rpc.Store? && s.threads[t].rpc.i >= |s.threads[t].elems|)
    requires RelStep(s, s', t, s.threads[t])
    ensures SharedOk(s')
  {
    assert ThreadOk(s, t, s.threads[t]);
    hide RingOk, Disjoint, NotStranded, Calls;
    forall p | p in s.stored ensures p in s'.given {
      assert InRange(s.threads[t], p) || p in s'.given;
    }
  }

  lemma CheckThread(s: State, s': State, t: nat)
    requires Inv(s) && t < |s.threads| && s.threads[t].Rel?
    requires s.threads[t].rpc.Check? || (s.threads[t].rpc.Store? && s.threads[t].rpc.i >= |s.threads[t].elems|)
    requires RelStep(s, s', t, s.threads[t])
    ensures t < |s'.threads| && ThreadOk(s', t, s'.threads[t])
  {
    hide Inv, SharedOk, Disjoint, NotStranded, Attended;
    ThreadIs(s, t);
  }

  lemma CheckFrame(s: State, s': State, t: nat)
    requires Inv(s) && t < |s.threads| && s.threads[t].Rel?
    requires s.threads[t].rpc.Check? || (s.threads[t].rpc.Store? && s.threads[t].rpc.i >= |s.threads[t].elems|)
    requires RelStep(s, s', t, s.threads[t])
    ensures t < |s'.threads| && Frame(s, s', t, s.threads[t], s'.threads[t])
    ensures forall p :: InRange(s'.threads[t], p) ==> InRange(s.threads[t], p)
  {
    hide Inv, SharedOk, Disjoint, NotStranded, Attended;
    ThreadIs(s, t);
  }

  lemma CheckKeepsInv(s: State, s': State, t: nat)
    requires Inv(s) && t < |s.threads| && s.threads[t].Rel?
    requires s.threads[t].rpc.Check? || (s.threads[t].rpc.Store? && s.threads[t].rpc.i >= |s.threads[t].elems|)
    requires RelStep(s, s', t, s.threads[t])
    ensures Inv(s')
  {
    var th, th' := s.threads[t], s'.threads[t];
    assert NotStranded(s') by { hide SharedOk, Disjoint, Attended, RelOk; StillNotStranded(s, s', t, th, th'); }
    CheckShared(s, s', t);
    CheckThread(s, s', t);
    CheckFrame(s, s', t);
    hide *;
    Together(s, s', t, th, th');
  }

  /** The slot at the retirer's position is empty exactly when nothing has been stored for it. */
  lemma ScanSees(s: State, t: nat)
    requires Inv(s) && t < |s.threads| && s.threads[t].Rel? && s.threads[t].rpc.Scan?
    ensures s.threads[t].rpc.at == s.retired
    ensures s.ring[At(s.retired, |s.ring|)] == if s.retired in s.stored then s.stored[s.retired] else Null
    ensures s.threads[t].rpc.at in s.stored ==> s.stored[s.threads[t].rpc.at] != Null
  {
    assert ThreadOk(s, t, s.threads[t]);
  }

  lemma RingClear(ring: seq<Elem>, stored: map<nat, Elem>, retired: nat)
    requires |ring| > 0 && RingOk(ring, stored, retired) && retired + |ring| !in stored
    ensures RingOk(ring[At(retired, |ring|) := Null], stored, retired + 1)
  {
    hide At;
    AtPeriodic(retired, |ring|);
    forall p: nat | retired < p < retired + |ring| ensures At(p, |ring|) != At(retired, |ring|) {
      if At(p, |ring|) == At(retired, |ring|) {
        AtInjective(p, retired, |ring|);
      }
    }
  }

  lemma TakeShared(s: State, s': State, t: nat)
    requires Inv(s) && t < |s.threads| && s.threads[t].Rel? && s.threads[t].rpc.Scan?
    requires s.ring[At(s.threads[t].rpc.at, |s.ring|)] != Null && RelStep(s, s', t, s.threads[t])
    ensures SharedOk(s')
  {
    ScanSees(s, t);
    assert SharedOk(s);
    hide Inv, ThreadOk;
    Takes(s, s');
  }

  lemma Takes(s: State, s': State)
    requires SharedOk(s) && s.retired in s.stored && s.stored[s.retired] == s.ring[At(s.retired, |s.ring|)] != Null
    requires s' == s.(ring := s.ring[At(s.retired, |s.ring|) := Null], retired := s.retired + 1, threads := s'.threads,
                      calls := if s.stored[s.retired] > Dummy then s.calls + [Call(s.stored[s.retired], s.retired)] else s.calls)
    ensures SharedOk(s')
  {
    RingClear(s.ring, s.stored, s.retired);
    hide RingOk, At;
  }

  lemma TakeThread(s: State, s': State, t: nat)
    requires Inv(s) && t < |s.threads| && s.threads[t].Rel? && s.threads[t].rpc.Scan?
    requires s.ring[At(s.threads[t].rpc.at, |s.ring|)] != Null && RelStep(s, s', t, s.threads[t])
    ensures t < |s'.threads| && ThreadOk(s', t, s'.threads[t])
  {
    hide Inv, SharedOk, Disjoint, NotStranded, Attended, Calls;
    ThreadIs(s, t);
  }

  lemma TakeFrame(s: State, s': State, t: nat)
    requires Inv(s) && t < |s.threads| && s.threads[t].Rel? && s.threads[t].rpc.Scan?
    requires s.ring[At(s.threads[t].rpc.at, |s.ring|)] != Null && RelStep(s, s', t, s.threads[t])
    ensures t < |s'.threads| && Frame(s, s', t, s.threads[t], s'.threads[t])
    ensures forall p :: InRange(s'.threads[t], p) ==> InRange(s.threads[t], p)
  {
    assert ThreadOk(s, t, s.threads[t]);
    hide SharedOk, Disjoint, NotStranded, Attended;
  }

  lemma TakeKeepsInv(s: State, s': State, t: nat)
    requires Inv(s) && t < |s.threads| && s.threads[t].Rel? && s.threads[t].rpc.Scan?
    requires s.ring[At(s.threads[t].rpc.at, |s.ring|)] != Null && RelStep(s, s', t, s.threads[t])
    ensures Inv(s')
  {
    var th, th' := s.threads[t], s'.threads[t];
    assert NotStranded(s') by { hide Inv; BusyNotStranded(s', t); }
    TakeShared(s, s', t);
    TakeThread(s, s', t);
    TakeFrame(s, s', t);
    hide *;
    Together(s, s', t, th, th');
  }

  /** The scan stops at an empty slot, which is not the one at the head: the releasing thread's own is there. */
  lemma StopKeepsInv(s: State, s': State, t: nat)
    requires Inv(s) && t < |s.threads| && s.threads[t].Rel? && s.threads[t].rpc.Scan?
    requires s.ring[At(s.threads[t].rpc.at, |s.ring|)] == Null && RelStep(s, s', t, s.threads[t])
    ensures Inv(s')
  {
    var th, th' := s.threads[t], s'.threads[t];
    StopThread(s, s', t);
    StopFrame(s, s', t);
    hide Inv, SharedOk, Frame, ThreadOk;
    BusyNotStranded(s', t);
    hide *;
    Together(s, s', t, th, th');
  }

  lemma StopFrame(s: State, s': State, t: nat)
    requires Inv(s) && t < |s.threads| && s.threads[t].Rel? && s.threads[t].rpc.Scan?
    requires s.ring[At(s.threads[t].rpc.at, |s.ring|)] == Null && RelStep(s, s', t, s.threads[t])
    ensures SharedOk(s') && Retiring(s'.threads[t]) && Frame(s, s', t, s.threads[t], s'.threads[t])
    ensures forall p :: InRange(s'.threads[t], p) ==> InRange(s.threads[t], p)
  {
    hide RingOk, HistoryOk, Disjoint, NotStranded, RelOk, ThreadsOk, At, Attended, Deciding;
    RetirerHasHead(s, t);
  }

  lemma StopThread(s: State, s': State, t: nat)
    requires Inv(s) && t < |s.threads| && s.threads[t].Rel? && s.threads[t].rpc.Scan?
    requires s.ring[At(s.threads[t].rpc.at, |s.ring|)] == Null && RelStep(s, s', t, s.threads[t])
    ensures t < |s'.threads| && ThreadOk(s', t, s'.threads[t])
  {
    hide Inv, SharedOk, Disjoint, NotStranded, Attended;
    ThreadIs(s, t);
    ScanSees(s, t);
    assert InRange(s.threads[t], s.hi.head);
  }

  lemma PublishShared(s: State, s': State, t: nat)
    requires Inv(s) && t < |s.threads| && s.threads[t].Rel? && s.threads[t].rpc.HeadCas?
    requires RelStep(s, s', t, s.threads[t])
    ensures SharedOk(s')
  {
    assert ThreadOk(s, t, s.threads[t]);
    hide RingOk, Disjoint, NotStranded, Calls;
  }

  lemma PublishThread(s: State, s': State, t: nat)
    requires Inv(s) && t < |s.threads| && s.threads[t].Rel? && s.threads[t].rpc.HeadCas?
    requires RelStep(s, s', t, s.threads[t])
    ensures t < |s'.threads| && ThreadOk(s', t, s'.threads[t])
  {
    hide Inv, SharedOk, Disjoint, NotStranded;
    ThreadIs(s, t);
  }

  lemma PublishFrame(s: State, s': State, t: nat)
    requires Inv(s) && t < |s.threads| && s.threads[t].Rel? && s.threads[t].rpc.HeadCas?
    requires RelStep(s, s', t, s.threads[t])
    ensures t < |s'.threads| && Frame(s, s', t, s.threads[t], s'.threads[t])
    ensures forall p :: InRange(s'.threads[t], p) ==> InRange(s.threads[t], p)
  {
    assert ThreadOk(s, t, s.threads[t]);
    hide SharedOk, Disjoint, NotStranded, Attended;
  }

  /** Publishing the new head: whatever has arrived there by now is attended to, or the change indicator has moved. */
  lemma PublishKeepsInv(s: State, s': State, t: nat)
    requires Inv(s) && t < |s.threads| && s.threads[t].Rel? && s.threads[t].rpc.HeadCas?
    requires RelStep(s, s', t, s.threads[t])
    ensures Inv(s')
  {
    var th, th' := s.threads[t], s'.threads[t];
    assert NotStranded(s') by {
      assert ThreadOk(s, t, th);
      hide RingOk, HistoryOk, Disjoint, Attended;
      if th'.Rel? {
        BusyNotStranded(s', t);
      } else if s'.hi.head in s'.stored {
        AttendedStays(s, s', t, th, th', s'.hi.head);
      }
    }
    PublishShared(s, s', t);
    PublishThread(s, s', t);
    PublishFrame(s, s', t);
    hide *;
    Together(s, s', t, th, th');
  }

  /** One step of any thread. */
  lemma StepKeepsInv(s: State, s': State, t: nat)
    requires Inv(s) && Step(s, s', t)
    ensures Inv(s')
  {
    var th := s.threads[t];
    if th.Rel? && RelStep(s, s', t, th) {
      hide Inv;
      match th.rpc
      case Check => CheckKeepsInv(s, s', t);
      case Store(i) => if i < |th.elems| { StoreKeepsInv(s, s', t); } else { CheckKeepsInv(s, s', t); }
      case LoadHi => DecideKeepsInv(s, s', t);
      case ChgCas(_) => DecideKeepsInv(s, s', t);
      case Scan(at, _) =>
        if s.ring[At(at, |s.ring|)] == Null { StopKeepsInv(s, s', t); } else { TakeKeepsInv(s, s', t); }
      case HeadCas(_, _) => PublishKeepsInv(s, s', t);
    } else if (th.AcqLoad? || th.AcqHead? || th.AcqCas?) && AcqStep(s, s', t, th) {
      AcqKeepsInv(s, s', t);
    } else {
      var th' :| Start(s, s', t, th');
      StartKeepsInv(s, s', t, th');
    }
  }

  // ---------- every run ----------

  /** What was stored, called back or acquired stays so. */
  ghost predicate Onward(s: State, s': State) {
    && s.stored.Keys <= s'.stored.Keys && (forall p :: p in s.stored ==> s'.stored[p] == s.stored[p])
    && s.retired <= s'.retired && s.calls <= s'.calls && s.claims <= s'.claims && |s'.threads| == |s.threads|
  }

  lemma StepOnward(s: State, s': State, t: nat)
    requires Inv(s) && Step(s, s', t)
    ensures Onward(s, s')
  {
    var th := s.threads[t];
    if th.Rel? && RelStep(s, s', t, th) {
      RelOnward(s, s', t);
    } else {
      hide Inv;
    }
  }

  lemma RelOnward(s: State, s': State, t: nat)
    requires Inv(s) && t < |s.threads| && s.threads[t].Rel? && RelStep(s, s', t, s.threads[t])
    ensures Onward(s, s')
  {
    hide Inv, SharedOk;
    var th := s.threads[t];
    if th.rpc.Store? && th.rpc.i < |th.elems| {
      SlotIsEmpty(s, t, th.rpc.i);
    } else if th.rpc.Scan? {
      ScanSees(s, t);
    }
  }

  lemma InitInv(s: State)
    requires Init(s)
    ensures Inv(s)
  {
  }

  lemma {:induction false} RunInv(run: seq<State>, i: nat, j: nat)
    requires Run(run) && i <= j < |run|
    ensures Inv(run[j]) && Onward(run[i], run[j])
  {
    hide Inv, Init, Step;
    if j == 0 {
      InitInv(run[0]);
    } else {
      RunInv(run, if i < j then i else j - 1, j - 1);
      assert Next(run[j - 1], run[j]);
      var t: nat :| Step(run[j - 1], run[j], t);
      StepKeepsInv(run[j - 1], run[j], t);
      StepOnward(run[j - 1], run[j], t);
    }
  }

  // ---------- the properties ----------

  lemma {:induction false} CallsExactly(stored: map<nat, Elem>, n: nat, c: Call)
    requires forall p: nat :: p < n ==> p in stored
    ensures c in Calls(stored, n) <==> c.sn < n && c.elem == stored[c.sn] && c.elem > Dummy
    ensures multiset(Calls(stored, n))[c] <= 1
    decreases n
  {
    hide Calls;
    CallsLast(stored, n);
    if n > 0 {
      CallsExactly(stored, n - 1, c);
    }
  }

  lemma CallsLast(stored: map<nat, Elem>, n: nat)
    requires forall p: nat :: p < n ==> p in stored
    ensures Calls(stored, n) == if n == 0 then [] else
              Calls(stored, n - 1) + if stored[n - 1] > Dummy then [Call(stored[n - 1], n - 1)] else []
  {
  }

  lemma {:induction false} CallsOrdered(stored: map<nat, Elem>, n: nat, j: nat, k: nat)
    requires forall p: nat :: p < n ==> p in stored
    requires j < k < |Calls(stored, n)|
    ensures Calls(stored, n)[j].sn < Calls(stored, n)[k].sn < n
    decreases n
  {
    if k < |Calls(stored, n - 1)| {
      CallsOrdered(stored, n - 1, j, k);
    } else {
      CallsExactly(stored, n - 1, Calls(stored, n - 1)[j]);
    }
  }

  /** In every state, the call-backs made so far are, in the order of sequence numbers and each once, exactly the elements
      stored for the positions below one number, however the releases are interleaved. */
  lemma CalledInOrderOnce(run: seq<State>, i: nat, c: Call, j: nat, k: nat)
    requires Run(run) && i < |run|
    ensures c in run[i].calls <==> c.sn < run[i].retired && c.sn in run[i].stored && c.elem == run[i].stored[c.sn] > Dummy
    ensures multiset(run[i].calls)[c] <= 1
    ensures j < k < |run[i].calls| ==> run[i].calls[j].sn < run[i].calls[k].sn
  {
    RunInv(run, i, i);
    CallsExactly(run[i].stored, run[i].retired, c);
    if j < k < |run[i].calls| {
      CallsOrdered(run[i].stored, run[i].retired, j, k);
    }
  }

  /** What a release stored, or had stored for it, is what is called back for its sequence numbers, then and later. */
  lemma CallsWhatWasReleased(run: seq<State>, i: nat, j: nat, t: nat, k: nat, c: Call)
    requires Run(run) && i <= j < |run| && t < |run[i].threads| && run[i].threads[t].Rel?
    requires k < |run[i].threads[t].elems| && (Retiring(run[i].threads[t]) || run[i].threads[t].rpc.LoadHi?
                                              || run[i].threads[t].rpc.ChgCas?)
    requires c in run[j].calls && c.sn == run[i].threads[t].sn + k
    ensures c.elem == run[i].threads[t].elems[k]
  {
    hide Run, Inv, Onward;
    RunInv(run, i, i);
    RunInv(run, j, j);
    StoredAs(run[i], t, c.sn);
    StoredStays(run, i, j, c.sn);
    CallsMatch(run[j], c);
  }

  lemma StoredStays(run: seq<State>, i: nat, j: nat, p: nat)
    requires Run(run) && i <= j < |run| && p in run[i].stored
    ensures p in run[j].stored && run[j].stored[p] == run[i].stored[p]
  {
    hide Run, Inv;
    RunInv(run, i, j);
  }

  lemma StoredAs(s: State, t: nat, p: nat)
    requires Inv(s) && t < |s.threads| && InRange(s.threads[t], p) && p < s.threads[t].sn + Progress(s.threads[t])
    ensures p in s.stored && s.stored[p] == s.threads[t].elems[p - s.threads[t].sn]
  {
    assert ThreadOk(s, t, s.threads[t]);
  }

  lemma CallsMatch(s: State, c: Call)
    requires Inv(s) && c in s.calls
    ensures c.sn in s.stored && c.elem == s.stored[c.sn]
  {
    CallsExactly(s.stored, s.retired, c);
  }

  /** At most one thread retires elements at any moment, and only the one whose range contains the head. */
  lemma OneRetirer(run: seq<State>, i: nat, t: nat, u: nat)
    requires Run(run) && i < |run| && t < |run[i].threads| && u < |run[i].threads|
    requires Retiring(run[i].threads[t]) && Retiring(run[i].threads[u])
    ensures t == u && InRange(run[i].threads[t], run[i].hi.head)
  {
    RunInv(run, i, i);
    assert ThreadOk(run[i], t, run[i].threads[t]) && ThreadOk(run[i], u, run[i].threads[u]);
  }

  /** When all releases have returned, everything stored in order has been called back and nothing waits at the head. */
  lemma NothingStranded(run: seq<State>, i: nat)
    requires Run(run) && i < |run| && (forall t :: 0 <= t < |run[i].threads| ==> !run[i].threads[t].Rel?)
    ensures var s := run[i];
            && |s.ring| > 0 && s.retired == s.hi.head && s.hi.head !in s.stored && s.ring[At(s.hi.head, |s.ring|)] == Null
            && forall p: nat :: p < s.hi.head ==> p in s.stored
  {
    RunInv(run, i, i);
  }

  /** A release finds every slot it stores to empty, and a retirer that stops has got past the head. */
  lemma AssertionsHold(run: seq<State>, i: nat, t: nat)
    requires Run(run) && i < |run| && t < |run[i].threads| && run[i].threads[t].Rel? && |run[i].ring| > 0
    ensures var s, th := run[i], run[i].threads[t];
            && (th.rpc.Store? && th.rpc.i < |th.elems| ==> s.ring[At(th.sn + th.rpc.i, |s.ring|)] == Null)
            && (th.rpc.HeadCas? ==> th.rpc.seen.head < th.rpc.at)
  {
    RunInv(run, i, i);
    var s, th := run[i], run[i].threads[t];
    assert ThreadOk(s, t, th);
    if th.rpc.Store? && th.rpc.i < |th.elems| {
      SlotIsEmpty(s, t, th.rpc.i);
    }
  }

  /** What the code asserts of a release that is about to retire from the head it has read. */
  predicate RangeAssertion(th: Thread, head: nat)
    requires th.Rel?
  {
    !(th.sn < head) && !(th.sn + |th.elems| - 1 > head)
  }

  /** That assertion holds exactly for releases of one element: a release that goes on to retire meets it if and only if
      it has just one. */
  lemma RangeAssertionIff(run: seq<State>, i: nat, t: nat, s': State)
    requires Run(run) && i < |run| && t < |run[i].threads| && run[i].threads[t].Rel? && Step(run[i], s', t)
    requires run[i].threads[t].rpc.LoadHi? || run[i].threads[t].rpc.ChgCas?
    requires s'.threads[t].Rel? && s'.threads[t].rpc.Scan?
    ensures RangeAssertion(s'.threads[t], s'.threads[t].rpc.seen.head) <==> |s'.threads[t].elems| == 1
  {
    hide Run;
  }

  /** Thread 0 acquires two numbers. */
  lemma AcquireTwo(s: State) returns (s1: State, s2: State, s3: State, s4: State)
    requires s.threads == [Idle] && s.tail == s.hi.head == 0 && |s.ring| == 2 && !s.user && s.claims == []
    ensures Next(s, s1) && Next(s1, s2) && Next(s2, s3) && Next(s3, s4)
    ensures s4 == s.(tail := 2, claims := [Claim(0, 0), Claim(0, 0)], threads := [Acquired(0, 2)])
  {
    s1 := s.(threads := [AcqLoad(2)]);
    s2 := s.(threads := [AcqHead(2, 0)]);
    s3 := s.(threads := [AcqCas(2, 0, 2)]);
    s4 := s.(tail := 2, claims := [Claim(0, 0), Claim(0, 0)], threads := [Acquired(0, 2)]);
    assert Start(s, s1, 0, AcqLoad(2)) && Step(s, s1, 0);
    assert Step(s1, s2, 0) && Step(s2, s3, 0);
    assert s.claims + seq(2, _ => Claim(0, 0)) == [Claim(0, 0), Claim(0, 0)];
    assert Step(s3, s4, 0);
  }

  /** And starts to release them. */
  lemma StoreTwo(s: State, e: Elem, f: Elem) returns (s1: State, s2: State, s3: State, s4: State)
    requires s.threads == [Acquired(0, 2)] && s.tail == 2 && s.hi.head == 0 && |s.ring| == 2 && !s.user
    requires s.given == {} && e != Null && f != Null
    ensures Next(s, s1) && Next(s1, s2) && Next(s2, s3) && Next(s3, s4)
    ensures s4 == s.(given := Range(0, 2), ring := s.ring[0 := e][1 := f], stored := s.stored[0 := e][1 := f],
                     threads := [Rel(0, [e, f], Store(2))])
  {
    hide AcqStep;
    var start := Rel(0, [e, f], Check);
    s1 := s.(given := Range(0, 2), threads := [start]);
    s2 := s1.(threads := [Rel(0, [e, f], Store(0))]);
    s3 := s2.(ring := s.ring[0 := e], stored := s.stored[0 := e], threads := [Rel(0, [e, f], Store(1))]);
    s4 := s3.(ring := s.ring[0 := e][1 := f], stored := s.stored[0 := e][1 := f], threads := [Rel(0, [e, f], Store(2))]);
    assert s.given + Range(0, 2) == Range(0, 2);
    assert Start(s, s1, 0, start) && Step(s, s1, 0);
    assert RelStep(s1, s2, 0, start) && Step(s1, s2, 0);
    assert RelStep(s2, s3, 0, s2.threads[0]) && Step(s2, s3, 0);
    assert RelStep(s3, s4, 0, s3.threads[0]) && Step(s3, s4, 0);
  }

  lemma StartRetiring(s: State, elems: seq<Elem>) returns (s1: State, s2: State)
    requires s.threads == [Rel(0, elems, Store(|elems|))] && s.hi == Hi(0, 0) && |elems| > 0 && |s.ring| > 0
    ensures Next(s, s1) && Next(s1, s2) && s2 == s.(threads := [Rel(0, elems, Scan(0, Hi(0, 0)))])
  {
    hide AcqStep;
    s1 := s.(threads := [Rel(0, elems, LoadHi)]);
    s2 := s.(threads := [Rel(0, elems, Scan(0, Hi(0, 0)))]);
    assert RelStep(s, s1, 0, s.threads[0]) && Step(s, s1, 0);
    assert RelStep(s1, s2, 0, s1.threads[0]) && Step(s1, s2, 0);
  }

  lemma Longer(run: seq<State>, s1: State, s2: State) returns (longer: seq<State>)
    requires Run(run) && Next(run[|run| - 1], s1) && Next(s1, s2)
    ensures Run(longer) && |longer| == |run| + 2 && longer[|longer| - 1] == s2
  {
    hide Next, Init;
    longer := run + [s1, s2];
  }

  /** The concrete run: one thread acquires two numbers of a new buffer and releases both at once; the assertion fails. */
  lemma RangeAssertionFails(e: Elem, f: Elem) returns (run: seq<State>)
    requires e != Null && f != Null
    ensures Run(run) && |run| == 11
    ensures run[10].threads == [Rel(0, [e, f], Scan(0, Hi(0, 0)))] && !RangeAssertion(run[10].threads[0], 0)
  {
    var s0 := State(Hi(0, 0), 0, [Null, Null], false, [Idle], {}, map[], 0, [], []);
    run := [s0];
    assert Run(run);
    hide Run, Next, Range;
    var s1, s2, s3, s4 := AcquireTwo(s0);
    run := Longer(run, s1, s2);
    run := Longer(run, s3, s4);
    var s5, s6, s7, s8 := StoreTwo(s4, e, f);
    run := Longer(run, s5, s6);
    run := Longer(run, s7, s8);
    var s9, s10 := StartRetiring(s8, [e, f]);
    run := Longer(run, s9, s10);
  }

  /** No sequence number is acquired twice, and none beyond the window: when number p has been acquired at two moments, it
      is one call of one thread, which has not started another call between them. */
  lemma AcquiredOnce(run: seq<State>, i: nat, j: nat, t: nat, u: nat, p: nat)
    requires Run(run) && i <= j < |run| && t < |run[i].threads| && u < |run[j].threads|
    requires run[i].threads[t].Acquired? && run[j].threads[u].Acquired?
    requires run[i].threads[t].sn <= p < run[i].threads[t].sn + run[i].threads[t].count
    requires run[j].threads[u].sn <= p < run[j].threads[u].sn + run[j].threads[u].count
    ensures t == u
    ensures forall k :: i <= k <= j ==> t < |run[k].threads| && run[k].threads[t] == run[i].threads[t]
    ensures !run[j].user ==> run[j].tail <= run[j].hi.head + |run[j].ring|
  {
    RunInv(run, i, i);
    RunInv(run, i, j);
    assert ThreadOk(run[i], t, run[i].threads[t]) && ThreadOk(run[j], u, run[j].threads[u]);
    assert run[i].claims[p] == run[j].claims[p];
    hide Run, Inv, ThreadOk;
    SameOrLater(run, i, j, t);
    forall k | i <= k <= j ensures t < |run[k].threads| && run[k].threads[t] == run[i].threads[t] {
      assert Stays(run, i, k, t);
    }
  }

  /** The thread is as it was. */
  ghost predicate Stays(run: seq<State>, i: nat, k: nat, t: nat) {
    && i < |run| && k < |run| && t < |run[i].threads| && t < |run[k].threads|
    && run[k].threads[t] == run[i].threads[t]
  }

  lemma StaysHere(run: seq<State>, i: nat, t: nat)
    requires i < |run| && t < |run[i].threads|
    ensures Stays(run, i, i, t)
  {
  }

  lemma StaysOn(run: seq<State>, i: nat, j: nat, t: nat)
    requires 0 < j < |run| && Stays(run, i, j - 1, t) && t < |run[j].threads|
    requires run[j].threads[t] == run[j - 1].threads[t]
    ensures Stays(run, i, j, t)
  {
  }

  /** A thread that has acquired at two moments has stayed as it was, or the later call acquired numbers from behind
      everything acquired at the first moment. */
  lemma {:induction false} SameOrLater(run: seq<State>, i: nat, j: nat, t: nat)
    requires Run(run) && i <= j < |run| && t < |run[i].threads| && t < |run[j].threads|
    requires run[i].threads[t].Acquired? && run[j].threads[t].Acquired?
    ensures || (forall k :: i <= k <= j ==> Stays(run, i, k, t))
            || run[i].tail <= run[j].threads[t].sn
  {
    hide *;
    if i == j {
      StaysHere(run, i, t);
    } else {
      NextAt(run, j - 1);
      AcquiredFrom(run[j - 1], run[j], t);
      if run[j - 1].threads[t].Acquired? {
        SameOrLater(run, i, j - 1, t);
        if run[j].threads[t] == run[j - 1].threads[t] && forall k :: i <= k <= j - 1 ==> Stays(run, i, k, t) {
          StaysOn(run, i, j, t);
        }
      } else {
        TailGrows(run, i, j - 1);
      }
    }
  }

  lemma NextAt(run: seq<State>, i: nat)
    requires Run(run) && i + 1 < |run|
    ensures Next(run[i], run[i + 1])
  {
    hide Next, Init;
  }

  lemma TailGrows(run: seq<State>, i: nat, j: nat)
    requires Run(run) && i <= j < |run|
    ensures run[i].tail <= run[j].tail
  {
    RunInv(run, i, i);
    RunInv(run, i, j);
    hide Run, RingOk, HistoryOk, ThreadsOk, Disjoint, NotStranded;
  }

  lemma AcquiredFrom(s: State, s': State, t: nat)
    requires Next(s, s') && t < |s'.threads| && s'.threads[t].Acquired?
    ensures t < |s.threads| && (s'.threads[t] == s.threads[t] || (!s.threads[t].Acquired? && s'.threads[t].sn == s.tail))
  {
    var u: nat :| Step(s, s', u);
    Mine(s, s', u);
    if u == t {
      Acquires(s, s', t);
    }
  }

  /** A step changes only the thread that takes it. */
  lemma Mine(s: State, s': State, t: nat)
    requires Step(s, s', t)
    ensures t < |s.threads| && |s'.threads| == |s.threads| && s'.threads == s.threads[t := s'.threads[t]]
  {
    hide Judge, At;
  }

  lemma Acquires(s: State, s': State, t: nat)
    requires Step(s, s', t) && t < |s'.threads| && s'.threads[t].Acquired?
    ensures !s.threads[t].Acquired? && s'.threads[t].sn == s.tail
  {
    hide At;
  }
}

/** The lock-free linked list with removal marks, as a machine of atomic steps. The mark is part of a node's next
    pointer, so a marked node's successor is frozen; every walk may unlink marked nodes it meets. */
module LinkList {
  import opened RingIndex

  type Node = nat

  /** A next pointer with its removal mark. */
  datatype Link = Link(next: Option<Node>, marked: bool)

  /** The list starts at a dummy element that is never removed. */
  const Head: Node := 0

  datatype NextPc = LoadCurr | LoadNext(curr: Node) | Unlink(curr: Node, next: Option<Node>) | Stopped | AtEnd

  datatype InsPc = LoadPred | Store(next: Option<Node>) | InsertCas(next: Option<Node>)

  datatype RemPc = Mark | UnlinkCas(next: Option<Node>)

  /** `Walk` is a traversal by repeated calls of next, starting at `from`; `seen` are the elements returned so far and
      `due` some elements that were ahead and unmarked when it started (history). `after` is the node an insertion
      was asked to insert behind (history). */
  datatype Thread =
    | Idle
    | Walk(from: Node, due: set<Node>, seen: seq<Node>, wpc: NextPc)
    | Ins(after: Node, elem: Node, pred: Node, ipc: InsPc)
    | Rem(elem: Node, pred: Node, rpc: RemPc)
    | Inserted(after: Node, elem: Node)
    | NotInserted(elem: Node)
    | Removed(elem: Node)
    | NotUnlinked(elem: Node)

  /** `inserted` are the nodes ever inserted, `rank` where (history): a node gets its rank once, between its neighbours'
      ranks. */
  datatype State = State(cells: seq<Link>, inserted: set<Node>, rank: seq<real>, threads: seq<Thread>)

  ghost predicate Init(s: State) {
    && 0 < |s.cells| == |s.rank| && s.inserted == {Head} && s.cells[Head] == Link(None, false)
    && forall t :: 0 <= t < |s.threads| ==> s.threads[t].Idle?
  }

  // ---------- the steps ----------

  function Pred(th: Thread): Node
    requires th.Walk?
  {
    if th.seen == [] then th.from else th.seen[|th.seen| - 1]
  }

  /** The loop test of a traversal. */
  function Go(curr: Option<Node>): NextPc {
    if curr.None? then AtEnd else LoadNext(curr.value)
  }

  predicate WalkStep(s: State, s': State, t: nat, th: Thread)
    requires t < |s.threads| && th.Walk? && Pred(th) < |s.cells|
  {
    match th.wpc
    case LoadCurr => s' == s.(threads := s.threads[t := th.(wpc := Go(s.cells[Pred(th)].next))])
    case LoadNext(curr) =>
      && curr < |s.cells|
      && if s.cells[curr].marked then s' == s.(threads := s.threads[t := th.(wpc := Unlink(curr, s.cells[curr].next))])
         else s' == s.(threads := s.threads[t := th.(seen := th.seen + [curr], wpc := Stopped)])
    case Unlink(curr, next) =>
      if s.cells[Pred(th)] == Link(Some(curr), false) then
        s' == s.(cells := s.cells[Pred(th) := Link(next, false)], threads := s.threads[t := th.(wpc := Go(next))])
      else
        s' == s.(threads := s.threads[t := th.(wpc := Go(s.cells[Pred(th)].next))])
    case Stopped => s' == s.(threads := s.threads[t := th.(wpc := LoadCurr)])
    case AtEnd => false
  }

  /** What an insertion does with the link of its predecessor: insert there, or move on behind a marked one. */
  function Judge(th: Thread, link: Link): Thread
    requires th.Ins?
  {
    if !link.marked then th.(ipc := Store(link.next))
    else if link.next.None? then NotInserted(th.elem)
    else th.(pred := link.next.value, ipc := LoadPred)
  }

  /** Between its predecessor and the node behind it. */
  function RankAfter(rank: seq<real>, pred: Node, next: Option<Node>): real
    requires pred < |rank| && (next.Some? ==> next.value < |rank|)
  {
    if next.None? then rank[pred] + 1.0 else (rank[pred] + rank[next.value]) / 2.0
  }

  predicate InsStep(s: State, s': State, t: nat, th: Thread)
    requires t < |s.threads| && th.Ins? && th.pred < |s.cells| == |s.rank| && th.elem < |s.cells|
  {
    match th.ipc
    case LoadPred => s' == s.(threads := s.threads[t := Judge(th, s.cells[th.pred])])
    case Store(next) =>
      s' == s.(cells := s.cells[th.elem := Link(next, false)], threads := s.threads[t := th.(ipc := InsertCas(next))])
    case InsertCas(next) =>
      if s.cells[th.pred] == Link(next, false) then
        && (next.Some? ==> next.value < |s.rank|)
        && s' == State(s.cells[th.pred := Link(Some(th.elem), false)], s.inserted + {th.elem},
                       s.rank[th.elem := RankAfter(s.rank, th.pred, next)],
                       s.threads[t := Inserted(th.after, th.elem)])
      else
        s' == s.(threads := s.threads[t := Judge(th, s.cells[th.pred])])
  }

  predicate RemStep(s: State, s': State, t: nat, th: Thread)
    requires t < |s.threads| && th.Rem? && th.pred < |s.cells| && th.elem < |s.cells|
  {
    match th.rpc
    case Mark =>
      s' == s.(cells := s.cells[th.elem := s.cells[th.elem].(marked := true)],
               threads := s.threads[t := th.(rpc := UnlinkCas(s.cells[th.elem].next))])
    case UnlinkCas(next) =>
      var link := s.cells[th.pred];
      if link == Link(Some(th.elem), false) then
        s' == s.(cells := s.cells[th.pred := Link(next, false)], threads := s.threads[t := Removed(th.elem)])
      else if link.marked then s' == s.(threads := s.threads[t := NotUnlinked(th.elem)])
      else if link.next.None? then s' == s.(threads := s.threads[t := Removed(th.elem)])
      else s' == s.(threads := s.threads[t := th.(pred := link.next.value)])
  }

  predicate Busy(th: Thread) {
    th.Ins? || th.Rem? || (th.Walk? && !th.wpc.AtEnd? && !th.wpc.Stopped?)
  }

  /** What a caller may ask for: a node is inserted once, by one thread; removal names a node in front. */
  ghost predicate Start(s: State, s': State, t: nat, th': Thread)
    requires t < |s.threads|
  {
    && !Busy(s.threads[t]) && s' == s.(threads := s.threads[t := th'])
    && match th'
       case Walk(from, due, seen, wpc) =>
         && from in s.inserted && seen == [] && wpc == LoadCurr
         && forall e :: e in due ==> e in s.inserted && e != from && Reach(s.cells, from, e)
       case Ins(after, elem, pred, ipc) =>
         && pred == after && after in s.inserted && ipc == LoadPred && elem < |s.cells| && elem !in s.inserted
         && forall u :: 0 <= u < |s.threads| && s.threads[u].Ins? ==> s.threads[u].elem != elem
       case Rem(elem, pred, rpc) =>
         && elem in s.inserted && elem != Head && pred in s.inserted && elem < |s.rank| && pred < |s.rank|
         && s.rank[pred] < s.rank[elem] && rpc == Mark
       case _ => false
  }

  ghost predicate Step(s: State, s': State, t: nat) {
    && t < |s.threads|
    && var th := s.threads[t];
       || (th.Walk? && Pred(th) < |s.cells| && WalkStep(s, s', t, th))
       || (th.Ins? && th.pred < |s.cells| == |s.rank| && th.elem < |s.cells| && InsStep(s, s', t, th))
       || (th.Rem? && th.pred < |s.cells| && th.elem < |s.cells| && RemStep(s, s', t, th))
       || (exists th' :: Start(s, s', t, th'))
  }

  ghost predicate Next(s: State, s': State) { exists t: nat :: Step(s, s', t) }

  ghost predicate Run(run: seq<State>) {
    && |run| > 0 && Init(run[0])
    && forall i :: 0 <= i < |run| - 1 ==> Next(run[i], run[i + 1])
  }

  // ---------- paths ----------

  /** y is n links behind x. */
  predicate Path(cells: seq<Link>, x: Node, y: Node, n: nat)
    decreases n
  {
    && x < |cells|
    && if n == 0 then x == y else cells[x].next.Some? && Path(cells, cells[x].next.value, y, n - 1)
  }

  ghost predicate Reach(cells: seq<Link>, x: Node, y: Node) { exists n: nat :: Path(cells, x, y, n) }

  ghost predicate Linked(cells: seq<Link>, inserted: set<Node>, rank: seq<real>) {
    && |rank| == |cells|
    && (forall x :: x in inserted ==> x < |cells|)
    && forall x :: x in inserted && cells[x].next.Some? ==>
         cells[x].next.value in inserted && rank[x] < rank[cells[x].next.value]
  }

  lemma ReachNext(cells: seq<Link>, x: Node, y: Node)
    requires Reach(cells, x, y) && x != y
    ensures x < |cells| && cells[x].next.Some? && Reach(cells, cells[x].next.value, y)
  {
    var n: nat :| Path(cells, x, y, n);
    assert Path(cells, cells[x].next.value, y, n - 1);
  }

  lemma ReachVia(cells: seq<Link>, x: Node, y: Node)
    requires x < |cells| && cells[x].next.Some? && Reach(cells, cells[x].next.value, y)
    ensures Reach(cells, x, y)
  {
    var n: nat :| Path(cells, cells[x].next.value, y, n);
    assert Path(cells, x, y, n + 1);
  }

  lemma {:induction false} PathRank(cells: seq<Link>, inserted: set<Node>, rank: seq<real>, x: Node, y: Node, n: nat)
    requires Linked(cells, inserted, rank) && x in inserted && Path(cells, x, y, n)
    ensures y in inserted && (if n == 0 then x == y else rank[x] < rank[y])
    decreases n
  {
    if n > 0 {
      PathRank(cells, inserted, rank, cells[x].next.value, y, n - 1);
    }
  }

  /** Links lead to higher ranks only. */
  lemma ReachRank(cells: seq<Link>, inserted: set<Node>, rank: seq<real>, x: Node, y: Node)
    requires Linked(cells, inserted, rank) && x in inserted && Reach(cells, x, y)
    ensures y in inserted && (x == y || rank[x] < rank[y])
  {
    var n: nat :| Path(cells, x, y, n);
    PathRank(cells, inserted, rank, x, y, n);
  }

  lemma {:induction false} PathsMeet(cells: seq<Link>, x: Node, a: Node, n: nat, b: Node, m: nat)
    requires Path(cells, x, a, n) && Path(cells, x, b, m) && n <= m
    ensures Path(cells, a, b, m - n)
    decreases n
  {
    if n > 0 {
      PathsMeet(cells, cells[x].next.value, a, n - 1, b, m - 1);
    }
  }

  /** Of two nodes in the list, one is ahead of the other. */
  lemma Comparable(cells: seq<Link>, x: Node, a: Node, b: Node)
    requires Reach(cells, x, a) && Reach(cells, x, b)
    ensures Reach(cells, a, b) || Reach(cells, b, a)
  {
    var n: nat :| Path(cells, x, a, n);
    var m: nat :| Path(cells, x, b, m);
    if n <= m {
      PathsMeet(cells, x, a, n, b, m);
    } else {
      PathsMeet(cells, x, b, m, a, n);
    }
  }

  /** The node of lower rank reaches the other. */
  lemma LowerReaches(cells: seq<Link>, inserted: set<Node>, rank: seq<real>, a: Node, b: Node)
    requires Linked(cells, inserted, rank) && Head in inserted && Reach(cells, Head, a) && Reach(cells, Head, b)
    ensures a in inserted && b in inserted
    ensures rank[a] < rank[b] ==> Reach(cells, a, b)
  {
    ReachRank(cells, inserted, rank, Head, a);
    ReachRank(cells, inserted, rank, Head, b);
    Comparable(cells, Head, a, b);
    if Reach(cells, b, a) {
      ReachRank(cells, inserted, rank, b, a);
    }
  }

  // ---------- how the links change ----------

  /** Successors of inserted nodes are the same. */
  lemma {:induction false} PathSame(cells: seq<Link>, cells': seq<Link>, inserted: set<Node>, x: Node, y: Node, n: nat)
    requires |cells| == |cells'| && x in inserted
    requires forall z :: z in inserted ==>
      z < |cells| && cells[z].next == cells'[z].next && (cells[z].next.Some? ==> cells[z].next.value in inserted)
    ensures Path(cells, x, y, n) == Path(cells', x, y, n)
    decreases n
  {
    if n > 0 && cells[x].next.Some? {
      PathSame(cells, cells', inserted, cells[x].next.value, y, n - 1);
    }
  }

  /** A path not ending in the unlinked node survives the unlinking. */
  lemma {:induction false} PathUnlinked(cells: seq<Link>, pred: Node, curr: Node, x: Node, y: Node, n: nat)
    requires pred < |cells| && curr < |cells| && pred != curr && cells[pred].next == Some(curr) && y != curr
    requires Path(cells, x, y, n)
    ensures Reach(cells[pred := Link(cells[curr].next, false)], x, y)
    decreases n
  {
    var cells' := cells[pred := Link(cells[curr].next, false)];
    if n == 0 {
      assert Path(cells', x, y, 0);
    } else if x == pred {
      if n == 1 {
        assert Path(cells, curr, y, 0);
      } else {
        assert Path(cells, curr, y, n - 1);
        PathUnlinked(cells, pred, curr, cells[curr].next.value, y, n - 2);
        ReachVia(cells', x, y);
      }
    } else {
      PathUnlinked(cells, pred, curr, cells[x].next.value, y, n - 1);
      ReachVia(cells', x, y);
    }
  }

  /** Unlinking makes no new paths. */
  lemma {:induction false} PathNotNew(cells: seq<Link>, pred: Node, curr: Node, x: Node, y: Node, n: nat)
    requires pred < |cells| && curr < |cells| && pred != curr && cells[pred].next == Some(curr)
    requires Path(cells[pred := Link(cells[curr].next, false)], x, y, n)
    ensures Reach(cells, x, y)
    decreases n
  {
    if n == 0 {
      assert Path(cells, x, y, 0);
    } else if x == pred {
      PathNotNew(cells, pred, curr, cells[curr].next.value, y, n - 1);
      ReachVia(cells, curr, y);
      ReachVia(cells, pred, y);
    } else {
      PathNotNew(cells, pred, curr, cells[x].next.value, y, n - 1);
      ReachVia(cells, x, y);
    }
  }

  /** Every path survives an insertion. */
  lemma {:induction false} PathInserted(cells: seq<Link>, pred: Node, elem: Node, x: Node, y: Node, n: nat)
    requires pred < |cells| && elem < |cells| && pred != elem && cells[elem].next == cells[pred].next
    requires Path(cells, x, y, n)
    ensures Reach(cells[pred := Link(Some(elem), false)], x, y)
    decreases n
  {
    var cells' := cells[pred := Link(Some(elem), false)];
    if n == 0 {
      assert Path(cells', x, y, 0);
    } else {
      PathInserted(cells, pred, elem, cells[x].next.value, y, n - 1);
      if x == pred {
        ReachVia(cells', elem, y);
      }
      ReachVia(cells', x, y);
    }
  }

  /** An insertion adds no path to another node. */
  lemma {:induction false} PathAddsOne(cells: seq<Link>, pred: Node, elem: Node, x: Node, y: Node, n: nat)
    requires pred < |cells| && elem < |cells| && pred != elem && cells[elem].next == cells[pred].next && y != elem
    requires Path(cells[pred := Link(Some(elem), false)], x, y, n)
    ensures Reach(cells, x, y)
    decreases n
  {
    var cells' := cells[pred := Link(Some(elem), false)];
    if n == 0 {
      assert Path(cells, x, y, 0);
    } else if x == pred {
      if n == 1 {
        assert false;
      } else {
        assert Path(cells', elem, y, n - 1);
        PathAddsOne(cells, pred, elem, cells[elem].next.value, y, n - 2);
        ReachVia(cells, pred, y);
      }
    } else {
      PathAddsOne(cells, pred, elem, cells[x].next.value, y, n - 1);
      ReachVia(cells, x, y);
    }
  }

  // ---------- the invariant ----------

  ghost predicate InList(s: State, x: Node) { Reach(s.cells, Head, x) }

  /** Every inserted node that is not marked is in the list; removal marks, not paths, decide what is in it. */
  ghost predicate ListOk(s: State) {
    && Linked(s.cells, s.inserted, s.rank)
    && Head in s.inserted && !s.cells[Head].marked
    && forall x :: x in s.inserted && !s.cells[x].marked ==> Reach(s.cells, Head, x)
  }

  /** An element due to a traversal is marked, already returned, or still ahead of it. */
  ghost predicate DueOk(s: State, th: Thread, e: Node)
    requires th.Walk? && Linked(s.cells, s.inserted, s.rank) && e in s.inserted
  {
    s.cells[e].marked || e in th.seen
    || (Pred(th) != e && Reach(s.cells, Pred(th), e)
        && match th.wpc
           case LoadNext(curr) => Reach(s.cells, curr, e)
           case Unlink(curr, next) => Reach(s.cells, curr, e)
           case AtEnd => false
           case _ => true)
  }

  ghost predicate WalkOk(s: State, th: Thread)
    requires th.Walk? && Linked(s.cells, s.inserted, s.rank)
  {
    && th.from in s.inserted && Pred(th) in s.inserted
    && (forall k :: 0 <= k < |th.seen| ==> th.seen[k] in s.inserted && s.rank[th.from] < s.rank[th.seen[k]])
    && (forall j, k :: 0 <= j < k < |th.seen| ==> s.rank[th.seen[j]] < s.rank[th.seen[k]])
    && (th.wpc.LoadNext? ==> th.wpc.curr in s.inserted && s.rank[Pred(th)] < s.rank[th.wpc.curr])
    && (th.wpc.Unlink? ==> th.wpc.curr in s.inserted && s.rank[Pred(th)] < s.rank[th.wpc.curr]
                           && s.cells[th.wpc.curr] == Link(th.wpc.next, true))
    && forall e :: e in th.due ==> e in s.inserted && DueOk(s, th, e)
  }

  ghost predicate ThreadOk(s: State, th: Thread)
    requires Linked(s.cells, s.inserted, s.rank)
  {
    match th
    case Idle => true
    case Walk(_, _, _, _) => WalkOk(s, th)
    case Ins(after, elem, pred, ipc) =>
      && after in s.inserted && pred in s.inserted && s.rank[after] <= s.rank[pred]
      && elem < |s.cells| && elem !in s.inserted
      && (ipc.Store? && ipc.next.Some? ==> ipc.next.value in s.inserted)
      && (ipc.InsertCas? && ipc.next.Some? ==> ipc.next.value in s.inserted)
      && (ipc.InsertCas? ==> s.cells[elem] == Link(ipc.next, false))
    case Rem(elem, pred, rpc) =>
      && elem in s.inserted && elem != Head && pred in s.inserted
      && (s.rank[pred] < s.rank[elem] || (rpc.UnlinkCas? && !InList(s, elem)))
      && (rpc.UnlinkCas? ==> s.cells[elem] == Link(rpc.next, true))
    case Inserted(after, elem) => after in s.inserted && elem in s.inserted && s.rank[after] < s.rank[elem]
    case NotInserted(elem) => true
    case Removed(elem) => elem in s.inserted && s.cells[elem].marked && !InList(s, elem)
    case NotUnlinked(elem) => elem in s.inserted && s.cells[elem].marked
  }

  ghost predicate Inv(s: State) {
    && ListOk(s)
    && (forall t :: 0 <= t < |s.threads| ==> ThreadOk(s, s.threads[t]))
    && forall t, u :: 0 <= t < u < |s.threads| && s.threads[t].Ins? && s.threads[u].Ins? ==>
         s.threads[t].elem != s.threads[u].elem
  }

  // ---------- one step ----------

  /** What every step keeps: marked nodes are frozen, unmarked ones stay ahead of all nodes they were ahead of, an
      unlinked node stays out, ranks stay. */
  ghost predicate Evolves(s: State, s': State) {
    && |s'.cells| == |s.cells| && |s'.rank| == |s.rank| && s.inserted <= s'.inserted
    && (forall x :: x in s.inserted ==> x < |s.cells| && x < |s.rank| && s'.rank[x] == s.rank[x])
    && (forall x :: x in s.inserted && s.cells[x].marked ==> s'.cells[x] == s.cells[x])
    && (forall x, y :: x in s.inserted && y in s.inserted && Reach(s.cells, x, y) && !s'.cells[y].marked ==>
          Reach(s'.cells, x, y))
    && forall y :: y in s.inserted && InList(s', y) ==> InList(s, y)
  }

  lemma ThreadStays(s: State, s': State, th: Thread)
    requires ListOk(s) && ListOk(s') && Evolves(s, s') && ThreadOk(s, th)
    requires th.Ins? ==> th.elem !in s'.inserted && s'.cells[th.elem] == s.cells[th.elem]
    ensures ThreadOk(s', th)
  {
    hide Reach, InList;
    if th.Walk? {
      forall e | e in th.due ensures e in s'.inserted && DueOk(s', th, e) {
        assert DueOk(s, th, e);
      }
    }
  }

  /** The links stay but for marks and nodes not inserted yet. */
  lemma SameLinks(s: State, s': State)
    requires ListOk(s) && Linked(s'.cells, s'.inserted, s'.rank) && s'.inserted == s.inserted && s'.rank == s.rank
    requires |s'.cells| == |s.cells| && !s'.cells[Head].marked
    requires forall x :: x in s.inserted ==> s'.cells[x].next == s.cells[x].next
    requires forall x :: x in s.inserted && s.cells[x].marked ==> s'.cells[x].marked
    ensures Evolves(s, s') && ListOk(s')
  {
    forall x, y | x in s.inserted ensures Reach(s.cells, x, y) == Reach(s'.cells, x, y) {
      forall n: nat ensures Path(s.cells, x, y, n) == Path(s'.cells, x, y, n) {
        PathSame(s.cells, s'.cells, s.inserted, x, y, n);
      }
    }
    hide Reach;
  }

  /** Swinging an unmarked node's link past a marked one. */
  lemma Unlinking(s: State, s': State, pred: Node, curr: Node)
    requires ListOk(s) && pred in s.inserted && curr in s.inserted && s.cells[pred] == Link(Some(curr), false)
    requires s.cells[curr].marked
    requires s'.cells == s.cells[pred := Link(s.cells[curr].next, false)]
    requires s'.inserted == s.inserted && s'.rank == s.rank
    ensures Evolves(s, s') && ListOk(s') && !InList(s', curr)
  {
    forall x, y | x in s.inserted && y in s.inserted && Reach(s.cells, x, y) && !s'.cells[y].marked
      ensures Reach(s'.cells, x, y)
    {
      var n: nat :| Path(s.cells, x, y, n);
      PathUnlinked(s.cells, pred, curr, x, y, n);
    }
    forall y | InList(s', y) ensures InList(s, y) {
      var n: nat :| Path(s'.cells, Head, y, n);
      PathNotNew(s.cells, pred, curr, Head, y, n);
    }
    hide Reach;
    assert ListOk(s');
    if InList(s', curr) {
      assert Reach(s'.cells, Head, pred);
      LowerReaches(s'.cells, s'.inserted, s'.rank, pred, curr);
      ReachNext(s'.cells, pred, curr);
      ReachRank(s'.cells, s'.inserted, s'.rank, s'.cells[pred].next.value, curr);
    }
  }

  /** Putting a new node behind an unmarked one. */
  lemma Inserting(s: State, s': State, pred: Node, elem: Node, next: Option<Node>)
    requires ListOk(s) && pred in s.inserted && elem < |s.cells| && elem !in s.inserted
    requires s.cells[pred] == Link(next, false) && s.cells[elem] == Link(next, false)
    requires s'.cells == s.cells[pred := Link(Some(elem), false)] && s'.inserted == s.inserted + {elem}
    requires next.Some? ==> next.value < |s.rank|
    requires s'.rank == s.rank[elem := RankAfter(s.rank, pred, next)]
    ensures Evolves(s, s') && ListOk(s')
  {
    forall x, y | x in s.inserted && y in s.inserted && Reach(s.cells, x, y) ensures Reach(s'.cells, x, y) {
      var n: nat :| Path(s.cells, x, y, n);
      PathInserted(s.cells, pred, elem, x, y, n);
    }
    forall y | y in s.inserted && InList(s', y) ensures InList(s, y) {
      var n: nat :| Path(s'.cells, Head, y, n);
      PathAddsOne(s.cells, pred, elem, Head, y, n);
    }
    ReachElem(s'.cells, Head, pred);
    hide Reach;
  }

  lemma {:induction false} ReachElem(cells: seq<Link>, x: Node, pred: Node)
    requires Reach(cells, x, pred) && pred < |cells| && cells[pred].next.Some? && cells[pred].next.value < |cells|
    ensures Reach(cells, x, cells[pred].next.value)
  {
    var n: nat :| Path(cells, x, pred, n);
    PathOneMore(cells, x, pred, n);
  }

  lemma {:induction false} PathOneMore(cells: seq<Link>, x: Node, pred: Node, n: nat)
    requires Path(cells, x, pred, n) && pred < |cells| && cells[pred].next.Some? && cells[pred].next.value < |cells|
    ensures Path(cells, x, cells[pred].next.value, n + 1)
    decreases n
  {
    if n > 0 {
      PathOneMore(cells, cells[x].next.value, pred, n - 1);
    } else {
      assert Path(cells, cells[pred].next.value, cells[pred].next.value, 0);
    }
  }

  /** After a step of thread t, everything about the other threads holds again. */
  lemma Others(s: State, s': State, t: nat, th': Thread)
    requires Inv(s) && t < |s.threads| && s'.threads == s.threads[t := th']
    requires ListOk(s') && Evolves(s, s') && ThreadOk(s', th')
    requires th'.Ins? ==> s.threads[t].Ins? && th'.elem == s.threads[t].elem
    requires forall u :: 0 <= u < |s.threads| && u != t && s.threads[u].Ins? ==>
      s.threads[u].elem !in s'.inserted && s'.cells[s.threads[u].elem] == s.cells[s.threads[u].elem]
    ensures Inv(s')
  {
    hide Reach, Evolves;
    forall u | 0 <= u < |s'.threads| ensures ListOk(s') && ThreadOk(s', s'.threads[u]) {
      if u != t {
        assert ThreadOk(s, s.threads[u]);
        ThreadStays(s, s', s.threads[u]);
      }
    }
  }

  /** The nodes other threads are inserting. */
  lemma OthersElems(s: State, t: nat)
    requires Inv(s) && t < |s.threads|
    ensures forall u :: 0 <= u < |s.threads| && u != t && s.threads[u].Ins? ==>
      && s.threads[u].elem !in s.inserted && s.threads[u].elem < |s.cells|
      && (s.threads[t].Ins? ==> s.threads[u].elem != s.threads[t].elem)
  {
    forall u | 0 <= u < |s.threads| && u != t && s.threads[u].Ins?
      ensures s.threads[u].elem !in s.inserted && s.threads[u].elem < |s.cells|
    {
      assert ThreadOk(s, s.threads[u]);
    }
  }

  lemma Unmoved(s: State, s': State)
    requires ListOk(s) && s'.cells == s.cells && s'.inserted == s.inserted && s'.rank == s.rank
    ensures ListOk(s') && Evolves(s, s')
  {
    hide Reach;
  }

  /** A traversal reads the link of its predecessor: whatever is due and still unmarked lies behind it. */
  lemma Behind(s: State, th: Thread)
    requires ListOk(s) && th.Walk? && WalkOk(s, th)
    requires th.wpc.LoadCurr? || th.wpc.Unlink?
    ensures WalkOk(s, th.(wpc := Go(s.cells[Pred(th)].next)))
  {
    var th' := th.(wpc := Go(s.cells[Pred(th)].next));
    hide Reach;
    forall e | e in th.due ensures DueOk(s, th', e) {
      assert DueOk(s, th, e);
      if Pred(th) != e && Reach(s.cells, Pred(th), e) {
        ReachNext(s.cells, Pred(th), e);
      }
    }
  }

  /** A traversal returns an unmarked node. */
  lemma Returns(s: State, th: Thread)
    requires ListOk(s) && th.Walk? && WalkOk(s, th) && th.wpc.LoadNext?
    requires !s.cells[th.wpc.curr].marked
    ensures WalkOk(s, th.(seen := th.seen + [th.wpc.curr], wpc := Stopped))
  {
    hide Reach;
    var th' := th.(seen := th.seen + [th.wpc.curr], wpc := Stopped);
    forall e | e in th.due ensures DueOk(s, th', e) {
      assert DueOk(s, th, e);
    }
  }

  /** A traversal turns to a marked node's link, or goes on from what it returned. */
  lemma Turns(s: State, th: Thread, wpc: NextPc)
    requires ListOk(s) && th.Walk? && WalkOk(s, th)
    requires (th.wpc.Stopped? && wpc == LoadCurr)
          || (th.wpc.LoadNext? && s.cells[th.wpc.curr].marked && wpc == Unlink(th.wpc.curr, s.cells[th.wpc.curr].next))
    ensures WalkOk(s, th.(wpc := wpc))
  {
    hide Reach;
    forall e | e in th.due ensures DueOk(s, th.(wpc := wpc), e) {
      assert DueOk(s, th, e);
    }
  }

  /** After unlinking a node the traversal continues behind it. */
  lemma Passes(s: State, s': State, th: Thread)
    requires ListOk(s') && th.Walk? && th.wpc.Unlink? && Linked(s.cells, s.inserted, s.rank) && Evolves(s, s')
    requires WalkOk(s, th) && WalkOk(s', th)
    ensures WalkOk(s', th.(wpc := Go(th.wpc.next)))
  {
    hide Reach;
    var th' := th.(wpc := Go(th.wpc.next));
    forall e | e in th.due ensures DueOk(s', th', e) {
      assert DueOk(s', th, e);
      if Reach(s'.cells, th.wpc.curr, e) && !s'.cells[e].marked {
        ReachNext(s'.cells, th.wpc.curr, e);
      }
    }
  }

  lemma WalkKeepsInv(s: State, s': State, t: nat)
    requires Inv(s) && t < |s.threads| && s.threads[t].Walk?
    requires Pred(s.threads[t]) < |s.cells| && WalkStep(s, s', t, s.threads[t])
    ensures Inv(s') && Evolves(s, s')
  {
    hide Reach, Evolves, DueOk;
    var th := s.threads[t];
    assert ThreadOk(s, th);
    OthersElems(s, t);
    if th.wpc.Unlink? && s.cells[Pred(th)] == Link(Some(th.wpc.curr), false) {
      Unlinking(s, s', Pred(th), th.wpc.curr);
      ThreadStays(s, s', th);
      Passes(s, s', th);
    } else {
      Unmoved(s, s');
      if th.wpc.LoadCurr? || th.wpc.Unlink? {
        Behind(s, th);
      } else if th.wpc.LoadNext? && !s.cells[th.wpc.curr].marked {
        Returns(s, th);
      } else {
        Turns(s, th, s'.threads[t].wpc);
      }
      ThreadStays(s, s', s'.threads[t]);
    }
    Others(s, s', t, s'.threads[t]);
  }

  lemma Judged(s: State, th: Thread)
    requires ListOk(s) && th.Ins? && ThreadOk(s, th)
    ensures ThreadOk(s, Judge(th, s.cells[th.pred]))
  {
    hide Reach;
  }

  lemma InsKeepsInv(s: State, s': State, t: nat)
    requires Inv(s) && t < |s.threads| && s.threads[t].Ins? && s.threads[t].pred < |s.cells| == |s.rank|
    requires s.threads[t].elem < |s.cells| && InsStep(s, s', t, s.threads[t])
    ensures Inv(s') && Evolves(s, s')
  {
    hide Reach, Evolves;
    var th := s.threads[t];
    assert ThreadOk(s, th);
    OthersElems(s, t);
    if th.ipc.InsertCas? && s.cells[th.pred] == Link(th.ipc.next, false) {
      Inserting(s, s', th.pred, th.elem, th.ipc.next);
      assert s'.rank[th.after] == s.rank[th.after] by { hide Inv; ShowRank(s, s', th.after); }
    } else if th.ipc.Store? {
      SameLinks(s, s');
    } else {
      Unmoved(s, s');
      Judged(s, th);
    }
    Others(s, s', t, s'.threads[t]);
  }

  lemma ShowRank(s: State, s': State, x: Node)
    requires Evolves(s, s') && x in s.inserted
    ensures x < |s.rank| && x < |s'.rank| && s'.rank[x] == s.rank[x]
  {
  }

  /** Not finding the element right behind an unmarked predecessor: the search goes on before it, or it is gone. */
  lemma Search(s: State, th: Thread)
    requires ListOk(s) && th.Rem? && th.rpc.UnlinkCas? && ThreadOk(s, th) && !s.cells[th.pred].marked
    requires s.cells[th.pred].next != Some(th.elem)
    ensures s.cells[th.pred].next.None? ==> !InList(s, th.elem)
    ensures s.cells[th.pred].next.Some? ==> ThreadOk(s, Rem(th.elem, s.cells[th.pred].next.value, th.rpc))
  {
    hide Path;
    if InList(s, th.elem) {
      LowerReaches(s.cells, s.inserted, s.rank, th.pred, th.elem);
      ReachNext(s.cells, th.pred, th.elem);
      ReachRank(s.cells, s.inserted, s.rank, s.cells[th.pred].next.value, th.elem);
    }
  }

  lemma RemKeepsInv(s: State, s': State, t: nat)
    requires Inv(s) && t < |s.threads| && s.threads[t].Rem?
    requires s.threads[t].pred < |s.cells| && s.threads[t].elem < |s.cells| && RemStep(s, s', t, s.threads[t])
    ensures Inv(s') && Evolves(s, s')
  {
    hide Reach, Evolves, InList;
    var th := s.threads[t];
    assert ThreadOk(s, th);
    OthersElems(s, t);
    if th.rpc.Mark? {
      SameLinks(s, s');
    } else if s.cells[th.pred] == Link(Some(th.elem), false) {
      Unlinking(s, s', th.pred, th.elem);
    } else {
      Unmoved(s, s');
      if !s.cells[th.pred].marked {
        Search(s, th);
      }
      ThreadStays(s, s', s'.threads[t]);
    }
    Others(s, s', t, s'.threads[t]);
  }

  lemma StartKeepsInv(s: State, s': State, t: nat, th': Thread)
    requires Inv(s) && t < |s.threads| && Start(s, s', t, th')
    ensures Inv(s') && Evolves(s, s')
  {
    hide Evolves;
    OthersElems(s, t);
    Unmoved(s, s');
    assert ThreadOk(s', th');
    hide Reach;
    forall u | 0 <= u < |s'.threads| ensures ThreadOk(s', s'.threads[u]) {
      if u != t {
        assert ThreadOk(s, s.threads[u]);
        ThreadStays(s, s', s.threads[u]);
      }
    }
  }

  /** One step of any thread. */
  lemma StepKeepsInv(s: State, s': State, t: nat)
    requires Inv(s) && Step(s, s', t)
    ensures Inv(s') && Evolves(s, s')
  {
    hide Inv, Evolves, WalkStep, InsStep, RemStep, Start;
    var th := s.threads[t];
    if th.Walk? && Pred(th) < |s.cells| && WalkStep(s, s', t, th) {
      WalkKeepsInv(s, s', t);
    } else if th.Ins? && th.pred < |s.cells| == |s.rank| && th.elem < |s.cells| && InsStep(s, s', t, th) {
      InsKeepsInv(s, s', t);
    } else if th.Rem? && th.pred < |s.cells| && th.elem < |s.cells| && RemStep(s, s', t, th) {
      RemKeepsInv(s, s', t);
    } else {
      var th' :| Start(s, s', t, th');
      StartKeepsInv(s, s', t, th');
    }
  }

  // ---------- every run ----------

  lemma InitInv(s: State)
    requires Init(s)
    ensures Inv(s)
  {
    assert Path(s.cells, Head, Head, 0);
  }

  lemma EvolvesOn(s: State, s': State, s'': State)
    requires Evolves(s, s') && Evolves(s', s'')
    ensures Evolves(s, s'')
  {
    hide Reach, InList;
    forall x, y | x in s.inserted && y in s.inserted && Reach(s.cells, x, y) && !s''.cells[y].marked
      ensures Reach(s''.cells, x, y)
    {
      assert !s'.cells[y].marked;
      assert Reach(s'.cells, x, y);
    }
  }

  lemma {:induction false} RunInv(run: seq<State>, i: nat, j: nat)
    requires Run(run) && i <= j < |run|
    ensures Inv(run[j]) && Evolves(run[i], run[j])
  {
    hide Inv, Init, Step, Evolves;
    if j == 0 {
      InitInv(run[0]);
      Stutter(run[0]);
    } else {
      RunInv(run, if i < j then i else j - 1, j - 1);
      assert Next(run[j - 1], run[j]);
      var t: nat :| Step(run[j - 1], run[j], t);
      StepKeepsInv(run[j - 1], run[j], t);
      if i < j {
        EvolvesOn(run[i], run[j - 1], run[j]);
      } else {
        Stutter(run[j]);
      }
    }
  }

  lemma Stutter(s: State)
    requires Inv(s)
    ensures Evolves(s, s)
  {
    Unmoved(s, s);
  }

  // ---------- the properties ----------

  /** Nothing is lost: in every state, each node inserted so far and not marked is reachable from the list head. */
  lemma NothingLost(run: seq<State>, i: nat, x: Node)
    requires Run(run) && i < |run| && x in run[i].inserted
    ensures x < |run[i].cells|
    ensures !run[i].cells[x].marked ==> InList(run[i], x)
  {
    RunInv(run, i, i);
  }

  /** A marked node's successor never changes, and a node that has left the list does not come back. */
  lemma RemovalIsFinal(run: seq<State>, i: nat, j: nat, x: Node)
    requires Run(run) && i <= j < |run| && x in run[i].inserted
    ensures x < |run[i].cells| == |run[j].cells|
    ensures run[i].cells[x].marked ==> run[j].cells[x] == run[i].cells[x]
    ensures !InList(run[i], x) ==> run[i].cells[x].marked && !InList(run[j], x)
  {
    RunInv(run, i, i);
    RunInv(run, i, j);
  }

  /** The order of two nodes in the list is the same in every state that has both in the list. */
  lemma OrderIsKept(run: seq<State>, i: nat, j: nat, x: Node, y: Node)
    requires Run(run) && i <= j < |run|
    requires InList(run[i], x) && InList(run[i], y) && InList(run[j], x) && InList(run[j], y)
    ensures Reach(run[i].cells, x, y) <==> Reach(run[j].cells, x, y)
  {
    RunInv(run, i, i);
    RunInv(run, i, j);
    RanksOrder(run[i], x, y);
    RanksOrder(run[j], x, y);
  }

  /** The list is sorted by rank. */
  lemma RanksOrder(s: State, x: Node, y: Node)
    requires Inv(s) && InList(s, x) && InList(s, y)
    ensures x in s.inserted && y in s.inserted && x < |s.rank| && y < |s.rank|
    ensures Reach(s.cells, x, y) <==> x == y || s.rank[x] < s.rank[y]
  {
    LowerReaches(s.cells, s.inserted, s.rank, x, y);
    if Reach(s.cells, x, y) {
      ReachRank(s.cells, s.inserted, s.rank, x, y);
    }
    if x == y {
      assert Path(s.cells, x, y, 0);
    }
  }

  /** A successful insertion has put its element somewhere behind the requested predecessor, and it stays there until it
      is marked. */
  lemma InsertedBehind(run: seq<State>, i: nat, j: nat, t: nat)
    requires Run(run) && i <= j < |run| && t < |run[i].threads| && run[i].threads[t].Inserted?
    ensures var s, after, elem := run[j], run[i].threads[t].after, run[i].threads[t].elem;
            && elem < |s.cells| && elem < |s.rank| && after < |s.rank| && s.rank[after] < s.rank[elem]
            && (!s.cells[elem].marked ==> InList(s, elem) && (InList(s, after) ==> Reach(s.cells, after, elem)))
  {
    RunInv(run, i, i);
    RunInv(run, i, j);
    assert ThreadOk(run[i], run[i].threads[t]);
    var s, after, elem := run[j], run[i].threads[t].after, run[i].threads[t].elem;
    if !s.cells[elem].marked && InList(s, after) {
      RanksOrder(s, after, elem);
    }
  }

  /** A removal that returns true has marked its element, and the element is out of the list for good. */
  lemma RemovedIsOut(run: seq<State>, i: nat, j: nat, t: nat)
    requires Run(run) && i <= j < |run| && t < |run[i].threads| && run[i].threads[t].Removed?
    ensures var x := run[i].threads[t].elem; x < |run[j].cells| && run[j].cells[x].marked && !InList(run[j], x)
  {
    RunInv(run, i, i);
    RunInv(run, i, j);
    assert ThreadOk(run[i], run[i].threads[t]);
  }

  /** A traversal returns nodes in list order, each once, and when it reaches the end it has returned every node that was
      ahead of it when it started and is still unmarked, whatever other threads inserted and removed meanwhile. */
  lemma TraversalMissesNothing(run: seq<State>, i: nat, t: nat)
    requires Run(run) && i < |run| && t < |run[i].threads| && run[i].threads[t].Walk?
    ensures var s, th := run[i], run[i].threads[t];
            && (forall k :: 0 <= k < |th.seen| ==> th.seen[k] in s.inserted && th.seen[k] < |s.rank|)
            && (forall j, k :: 0 <= j < k < |th.seen| ==> s.rank[th.seen[j]] < s.rank[th.seen[k]])
            && (th.wpc.AtEnd? ==> forall e :: e in th.due && e < |s.cells| && !s.cells[e].marked ==> e in th.seen)
  {
    RunInv(run, i, i);
    hide Reach;
    var s, th := run[i], run[i].threads[t];
    assert ThreadOk(s, th);
    forall e | e in th.due && e < |s.cells| && !s.cells[e].marked && th.wpc.AtEnd? ensures e in th.seen {
      assert DueOk(s, th, e);
    }
  }
}

/** What the calls of the linked list answer, in terms of their arguments. */
module LinkListCalls {
  import opened RingIndex
  import opened LinkList

  datatype Call =
    | InsertCall(after: Node, elem: Node)
    | RemoveCall(elem: Node, pred: Node)
    | WalkCall(from: Node, due: set<Node>)

  function First(c: Call): Thread {
    match c
    case InsertCall(after, elem) => Ins(after, elem, after, LoadPred)
    case RemoveCall(elem, pred) => Rem(elem, pred, Mark)
    case WalkCall(from, due) => Walk(from, due, [], LoadCurr)
  }

  ghost predicate Begins(s: State, s': State, t: nat) {
    t < |s.threads| && exists th' :: Start(s, s', t, th')
  }

  /** Between moments k and k + 1 thread t has not begun another call. */
  ghost predicate NotAgain(run: seq<State>, k: nat, t: nat) {
    k + 1 < |run| && t < |run[k].threads| && t < |run[k + 1].threads| && !Begins(run[k], run[k + 1], t)
  }

  /** The latest call of thread t at moment j: it began with the step after moment a. */
  ghost predicate Called(run: seq<State>, a: nat, j: nat, t: nat, c: Call) {
    && a < j < |run| && t < |run[a].threads| && t < |run[j].threads|
    && Start(run[a], run[a + 1], t, First(c))
    && forall k :: a < k < j ==> NotAgain(run, k, t)
  }

  // ---------- an insertion passes marked nodes only ----------

  /** last is n links behind x, and all nodes before it are marked. */
  predicate MarkedPath(cells: seq<Link>, x: Node, last: Node, n: nat)
    decreases n
  {
    && x < |cells|
    && if n == 0 then x == last
       else cells[x].marked && cells[x].next.Some? && MarkedPath(cells, cells[x].next.value, last, n - 1)
  }

  ghost predicate Passed(cells: seq<Link>, x: Node, last: Node) { exists n: nat :: MarkedPath(cells, x, last, n) }

  /** Every node from x to the end of the list is marked. */
  ghost predicate AllMarked(cells: seq<Link>, x: Node) {
    forall y: Node :: Reach(cells, x, y) ==> y < |cells| && cells[y].marked
  }

  /** Marked nodes are frozen. */
  lemma {:induction false} PathFrozen(s: State, s': State, x: Node, last: Node, n: nat)
    requires Linked(s.cells, s.inserted, s.rank) && Evolves(s, s') && x in s.inserted && MarkedPath(s.cells, x, last, n)
    ensures MarkedPath(s'.cells, x, last, n)
    decreases n
  {
    hide Reach, InList;
    if n > 0 {
      PathFrozen(s, s', s.cells[x].next.value, last, n - 1);
    }
  }

  lemma {:induction false} PathGoesOn(cells: seq<Link>, x: Node, last: Node, n: nat)
    requires MarkedPath(cells, x, last, n) && last < |cells| && cells[last].marked && cells[last].next.Some?
    requires cells[last].next.value < |cells|
    ensures MarkedPath(cells, x, cells[last].next.value, n + 1)
    decreases n
  {
    if n > 0 {
      PathGoesOn(cells, cells[x].next.value, last, n - 1);
    } else {
      assert MarkedPath(cells, cells[last].next.value, cells[last].next.value, 0);
    }
  }

  /** Nothing is reachable but the path and what lies behind its end. */
  lemma {:induction false} OnPath(cells: seq<Link>, x: Node, last: Node, n: nat, y: Node, m: nat)
    requires MarkedPath(cells, x, last, n) && last < |cells| && cells[last] == Link(None, true) && Path(cells, x, y, m)
    ensures y < |cells| && cells[y].marked
    decreases n
  {
    if n > 0 && m > 0 {
      OnPath(cells, cells[x].next.value, last, n - 1, y, m - 1);
    }
  }

  lemma AtTheEnd(cells: seq<Link>, x: Node, last: Node)
    requires Passed(cells, x, last) && last < |cells| && cells[last] == Link(None, true)
    ensures AllMarked(cells, x)
  {
    var n: nat :| MarkedPath(cells, x, last, n);
    forall y: Node | Reach(cells, x, y) ensures y < |cells| && cells[y].marked {
      var m: nat :| Path(cells, x, y, m);
      OnPath(cells, x, last, n, y, m);
    }
  }

  // ---------- during a call ----------

  ghost predicate InsertOk(run: seq<State>, b: nat, j: nat, th: Thread, after: Node, elem: Node)
    requires b <= j < |run|
  {
    match th
    case Ins(after', elem', pred, _) =>
      && after' == after && elem' == elem && after in run[j].inserted && Passed(run[j].cells, after, pred)
    case Inserted(after', elem') =>
      after' == after && elem' == elem && b < j && elem !in run[b].inserted && elem in run[b + 1].inserted
    case NotInserted(elem') => elem' == elem && AllMarked(run[b].cells, after) && elem !in run[b].inserted
    case _ => false
  }

  /** A marked node, the given predecessor or one behind it. */
  ghost predicate MarkedBefore(s: State, p: Node, pred: Node) {
    && p in s.inserted && p < |s.cells| && p < |s.rank| && pred < |s.rank| && s.rank[pred] <= s.rank[p]
    && s.cells[p].marked
  }

  ghost predicate RemoveOk(run: seq<State>, b: nat, j: nat, th: Thread, elem: Node, pred: Node)
    requires b <= j < |run|
  {
    match th
    case Rem(elem', pred', _) =>
      && elem' == elem && pred in run[j].inserted && pred' in run[j].inserted
      && pred < |run[j].rank| && pred' < |run[j].rank| && run[j].rank[pred] <= run[j].rank[pred']
    case Removed(elem') => elem' == elem
    case NotUnlinked(elem') => elem' == elem && exists p :: MarkedBefore(run[b], p, pred)
    case _ => false
  }

  ghost predicate CallOk(run: seq<State>, b: nat, j: nat, th: Thread, c: Call)
    requires b <= j < |run|
  {
    match c
    case InsertCall(after, elem) => InsertOk(run, b, j, th, after, elem)
    case RemoveCall(elem, pred) => RemoveOk(run, b, j, th, elem, pred)
    case WalkCall(from, due) => th.Walk? && th.from == from && th.due == due
  }

  lemma InsertMoves(run: seq<State>, b: nat, i: nat, t: nat, after: Node, elem: Node) returns (b': nat)
    requires b <= i && i + 1 < |run| && Inv(run[i]) && Evolves(run[i], run[i + 1])
    requires Step(run[i], run[i + 1], t) && !Begins(run[i], run[i + 1], t)
    requires InsertOk(run, b, i, run[i].threads[t], after, elem)
    ensures b <= b' <= i + 1 && t < |run[i + 1].threads| && InsertOk(run, b', i + 1, run[i + 1].threads[t], after, elem)
  {
    var s, s' := run[i], run[i + 1];
    var th := s.threads[t];
    b' := i;
    assert ThreadOk(s, th);
    assert Linked(s.cells, s.inserted, s.rank);
    var n: nat :| MarkedPath(s.cells, after, th.pred, n);
    PathFrozen(s, s', after, th.pred, n);
    if (th.ipc.LoadPred? || (th.ipc.InsertCas? && s.cells[th.pred] != Link(th.ipc.next, false))) && s.cells[th.pred].marked {
      if s.cells[th.pred].next.Some? {
        PathGoesOn(s.cells, after, th.pred, n);
        PathFrozen(s, s', after, s.cells[th.pred].next.value, n + 1);
      } else {
        AtTheEnd(s.cells, after, th.pred);
      }
    }
    hide Reach, MarkedPath, Inv, Evolves, AllMarked;
  }

  lemma RemoveMoves(run: seq<State>, b: nat, i: nat, t: nat, elem: Node, pred: Node) returns (b': nat)
    requires b <= i && i + 1 < |run| && Inv(run[i]) && Evolves(run[i], run[i + 1])
    requires Step(run[i], run[i + 1], t) && !Begins(run[i], run[i + 1], t)
    requires RemoveOk(run, b, i, run[i].threads[t], elem, pred)
    ensures b <= b' <= i + 1 && t < |run[i + 1].threads| && RemoveOk(run, b', i + 1, run[i + 1].threads[t], elem, pred)
  {
    var s, s' := run[i], run[i + 1];
    var th := s.threads[t];
    b' := i;
    assert ThreadOk(s, th);
    hide Reach;
    if th.rpc.UnlinkCas? && s.cells[th.pred].marked {
      assert MarkedBefore(s, th.pred, pred);
    }
  }

  lemma WalkMoves(s: State, s': State, t: nat)
    requires Step(s, s', t) && !Begins(s, s', t) && s.threads[t].Walk?
    ensures t < |s'.threads| && s'.threads[t].Walk?
    ensures s'.threads[t].from == s.threads[t].from && s'.threads[t].due == s.threads[t].due
  {
    hide Reach;
  }

  /** A step changes only the thread that takes it. */
  lemma Mine(s: State, s': State, u: nat)
    requires Step(s, s', u)
    ensures u < |s.threads| && |s'.threads| == |s.threads| && s'.threads == s.threads[u := s'.threads[u]]
  {
    hide Judge, Go, Reach;
  }

  lemma {:induction false} OthersKeep(run: seq<State>, b: nat, i: nat, th: Thread, c: Call)
    requires b <= i && i + 1 < |run| && Inv(run[i]) && Evolves(run[i], run[i + 1]) && CallOk(run, b, i, th, c)
    ensures CallOk(run, b, i + 1, th, c)
  {
    if th.Ins? && c.InsertCall? {
      var n: nat :| MarkedPath(run[i].cells, c.after, th.pred, n);
      PathFrozen(run[i], run[i + 1], c.after, th.pred, n);
    }
    hide Reach, AllMarked, MarkedPath, Inv;
  }

  lemma OneMoment(run: seq<State>, b: nat, i: nat, t: nat, c: Call) returns (b': nat)
    requires Run(run) && b <= i && NotAgain(run, i, t) && CallOk(run, b, i, run[i].threads[t], c)
    ensures b <= b' <= i + 1 && CallOk(run, b', i + 1, run[i + 1].threads[t], c)
  {
    NextAt(run, i);
    RunInv(run, i, i);
    hide Run, Step, CallOk, Inv, Evolves, Begins;
    b' := b;
    var u: nat :| Step(run[i], run[i + 1], u);
    Mine(run[i], run[i + 1], u);
    StepKeepsInv(run[i], run[i + 1], u);
    if u == t {
      b' := MyMoment(run, b, i, t, c);
    } else {
      OthersKeep(run, b, i, run[i].threads[t], c);
    }
  }

  lemma MyMoment(run: seq<State>, b: nat, i: nat, t: nat, c: Call) returns (b': nat)
    requires b <= i && i + 1 < |run| && Inv(run[i]) && Evolves(run[i], run[i + 1])
    requires Step(run[i], run[i + 1], t) && !Begins(run[i], run[i + 1], t) && CallOk(run, b, i, run[i].threads[t], c)
    ensures b <= b' <= i + 1 && t < |run[i + 1].threads| && CallOk(run, b', i + 1, run[i + 1].threads[t], c)
  {
    hide InsertOk, RemoveOk, Inv, Evolves, Step, Begins;
    match c
    case InsertCall(after, elem) => b' := InsertMoves(run, b, i, t, after, elem);
    case RemoveCall(elem, pred) => b' := RemoveMoves(run, b, i, t, elem, pred);
    case WalkCall(_, _) =>
      b' := b;
      WalkMoves(run[i], run[i + 1], t);
  }

  lemma NextAt(run: seq<State>, i: nat)
    requires Run(run) && i + 1 < |run|
    ensures Next(run[i], run[i + 1])
  {
    hide Next, Init;
  }

  /** At every moment of a call, and after it; b is the moment that decided it. */
  lemma {:induction false} DuringCall(run: seq<State>, a: nat, j: nat, t: nat, c: Call) returns (b: nat)
    requires Run(run) && Called(run, a, j, t, c)
    ensures a <= b <= j && CallOk(run, b, j, run[j].threads[t], c)
  {
    hide Run, CallOk, Start;
    if j == a + 1 {
      b := a;
      AtStart(run, a, t, c);
    } else {
      assert NotAgain(run, j - 1, t) && Called(run, a, j - 1, t, c);
      hide Called, NotAgain;
      b := DuringCall(run, a, j - 1, t, c);
      b := OneMoment(run, b, j - 1, t, c);
    }
  }

  lemma AtStart(run: seq<State>, a: nat, t: nat, c: Call)
    requires Run(run) && Called(run, a, a + 1, t, c)
    ensures CallOk(run, a, a + 1, run[a + 1].threads[t], c)
  {
    RunInv(run, a, a);
    hide Reach, Run;
    if c.InsertCall? {
      assert MarkedPath(run[a + 1].cells, c.after, c.after, 0);
    }
  }

  // ---------- the answers ----------

  /** An insertion that returns true has put its element into the list in a step of the call. One that returns false has
      not, and at that moment every node from the requested predecessor to the end of the list was marked; so behind the
      list head an insertion never fails. */
  lemma InsertAnswer(run: seq<State>, a: nat, j: nat, t: nat, after: Node, elem: Node) returns (b: nat)
    requires Run(run) && Called(run, a, j, t, InsertCall(after, elem)) && !run[j].threads[t].Ins?
    ensures a <= b <= j
    ensures match run[j].threads[t]
            case Inserted(after', elem') =>
              after' == after && elem' == elem && b < j && elem !in run[b].inserted && elem in run[b + 1].inserted
            case NotInserted(elem') =>
              && elem' == elem && elem !in run[b].inserted && after != Head
              && forall y: Node :: Reach(run[b].cells, after, y) ==> y < |run[b].cells| && run[b].cells[y].marked
            case _ => false
  {
    b := DuringCall(run, a, j, t, InsertCall(after, elem));
    if run[j].threads[t].NotInserted? {
      NotBehindHead(run, b, after);
    }
    hide Called, Run, Reach;
  }

  lemma NotBehindHead(run: seq<State>, b: nat, after: Node)
    requires Run(run) && b < |run| && AllMarked(run[b].cells, after)
    ensures after != Head
  {
    RunInv(run, b, b);
    assert Path(run[b].cells, Head, Head, 0);
  }

  /** A removal has marked its element. When it returns true the element is out of the list; when it returns false, the
      given predecessor or a node behind it was marked as well at a moment of the call. */
  lemma RemoveAnswer(run: seq<State>, a: nat, j: nat, t: nat, elem: Node, pred: Node) returns (b: nat)
    requires Run(run) && Called(run, a, j, t, RemoveCall(elem, pred)) && !run[j].threads[t].Rem?
    ensures a <= b <= j && elem < |run[j].cells| && run[j].cells[elem].marked
    ensures match run[j].threads[t]
            case Removed(elem') => elem' == elem && !InList(run[j], elem)
            case NotUnlinked(elem') => elem' == elem && exists p :: MarkedBefore(run[b], p, pred)
            case _ => false
  {
    b := DuringCall(run, a, j, t, RemoveCall(elem, pred));
    RunInv(run, j, j);
    assert ThreadOk(run[j], run[j].threads[t]);
  }

  /** What next returns is unmarked at that moment, so it is in the list, and it lies behind the element it was called
      with. */
  lemma NextReturnsUnmarked(run: seq<State>, i: nat, t: nat, s': State)
    requires Run(run) && i < |run| && t < |run[i].threads| && run[i].threads[t].Walk? && Step(run[i], s', t)
    requires t < |s'.threads| && s'.threads[t].Walk? && |run[i].threads[t].seen| < |s'.threads[t].seen|
    ensures var s, th, x := run[i], run[i].threads[t], s'.threads[t].seen[|s'.threads[t].seen| - 1];
            && s'.threads[t].seen == th.seen + [x] && x < |s.cells| && !s.cells[x].marked && InList(s, x)
            && Pred(th) < |s.rank| && x < |s.rank| && s.rank[Pred(th)] < s.rank[x]
  {
    RunInv(run, i, i);
    assert ThreadOk(run[i], run[i].threads[t]);
    hide Reach, DueOk, Run;
  }

  lemma GoesOn(run: seq<State>, a: nat, i: nat, t: nat, c: Call)
    requires Called(run, a, i, t, c) && NotAgain(run, i, t)
    ensures Called(run, a, i + 1, t, c)
  {
  }

  /** Whoever has a result has made a call. */
  lemma {:induction false} ResultOfCall(run: seq<State>, j: nat, t: nat) returns (a: nat, c: Call)
    requires Run(run) && j < |run| && t < |run[j].threads| && !run[j].threads[t].Idle?
    ensures Called(run, a, j, t, c)
  {
    assert j > 0;
    var i := j - 1;
    NextAt(run, i);
    hide Run, Step, Called, Start;
    var u: nat :| Step(run[i], run[j], u);
    Mine(run[i], run[j], u);
    if Begins(run[i], run[j], t) {
      a := i;
      c := Begun(run, i, t);
    } else {
      if u == t {
        NotStarting(run[i], run[j], t);
      }
      a, c := ResultOfCall(run, i, t);
      GoesOn(run, a, i, t, c);
    }
  }

  lemma NotStarting(s: State, s': State, t: nat)
    requires Step(s, s', t) && !Begins(s, s', t)
    ensures !s.threads[t].Idle?
  {
  }

  lemma Begun(run: seq<State>, i: nat, t: nat) returns (c: Call)
    requires i + 1 < |run| && t < |run[i].threads| && t < |run[i + 1].threads| && Begins(run[i], run[i + 1], t)
    ensures Called(run, i, i + 1, t, c)
  {
    hide Reach;
    var th' :| Start(run[i], run[i + 1], t, th');
    if th'.Ins? {
      c := InsertCall(th'.after, th'.elem);
    } else if th'.Rem? {
      c := RemoveCall(th'.elem, th'.pred);
    } else {
      c := WalkCall(th'.from, th'.due);
    }
  }
}

/** What the calls of multi-word compare-and-swap answer, in terms of their arguments. */
module McasCalls {
  import opened McasDescriptor
  import opened Mcas
  import opened McasAtomicity

  predicate IsResult(stack: seq<Frame>) {
    |stack| == 1 && (stack[0].Returned? || stack[0].Refused? || stack[0].Swapped? || stack[0].Value?)
  }

  predicate InCall(stack: seq<Frame>) { stack != [] && !IsResult(stack) }

  /** In the step after moment a, thread t makes the call. */
  ghost predicate Began(run: seq<State>, a: nat, t: nat, c: Call) {
    && a + 1 < |run| && t < |run[a].threads| && t < |run[a + 1].threads| && run[a].threads[t] == []
    && BeginsBy(run[a], run[a + 1], t, c)
  }

  ghost predicate BeginsBy(s: State, s': State, t: nat, c: Call) { exists e :: BeginsWith(s, s', t, e, c) }

  ghost predicate BeginsWith(s: State, s': State, t: nat, e: Effect, c: Call) {
    Step(s, s', t, e) && BeginsCall(s.m, |s.past| - 1, c, e, s'.threads[t])
  }

  /** Between moments k and k + 1 thread t has not left the call, nor begun another. */
  ghost predicate NotAgain(run: seq<State>, k: nat, t: nat) {
    && k + 1 < |run| && t < |run[k].threads| && t < |run[k + 1].threads|
    && (InCall(run[k].threads[t]) || run[k + 1].threads[t] == run[k].threads[t])
  }

  /** The latest call of thread t at moment j: it began with the step after moment a. */
  ghost predicate Called(run: seq<State>, a: nat, j: nat, t: nat, c: Call) {
    && a < j < |run| && t < |run[j].threads| && Began(run, a, t, c)
    && forall k :: a < k < j ==> NotAgain(run, k, t)
  }

  predicate Helps(stack: seq<Frame>, from: nat) {
    from <= |stack| && forall k :: from <= k < |stack| ==> stack[k].Help?
  }

  /** The descriptor that casn made of its arguments. */
  predicate DescOf(m: Memory, d: nat, args: seq<Entry>, born: nat) {
    d < |m.descs| && m.descs[d].es == Prepare(args) && m.descs[d].born == born
  }

  predicate CasnOk(m: Memory, stack: seq<Frame>, d: nat, args: seq<Entry>, born: nat) {
    if Distinct(args) then
      && DescOf(m, d, args, born) && stack != [] && (stack[0].Help? || stack[0].Returned?) && stack[0].d == d
      && (if stack[0].Help? then Helps(stack, 0) else |stack| == 1)
    else stack == [Refused]
  }

  predicate ReadOfOk(stack: seq<Frame>, loc: nat, since: nat) {
    && stack != [] && (stack[0].Read? || stack[0].Value?) && stack[0].loc == loc && stack[0].since == since
    && (if stack[0].Read? then Helps(stack, 1) else |stack| == 1)
  }

  /** A read, or its value, of the location since some moment of the call. */
  predicate InnerRead(stack: seq<Frame>, loc: nat, since: nat) {
    && |stack| >= 2 && (stack[1].Read? || stack[1].Value?) && stack[1].loc == loc && since <= stack[1].since
    && (if stack[1].Read? then Helps(stack, 2) else |stack| == 2)
  }

  /** The location logically held the expected value at moment b and the new one at the next; or it held another value. */
  ghost predicate SwapAt(run: seq<State>, b: nat, j: nat, loc: nat, exp: nat, neu: nat, ok: bool)
    requires j < |run|
  {
    && b <= j && loc in Logical(run[b].m)
    && if ok then b < j && Logical(run[b].m)[loc] == exp && Logical(run[b + 1].m) == Logical(run[b].m)[loc := neu]
       else Logical(run[b].m)[loc] != exp
  }

  ghost predicate Cas1Ok(run: seq<State>, a: nat, b: nat, j: nat, stack: seq<Frame>, loc: nat, exp: nat, neu: nat)
    requires j < |run|
  {
    || stack == [One(loc, exp, neu)] || stack == [OneCas(loc, exp, neu)]
    || (stack != [] && stack[0] == One(loc, exp, neu) && InnerRead(stack, loc, a))
    || (|stack| == 1 && stack[0].Swapped? && stack[0] == Swapped(loc, exp, neu, stack[0].ok)
        && SwapAt(run, b, j, loc, exp, neu, stack[0].ok))
  }

  ghost predicate CallOk(run: seq<State>, a: nat, b: nat, j: nat, t: nat, c: Call)
    requires a < j < |run| && t < |run[j].threads|
  {
    a <= b <= j &&
    match c
    case Casn(args) => CasnOk(run[j].m, run[j].threads[t], |run[a].m.descs|, args, a)
    case ReadCall(loc) => ReadOfOk(run[j].threads[t], loc, a)
    case Cas1(loc, exp, neu) => Cas1Ok(run, a, b, j, run[j].threads[t], loc, exp, neu)
  }

  // ---------- one step of the calling thread ----------

  lemma CasnMoves(s: State, s': State, t: nat, e: Effect, d: nat, args: seq<Entry>, born: nat)
    requires Step(s, s', t, e) && InCall(s.threads[t]) && CasnOk(s.m, s.threads[t], d, args, born)
    ensures CasnOk(s'.m, s'.threads[t], d, args, born)
  {
    StepDescs(s, s', t, e, d);
    hide Accesses, HelpStep, ReadStep, Blocked, Logical, Prepare, Distinct, Begins;
  }

  lemma ReadMovesOn(s: State, s': State, t: nat, e: Effect, loc: nat, since: nat)
    requires Step(s, s', t, e) && InCall(s.threads[t]) && ReadOfOk(s.threads[t], loc, since)
    ensures ReadOfOk(s'.threads[t], loc, since)
  {
    hide Accesses, HelpStep, Blocked, Logical, Begins;
  }

  /** The single-word operation while it reads. */
  lemma Cas1Reads(s: State, s': State, t: nat, e: Effect, a: nat, loc: nat, exp: nat, neu: nat)
    requires Step(s, s', t, e) && s.threads[t] != [] && s.threads[t][0] == One(loc, exp, neu)
    requires InnerRead(s.threads[t], loc, a)
    ensures var stack' := s'.threads[t];
            || (stack' != [] && stack'[0] == One(loc, exp, neu) && InnerRead(stack', loc, a))
            || (|s.threads[t]| == 2 && s.threads[t][1].Value?
                && stack' == [if s.threads[t][1].v == exp then OneCas(loc, exp, neu) else Swapped(loc, exp, neu, false)])
  {
    hide Accesses, HelpStep, Blocked, Logical, Begins;
  }

  lemma Cas1Moves(run: seq<State>, a: nat, b: nat, i: nat, t: nat, e: Effect, loc: nat, exp: nat, neu: nat) returns (b': nat)
    requires Run(run) && a < i && i + 1 < |run| && Step(run[i], run[i + 1], t, e) && InCall(run[i].threads[t]) && a <= b <= i
    requires Cas1Ok(run, a, b, i, run[i].threads[t], loc, exp, neu)
    ensures a <= b' <= i + 1 && Cas1Ok(run, a, b', i + 1, run[i + 1].threads[t], loc, exp, neu)
  {
    var s, s' := run[i], run[i + 1];
    var stack := s.threads[t];
    b' := b;
    hide Run, Inv, Logical, Accesses, Begins, HelpStep, ReadStep, Blocked;
    RunInv(run, i);
    if stack == [OneCas(loc, exp, neu)] {
      b' := i;
      SwapStep(run, i, t, e, loc, exp, neu);
    } else if stack != [One(loc, exp, neu)] {
      Cas1Reads(s, s', t, e, a, loc, exp, neu);
      if |stack| == 2 && stack[1].Value? {
        b' := ValueWasHeld(run, i, t, 1);
        if stack[1].v == exp {
          b' := b;
        }
      }
    }
  }

  lemma SwapStep(run: seq<State>, i: nat, t: nat, e: Effect, loc: nat, exp: nat, neu: nat)
    requires Run(run) && i + 1 < |run| && Step(run[i], run[i + 1], t, e) && run[i].threads[t] == [OneCas(loc, exp, neu)]
    ensures || run[i + 1].threads[t] == [One(loc, exp, neu)]
            || (run[i + 1].threads[t] == [Swapped(loc, exp, neu, true)] && SwapAt(run, i, i + 1, loc, exp, neu, true))
  {
    RunInv(run, i);
    assert NoRecurrence(run[i].m);
    StepKeepsInv(run[i], run[i + 1], t, e);
    if e.Swap? {
      SwapIsSingle(run[i], run[i + 1], t, e);
    }
    hide Run, Inv, Logical, Accesses, Begins, NoRecurrence;
  }

  /** At every moment of a call, and after it; b is the moment that decided a single-word operation. */
  lemma {:induction false} DuringCall(run: seq<State>, a: nat, j: nat, t: nat, c: Call) returns (b: nat)
    requires Run(run) && Called(run, a, j, t, c)
    ensures CallOk(run, a, b, j, t, c)
  {
    hide Run, CallOk;
    if j == a + 1 {
      b := a;
      AtStart(run, a, t, c);
    } else {
      assert NotAgain(run, j - 1, t) && Called(run, a, j - 1, t, c);
      hide Called, NotAgain;
      b := DuringCall(run, a, j - 1, t, c);
      b := OneMoment(run, a, b, j - 1, t, c);
    }
  }

  lemma AtStart(run: seq<State>, a: nat, t: nat, c: Call)
    requires Run(run) && Began(run, a, t, c)
    ensures CallOk(run, a, a, a + 1, t, c)
  {
    RunInv(run, a);
    hide HelpStep, ReadStep, Blocked, Logical, Begins, Prepare, Distinct, Run, Inv;
  }

  lemma OneMoment(run: seq<State>, a: nat, b: nat, i: nat, t: nat, c: Call) returns (b': nat)
    requires Run(run) && a < i && NotAgain(run, i, t) && CallOk(run, a, b, i, t, c)
    ensures CallOk(run, a, b', i + 1, t, c)
  {
    b' := b;
    var u, e := RunStep(run, i);
    assert run[i + 1].threads == run[i].threads[u := run[i + 1].threads[u]];
    hide Run, Step;
    if u == t && InCall(run[i].threads[t]) {
      match c
      case Casn(args) => CasnMoves(run[i], run[i + 1], t, e, |run[a].m.descs|, args, a);
      case ReadCall(loc) => ReadMovesOn(run[i], run[i + 1], t, e, loc, a);
      case Cas1(loc, exp, neu) => b' := Cas1Moves(run, a, b, i, t, e, loc, exp, neu);
    } else {
      match c
      case Casn(args) =>
        if Distinct(args) {
          StepDescs(run[i], run[i + 1], u, e, |run[a].m.descs|);
        }
      case _ =>
    }
  }

  // ---------- casn ----------

  /** A casn that has returned has an answer about its own descriptor, made of all its arguments; it is refused exactly
      when an address repeats. */
  lemma CasnAnswer(run: seq<State>, a: nat, j: nat, t: nat, args: seq<Entry>)
    requires Run(run) && Called(run, a, j, t, Casn(args)) && !InCall(run[j].threads[t])
    ensures run[j].threads[t] == [Refused] <==> !Distinct(args)
    ensures Distinct(args) ==>
              && |run[j].threads[t]| == 1 && run[j].threads[t][0].Returned?
              && DescOf(run[j].m, run[j].threads[t][0].d, args, a)
  {
    var b := DuringCall(run, a, j, t, Casn(args));
  }

  lemma EntryOf(args: seq<Entry>, i: nat) returns (k: nat)
    requires Distinct(args) && i < |args|
    ensures k < |Prepare(args)| && Prepare(args)[k] == args[i] && IndexOf(Prepare(args), args[i].loc) == k
  {
    PrepareSorts(args);
    var es := Prepare(args);
    hide Prepare, Distinct;
    assert args[i] in multiset(es);
    k :| 0 <= k < |es| && es[k] == args[i];
    IndexUnique(es, k);
  }

  lemma ArgumentOf(args: seq<Entry>, k: nat) returns (i: nat)
    requires Distinct(args) && k < |Prepare(args)|
    ensures i < |args| && args[i] == Prepare(args)[k]
  {
    PrepareSorts(args);
    assert Prepare(args)[k] in multiset(args);
    i :| 0 <= i < |args| && args[i] == Prepare(args)[k];
  }

  /** What the effect on the entries of the descriptor is on the arguments. */
  lemma EffectOnArguments(args: seq<Entry>, v: Values)
    requires Distinct(args) && Expected(v, Prepare(args))
    ensures forall i :: 0 <= i < |args| ==>
              args[i].loc in v && v[args[i].loc] == args[i].exp && Apply(v, Prepare(args))[args[i].loc] == args[i].neu
    ensures forall loc :: loc in v && !HasLoc(args, loc) ==> Apply(v, Prepare(args))[loc] == v[loc]
  {
    var es := Prepare(args);
    hide Prepare, Distinct, IndexOf;
    forall i | 0 <= i < |args|
      ensures args[i].loc in v && v[args[i].loc] == args[i].exp && Apply(v, es)[args[i].loc] == args[i].neu
    {
      var k := EntryOf(args, i);
    }
    forall loc | loc in v && !HasLoc(args, loc) ensures !Owns(es, loc) {
      if Owns(es, loc) {
        var i := ArgumentOf(args, IndexOf(es, loc));
      }
    }
  }

  /** A casn that returns true took effect in one step of its call: just before, each argument's location held its expected
      value, just after it holds its new one, and no other location has changed. */
  lemma SuccessTookEffect(run: seq<State>, a: nat, j: nat, t: nat, args: seq<Entry>) returns (p: nat)
    requires Run(run) && Called(run, a, j, t, Casn(args)) && !InCall(run[j].threads[t])
    requires run[j].threads[t] != [] && run[j].threads[t][0].Returned? && run[j].threads[t][0].ok
    ensures a < p <= j
    ensures var v, v' := Logical(run[p - 1].m), Logical(run[p].m);
            && v'.Keys == v.Keys
            && (forall i :: 0 <= i < |args| ==>
                  args[i].loc in v && v[args[i].loc] == args[i].exp && v'[args[i].loc] == args[i].neu)
            && forall loc :: loc in v && !HasLoc(args, loc) ==> v'[loc] == v[loc]
  {
    assert j < |run| && t < |run[j].threads|;
    hide Run, Called, Logical, Prepare, Distinct, IndexOf;
    CasnAnswer(run, a, j, t, args);
    p := DescSucceeded(run, j, t, 0);
    EffectOnArguments(args, Logical(run[p - 1].m));
  }

  /** One that returns false found an argument's location that held another than the expected value at a moment during the
      call, and its operation is not successful in any state of the run. */
  lemma FailureHadReason(run: seq<State>, a: nat, j: nat, t: nat, args: seq<Entry>) returns (p: nat, i: nat)
    requires Run(run) && Called(run, a, j, t, Casn(args)) && !InCall(run[j].threads[t])
    requires run[j].threads[t] != [] && run[j].threads[t][0].Returned? && !run[j].threads[t][0].ok
    ensures a <= p <= j && i < |args|
    ensures args[i].loc in run[p].m.words && Logical(run[p].m)[args[i].loc] != args[i].exp
    ensures DescOf(run[j].m, run[j].threads[t][0].d, args, a)
    ensures var d := run[j].threads[t][0].d;
            forall l :: 0 <= l < |run| && d < |run[l].m.descs| ==> !run[l].m.descs[d].status.Success?
  {
    assert j < |run| && t < |run[j].threads|;
    hide Run, Called, Logical, Prepare, Distinct, IndexOf;
    CasnAnswer(run, a, j, t, args);
    var k;
    p, k := DescFailed(run, j, t, 0);
    i := ArgumentOf(args, k);
  }

  // ---------- reads and single-word operations ----------

  /** A read returns a value that its location logically held at a moment during the call. */
  lemma ReadWasCurrent(run: seq<State>, a: nat, j: nat, t: nat, loc: nat) returns (p: nat)
    requires Run(run) && Called(run, a, j, t, ReadCall(loc)) && !InCall(run[j].threads[t])
    ensures a <= p <= j && loc in Logical(run[p].m)
    ensures run[j].threads[t] == [Value(loc, a, Logical(run[p].m)[loc])]
  {
    var b := DuringCall(run, a, j, t, ReadCall(loc));
    p := ValueWasHeld(run, j, t, 0);
  }

  /** A single-word operation returns true when it has swapped, in one step of its call, the expected value for the new
      one and changed no other location; it returns false when the location held another value at a moment during the
      call. */
  lemma SwapAnswer(run: seq<State>, a: nat, j: nat, t: nat, loc: nat, exp: nat, neu: nat) returns (b: nat)
    requires Run(run) && Called(run, a, j, t, Cas1(loc, exp, neu)) && !InCall(run[j].threads[t])
    ensures |run[j].threads[t]| == 1 && run[j].threads[t][0].Swapped?
    ensures a <= b <= j && loc in Logical(run[b].m)
    ensures if run[j].threads[t][0].ok then
              b < j && Logical(run[b].m)[loc] == exp && Logical(run[b + 1].m) == Logical(run[b].m)[loc := neu]
            else Logical(run[b].m)[loc] != exp
  {
    b := DuringCall(run, a, j, t, Cas1(loc, exp, neu));
  }

  lemma GoesOn(run: seq<State>, a: nat, i: nat, t: nat, c: Call)
    requires Called(run, a, i, t, c) && NotAgain(run, i, t)
    ensures Called(run, a, i + 1, t, c)
  {
  }

  /** Whoever has a result has made a call. */
  lemma {:induction false} ResultOfCall(run: seq<State>, j: nat, t: nat) returns (a: nat, c: Call)
    requires Run(run) && j < |run| && t < |run[j].threads| && run[j].threads[t] != []
    ensures Called(run, a, j, t, c)
  {
    RunStarts(run);
    assert j > 0;
    var i := j - 1;
    var u, e := RunStep(run, i);
    assert run[i + 1].threads == run[i].threads[u := run[i + 1].threads[u]];
    RunInv(run, i);
    hide Run, Called, Inv;
    if u == t && run[i].threads[t] == [] {
      a := i;
      c := Begun(run, i, t, e);
    } else {
      if u == t && !InCall(run[i].threads[t]) {
        ResultLeaves(run[i], run[j], t, e);
      }
      a, c := ResultOfCall(run, i, t);
      hide Step;
      GoesOn(run, a, i, t, c);
    }
  }

  lemma ResultLeaves(s: State, s': State, t: nat, e: Effect)
    requires Step(s, s', t, e) && IsResult(s.threads[t])
    ensures s'.threads[t] == []
  {
    hide Accesses, HelpStep, ReadStep, Blocked, Logical, Begins;
  }

  lemma Begun(run: seq<State>, i: nat, t: nat, e: Effect) returns (c: Call)
    requires i + 1 < |run| && Step(run[i], run[i + 1], t, e) && run[i].threads[t] == [] && run[i + 1].threads[t] != []
    requires |run[i].past| == i + 1
    ensures Called(run, i, i + 1, t, c)
  {
    c :| BeginsCall(run[i].m, i, c, e, run[i + 1].threads[t]);
    assert BeginsWith(run[i], run[i + 1], t, e, c);
  }
}

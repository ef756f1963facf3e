/** Non-blocking multi-word compare-and-swap as a machine of atomic steps.

    A location holds a plain value or a reference to a descriptor, in one of two kinds: a conditional claim (`Ccas`)
    that is only a proposal, and a full claim (`Mcas`) that stands for the old or the new value according to the
    descriptor's status. Any thread may help any descriptor, and helping nests, so each thread is a stack of calls. */
module Mcas {
  import opened McasDescriptor

  datatype Status = Undecided | Success | Failure

  datatype Word = Plain(v: nat) | Ccas(d: nat) | Mcas(d: nat)

  /** A descriptor, its entries in address order. `born` is the moment the call created it (history). */
  datatype Desc = Desc(es: seq<Entry>, status: Status, born: nat)

  /** Shared memory: the locations and the descriptors. */
  datatype Memory = Memory(words: map<nat, Word>, descs: seq<Desc>)

  /** Where a call of mcas_help is. `Claim(i)` is about to claim entry i, `TryCas(i)` to CAS its claim in; `Own` and
      `Alien` are ccas_help on the own descriptor and on one found in the way; `Release` removes full claims. */
  datatype HelpPc =
    | Enter
    | Claim(i: nat)
    | TryCas(i: nat)
    | OwnLoad(i: nat)
    | OwnCas(i: nat, undecided: bool)
    | AlienLoad(i: nat, a: nat)
    | AlienCas(i: nat, a: nat, undecided: bool)
    | Decide(outcome: Status)
    | Release(i: nat, outcome: Status)

  datatype ReadPc =
    | Load
    | HelpLoad(a: nat)
    | HelpCas(a: nat, undecided: bool)
    | StatusLoad(a: nat)
    | Verify(a: nat, v: nat)

  /** A call on a thread's stack. `since` is the moment a read began (history). `One` is the single-word operation, about
      to read or waiting for the read above it, `OneCas` its CAS. `Returned`, `Refused`, `Value` and `Swapped` are
      results; a value above a single-word operation is that operation's. */
  datatype Frame =
    | Help(d: nat, pc: HelpPc)
    | Read(loc: nat, since: nat, rpc: ReadPc)
    | One(loc: nat, exp: nat, neu: nat)
    | OneCas(loc: nat, exp: nat, neu: nat)
    | Returned(d: nat, ok: bool)
    | Refused
    | Swapped(loc: nat, exp: nat, neu: nat, ok: bool)
    | Value(loc: nat, since: nat, v: nat)

  type Values = map<nat, nat>

  /** `past` is the history of logical values, one entry for each moment so far. */
  datatype State = State(m: Memory, threads: seq<seq<Frame>>, past: seq<Values>)

  // ---------- logical values ----------

  /** Index of an address in a descriptor: the number of entries when it is absent. */
  function IndexOf(es: seq<Entry>, loc: nat): (i: nat)
    ensures i <= |es|
    ensures i < |es| ==> es[i].loc == loc
    ensures forall k :: 0 <= k < i ==> es[k].loc != loc
  {
    if es == [] || es[0].loc == loc then 0 else 1 + IndexOf(es[1..], loc)
  }

  predicate Owns(es: seq<Entry>, loc: nat) { IndexOf(es, loc) < |es| }

  function ValueOf(m: Memory, loc: nat): nat
    requires loc in m.words
  {
    match m.words[loc]
    case Plain(v) => v
    case Ccas(d) =>
      if d < |m.descs| && Owns(m.descs[d].es, loc) then m.descs[d].es[IndexOf(m.descs[d].es, loc)].exp else 0
    case Mcas(d) =>
      if d < |m.descs| && Owns(m.descs[d].es, loc) then
        var e := m.descs[d].es[IndexOf(m.descs[d].es, loc)];
        if m.descs[d].status.Success? then e.neu else e.exp
      else 0
  }

  /** The value every location logically holds. */
  function Logical(m: Memory): Values { map loc | loc in m.words :: ValueOf(m, loc) }

  /** Values after a successful operation. */
  function Apply(v: Values, es: seq<Entry>): Values {
    map loc | loc in v :: if Owns(es, loc) then es[IndexOf(es, loc)].neu else v[loc]
  }

  predicate Expected(v: Values, es: seq<Entry>) {
    forall i :: 0 <= i < |es| ==> es[i].loc in v && v[es[i].loc] == es[i].exp
  }

  // ---------- what a step does to memory ----------

  datatype Effect =
    | Nothing
    | Install(d: nat, i: nat)
    | Promote(d: nat, i: nat)
    | Rollback(d: nat, i: nat)
    | Finish(d: nat, i: nat, outcome: Status)
    | Resolve(d: nat, outcome: Status)
    | Swap(loc: nat, exp: nat, neu: nat)
    | Create(es: seq<Entry>, born: nat)

  predicate IsEntry(m: Memory, d: nat, i: nat) {
    d < |m.descs| && i < |m.descs[d].es| && m.descs[d].es[i].loc in m.words
  }

  function WordAt(m: Memory, d: nat, i: nat): Word
    requires IsEntry(m, d, i)
  {
    m.words[m.descs[d].es[i].loc]
  }

  function WithWord(m: Memory, d: nat, i: nat, w: Word): Memory
    requires IsEntry(m, d, i)
  {
    m.(words := m.words[m.descs[d].es[i].loc := w])
  }

  /** The memory access of a step: which word or status it finds, and what it stores. */
  predicate Accesses(m: Memory, m': Memory, e: Effect) {
    match e
    case Nothing => m' == m
    case Install(d, i) =>
      IsEntry(m, d, i) && WordAt(m, d, i) == Plain(m.descs[d].es[i].exp) && m' == WithWord(m, d, i, Ccas(d))
    case Promote(d, i) =>
      IsEntry(m, d, i) && WordAt(m, d, i) == Ccas(d) && m' == WithWord(m, d, i, Mcas(d))
    case Rollback(d, i) =>
      IsEntry(m, d, i) && WordAt(m, d, i) == Ccas(d) && m' == WithWord(m, d, i, Plain(m.descs[d].es[i].exp))
    case Finish(d, i, outcome) =>
      && IsEntry(m, d, i) && WordAt(m, d, i) == Mcas(d)
      && m' == WithWord(m, d, i, Plain(if outcome.Success? then m.descs[d].es[i].neu else m.descs[d].es[i].exp))
    case Resolve(d, outcome) =>
      && d < |m.descs| && m.descs[d].status.Undecided? && !outcome.Undecided?
      && m' == m.(descs := m.descs[d := m.descs[d].(status := outcome)])
    case Swap(loc, exp, neu) =>
      loc in m.words && m.words[loc] == Plain(exp) && m' == m.(words := m.words[loc := Plain(neu)])
    case Create(es, born) =>
      && Ascending(es) && (forall i :: 0 <= i < |es| ==> es[i].loc in m.words)
      && m' == m.(descs := m.descs + [Desc(es, Undecided, born)])
  }

  // ---------- the steps of mcas_help ----------

  /** Next control point after the word w was found at entry i instead of the expected value; a full claim of another
      operation is handled by a nested call. */
  predicate Found(m: Memory, d: nat, i: nat, w: Word, pc': HelpPc) {
    match w
    case Plain(_) => pc' == Decide(Failure)
    case Ccas(a) => pc' == AlienLoad(i, a)
    case Mcas(a) => a == d && pc' == Claim(i + 1)
  }

  /** One step of a call that neither starts a nested call nor returns. */
  predicate HelpStep(m: Memory, d: nat, pc: HelpPc, e: Effect, pc': HelpPc)
    requires d < |m.descs|
  {
    var n := |m.descs[d].es|;
    match pc
    case Enter =>
      e.Nothing? && pc' == (if m.descs[d].status.Undecided? then Claim(0) else Release(0, m.descs[d].status))
    case Claim(i) =>
      if i >= n then e.Nothing? && pc' == Decide(Success)
      else
        && IsEntry(m, d, i) && e.Nothing?
        && (pc' == TryCas(i)
            || (WordAt(m, d, i) != Plain(m.descs[d].es[i].exp) && Found(m, d, i, WordAt(m, d, i), pc')))
    case TryCas(i) =>
      && IsEntry(m, d, i)
      && if WordAt(m, d, i) == Plain(m.descs[d].es[i].exp) then e == Install(d, i) && pc' == OwnLoad(i)
         else e.Nothing? && Found(m, d, i, WordAt(m, d, i), pc')
    case OwnLoad(i) => e.Nothing? && pc' == OwnCas(i, m.descs[d].status.Undecided?)
    case OwnCas(i, undecided) => && IsEntry(m, d, i) && e == CcasHelp(m, d, i, undecided) && pc' == Claim(i + 1)
    case AlienLoad(i, a) => a < |m.descs| && e.Nothing? && pc' == AlienCas(i, a, m.descs[a].status.Undecided?)
    case AlienCas(i, a, undecided) =>
      && IsEntry(m, d, i) && a < |m.descs|
      && var j := IndexOf(m.descs[a].es, m.descs[d].es[i].loc);
         IsEntry(m, a, j) && e == CcasHelp(m, a, j, undecided) && pc' == Claim(i)
    case Decide(outcome) =>
      if m.descs[d].status.Undecided? then e == Resolve(d, outcome) && pc' == Release(0, outcome)
      else e.Nothing? && pc' == Release(0, m.descs[d].status)
    case Release(i, outcome) =>
      && IsEntry(m, d, i)
      && e == (if WordAt(m, d, i) == Mcas(d) then Finish(d, i, outcome) else Nothing)
      && pc' == Release(i + 1, outcome)
  }

  /** The CAS that ends ccas_help: a claim found is promoted or rolled back, according to the status loaded before. */
  function CcasHelp(m: Memory, d: nat, i: nat, undecided: bool): Effect
    requires IsEntry(m, d, i)
  {
    if WordAt(m, d, i) != Ccas(d) then Nothing else if undecided then Promote(d, i) else Rollback(d, i)
  }

  /** The descriptor in whose way a call is, when that needs a nested call. */
  predicate Blocked(m: Memory, d: nat, pc: HelpPc, a: nat) {
    && (pc.Claim? || pc.TryCas?) && IsEntry(m, d, pc.i)
    && WordAt(m, d, pc.i) == Mcas(a) && a != d && a < |m.descs|
  }

  predicate ReadStep(m: Memory, loc: nat, since: nat, pc: ReadPc, e: Effect, f': Frame) {
    match pc
    case Load =>
      && e.Nothing? && loc in m.words
      && (match m.words[loc]
          case Plain(v) => f' == Value(loc, since, v)
          case Ccas(a) => f' == Read(loc, since, HelpLoad(a))
          case Mcas(a) => f' == Read(loc, since, StatusLoad(a)))
    case HelpLoad(a) =>
      a < |m.descs| && e.Nothing? && f' == Read(loc, since, HelpCas(a, m.descs[a].status.Undecided?))
    case HelpCas(a, undecided) =>
      && a < |m.descs|
      && var j := IndexOf(m.descs[a].es, loc);
         IsEntry(m, a, j) && e == CcasHelp(m, a, j, undecided) && f' == Read(loc, since, Load)
    case StatusLoad(a) =>
      && a < |m.descs| && e.Nothing? && Owns(m.descs[a].es, loc)
      && var v := ChosenValue(m.descs[a], loc);
         (f' == Value(loc, since, v) || f' == Read(loc, since, Verify(a, v)))
    case Verify(a, v) =>
      && e.Nothing? && loc in m.words
      && f' == (if m.words[loc] == Mcas(a) then Value(loc, since, v) else Read(loc, since, Load))
  }

  // ---------- the machine ----------

  function Top(stack: seq<Frame>): Frame
    requires stack != []
  {
    stack[|stack| - 1]
  }

  function Pop(stack: seq<Frame>): seq<Frame>
    requires stack != []
  {
    stack[..|stack| - 1]
  }

  ghost predicate Init(s: State) {
    && s.m.descs == []
    && (forall loc :: loc in s.m.words ==> s.m.words[loc].Plain?)
    && (forall t :: 0 <= t < |s.threads| ==> s.threads[t] == [])
    && s.past == [Logical(s.m)]
  }

  /** What thread t does with the memory access e: its new stack. */
  ghost predicate Moves(m: Memory, m': Memory, now: nat, stack: seq<Frame>, e: Effect, stack': seq<Frame>) {
    || (stack == [] && Begins(m, now, e, stack'))
    || (stack != [] && var f := Top(stack);
                       || (f.Help? && f.d < |m.descs|
                           && exists pc' :: HelpStep(m, f.d, f.pc, e, pc') && stack' == Pop(stack) + [Help(f.d, pc')])
                       || (f.Help? && e.Nothing?
                           && exists a :: Blocked(m, f.d, f.pc, a)
                                          && stack' == Pop(stack) + [Help(f.d, Claim(f.pc.i)), Help(a, Enter)])
                       || (f.Help? && f.d < |m.descs| && f.pc.Release? && f.pc.i == |m.descs[f.d].es| && e.Nothing?
                           && stack' == if Pop(stack) == [] then [Returned(f.d, f.pc.outcome.Success?)] else Pop(stack))
                       || (f.Read? && exists f' :: ReadStep(m, f.loc, f.since, f.rpc, e, f') && stack' == Pop(stack) + [f'])
                       || (f.Read? && f.rpc.Load? && e.Nothing? && f.loc in m.words && m.words[f.loc].Mcas?
                           && stack' == stack + [Help(m.words[f.loc].d, Enter)])
                       || OneMoves(m, now, stack, e, stack')
                       || ((f.Returned? || f.Refused? || f.Swapped? || (f.Value? && Pop(stack) == []))
                           && e.Nothing? && stack' == []))
  }

  /** The single-word operation reads, helping whoever is in its way, and swaps when it finds the expected value; when
      something has come between, it reads again. */
  predicate OneMoves(m: Memory, now: nat, stack: seq<Frame>, e: Effect, stack': seq<Frame>)
    requires stack != []
  {
    match Top(stack)
    case One(loc, _, _) => e.Nothing? && stack' == stack + [Read(loc, now, Load)]
    case Value(_, _, v) =>
      && e.Nothing? && Pop(stack) != [] && Top(Pop(stack)).One?
      && var f := Top(Pop(stack));
         stack' == Pop(Pop(stack)) + [if v == f.exp then OneCas(f.loc, f.exp, f.neu)
                                      else Swapped(f.loc, f.exp, f.neu, false)]
    case OneCas(loc, exp, neu) =>
      if loc in m.words && m.words[loc] == Plain(exp) then
        e == Swap(loc, exp, neu) && stack' == Pop(stack) + [Swapped(loc, exp, neu, true)]
      else e.Nothing? && stack' == Pop(stack) + [One(loc, exp, neu)]
    case _ => false
  }

  datatype Call = Casn(args: seq<Entry>) | ReadCall(loc: nat) | Cas1(loc: nat, exp: nat, neu: nat)

  /** A thread calls an operation: casn fills a fresh descriptor, unless an address repeats; the others take their
      arguments. */
  predicate BeginsCall(m: Memory, now: nat, c: Call, e: Effect, stack': seq<Frame>) {
    match c
    case Casn(args) =>
      if Distinct(args) then e == Create(Prepare(args), now) && stack' == [Help(|m.descs|, Enter)]
      else e.Nothing? && stack' == [Refused]
    case ReadCall(loc) => loc in m.words && e.Nothing? && stack' == [Read(loc, now, Load)]
    case Cas1(loc, exp, neu) => loc in m.words && e.Nothing? && stack' == [One(loc, exp, neu)]
  }

  ghost predicate Begins(m: Memory, now: nat, e: Effect, stack': seq<Frame>) {
    exists c: Call :: BeginsCall(m, now, c, e, stack')
  }

  ghost predicate Step(s: State, s': State, t: nat, e: Effect) {
    && t < |s.threads| && |s.past| > 0
    && Accesses(s.m, s'.m, e)
    && |s'.threads| == |s.threads| && s'.threads == s.threads[t := s'.threads[t]]
    && Moves(s.m, s'.m, |s.past| - 1, s.threads[t], e, s'.threads[t])
    && s'.past == s.past + [Logical(s'.m)]
  }

  ghost predicate Next(s: State, s': State) { exists t: nat, e: Effect :: Step(s, s', t, e) }

  /** The condition under which the operation is atomic: no location changed by a successful operation later holds
      that operation's old value again. */
  ghost predicate NoRecurrence(m: Memory) {
    forall d, i :: 0 <= d < |m.descs| && 0 <= i < |m.descs[d].es| ==> NotBack(m, d, i)
  }

  ghost predicate NotBack(m: Memory, d: nat, i: nat)
    requires d < |m.descs| && i < |m.descs[d].es|
  {
    var en := m.descs[d].es[i];
    m.descs[d].status.Success? && en.exp != en.neu && en.loc in m.words ==> ValueOf(m, en.loc) != en.exp
  }

  ghost predicate Run(run: seq<State>) {
    && |run| > 0 && Init(run[0])
    && (forall i :: 0 <= i < |run| - 1 ==> Next(run[i], run[i + 1]))
    && (forall i :: 0 <= i < |run| ==> NoRecurrence(run[i].m))
  }

  // ---------- the invariant ----------

  predicate WordOk(m: Memory, loc: nat)
    requires loc in m.words
  {
    var w := m.words[loc];
    !w.Plain? ==> w.d < |m.descs| && Owns(m.descs[w.d].es, loc)
  }

  predicate DescOk(m: Memory, d: nat)
    requires d < |m.descs|
  {
    && Ascending(m.descs[d].es)
    && forall i :: 0 <= i < |m.descs[d].es| ==> m.descs[d].es[i].loc in m.words
  }

  /** The first i entries are fully claimed. */
  predicate Claimed(m: Memory, d: nat, i: nat) {
    d < |m.descs| && i <= |m.descs[d].es| && forall j :: 0 <= j < i ==> IsEntry(m, d, j) && WordAt(m, d, j) == Mcas(d)
  }

  /** An undecided operation claims in address order; a decided successful one leaves no harmful late proposal. */
  predicate EntryOk(m: Memory, d: nat, i: nat)
    requires IsEntry(m, d, i)
  {
    && (m.descs[d].status.Undecided? && (WordAt(m, d, i) == Ccas(d) || WordAt(m, d, i) == Mcas(d)) ==> Claimed(m, d, i))
    && (m.descs[d].status.Success? && WordAt(m, d, i) == Ccas(d) ==> m.descs[d].es[i].exp == m.descs[d].es[i].neu)
  }

  ghost predicate MemoryOk(m: Memory) {
    && (forall loc :: loc in m.words ==> WordOk(m, loc))
    && (forall d :: 0 <= d < |m.descs| ==> DescOk(m, d))
    && (forall d, i :: IsEntry(m, d, i) ==> EntryOk(m, d, i))
  }

  /** Some location of the descriptor differed from its expected value at a moment since the call began. */
  ghost predicate Differed(desc: Desc, past: seq<Values>) {
    exists k, i :: desc.born <= k < |past| && 0 <= i < |desc.es| && DiffersAt(desc.es[i], past[k])
  }

  predicate DiffersAt(e: Entry, v: Values) { e.loc in v && v[e.loc] != e.exp }

  /** At one moment since the call began all values were as expected, and at the next all were new. */
  ghost predicate TookEffect(desc: Desc, past: seq<Values>) {
    exists k :: desc.born < k < |past| && EffectAt(desc, past, k)
  }

  predicate EffectAt(desc: Desc, past: seq<Values>, k: nat)
    requires 0 < k < |past|
  {
    Expected(past[k - 1], desc.es) && past[k] == Apply(past[k - 1], desc.es)
  }

  ghost predicate OutcomeOk(desc: Desc, past: seq<Values>) {
    && desc.born < |past|
    && (desc.status.Failure? ==> Differed(desc, past))
    && (desc.status.Success? ==> TookEffect(desc, past))
  }

  /** The location logically held v at a moment since the call began. */
  ghost predicate Seen(past: seq<Values>, since: nat, loc: nat, v: nat) {
    exists k :: since <= k < |past| && HeldAt(past[k], loc, v)
  }

  predicate HeldAt(v: Values, loc: nat, x: nat) { loc in v && v[loc] == x }

  ghost predicate HelpOk(m: Memory, past: seq<Values>, d: nat, pc: HelpPc) {
    && d < |m.descs|
    && var desc := m.descs[d];
       var open := desc.status.Undecided?;
       match pc
       case Enter => true
       case Claim(i) => i <= |desc.es| && (open ==> Claimed(m, d, i))
       case TryCas(i) => IsEntry(m, d, i) && (open ==> Claimed(m, d, i))
       case OwnLoad(i) => IsEntry(m, d, i) && (open ==> Claimed(m, d, i) && OwnClaim(m, d, i))
       case OwnCas(i, undecided) =>
         IsEntry(m, d, i) && (open ==> undecided && Claimed(m, d, i) && OwnClaim(m, d, i))
       case AlienLoad(i, a) =>
         && IsEntry(m, d, i) && (open ==> Claimed(m, d, i))
         && a < |m.descs| && Owns(m.descs[a].es, desc.es[i].loc)
       case AlienCas(i, a, undecided) =>
         && IsEntry(m, d, i) && (open ==> Claimed(m, d, i))
         && a < |m.descs| && Owns(m.descs[a].es, desc.es[i].loc)
         && (m.descs[a].status.Undecided? ==> undecided)
       case Decide(outcome) =>
         && !outcome.Undecided?
         && (open && outcome.Success? ==> Claimed(m, d, |desc.es|))
         && (open && outcome.Failure? ==> Differed(desc, past))
       case Release(i, outcome) => i <= |desc.es| && !open && outcome == desc.status
  }

  predicate OwnClaim(m: Memory, d: nat, i: nat)
    requires IsEntry(m, d, i)
  {
    WordAt(m, d, i) == Ccas(d) || WordAt(m, d, i) == Mcas(d)
  }

  /** What a read that found a full claim returns for the location. */
  function ChosenValue(desc: Desc, loc: nat): nat
    requires Owns(desc.es, loc)
  {
    var e := desc.es[IndexOf(desc.es, loc)];
    if desc.status.Success? then e.neu else e.exp
  }

  ghost predicate ReadOk(m: Memory, past: seq<Values>, loc: nat, since: nat, pc: ReadPc) {
    && loc in m.words && since < |past|
    && match pc
       case Load => true
       case HelpLoad(a) => a < |m.descs| && Owns(m.descs[a].es, loc)
       case HelpCas(a, undecided) =>
         a < |m.descs| && Owns(m.descs[a].es, loc) && (m.descs[a].status.Undecided? ==> undecided)
       case StatusLoad(a) =>
         && a < |m.descs| && Owns(m.descs[a].es, loc)
         && (m.descs[a].status.Undecided? ==> m.words[loc] == Mcas(a))
         && Seen(past, since, loc, ChosenValue(m.descs[a], loc))
       case Verify(_, v) => Seen(past, since, loc, v)
  }

  ghost predicate FrameOk(m: Memory, past: seq<Values>, f: Frame) {
    match f
    case Help(d, pc) => HelpOk(m, past, d, pc)
    case Read(loc, since, rpc) => ReadOk(m, past, loc, since, rpc)
    case One(loc, _, _) => loc in m.words
    case OneCas(loc, _, _) => loc in m.words
    case Refused => true
    case Swapped(_, _, _, _) => true
    case Returned(d, ok) => d < |m.descs| && !m.descs[d].status.Undecided? && ok == m.descs[d].status.Success?
    case Value(loc, since, v) => Seen(past, since, loc, v)
  }

  ghost predicate FramesOk(m: Memory, past: seq<Values>, threads: seq<seq<Frame>>) {
    forall t, k :: 0 <= t < |threads| && 0 <= k < |threads[t]| ==> FrameOk(m, past, threads[t][k])
  }

  ghost predicate Inv(s: State) {
    && |s.past| > 0 && s.past[|s.past| - 1] == Logical(s.m)
    && MemoryOk(s.m)
    && (forall d :: 0 <= d < |s.m.descs| ==> OutcomeOk(s.m.descs[d], s.past))
    && FramesOk(s.m, s.past, s.threads)
  }
}

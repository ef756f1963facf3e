/** Every step of multi-word compare-and-swap keeps its invariant, and what follows for every run in which no location
    returns to a value that a successful operation replaced. */
module McasAtomicity {
  import opened McasDescriptor
  import opened Mcas

  lemma IndexUnique(es: seq<Entry>, i: nat)
    requires Ascending(es) && i < |es|
    ensures IndexOf(es, es[i].loc) == i
  {
  }

  /** What a step must know, besides what it finds in memory, for its access to be harmless. */
  ghost predicate Justified(m: Memory, past: seq<Values>, e: Effect) {
    match e
    case Install(d, i) =>
      && (d < |m.descs| && m.descs[d].status.Undecided? ==> Claimed(m, d, i))
      && (d < |m.descs| && i < |m.descs[d].es| && m.descs[d].status.Success? ==>
            m.descs[d].es[i].exp == m.descs[d].es[i].neu)
    case Finish(d, i, outcome) => d < |m.descs| && !outcome.Undecided? && m.descs[d].status == outcome
    case Rollback(d, i) => d < |m.descs| ==> !m.descs[d].status.Undecided?
    case Resolve(d, outcome) =>
      && d < |m.descs|
      && (outcome.Success? ==> Claimed(m, d, |m.descs[d].es|))
      && (outcome.Failure? ==> Differed(m.descs[d], past))
    case Create(_, born) => born == |past| - 1
    case _ => true
  }

  /** The logical values after an access: unchanged unless an operation succeeds. */
  function LogicalAfter(m: Memory, v: Values, e: Effect): Values {
    match e
    case Resolve(d, Success) => if d < |m.descs| then Apply(v, m.descs[d].es) else v
    case Swap(loc, _, neu) => v[loc := neu]
    case _ => v
  }

  // ---------- logical values ----------

  lemma WordChange(m: Memory, m': Memory, d: nat, i: nat, w: Word)
    requires MemoryOk(m) && IsEntry(m, d, i) && m' == WithWord(m, d, i, w)
    requires ValueOf(m', m.descs[d].es[i].loc) == ValueOf(m, m.descs[d].es[i].loc)
    ensures Logical(m') == Logical(m)
  {
    assert m'.words.Keys == m.words.Keys;
    forall loc | loc in m.words ensures ValueOf(m', loc) == ValueOf(m, loc) {
    }
  }

  lemma EntryValue(m: Memory, d: nat, i: nat)
    requires MemoryOk(m) && IsEntry(m, d, i)
    ensures IndexOf(m.descs[d].es, m.descs[d].es[i].loc) == i
    ensures WordAt(m, d, i) == Mcas(d) ==>
              ValueOf(m, m.descs[d].es[i].loc)
              == if m.descs[d].status.Success? then m.descs[d].es[i].neu else m.descs[d].es[i].exp
    ensures WordAt(m, d, i) == Ccas(d) ==> ValueOf(m, m.descs[d].es[i].loc) == m.descs[d].es[i].exp
  {
    assert DescOk(m, d);
    IndexUnique(m.descs[d].es, i);
  }

  lemma ResolveLogical(m: Memory, m': Memory, d: nat, outcome: Status)
    requires MemoryOk(m) && Accesses(m, m', Resolve(d, outcome))
    requires outcome.Success? ==> Claimed(m, d, |m.descs[d].es|)
    ensures Logical(m') == LogicalAfter(m, Logical(m), Resolve(d, outcome))
    ensures outcome.Success? ==> Expected(Logical(m), m.descs[d].es)
  {
    var es := m.descs[d].es;
    if outcome.Success? {
      ResolveExpected(m, d);
    }
    forall loc | loc in m.words
      ensures ValueOf(m', loc) == if outcome.Success? && Owns(es, loc) then es[IndexOf(es, loc)].neu else ValueOf(m, loc)
    {
      ResolveValue(m, m', d, outcome, loc);
    }
    hide MemoryOk, ValueOf, IndexOf, Expected;
  }

  lemma ResolveValue(m: Memory, m': Memory, d: nat, outcome: Status, loc: nat)
    requires MemoryOk(m) && Accesses(m, m', Resolve(d, outcome)) && loc in m.words
    requires outcome.Success? ==> Claimed(m, d, |m.descs[d].es|)
    ensures var es := m.descs[d].es;
            ValueOf(m', loc) == if outcome.Success? && Owns(es, loc) then es[IndexOf(es, loc)].neu else ValueOf(m, loc)
  {
    var es := m.descs[d].es;
    assert WordOk(m, loc);
    hide MemoryOk;
    if Owns(es, loc) && outcome.Success? {
      assert WordAt(m, d, IndexOf(es, loc)) == Mcas(d);
    }
  }

  lemma ResolveExpected(m: Memory, d: nat)
    requires MemoryOk(m) && d < |m.descs| && m.descs[d].status.Undecided? && Claimed(m, d, |m.descs[d].es|)
    ensures Expected(Logical(m), m.descs[d].es)
  {
    var es := m.descs[d].es;
    forall i | 0 <= i < |es| ensures es[i].loc in Logical(m) && Logical(m)[es[i].loc] == es[i].exp {
      assert IsEntry(m, d, i) && WordAt(m, d, i) == Mcas(d);
      EntryValue(m, d, i);
    }
  }

  lemma CreateLogical(m: Memory, m': Memory, es: seq<Entry>, born: nat)
    requires MemoryOk(m) && Accesses(m, m', Create(es, born))
    ensures Logical(m') == Logical(m)
  {
    forall loc | loc in m.words ensures ValueOf(m', loc) == ValueOf(m, loc) {
      assert WordOk(m, loc);
    }
  }

  /** Only a successful decision and a successful single-word CAS change a logical value; a decision changes all the
      locations of the operation together, from their expected values. */
  lemma LogicalEffect(m: Memory, m': Memory, past: seq<Values>, e: Effect)
    requires MemoryOk(m) && Accesses(m, m', e) && Justified(m, past, e)
    ensures Logical(m') == LogicalAfter(m, Logical(m), e)
    ensures e.Resolve? && e.outcome.Success? ==> Expected(Logical(m), m.descs[e.d].es)
  {
    match e
    case Nothing =>
    case Install(d, i) =>
      EntryValueAfter(m, m', d, i, Ccas(d));
      WordChange(m, m', d, i, Ccas(d));
    case Promote(d, i) =>
      EntryValue(m, d, i);
      assert EntryOk(m, d, i);
      EntryValueAfter(m, m', d, i, Mcas(d));
      WordChange(m, m', d, i, Mcas(d));
    case Rollback(d, i) =>
      EntryValue(m, d, i);
      WordChange(m, m', d, i, Plain(m.descs[d].es[i].exp));
    case Finish(d, i, _) =>
      EntryValue(m, d, i);
      WordChange(m, m', d, i, m'.words[m.descs[d].es[i].loc]);
    case Resolve(d, outcome) =>
      ResolveLogical(m, m', d, outcome);
    case Swap(loc, exp, neu) =>
      forall l | l in m.words && l != loc ensures ValueOf(m', l) == ValueOf(m, l) {
      }
      assert Logical(m') == Logical(m)[loc := neu];
    case Create(es, born) =>
      CreateLogical(m, m', es, born);
  }

  lemma EntryValueAfter(m: Memory, m': Memory, d: nat, i: nat, w: Word)
    requires MemoryOk(m) && IsEntry(m, d, i) && m' == WithWord(m, d, i, w)
    ensures w == Ccas(d) ==> ValueOf(m', m.descs[d].es[i].loc) == m.descs[d].es[i].exp
    ensures w == Mcas(d) ==>
              ValueOf(m', m.descs[d].es[i].loc)
              == if m.descs[d].status.Success? then m.descs[d].es[i].neu else m.descs[d].es[i].exp
  {
    assert DescOk(m, d);
    IndexUnique(m.descs[d].es, i);
  }

  // ---------- the shape of memory ----------

  /** Undecided claims stay: an access leaves every full claim of an undecided operation in place. */
  lemma ClaimedStays(m: Memory, m': Memory, past: seq<Values>, e: Effect, d: nat, i: nat)
    requires MemoryOk(m) && Accesses(m, m', e) && Justified(m, past, e) && Claimed(m, d, i)
    requires m.descs[d].status.Undecided?
    ensures Claimed(m', d, i)
  {
    forall j | 0 <= j < i ensures IsEntry(m', d, j) && WordAt(m', d, j) == Mcas(d) {
      assert IsEntry(m, d, j) && WordAt(m, d, j) == Mcas(d);
    }
  }

  lemma WordsKept(m: Memory, m': Memory, past: seq<Values>, e: Effect)
    requires MemoryOk(m) && Accesses(m, m', e) && Justified(m, past, e)
    ensures m'.words.Keys == m.words.Keys && |m.descs| <= |m'.descs|
    ensures forall d :: 0 <= d < |m.descs| ==> m'.descs[d].es == m.descs[d].es && m'.descs[d].born == m.descs[d].born
    ensures forall d :: 0 <= d < |m.descs| && !m.descs[d].status.Undecided? ==> m'.descs[d] == m.descs[d]
    ensures forall d :: 0 <= d < |m'.descs| ==> DescOk(m', d)
  {
    forall d | 0 <= d < |m'.descs| ensures DescOk(m', d) {
      if d < |m.descs| {
        assert DescOk(m, d);
      }
    }
  }

  lemma WordOkKept(m: Memory, m': Memory, past: seq<Values>, e: Effect, loc: nat)
    requires MemoryOk(m) && Accesses(m, m', e) && Justified(m, past, e) && loc in m.words
    ensures loc in m'.words && WordOk(m', loc)
  {
    assert WordOk(m, loc);
    match e
    case Install(d, i) => EntryValue(m, d, i);
    case Promote(d, i) => EntryValue(m, d, i);
    case _ =>
  }

  lemma EntryKept(m: Memory, m': Memory, past: seq<Values>, e: Effect, d: nat, i: nat)
    requires MemoryOk(m) && Accesses(m, m', e) && Justified(m, past, e)
    requires IsEntry(m', d, i)
    ensures EntryOk(m', d, i)
  {
    WordsKept(m, m', past, e);
    if d < |m.descs| {
      assert EntryOk(m, d, i);
      assert DescOk(m, d);
      EntryWord(m, m', past, e, d, i);
      if m'.descs[d].status.Undecided? && OwnClaim(m', d, i) {
        assert Claimed(m, d, i);
        ClaimedStays(m, m', past, e, d, i);
      }
    } else {
      assert e.Create? && m'.words[m'.descs[d].es[i].loc] == m.words[m'.descs[d].es[i].loc];
      assert WordOk(m, m'.descs[d].es[i].loc);
    }
  }

  /** A claim at an entry is one that was there before, or the one just installed or promoted. */
  lemma EntryWord(m: Memory, m': Memory, past: seq<Values>, e: Effect, d: nat, i: nat)
    requires MemoryOk(m) && Accesses(m, m', e) && Justified(m, past, e)
    requires IsEntry(m, d, i) && IsEntry(m', d, i) && m'.descs[d].es == m.descs[d].es
    ensures OwnClaim(m', d, i) ==> OwnClaim(m, d, i) || e == Install(d, i)
    ensures WordAt(m', d, i) == Ccas(d) ==> WordAt(m, d, i) == Ccas(d) || e == Install(d, i)
    ensures e.Resolve? && e.d == d && e.outcome.Success? ==> WordAt(m', d, i) == Mcas(d)
  {
    match e
    case Install(d2, i2) =>
      if d2 == d {
        EntryValue(m, d, i);
        EntryValue(m, d, i2);
      }
    case Promote(d2, i2) =>
      if d2 == d {
        EntryValue(m, d, i);
        EntryValue(m, d, i2);
      }
    case Resolve(d2, outcome) =>
      if d2 == d && outcome.Success? {
        assert IsEntry(m, d, i) && WordAt(m, d, i) == Mcas(d);
      }
    case _ =>
  }

  lemma MemoryKept(m: Memory, m': Memory, past: seq<Values>, e: Effect)
    requires MemoryOk(m) && Accesses(m, m', e) && Justified(m, past, e)
    ensures MemoryOk(m')
  {
    WordsKept(m, m', past, e);
    hide MemoryOk, EntryOk, WordOk, DescOk, Accesses, Justified;
    forall loc | loc in m'.words ensures WordOk(m', loc) {
      WordOkKept(m, m', past, e, loc);
    }
    forall d, i | IsEntry(m', d, i) ensures EntryOk(m', d, i) {
      EntryKept(m, m', past, e, d, i);
    }
    MemoryFromParts(m');
  }

  lemma MemoryFromParts(m: Memory)
    requires forall loc :: loc in m.words ==> WordOk(m, loc)
    requires forall d :: 0 <= d < |m.descs| ==> DescOk(m, d)
    requires forall d, i :: IsEntry(m, d, i) ==> EntryOk(m, d, i)
    ensures MemoryOk(m)
  {
  }

  // ---------- history ----------

  lemma DifferedGrows(desc: Desc, desc': Desc, past: seq<Values>, past': seq<Values>)
    requires Differed(desc, past) && desc'.es == desc.es && desc'.born == desc.born && past <= past'
    ensures Differed(desc', past')
  {
    var k, i :| desc.born <= k < |past| && 0 <= i < |desc.es| && DiffersAt(desc.es[i], past[k]);
    assert DiffersAt(desc'.es[i], past'[k]);
  }

  lemma TookEffectGrows(desc: Desc, past: seq<Values>, past': seq<Values>)
    requires TookEffect(desc, past) && past <= past'
    ensures TookEffect(desc, past')
  {
    var k :| desc.born < k < |past| && EffectAt(desc, past, k);
    assert EffectAt(desc, past', k);
  }

  lemma SeenGrows(past: seq<Values>, past': seq<Values>, since: nat, loc: nat, v: nat)
    requires Seen(past, since, loc, v) && past <= past'
    ensures Seen(past', since, loc, v)
  {
    var k :| since <= k < |past| && HeldAt(past[k], loc, v);
    assert HeldAt(past'[k], loc, v);
  }

  lemma SeenNow(past: seq<Values>, since: nat, loc: nat)
    requires since < |past| && loc in past[|past| - 1]
    ensures Seen(past, since, loc, past[|past| - 1][loc])
  {
    assert HeldAt(past[|past| - 1], loc, past[|past| - 1][loc]);
  }

  /** History goes on with the values after the step. */
  ghost predicate Ticks(m: Memory, m': Memory, past: seq<Values>, past': seq<Values>) {
    |past| > 0 && past[|past| - 1] == Logical(m) && past' == past + [Logical(m')]
  }

  lemma OutcomeKept(m: Memory, m': Memory, past: seq<Values>, past': seq<Values>, e: Effect, d: nat)
    requires MemoryOk(m) && Accesses(m, m', e) && Justified(m, past, e) && Ticks(m, m', past, past')
    requires d < |m'.descs|
    requires d < |m.descs| ==> OutcomeOk(m.descs[d], past)
    ensures OutcomeOk(m'.descs[d], past')
  {
    if e.Resolve? && e.d == d {
      LogicalEffect(m, m', past, e);
      if e.outcome.Success? {
        assert EffectAt(m'.descs[d], past', |past|);
      } else {
        DifferedGrows(m.descs[d], m'.descs[d], past, past');
      }
    } else if d < |m.descs| {
      assert m'.descs[d] == m.descs[d];
      if m.descs[d].status.Failure? {
        DifferedGrows(m.descs[d], m'.descs[d], past, past');
      } else if m.descs[d].status.Success? {
        TookEffectGrows(m.descs[d], past, past');
      }
    }
  }

  // ---------- calls in progress ----------

  lemma OwnClaimStays(m: Memory, m': Memory, past: seq<Values>, e: Effect, d: nat, i: nat)
    requires MemoryOk(m) && Accesses(m, m', e) && Justified(m, past, e)
    requires IsEntry(m, d, i) && OwnClaim(m, d, i) && m.descs[d].status.Undecided?
    ensures IsEntry(m', d, i) && OwnClaim(m', d, i)
  {
    match e
    case Promote(d2, i2) =>
      if d2 == d {
        EntryValue(m, d, i);
        EntryValue(m, d, i2);
      }
    case _ =>
  }

  lemma HelpKept(m: Memory, m': Memory, past: seq<Values>, past': seq<Values>, e: Effect, d: nat, pc: HelpPc)
    requires MemoryOk(m) && Accesses(m, m', e) && Justified(m, past, e) && Ticks(m, m', past, past')
    requires HelpOk(m, past, d, pc)
    ensures HelpOk(m', past', d, pc)
  {
    WordsKept(m, m', past, e);
    var desc := m.descs[d];
    if m'.descs[d].status.Undecided? {
      assert desc.status.Undecided?;
      var i := if pc.Decide? && pc.outcome.Success? then |desc.es|
               else if pc.Enter? || pc.Decide? || pc.Release? then 0 else pc.i;
      assert Claimed(m, d, i);
      ClaimedStays(m, m', past, e, d, i);
      if pc.OwnLoad? || pc.OwnCas? {
        OwnClaimStays(m, m', past, e, d, i);
      } else if pc.Decide? && pc.outcome.Failure? {
        DifferedGrows(desc, m'.descs[d], past, past');
      }
    }
  }

  lemma ReadKept(m: Memory, m': Memory, past: seq<Values>, past': seq<Values>, e: Effect,
                 loc: nat, since: nat, pc: ReadPc)
    requires MemoryOk(m) && Accesses(m, m', e) && Justified(m, past, e) && Ticks(m, m', past, past')
    requires ReadOk(m, past, loc, since, pc)
    ensures ReadOk(m', past', loc, since, pc)
  {
    WordsKept(m, m', past, e);
    match pc
    case StatusLoad(a) =>
      StatusLoadKept(m, m', past, past', e, loc, since, a);
    case Verify(_, v) =>
      SeenGrows(past, past', since, loc, v);
    case _ =>
  }

  /** If the operation found succeeds meanwhile, its new value becomes current, so the value chosen was seen. */
  lemma StatusLoadKept(m: Memory, m': Memory, past: seq<Values>, past': seq<Values>, e: Effect,
                       loc: nat, since: nat, a: nat)
    requires MemoryOk(m) && Accesses(m, m', e) && Justified(m, past, e) && Ticks(m, m', past, past')
    requires ReadOk(m, past, loc, since, StatusLoad(a))
    ensures ReadOk(m', past', loc, since, StatusLoad(a))
  {
    WordsKept(m, m', past, e);
    SeenGrows(past, past', since, loc, ChosenValue(m.descs[a], loc));
    var i := IndexOf(m.descs[a].es, loc);
    if m.descs[a].status.Undecided? {
      if m'.descs[a].status.Success? {
        assert m'.words[loc] == Mcas(a);
        assert ValueOf(m', loc) == ChosenValue(m'.descs[a], loc);
        SeenNow(past', since, loc);
      } else if m'.descs[a].status.Undecided? {
        assert m.words[loc] == Mcas(a);
        assert m'.words[loc] == Mcas(a);
      }
    }
  }

  lemma FrameKept(m: Memory, m': Memory, past: seq<Values>, past': seq<Values>, e: Effect, f: Frame)
    requires MemoryOk(m) && Accesses(m, m', e) && Justified(m, past, e) && Ticks(m, m', past, past')
    requires FrameOk(m, past, f)
    ensures FrameOk(m', past', f)
  {
    match f
    case Help(d, pc) => HelpKept(m, m', past, past', e, d, pc);
    case Read(loc, since, pc) => ReadKept(m, m', past, past', e, loc, since, pc);
    case Value(loc, since, v) => SeenGrows(past, past', since, loc, v);
    case _ => WordsKept(m, m', past, e);
  }

  // ---------- the step of the running call ----------

  lemma HelpJustified(m: Memory, past: seq<Values>, d: nat, pc: HelpPc, e: Effect, pc': HelpPc)
    requires MemoryOk(m) && NoRecurrence(m) && |past| > 0
    requires HelpOk(m, past, d, pc) && HelpStep(m, d, pc, e, pc')
    ensures Justified(m, past, e)
  {
    match pc
    case TryCas(i) =>
      assert NotBack(m, d, i);
    case OwnCas(i, undecided) =>
      assert e == CcasHelp(m, d, i, undecided);
    case AlienCas(i, a, undecided) =>
      assert e == CcasHelp(m, a, IndexOf(m.descs[a].es, m.descs[d].es[i].loc), undecided);
    case _ =>
  }

  /** What a call learns from the word in its way. */
  lemma FoundOk(m: Memory, past: seq<Values>, d: nat, i: nat, pc': HelpPc)
    requires MemoryOk(m) && IsEntry(m, d, i) && (m.descs[d].status.Undecided? ==> Claimed(m, d, i))
    requires |past| > 0 && past[|past| - 1] == Logical(m) && m.descs[d].born < |past|
    requires WordAt(m, d, i) != Plain(m.descs[d].es[i].exp) && Found(m, d, i, WordAt(m, d, i), pc')
    ensures HelpOk(m, past, d, pc')
  {
    var loc := m.descs[d].es[i].loc;
    assert WordOk(m, loc);
    if m.words[loc].Plain? {
      assert DiffersAt(m.descs[d].es[i], past[|past| - 1]);
    }
  }

  lemma HelpStepOk(m: Memory, m': Memory, past: seq<Values>, past': seq<Values>, d: nat, pc: HelpPc, e: Effect,
                   pc': HelpPc)
    requires MemoryOk(m) && NoRecurrence(m) && Ticks(m, m', past, past')
    requires HelpOk(m, past, d, pc) && OutcomeOk(m.descs[d], past)
    requires HelpStep(m, d, pc, e, pc') && Accesses(m, m', e)
    ensures Justified(m, past, e) && HelpOk(m', past', d, pc')
  {
    HelpJustified(m, past, d, pc, e, pc');
    if e.Nothing? {
      HelpLocalStep(m, past, d, pc, pc');
      HelpKept(m, m, past, past', Nothing, d, pc');
    } else {
      HelpAccessStep(m, m', past, past', d, pc, e, pc');
    }
  }

  lemma HelpLocalStep(m: Memory, past: seq<Values>, d: nat, pc: HelpPc, pc': HelpPc)
    requires MemoryOk(m) && |past| > 0 && past[|past| - 1] == Logical(m)
    requires HelpOk(m, past, d, pc) && OutcomeOk(m.descs[d], past)
    requires HelpStep(m, d, pc, Nothing, pc')
    ensures HelpOk(m, past, d, pc')
  {
    assert DescOk(m, d);
    match pc
    case Claim(i) =>
      if i < |m.descs[d].es| && pc' != TryCas(i) {
        FoundOk(m, past, d, i, pc');
      }
    case TryCas(i) =>
      FoundOk(m, past, d, i, pc');
    case OwnCas(i, undecided) =>
      if m.descs[d].status.Undecided? {
        assert WordAt(m, d, i) == Mcas(d);
        assert Claimed(m, d, i + 1);
      }
    case _ =>
  }

  lemma HelpAccessStep(m: Memory, m': Memory, past: seq<Values>, past': seq<Values>, d: nat, pc: HelpPc, e: Effect,
                       pc': HelpPc)
    requires MemoryOk(m) && Ticks(m, m', past, past') && Justified(m, past, e) && !e.Nothing?
    requires HelpOk(m, past, d, pc)
    requires HelpStep(m, d, pc, e, pc') && Accesses(m, m', e)
    ensures HelpOk(m', past', d, pc')
  {
    WordsKept(m, m', past, e);
    assert DescOk(m, d);
    if m'.descs[d].status.Undecided? {
      var i := pc.i;
      ClaimedStays(m, m', past, e, d, i);
      if pc.OwnCas? {
        assert WordAt(m', d, i) == Mcas(d);
        assert Claimed(m', d, i + 1);
      }
    }
  }

  lemma ReadStepOk(m: Memory, m': Memory, past: seq<Values>, past': seq<Values>, loc: nat, since: nat, pc: ReadPc,
                   e: Effect, f': Frame)
    requires MemoryOk(m) && Ticks(m, m', past, past')
    requires ReadOk(m, past, loc, since, pc) && ReadStep(m, loc, since, pc, e, f') && Accesses(m, m', e)
    ensures Justified(m, past, e) && FrameOk(m', past', f')
  {
    match pc
    case Load =>
      assert WordOk(m, loc);
      SeenNow(past', since, loc);
      assert past'[|past'| - 1] == Logical(m);
    case HelpLoad(a) =>
    case HelpCas(a, undecided) =>
      var j := IndexOf(m.descs[a].es, loc);
      assert e == CcasHelp(m, a, j, undecided);
      WordsKept(m, m', past, e);
    case StatusLoad(a) =>
      SeenGrows(past, past', since, loc, ChosenValue(m.descs[a], loc));
    case Verify(a, v) =>
      SeenGrows(past, past', since, loc, v);
  }

  /** The new top of the stack is in order; frames below it are as before. */
  lemma MoveOk(s: State, s': State, t: nat, e: Effect)
    requires Inv(s) && NoRecurrence(s.m) && Step(s, s', t, e)
    ensures Justified(s.m, s.past, e)
    ensures forall k :: 0 <= k < |s'.threads[t]| ==> FrameOk(s'.m, s'.past, s'.threads[t][k])
  {
    var stack, stack' := s.threads[t], s'.threads[t];
    if stack == [] {
      BeginOk(s, s', e, stack');
    } else {
      var f := Top(stack);
      assert f == stack[|stack| - 1];
      assert FrameOk(s.m, s.past, f);
      var below := Pop(stack);
      TopMoves(s, s', t, e, f);
      forall k | 0 <= k < |below| ensures FrameOk(s'.m, s'.past, below[k]) {
        assert FrameOk(s.m, s.past, stack[k]);
        FrameKept(s.m, s'.m, s.past, s'.past, e, stack[k]);
      }
    }
  }

  lemma BeginOk(s: State, s': State, e: Effect, stack': seq<Frame>)
    requires Inv(s) && Accesses(s.m, s'.m, e) && Ticks(s.m, s'.m, s.past, s'.past)
    requires Begins(s.m, |s.past| - 1, e, stack')
    ensures Justified(s.m, s.past, e)
    ensures forall k :: 0 <= k < |stack'| ==> FrameOk(s'.m, s'.past, stack'[k])
  {
  }

  /** The frames that a move puts in place of the top one. */
  ghost predicate Replaces(s: State, s': State, t: nat, tops: seq<Frame>)
    requires t < |s.threads| && t < |s'.threads| && s.threads[t] != []
  {
    && (s'.threads[t] == Pop(s.threads[t]) + tops || s'.threads[t] == tops
        || (Pop(s.threads[t]) != [] && s'.threads[t] == Pop(Pop(s.threads[t])) + tops))
    && forall k :: 0 <= k < |tops| ==> FrameOk(s'.m, s'.past, tops[k])
  }

  lemma NestedCallOk(m: Memory, m': Memory, past: seq<Values>, past': seq<Values>, d: nat, pc: HelpPc, a: nat)
    requires MemoryOk(m) && Ticks(m, m', past, past') && Accesses(m, m', Nothing)
    requires HelpOk(m, past, d, pc) && Blocked(m, d, pc, a)
    ensures FrameOk(m', past', Help(d, Claim(pc.i))) && FrameOk(m', past', Help(a, Enter))
  {
    HelpKept(m, m', past, past', Nothing, d, Claim(pc.i));
  }

  lemma ReturnOk(m: Memory, m': Memory, past: seq<Values>, past': seq<Values>, d: nat, pc: HelpPc)
    requires Ticks(m, m', past, past') && Accesses(m, m', Nothing)
    requires HelpOk(m, past, d, pc) && pc.Release?
    ensures FrameOk(m', past', Returned(d, pc.outcome.Success?))
  {
  }

  lemma ReadHelpsOk(m: Memory, m': Memory, past: seq<Values>, past': seq<Values>, f: Frame)
    requires MemoryOk(m) && Ticks(m, m', past, past') && Accesses(m, m', Nothing)
    requires f.Read? && FrameOk(m, past, f) && m.words[f.loc].Mcas?
    ensures FrameOk(m', past', f) && FrameOk(m', past', Help(m.words[f.loc].d, Enter))
  {
    assert WordOk(m, f.loc);
    FrameKept(m, m', past, past', Nothing, f);
  }

  lemma NothingJustified(m: Memory, past: seq<Values>)
    ensures Justified(m, past, Nothing)
  {
  }

  lemma TopMoves(s: State, s': State, t: nat, e: Effect, f: Frame)
    requires Inv(s) && NoRecurrence(s.m) && Step(s, s', t, e) && s.threads[t] != [] && f == Top(s.threads[t])
    requires FrameOk(s.m, s.past, f)
    ensures Justified(s.m, s.past, e)
    ensures exists tops :: Replaces(s, s', t, tops)
  {
    if f.Help? {
      HelpMoves(s, s', t, e, f);
    } else if f.Read? {
      ReadMoves(s, s', t, e, f);
    } else {
      hide MemoryOk, NoRecurrence, Accesses, OutcomeOk, Logical, FrameOk;
      OtherJustified(s.m, s.past, f, e);
      if OneMoves(s.m, |s.past| - 1, s.threads[t], e, s'.threads[t]) {
        SingleMoves(s, s', t, e, f);
      } else {
        assert Replaces(s, s', t, []);
      }
    }
  }

  lemma SingleMoves(s: State, s': State, t: nat, e: Effect, f: Frame)
    requires Inv(s) && Step(s, s', t, e) && s.threads[t] != [] && f == Top(s.threads[t]) && FrameOk(s.m, s.past, f)
    requires OneMoves(s.m, |s.past| - 1, s.threads[t], e, s'.threads[t])
    ensures exists tops :: Replaces(s, s', t, tops)
  {
    hide MemoryOk, NoRecurrence, OutcomeOk, Logical;
    var stack, stack' := s.threads[t], s'.threads[t];
    assert s'.m.words.Keys == s.m.words.Keys;
    if f.One? {
      assert stack' == Pop(stack) + [f, Read(f.loc, |s.past| - 1, Load)];
      assert Replaces(s, s', t, [f, Read(f.loc, |s.past| - 1, Load)]);
    } else {
      if f.Value? {
        assert FrameOk(s.m, s.past, stack[|stack| - 2]);
      }
      assert Replaces(s, s', t, [Top(stack')]);
    }
  }

  lemma HelpMoves(s: State, s': State, t: nat, e: Effect, f: Frame)
    requires Inv(s) && NoRecurrence(s.m) && Step(s, s', t, e) && s.threads[t] != [] && f == Top(s.threads[t])
    requires f.Help? && HelpOk(s.m, s.past, f.d, f.pc)
    ensures Justified(s.m, s.past, e)
    ensures exists tops :: Replaces(s, s', t, tops)
  {
    assert f.d < |s.m.descs|;
    hide MemoryOk, NoRecurrence, HelpStep, Accesses, OutcomeOk, HelpOk, Justified, Logical;
    var m, m', past, past', stack' := s.m, s'.m, s.past, s'.past, s'.threads[t];
    var below := Pop(s.threads[t]);
    NothingJustified(m, past);
    if pc' :| HelpStep(m, f.d, f.pc, e, pc') && stack' == below + [Help(f.d, pc')] {
      HelpStepOk(m, m', past, past', f.d, f.pc, e, pc');
      assert Replaces(s, s', t, [Help(f.d, pc')]);
    } else if a :| Blocked(m, f.d, f.pc, a) && stack' == below + [Help(f.d, Claim(f.pc.i)), Help(a, Enter)] && e.Nothing? {
      NestedCallOk(m, m', past, past', f.d, f.pc, a);
      assert Replaces(s, s', t, [Help(f.d, Claim(f.pc.i)), Help(a, Enter)]);
    } else if below == [] {
      ReturnOk(m, m', past, past', f.d, f.pc);
      assert Replaces(s, s', t, [Returned(f.d, f.pc.outcome.Success?)]);
    } else {
      assert Replaces(s, s', t, []);
    }
  }

  lemma ReadMoves(s: State, s': State, t: nat, e: Effect, f: Frame)
    requires Inv(s) && Step(s, s', t, e) && s.threads[t] != [] && f == Top(s.threads[t])
    requires f.Read? && ReadOk(s.m, s.past, f.loc, f.since, f.rpc)
    ensures Justified(s.m, s.past, e)
    ensures exists tops :: Replaces(s, s', t, tops)
  {
    hide MemoryOk, ReadStep, Accesses, OutcomeOk, ReadOk, Justified, Logical;
    var m, m', past, past', stack' := s.m, s'.m, s.past, s'.past, s'.threads[t];
    var below := Pop(s.threads[t]);
    NothingJustified(m, past);
    if f' :| ReadStep(m, f.loc, f.since, f.rpc, e, f') && stack' == below + [f'] {
      ReadStepOk(m, m', past, past', f.loc, f.since, f.rpc, e, f');
      assert Replaces(s, s', t, [f']);
    } else {
      ReadHelpsOk(m, m', past, past', f);
      assert stack' == below + [f, Help(m.words[f.loc].d, Enter)];
      assert Replaces(s, s', t, [f, Help(m.words[f.loc].d, Enter)]);
    }
  }

  lemma OtherJustified(m: Memory, past: seq<Values>, f: Frame, e: Effect)
    requires e.Nothing? || e.Swap?
    ensures Justified(m, past, e)
  {
  }

  /** One step of any thread keeps the invariant. */
  lemma StepKeepsInv(s: State, s': State, t: nat, e: Effect)
    requires Inv(s) && NoRecurrence(s.m) && Step(s, s', t, e)
    ensures Justified(s.m, s.past, e) && Inv(s')
  {
    MoveOk(s, s', t, e);
    MemoryKept(s.m, s'.m, s.past, e);
    forall d | 0 <= d < |s'.m.descs| ensures OutcomeOk(s'.m.descs[d], s'.past) {
      OutcomeKept(s.m, s'.m, s.past, s'.past, e, d);
    }
    forall u, k | 0 <= u < |s'.threads| && 0 <= k < |s'.threads[u]| ensures FrameOk(s'.m, s'.past, s'.threads[u][k]) {
      if u != t {
        assert FrameOk(s.m, s.past, s.threads[u][k]);
        FrameKept(s.m, s'.m, s.past, s'.past, e, s.threads[u][k]);
      }
    }
  }

  lemma InitInv(s: State)
    requires Init(s)
    ensures Inv(s)
  {
  }

  lemma {:induction false} RunInv(run: seq<State>, j: nat)
    requires Run(run) && j < |run|
    ensures Inv(run[j]) && |run[j].past| == j + 1
    ensures forall k :: 0 <= k <= j ==> run[j].past[k] == Logical(run[k].m)
  {
    hide Run, Inv, Init, Step, NoRecurrence, Logical;
    RunStarts(run);
    if j == 0 {
      InitInv(run[0]);
      InitPast(run[0]);
    } else {
      RunInv(run, j - 1);
      var t, e := RunStep(run, j - 1);
      StepKeepsInv(run[j - 1], run[j], t, e);
      StepPast(run[j - 1], run[j], t, e);
    }
  }

  lemma RunStarts(run: seq<State>)
    requires Run(run)
    ensures |run| > 0 && Init(run[0])
  {
  }

  lemma RunStep(run: seq<State>, j: nat) returns (t: nat, e: Effect)
    requires Run(run) && j + 1 < |run|
    ensures Step(run[j], run[j + 1], t, e) && NoRecurrence(run[j].m)
  {
    hide Init, Step, NoRecurrence;
    assert Next(run[j], run[j + 1]);
    t, e :| Step(run[j], run[j + 1], t, e);
  }

  lemma InitPast(s: State)
    requires Init(s)
    ensures s.past == [Logical(s.m)]
  {
  }

  lemma StepPast(s: State, s': State, t: nat, e: Effect)
    requires Step(s, s', t, e)
    ensures s'.past == s.past + [Logical(s'.m)]
  {
  }

  // ---------- the properties ----------

  /** Thread t is in a single-word CAS that succeeds in this step. */
  predicate SingleCas(s: State, s': State, t: nat) {
    && t < |s.threads| && s.threads[t] != [] && Top(s.threads[t]).OneCas?
    && var f := Top(s.threads[t]);
       && f.loc in s.m.words && Logical(s.m)[f.loc] == f.exp
       && Logical(s'.m) == Logical(s.m)[f.loc := f.neu]
  }

  /** In every step of every run: an operation that becomes successful changes all its locations at once, from the
      expected to the new values, and nothing else; a step in which none does leaves all logical values alone, unless
      it is a successful single-word CAS. */
  lemma EveryStepAtomic(run: seq<State>, j: nat)
    requires Run(run) && j + 1 < |run|
    ensures var s, s' := run[j], run[j + 1];
            && |s.m.descs| <= |s'.m.descs|
            && (forall d :: 0 <= d < |s.m.descs| && s.m.descs[d].status.Undecided? && s'.m.descs[d].status.Success? ==>
                  && Expected(Logical(s.m), s.m.descs[d].es)
                  && Logical(s'.m) == Apply(Logical(s.m), s.m.descs[d].es))
            && ((forall d :: 0 <= d < |s.m.descs| && s'.m.descs[d].status.Success? ==> s.m.descs[d].status.Success?) ==>
                  Logical(s'.m) == Logical(s.m) || exists t :: SingleCas(s, s', t))
  {
    hide Inv, NoRecurrence, Run, Logical, MemoryOk, Apply, Expected, Accesses, Justified;
    RunInv(run, j);
    var s, s' := run[j], run[j + 1];
    var t, e := RunStep(run, j);
    StepKeepsInv(s, s', t, e);
    MemoryOfInv(s);
    EffectAtomic(s.m, s'.m, s.past, e);
    if e.Swap? {
      SwapIsSingle(s, s', t, e);
    }
  }

  lemma EffectAtomic(m: Memory, m': Memory, past: seq<Values>, e: Effect)
    requires MemoryOk(m) && Accesses(m, m', e) && Justified(m, past, e)
    ensures |m.descs| <= |m'.descs|
    ensures forall d :: 0 <= d < |m.descs| && m.descs[d].status.Undecided? && m'.descs[d].status.Success? ==>
              Expected(Logical(m), m.descs[d].es) && Logical(m') == Apply(Logical(m), m.descs[d].es)
    ensures (forall d :: 0 <= d < |m.descs| && m'.descs[d].status.Success? ==> m.descs[d].status.Success?) && !e.Swap? ==>
              Logical(m') == Logical(m)
  {
    LogicalEffect(m, m', past, e);
    hide Logical, MemoryOk, Apply, Expected, Justified;
  }

  lemma SwapIsSingle(s: State, s': State, t: nat, e: Effect)
    requires Inv(s) && Step(s, s', t, e) && Justified(s.m, s.past, e) && e.Swap?
    ensures SingleCas(s, s', t)
  {
    LogicalEffect(s.m, s'.m, s.past, e);
    hide Inv, Begins;
  }

  lemma MemoryOfInv(s: State)
    requires Inv(s)
    ensures MemoryOk(s.m)
  {
  }

  /** A decision is final. */
  lemma {:induction false} StatusFinal(run: seq<State>, i: nat, j: nat, d: nat)
    requires Run(run) && i <= j < |run| && d < |run[i].m.descs|
    ensures d < |run[j].m.descs|
    ensures run[j].m.descs[d].es == run[i].m.descs[d].es && run[j].m.descs[d].born == run[i].m.descs[d].born
    ensures !run[i].m.descs[d].status.Undecided? ==> run[j].m.descs[d].status == run[i].m.descs[d].status
  {
    hide Run, Step;
    if i < j {
      StatusFinal(run, i, j - 1, d);
      var t, e := RunStep(run, j - 1);
      StepDescs(run[j - 1], run[j], t, e, d);
    }
  }

  lemma StepDescs(s: State, s': State, t: nat, e: Effect, d: nat)
    requires Step(s, s', t, e) && d < |s.m.descs|
    ensures d < |s'.m.descs| && s'.m.descs[d].es == s.m.descs[d].es && s'.m.descs[d].born == s.m.descs[d].born
    ensures !s.m.descs[d].status.Undecided? ==> s'.m.descs[d].status == s.m.descs[d].status
  {
    assert Accesses(s.m, s'.m, e);
    hide Step, Logical;
  }

  /** A returned multi-word operation that succeeded took effect in one step during its call. */
  lemma DescSucceeded(run: seq<State>, j: nat, t: nat, k: nat) returns (p: nat)
    requires Run(run) && j < |run| && t < |run[j].threads| && k < |run[j].threads[t]|
    requires run[j].threads[t][k].Returned? && run[j].threads[t][k].ok
    ensures run[j].threads[t][k].d < |run[j].m.descs|
    ensures var desc := run[j].m.descs[run[j].threads[t][k].d];
            && desc.born < p <= j
            && Expected(Logical(run[p - 1].m), desc.es)
            && Logical(run[p].m) == Apply(Logical(run[p - 1].m), desc.es)
  {
    hide Run, Logical, Apply, Expected, MemoryOk;
    RunInv(run, j);
    var f := run[j].threads[t][k];
    assert FrameOk(run[j].m, run[j].past, f);
    var desc := run[j].m.descs[f.d];
    assert OutcomeOk(desc, run[j].past);
    var q :| desc.born < q < |run[j].past| && EffectAt(desc, run[j].past, q);
    p := q;
  }

  /** One that failed found a location that differed from its expected value at a moment during its call, and no step
      before or after is its decision to succeed. */
  lemma DescFailed(run: seq<State>, j: nat, t: nat, k: nat) returns (p: nat, i: nat)
    requires Run(run) && j < |run| && t < |run[j].threads| && k < |run[j].threads[t]|
    requires run[j].threads[t][k].Returned? && !run[j].threads[t][k].ok
    ensures var d := run[j].threads[t][k].d;
            && d < |run[j].m.descs|
            && var desc := run[j].m.descs[d];
               && desc.born <= p <= j && i < |desc.es|
               && desc.es[i].loc in run[p].m.words && Logical(run[p].m)[desc.es[i].loc] != desc.es[i].exp
               && (forall l :: 0 <= l < |run| && d < |run[l].m.descs| ==> !run[l].m.descs[d].status.Success?)
  {
    hide Run;
    RunInv(run, j);
    var f := run[j].threads[t][k];
    assert FrameOk(run[j].m, run[j].past, f);
    var desc := run[j].m.descs[f.d];
    assert OutcomeOk(desc, run[j].past);
    var q, x :| desc.born <= q < |run[j].past| && 0 <= x < |desc.es| && DiffersAt(desc.es[x], run[j].past[q]);
    p, i := q, x;
    forall l | 0 <= l < |run| && f.d < |run[l].m.descs| ensures !run[l].m.descs[f.d].status.Success? {
      if l <= j {
        StatusFinal(run, l, j, f.d);
      } else {
        StatusFinal(run, j, l, f.d);
      }
    }
  }

  /** A read returns a value that its location logically held at a moment during the call. */
  lemma ValueWasHeld(run: seq<State>, j: nat, t: nat, k: nat) returns (p: nat)
    requires Run(run) && j < |run| && t < |run[j].threads| && k < |run[j].threads[t]|
    requires run[j].threads[t][k].Value?
    ensures var f := run[j].threads[t][k];
            f.since <= p <= j && f.loc in run[p].m.words && Logical(run[p].m)[f.loc] == f.v
  {
    hide Run;
    RunInv(run, j);
    var f := run[j].threads[t][k];
    assert FrameOk(run[j].m, run[j].past, f);
    var q :| f.since <= q < |run[j].past| && HeldAt(run[j].past[q], f.loc, f.v);
    p := q;
  }

  // ---------- helping cannot go round in a circle ----------

  /** Undecided operation d has claimed everything before entry i, where it meets a full claim of operation e. */
  predicate Waits(m: Memory, d: nat, i: nat, e: nat) {
    && Claimed(m, d, i) && m.descs[d].status.Undecided?
    && IsEntry(m, d, i) && WordAt(m, d, i) == Mcas(e) && e != d && e < |m.descs|
  }

  lemma WaitIncreases(m: Memory, d: nat, i: nat, e: nat, i': nat, e': nat)
    requires MemoryOk(m) && Waits(m, d, i, e) && Waits(m, e, i', e')
    ensures m.descs[d].es[i].loc < m.descs[e].es[i'].loc
  {
    var loc := m.descs[d].es[i].loc;
    assert WordOk(m, loc) && DescOk(m, e);
    var j := IndexOf(m.descs[e].es, loc);
    assert WordAt(m, e, j) == Mcas(e) && EntryOk(m, e, j);
  }

  /** A chain of operations, each waiting for the next at the given entry. */
  predicate Chain(m: Memory, ops: seq<nat>, at: seq<nat>) {
    |at| == |ops| >= 1 && forall k :: 0 <= k < |ops| - 1 ==> WaitsInChain(m, ops, at, k)
  }

  predicate WaitsInChain(m: Memory, ops: seq<nat>, at: seq<nat>, k: nat)
    requires |at| == |ops| && k + 1 < |ops|
  {
    Waits(m, ops[k], at[k], ops[k + 1])
  }

  lemma {:induction false} ChainAscends(m: Memory, ops: seq<nat>, at: seq<nat>, k: nat)
    requires MemoryOk(m) && Chain(m, ops, at) && 0 < k < |ops| - 1
    ensures Waits(m, ops[0], at[0], ops[1]) && Waits(m, ops[k], at[k], ops[k + 1])
    ensures m.descs[ops[0]].es[at[0]].loc < m.descs[ops[k]].es[at[k]].loc
  {
    assert WaitsInChain(m, ops, at, 0) && WaitsInChain(m, ops, at, k - 1) && WaitsInChain(m, ops, at, k);
    if k > 1 {
      ChainAscends(m, ops, at, k - 1);
    }
    WaitIncreases(m, ops[k - 1], at[k - 1], ops[k], at[k], ops[k + 1]);
  }

  /** In no state of a run do undecided operations wait for each other in a circle, however many threads help them. */
  lemma NoWaitingCycle(run: seq<State>, j: nat, ops: seq<nat>, at: seq<nat>)
    requires Run(run) && j < |run| && Chain(run[j].m, ops, at) && |ops| > 1
    ensures ops[0] != ops[|ops| - 1]
  {
    hide Run;
    RunInv(run, j);
    var m, n := run[j].m, |ops|;
    assert WaitsInChain(m, ops, at, 0) && WaitsInChain(m, ops, at, n - 2);
    if ops[0] == ops[n - 1] && n > 2 {
      ChainAscends(m, ops, at, n - 2);
      WaitIncreases(m, ops[n - 2], at[n - 2], ops[0], at[0], ops[1]);
    }
  }
}

/**
 How often one quote can be signed. A quote whose record is stored is never signed again; one that met a
 full journal can be, since nothing was stored or broadcast; a restart forgets every quote.
 */
module JournalSigning {
  import opened Common
  import opened JournalModel
  import opened JournalInvariants
  import opened JournalReload
  import opened JournalCompaction
  import opened JournalStore
  import opened JournalProtocol
  import opened JournalSafety
  import opened JournalTheorems
  import opened JournalVersions

  ghost predicate HasQuote(v: View, id: QuoteId) {
    !FreshQuote(id, Ids(v))
  }

  lemma HasQuoteIsFound(v: View, id: QuoteId)
    ensures HasQuote(v, id) <==> FindQuote(All(v), id).Some?
  {
    FindQuoteFinds(All(v), id);
    AllIds(v);
    if HasQuote(v, id) {
      var x :| x in Ids(v) && x.quoteId == id;
      var r :| r in All(v) && r.id == x;
    }
  }

  // ---- What an append and the other steps do to a quote ------------------------------------------------

  /** An append of a good record stores it, meets a full journal and changes nothing, or fails for good. */
  lemma AppendEnds(s: World, t: Torn, step: Step, env: Env)
    requires WorldInv(s, t, env) && Enabled(s, step, env) && step.SendAppend?
    ensures ACTIVE_LIMIT <= |s.store.mem.active| ==> Apply(s, step, env) == s.(send := Idle)
    ensures |s.store.mem.active| < ACTIVE_LIMIT ==>
      Apply(s, step, env).send.Failing? || HasQuote(Apply(s, step, env).store.mem, s.send.quote.id)
  {
    NewRecordIsOk(s, t, step.signed, step.write, env);
    AppendApplies(s, step, env);
    var r := NewRecord(s.send.quote, step.signed);
    var store' := Append(s.store, r, env.chainId, step.write).0;
    if |s.store.mem.active| < ACTIVE_LIMIT && step.write.Done? {
      assert r.(version := 1) in store'.mem.active;
      assert r.id in Ids(store'.mem);
    }
  }

  lemma UpdateKeepsIds(s: Store, hash: Hash, expected: nat, o: Observation, write: Write)
    ensures Ids(Update(s, hash, expected, o, write).0.mem) == Ids(s.mem)
  {
    var i := LastIndex(s.mem.active, hash);
    if i < |s.mem.active| {
      UpdateIds(s.mem.active, i, Observed(s.mem.active[i], o));
    }
  }

  lemma OtherIds(s: World, t: Torn, step: Step, env: Env)
    requires StoreInv(s.store, t, env.chainId, env.winners) && Possible(s, step, env.chainId)
    requires !step.Crash? && !step.SendAppend?
    ensures Ids(NextStore(s, step, env).mem) == Ids(s.store.mem)
  {
    if step.Settle? {
      var r := s.send.record;
      UpdateKeepsIds(s.store, r.id.hash, r.version, s.send.result, step.write);
    } else if step.Refresh? {
      var r := s.history.items[step.index];
      UpdateKeepsIds(s.store, r.id.hash, r.version, step.seen, step.write);
    } else if step.Demote? {
      var r := s.history.item;
      UpdateKeepsIds(s.store, r.id.hash, r.version, DEMOTED, step.write);
    } else if step.Compact? {
      ArchiveIds(s.store, t, step.write, step.secondWrite, env.chainId, env.winners);
    }
  }

  lemma ArchiveIds(s: Store, t: Torn, w1: Write, w2: Write, chainId: int, w: Winners)
    requires StoreInv(s, t, chainId, w)
    ensures Ids(Archive(s, w1, w2).0.mem) == Ids(s.mem)
  {
    var t' := ArchiveStore(s, t, w1, w2, chainId, w);
  }

  lemma AppendIds(s: World, t: Torn, step: Step, env: Env)
    requires WorldInv(s, t, env) && Enabled(s, step, env) && step.SendAppend?
    ensures Ids(NextStore(s, step, env).mem) <= Ids(s.store.mem) + {NewRecord(s.send.quote, step.signed).id}
  {
    NewRecordIsOk(s, t, step.signed, step.write, env);
    var t' := AppendStore(s.store, t, NewRecord(s.send.quote, step.signed), step.write, env.chainId, env.winners);
  }

  /** Nothing but an append of the quote's own record makes it known. */
  lemma StaysUnknown(s: World, t: Torn, step: Step, s': World, env: Env, id: QuoteId)
    requires WorldInv(s, t, env) && Takes(s, step, s', env) && !step.Crash? && !HasQuote(s.store.mem, id)
    requires step.SendAppend? && s.send.quote.id == id ==> ACTIVE_LIMIT <= |s.store.mem.active|
    ensures !HasQuote(s'.store.mem, id)
  {
    if step.SendAppend? {
      AppendEnds(s, t, step, env);
      AppendIds(s, t, step, env);
    } else {
      OtherIds(s, t, step, env);
    }
    NextStoreIs(s, step, env);
  }

  /** A quote that must not be signed again: its record is known, or storage is known to have failed. */
  ghost predicate Spent(s: World, id: QuoteId) {
    s.fault || s.send.Failing? || HasQuote(s.store.mem, id)
  }

  lemma StaysSpent(s: World, t: Torn, step: Step, env: Env, id: QuoteId)
    requires WorldInv(s, t, env) && Enabled(s, step, env) && !step.Crash? && Spent(s, id)
    ensures Spent(Apply(s, step, env), id)
  {
    StepFollows(s, t, step, env);
    if s.fault {
      FaultStays(s, step, env);
    } else if s.send.Failing? {
      FailingFlags(s, step, env);
    }
  }

  lemma FaultStays(s: World, step: Step, env: Env)
    requires Enabled(s, step, env) && !step.Crash? && s.fault
    ensures Apply(s, step, env).fault
  {
  }

  lemma FailingFlags(s: World, step: Step, env: Env)
    requires Enabled(s, step, env) && !step.Crash? && s.send.Failing?
    ensures Apply(s, step, env).fault || Apply(s, step, env).send.Failing?
  {
  }

  // ---- Between two moments without a restart -------------------------------------------------------------

  ghost predicate NoCrash(steps: seq<Step>, i: nat, j: nat)
    requires i <= j <= |steps|
  {
    forall k | i <= k < j :: !steps[k].Crash?
  }

  /** Step k hands a freshly signed transaction of this quote to the journal. */
  ghost predicate Signs(states: seq<World>, steps: seq<Step>, k: nat, id: QuoteId)
    requires k < |steps| && k < |states|
  {
    steps[k].SendAppend? && states[k].send.Ready? && states[k].send.quote.id == id
  }

  ghost predicate MetFull(s: World) {
    ACTIVE_LIMIT <= |s.store.mem.active|
  }

  lemma SpentIsKept(states: seq<World>, steps: seq<Step>, env: Env, k: nat, id: QuoteId)
    requires IsRun(states, steps, env) && k < |steps| && !steps[k].Crash? && Spent(states[k], id)
    ensures Spent(states[k + 1], id)
  {
    var t := RunInv(states, steps, env, k);
    StaysSpent(states[k], t, steps[k], env, id);
  }

  lemma SpentUntil(states: seq<World>, steps: seq<Step>, env: Env, i: nat, j: nat, id: QuoteId)
    requires IsRun(states, steps, env) && i <= j <= |steps| && NoCrash(steps, i, j) && Spent(states[i], id)
    ensures Spent(states[j], id)
  {
    var flags := seq(|states|, k requires 0 <= k < |states| => Spent(states[k], id));
    forall k | i <= k < j ensures flags[k] ==> flags[k + 1] {
      if flags[k] {
        SpentIsKept(states, steps, env, k, id);
      }
    }
    Persists(flags, i, j);
  }

  lemma UnknownUntil(states: seq<World>, steps: seq<Step>, env: Env, i: nat, j: nat, id: QuoteId)
    requires IsRun(states, steps, env) && i <= j <= |steps| && NoCrash(steps, i, j)
    requires !HasQuote(states[i].store.mem, id)
    requires forall k | i <= k < j && Signs(states, steps, k, id) :: MetFull(states[k])
    ensures !HasQuote(states[j].store.mem, id)
  {
    var flags := seq(|states|, k requires 0 <= k < |states| => !HasQuote(states[k].store.mem, id));
    forall k | i <= k < j ensures flags[k] ==> flags[k + 1] {
      if flags[k] {
        UnknownStep(states, steps, env, k, id);
      }
    }
    Persists(flags, i, j);
  }

  lemma UnknownStep(states: seq<World>, steps: seq<Step>, env: Env, k: nat, id: QuoteId)
    requires IsRun(states, steps, env) && k < |steps| && !steps[k].Crash?
    requires !HasQuote(states[k].store.mem, id) && (Signs(states, steps, k, id) ==> MetFull(states[k]))
    ensures !HasQuote(states[k + 1].store.mem, id)
  {
    var t := RunInv(states, steps, env, k);
    RunTakes(states, steps, env, k);
    StaysUnknown(states[k], t, steps[k], states[k + 1], env, id);
  }

  lemma SigningIsFresh(states: seq<World>, steps: seq<Step>, env: Env, i: nat, id: QuoteId)
    requires IsRun(states, steps, env) && i < |steps| && Signs(states, steps, i, id)
    ensures !HasQuote(states[i].store.mem, id)
  {
    var t := RunInv(states, steps, env, i);
  }

  lemma SignedAndStored(states: seq<World>, steps: seq<Step>, env: Env, k: nat, j: nat, id: QuoteId)
    requires IsRun(states, steps, env) && k < j <= |steps| && NoCrash(steps, k, j)
    requires Signs(states, steps, k, id) && !MetFull(states[k])
    ensures Spent(states[j], id)
  {
    var t := RunInv(states, steps, env, k);
    AppendEnds(states[k], t, steps[k], env);
    SpentUntil(states, steps, env, k + 1, j, id);
  }

  /** After a quote has been signed, and without a restart, Send can begin to sign it again if and only if every
      signing so far met a full journal (given that Send is at rest, no fault is set and the quote is kept). */
  lemma SignsAgainExactly(states: seq<World>, steps: seq<Step>, env: Env, i: nat, j: nat, id: QuoteId)
    requires IsRun(states, steps, env) && i < j <= |steps| && NoCrash(steps, i, j) && Signs(states, steps, i, id)
    requires states[j].send.Idle? && !states[j].fault && id in states[j].quotes
    ensures Enabled(states[j], SendBegin(id), env)
      <==> (forall k | i <= k < j && Signs(states, steps, k, id) :: MetFull(states[k]))
  {
    HasQuoteIsFound(states[j].store.mem, id);
    if forall k | i <= k < j && Signs(states, steps, k, id) :: MetFull(states[k]) {
      SigningIsFresh(states, steps, env, i, id);
      UnknownUntil(states, steps, env, i, j, id);
    } else {
      var k :| i <= k < j && Signs(states, steps, k, id) && !MetFull(states[k]);
      SignedAndStored(states, steps, env, k, j, id);
    }
  }

  // ---- Every signing has its own beginning -----------------------------------------------------------------

  predicate Sending(pc: SendPc) {
    pc.Checking? || pc.Counted? || pc.Ready?
  }

  /** While Send works on a quote, the quote is kept. */
  ghost predicate InHand(s: World) {
    Sending(s.send) ==> s.send.quote.id in s.quotes && s.quotes[s.send.quote.id] == s.send.quote
  }

  lemma StepInHand(s: World, step: Step, env: Env)
    requires Enabled(s, step, env) && InHand(s) && (forall id <- s.quotes :: s.quotes[id].id == id)
    ensures InHand(Apply(s, step, env))
    ensures Sending(Apply(s, step, env).send) && !(step.SendBegin?) ==>
      Sending(s.send) && s.send.quote == Apply(s, step, env).send.quote
  {
  }

  lemma {:induction false} RunInHand(states: seq<World>, steps: seq<Step>, env: Env, i: nat)
    requires IsRun(states, steps, env) && i <= |steps|
    ensures InHand(states[i]) && forall id <- states[i].quotes :: states[i].quotes[id].id == id
  {
    var t := RunInv(states, steps, env, i);
    if i > 0 {
      RunInHand(states, steps, env, i - 1);
      StepInHand(states[i - 1], steps[i - 1], env);
    }
  }

  lemma {:induction false} LastBegin(states: seq<World>, steps: seq<Step>, env: Env, i: nat, j: nat) returns (m: nat)
    requires IsRun(states, steps, env) && i <= j <= |steps| && !Sending(states[i].send) && Sending(states[j].send)
    ensures i <= m < j && steps[m] == SendBegin(states[j].send.quote.id)
    decreases j - i
  {
    RunInHand(states, steps, env, j - 1);
    StepInHand(states[j - 1], steps[j - 1], env);
    if steps[j - 1].SendBegin? {
      m := j - 1;
    } else {
      m := LastBegin(states, steps, env, i, j - 1);
    }
  }

  lemma AfterSigning(s: World, step: Step, env: Env)
    requires Enabled(s, step, env) && step.SendAppend?
    ensures !Sending(Apply(s, step, env).send)
  {
    AppendApplies(s, step, env);
  }

  /** If a quote is signed twice without a restart in between, every signing before the last met a full journal,
      and so changed neither memory nor disk nor what was broadcast. */
  lemma SignedTwiceMetFull(states: seq<World>, steps: seq<Step>, env: Env, i: nat, j: nat, k: nat, id: QuoteId)
    requires IsRun(states, steps, env) && i <= k < j < |steps| && NoCrash(steps, i, j)
    requires Signs(states, steps, i, id) && Signs(states, steps, k, id) && Signs(states, steps, j, id)
    ensures MetFull(states[k]) && states[k + 1] == states[k].(send := Idle)
  {
    AfterSigning(states[k], steps[k], env);
    var m := LastBegin(states, steps, env, k + 1, j);
    SignsAgainExactly(states, steps, env, i, m, id);
    var t := RunInv(states, steps, env, k);
    AppendEnds(states[k], t, steps[k], env);
  }

  // ---- And a full journal really lets it happen --------------------------------------------------------------

  /** The steps of a Send from its beginning to its next signing. */
  function SendSteps(q: Quote, signed: SignedTx, write: Write): seq<Step> {
    if q.original.None? then [SendBegin(q.id), SendInFlight, SendAppend(signed, write)]
    else [SendBegin(q.id), SendCount, SendUnmined, SendAppend(signed, write)]
  }

  /** The checks that Send makes of the journal between its beginning and its signing. */
  predicate Passes(v: View, q: Quote) {
    if q.original.None? then !HasInFlight(v) else |NonceRecords(All(v), q.nonce)| == q.count && !NonceMined(v, q.nonce)
  }

  /** The signer's answer fits the quote and has a hash of its own. */
  predicate Fits(v: View, q: Quote, signed: SignedTx, chainId: int) {
    && signed.chainId == chainId && signed.nonce == q.nonce && signed.tip == q.tip && signed.feeCap == q.feeCap
    && forall r <- All(v) :: r.id.hash != signed.hash
  }

  /** A signing that met a full journal can be repeated at once: any run that ends with it, with no fault set and the
      checks still passing, goes on to sign the same quote again. */
  lemma FullJournalSignsAgain(states: seq<World>, steps: seq<Step>, env: Env, q: Quote, signed: SignedTx, write: Write)
    returns (path: seq<World>)
    requires IsRun(states, steps, env) && steps != [] && !states[|steps|].fault
    requires Signs(states, steps, |steps| - 1, q.id) && states[|steps| - 1].send == Ready(q)
      && MetFull(states[|steps| - 1])
    requires Passes(states[|steps| - 1].store.mem, q) && Fits(states[|steps| - 1].store.mem, q, signed, env.chainId)
    ensures |path| == |SendSteps(q, signed, write)| + 1
    ensures var all, again := states + path[1..], steps + SendSteps(q, signed, write);
      IsRun(all, again, env) && NoCrash(again, |steps| - 1, |again|) && Signs(all, again, |again| - 1, q.id)
  {
    var s := AfterFull(states, steps, env, q);
    path := SendAgain(s, q, signed, write, env);
    RunGoesOn(states, steps, path, SendSteps(q, signed, write), env);
    var all, again := states + path[1..], steps + SendSteps(q, signed, write);
    assert all[|again| - 1] == path[|path| - 2];
    assert again[|again| - 1] == SendAppend(signed, write);
  }

  lemma AfterFull(states: seq<World>, steps: seq<Step>, env: Env, q: Quote) returns (s: World)
    requires IsRun(states, steps, env) && steps != [] && !states[|steps|].fault
    requires Signs(states, steps, |steps| - 1, q.id) && states[|steps| - 1].send == Ready(q)
      && MetFull(states[|steps| - 1])
    ensures s == states[|steps|] && s.send.Idle? && !s.fault && s.store == states[|steps| - 1].store
    ensures FindQuote(All(s.store.mem), q.id).None? && q.id in s.quotes && s.quotes[q.id] == q
  {
    var last := |steps| - 1;
    var t := RunInv(states, steps, env, last);
    AppendEnds(states[last], t, steps[last], env);
    RunInHand(states, steps, env, last);
    SigningIsFresh(states, steps, env, last, q.id);
    HasQuoteIsFound(states[last].store.mem, q.id);
    s := states[|steps|];
  }

  /** A stretch of steps, with the states before and after each. */
  ghost predicate GoesOn(path: seq<World>, steps: seq<Step>, env: Env) {
    |path| == |steps| + 1 && forall i | 0 <= i < |steps| :: Takes(path[i], steps[i], path[i + 1], env)
  }

  lemma RunGoesOn(states: seq<World>, steps: seq<Step>, path: seq<World>, next: seq<Step>, env: Env)
    requires IsRun(states, steps, env) && GoesOn(path, next, env) && path[0] == states[|steps|]
    ensures IsRun(states + path[1..], steps + next, env)
  {
    var all, allSteps := states + path[1..], steps + next;
    forall i | 0 <= i < |allSteps|
      ensures Takes(all[i], allSteps[i], all[i + 1], env)
    {
      if i < |steps| {
        RunTakes(states, steps, env, i);
      } else {
        var k := i - |steps|;
        assert Takes(path[k], next[k], path[k + 1], env);
        assert all[i] == path[k] && all[i + 1] == path[k + 1];
      }
    }
    TakesAll(all, allSteps, env);
  }

  lemma RunTakes(states: seq<World>, steps: seq<Step>, env: Env, i: nat)
    requires IsRun(states, steps, env) && i < |steps|
    ensures Takes(states[i], steps[i], states[i + 1], env)
  {
  }

  lemma TakesAll(states: seq<World>, steps: seq<Step>, env: Env)
    requires |states| == |steps| + 1 && states[0] == START
    requires forall i | 0 <= i < |steps| :: Takes(states[i], steps[i], states[i + 1], env)
    ensures IsRun(states, steps, env)
  {
    forall i | 0 <= i < |steps|
      ensures Enabled(states[i], steps[i], env) && states[i + 1] == Apply(states[i], steps[i], env)
    {
      assert Takes(states[i], steps[i], states[i + 1], env);
    }
  }

  lemma BeginAgain(s: World, q: Quote, env: Env)
    requires s.send.Idle? && !s.fault && FindQuote(All(s.store.mem), q.id).None?
    requires q.id in s.quotes && s.quotes[q.id] == q
    ensures Takes(s, SendBegin(q.id), s.(send := Checking(q)), env)
  {
  }

  lemma PassAgain(s: World, q: Quote, env: Env)
    requires Passes(s.store.mem, q)
    ensures q.original.None? ==> Takes(s.(send := Checking(q)), SendInFlight, s.(send := Ready(q)), env)
    ensures q.original.Some? ==>
      && Takes(s.(send := Checking(q)), SendCount, s.(send := Counted(q)), env)
      && Takes(s.(send := Counted(q)), SendUnmined, s.(send := Ready(q)), env)
  {
  }

  lemma AppendAgain(s: World, q: Quote, signed: SignedTx, write: Write, env: Env) returns (s': World)
    requires s.send == Ready(q) && Fits(s.store.mem, q, signed, env.chainId)
    ensures Takes(s, SendAppend(signed, write), s', env)
  {
    s' := Apply(s, SendAppend(signed, write), env);
  }

  lemma SendAgain(s: World, q: Quote, signed: SignedTx, write: Write, env: Env) returns (path: seq<World>)
    requires s.send.Idle? && !s.fault && FindQuote(All(s.store.mem), q.id).None?
    requires q.id in s.quotes && s.quotes[q.id] == q
    requires Passes(s.store.mem, q) && Fits(s.store.mem, q, signed, env.chainId)
    ensures GoesOn(path, SendSteps(q, signed, write), env)
    ensures path[0] == s && path[|path| - 2].send == Ready(q)
  {
    BeginAgain(s, q, env);
    PassAgain(s, q, env);
    var last := AppendAgain(s.(send := Ready(q)), q, signed, write, env);
    if q.original.None? {
      path := [s, s.(send := Checking(q)), s.(send := Ready(q)), last];
    } else {
      path := [s, s.(send := Checking(q)), s.(send := Counted(q)), s.(send := Ready(q)), last];
    }
  }

  // ---- Restarts ----------------------------------------------------------------------------------------------

  /** Step k stores a quote of this ID. */
  ghost predicate Quotes(states: seq<World>, steps: seq<Step>, k: nat, id: QuoteId)
    requires k < |steps| && k < |states|
  {
    (steps[k].QuoteNew? && steps[k].quote.id == id)
      || (steps[k].QuoteCount? && states[k].send.Priced? && states[k].send.quote.id == id)
  }

  lemma StepQuotes(s: World, step: Step, env: Env, id: QuoteId)
    requires Enabled(s, step, env) && id in Apply(s, step, env).quotes && id !in s.quotes
    ensures (step.QuoteNew? && step.quote.id == id) || (step.QuoteCount? && s.send.Priced? && s.send.quote.id == id)
  {
  }

  lemma {:induction false} QuoteWasStored(states: seq<World>, steps: seq<Step>, env: Env, i: nat, j: nat, id: QuoteId)
    returns (k: nat)
    requires IsRun(states, steps, env) && i <= j <= |steps| && id !in states[i].quotes && id in states[j].quotes
    ensures i <= k < j && Quotes(states, steps, k, id)
    decreases j - i
  {
    if id in states[j - 1].quotes {
      k := QuoteWasStored(states, steps, env, i, j - 1, id);
    } else {
      k := j - 1;
      StepQuotes(states[k], steps[k], env, id);
    }
  }

  lemma CrashForgets(s: World, t: Torn, step: Step, env: Env)
    requires WorldInv(s, t, env) && Enabled(s, step, env) && step.Crash?
    ensures Apply(s, step, env).quotes == map[] && Apply(s, step, env).send.Idle?
  {
    CrashKeeps(s, t, step.order, env);
  }

  /** A restart forgets every quote: what is signed after it was quoted again after it, under an ID that no record
      of the journal carries. */
  lemma RestartForgetsQuotes(states: seq<World>, steps: seq<Step>, env: Env, c: nat, j: nat, id: QuoteId)
    returns (k: nat)
    requires IsRun(states, steps, env) && c < j < |steps| && steps[c].Crash? && Signs(states, steps, j, id)
    ensures c < k < j && Quotes(states, steps, k, id)
    ensures !HasQuote(states[j].store.mem, id)
  {
    var t := RunInv(states, steps, env, c);
    CrashForgets(states[c], t, steps[c], env);
    RunInHand(states, steps, env, j);
    SigningIsFresh(states, steps, env, j, id);
    k := QuoteWasStored(states, steps, env, c + 1, j, id);
  }
}

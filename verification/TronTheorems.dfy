/**
 What the TRON service promises over every run.
 */
module TronTheorems {
  import opened Common
  import opened Bytes
  import opened TronModel
  import opened TronChain
  import opened TronSafety
  import TronWire
  import TronQuote

  function Memory(w: World): seq<Record> {
    w.service.store.mem
  }

  function File(w: World): seq<Record> {
    w.service.store.disk
  }

  /** In memory and in the file alike, never two records wait at once, and the file always starts again. */
  lemma NeverTwoPending(g: Setting, states: seq<World>, steps: seq<Step>, i: nat)
    requires Lawful(g) && IsRun(g, states, steps) && i < |states|
    ensures OnePending(Memory(states[i])) && OnePending(File(states[i]))
    ensures Reload(g.env, File(states[i])) == Some(Service(Store(File(states[i]), File(states[i]), false), map[]))
    ensures !states[i].service.store.fault ==> File(states[i]) == Memory(states[i])
  {
    RunKeeps(g, states, steps, i);
    ReloadKeeps(g, states[i].now, states[i].service.store);
  }

  /** A final record stays as it is, and the chain holds its transaction for good; an expired one never
      waits again, and no chain ever includes its bytes from then on. */
  lemma ClosedForever(g: Setting, states: seq<World>, steps: seq<Step>, i: nat, j: nat, k: nat)
    requires Lawful(g) && IsRun(g, states, steps) && i <= j < |states| && k < |Memory(states[i])|
    ensures k < |Memory(states[j])| && Memory(states[j])[k].tx == Memory(states[i])[k].tx
    ensures var r := Memory(states[i])[k];
      && (r.finalized ==> Memory(states[j])[k] == r && Settled(g.chain, g.env.digest, r.tx.hash, states[i].now))
      && (r.state == ExpiredUnconfirmed
        ==> !IsPending(Memory(states[j])[k]) && Buried(g.chain, r.tx.raw, states[i].now))
  {
    RunExtends(g, states, steps, i, j);
    RunKeeps(g, states, steps, i);
    assert Memory(states[i])[k] in Memory(states[i]);
    assert Follows(Memory(states[i])[k], Memory(states[j])[k]);
  }

  /** Unless two transactions share a digest, an expired record stays expired. */
  lemma ExpiredStaysExpired(g: Setting, states: seq<World>, steps: seq<Step>, i: nat, j: nat, k: nat)
    requires Lawful(g) && IsRun(g, states, steps) && i <= j < |states| && k < |Memory(states[i])|
    requires Memory(states[i])[k].state == ExpiredUnconfirmed
    requires forall raw: seq<byte> ::
      g.env.digest(raw) == g.env.digest(Memory(states[i])[k].tx.raw) ==> raw == Memory(states[i])[k].tx.raw
    ensures k < |Memory(states[j])| && Memory(states[j])[k].state == ExpiredUnconfirmed
  {
    ClosedForever(g, states, steps, i, j, k);
    RunKeeps(g, states, steps, j);
    var r := Memory(states[j])[k];
    assert r in Memory(states[j]);
    assert Good(g, states[j].now, r);
    if r.finalized {
      var raw :| g.env.digest(raw) == r.tx.hash && HeldFrom(g.chain, raw, states[j].now);
      HeldIsNotBuried(g.chain, raw, states[j].now, states[i].now);
    }
  }

  lemma HeldIsNotBuried(chain: nat -> Chain, raw: seq<byte>, t: nat, u: nat)
    requires HeldFrom(chain, raw, t)
    ensures !Buried(chain, raw, u)
  {
    var last := if t <= u then u else t;
    assert Holds(chain(last), raw, chain(last).solid + 1);
  }

  /** What ever reached the network was durable then and stays so: memory and file hold the record, and
      its stored bytes decode to the signed transaction and a signature by its sender. */
  lemma BroadcastIsDurable(g: Setting, states: seq<World>, steps: seq<Step>, i: nat, j: nat, tx: Tx)
    requires Lawful(g) && IsRun(g, states, steps) && i <= j < |states| && tx in states[i].broadcast
    ensures exists r <- Memory(states[j]) :: r.tx == tx
    ensures exists r <- File(states[j]) :: r.tx == tx
    ensures exists signature: seq<byte> ::
      && g.env.signer(g.env.digest(tx.raw), signature) == Some(tx.sender)
      && TronWire.Parse(tx.signed) == Some([TronWire.BytesField(1, tx.raw), TronWire.BytesField(2, signature)])
  {
    RunKeeps(g, states, steps, i);
    RunKeeps(g, states, steps, j);
    RunExtends(g, states, steps, i, j);
    RemembersMore(states[i].broadcast, Memory(states[i]), Memory(states[j]));
    RemembersMore(states[i].broadcast, Memory(states[j]), File(states[j]));
    var r :| r in Memory(states[j]) && r.tx == tx;
    assert Good(g, states[j].now, r);
    var signature := tx.signed[|tx.signed| - TronWire.SIGNATURE..];
    TronWire.LoaderAcceptsFrames(tx.raw, tx.signed);
    TronWire.FrameReads(tx.raw, signature);
  }

  /** Once a quote has a record, sending it again, at any later time and whatever the answers, gives
      that record back, signs nothing, broadcasts nothing and writes nothing. */
  lemma SendingAgainDoesNothing(g: Setting, states: seq<World>, steps: seq<Step>, i: nat, j: nat, k: nat, o: SendInput)
    requires Lawful(g) && IsRun(g, states, steps) && i <= j < |states| && k < |Memory(states[i])|
    ensures var id := Memory(states[i])[k].tx.quoteId;
      && k < |Memory(states[j])|
      && SendOutcome(g.env, states[j].service, id, o) == (states[j].service, Given(Memory(states[j])[k]))
      && SendTransmits(g.env, states[j].service, id, o).None?
  {
    RunExtends(g, states, steps, i, j);
    RunKeeps(g, states, steps, j);
    var mem := Memory(states[j]);
    assert Follows(Memory(states[i])[k], mem[k]);
    assert Good(g, states[j].now, mem[k]) by {
      assert mem[k] in mem;
    }
    var known := FirstQuote(mem, mem[k].tx.quoteId, 0);
    assert known == k;
  }

  lemma SendUnderFault(env: Env, s: Service, id: QuoteId, o: SendInput)
    requires s.store.fault
    ensures SendOutcome(env, s, id, o).0 == s && SendTransmits(env, s, id, o).None?
  {
  }

  lemma QuoteUnderFault(s: Service, o: QuoteInput)
    requires TronQuote.Stated(o.offer) && s.store.fault
    ensures QuoteOutcome(s, o).0 == s
  {
  }

  lemma HistoryUnderFault(s: Service, networkOk: bool, readings: seq<Reading>, w: Write)
    requires |readings| == |s.store.mem| && s.store.fault
    ensures var s' := HistoryOutcome(s, networkOk, readings, w).0;
      s'.store.fault && s'.quotes == s.quotes && |s'.store.mem| == |s.store.mem|
  {
  }

  lemma StepUnderFault(g: Setting, w: World, step: Step)
    requires Enabled(g, w, step) && w.service.store.fault && !step.Crash?
    ensures var w' := Apply(g, w, step);
      && w'.service.store.fault && w'.broadcast == w.broadcast && w'.service.quotes == w.service.quotes
      && |w'.service.store.mem| == |w.service.store.mem|
  {
    match step
    case MakeQuote(o) => QuoteUnderFault(w.service, o);
    case Send(id, o) => SendUnderFault(g.env, w.service, id, o);
    case Retry(_, _) =>
    case History(networkOk, readings, _, _, write) => HistoryUnderFault(w.service, networkOk, readings, write);
  }

  /** After a failed save, and until a restart, nothing more is quoted, signed or broadcast. */
  lemma {:induction false} FaultStopsSpending(g: Setting, states: seq<World>, steps: seq<Step>, i: nat, j: nat)
    requires IsRun(g, states, steps) && i <= j < |states|
    requires states[i].service.store.fault && forall k | i <= k < j :: !steps[k].Crash?
    ensures var w, w' := states[i], states[j];
      && w'.service.store.fault && w'.broadcast == w.broadcast && w'.service.quotes == w.service.quotes
      && |Memory(w')| == |Memory(w)|
    decreases j - i
  {
    if i < j {
      FaultStopsSpending(g, states, steps, i, j - 1);
      StepUnderFault(g, states[j - 1], steps[j - 1]);
    }
  }

  // ---- Success -----------------------------------------------------------------------------------------

  ghost function Successes(records: seq<Record>): set<Tx> {
    set r <- records | r.state == Succeeded :: r.tx
  }

  ghost function AllSuccesses(s: Store): set<Tx> {
    Successes(s.mem) + Successes(s.disk)
  }

  /** This step of History read a receipt of success for the transaction. */
  ghost predicate EarnedBy(w: World, step: Step, tx: Tx) {
    && step.History? && |step.readings| == |Memory(w)|
    && exists k | 0 <= k < |Memory(w)| :: Memory(w)[k].tx == tx && Succeeds(Memory(w)[k], step.readings[k])
  }

  lemma BroadcastSucceedsNone(s: Store, index: nat, a: Attempt)
    requires index < |s.mem|
    ensures AllSuccesses(Broadcast(s, index, a).0) <= AllSuccesses(s)
  {
    var next := s.mem[index := Attempted(s.mem[index], a)];
    forall r <- next | r.state == Succeeded
      ensures r in s.mem
    {
      var k :| 0 <= k < |next| && next[k] == r;
      assert k != index && s.mem[k] in s.mem;
    }
  }

  lemma SendSucceedsNone(env: Env, s: Service, id: QuoteId, o: SendInput)
    ensures AllSuccesses(SendOutcome(env, s, id, o).0.store) <= AllSuccesses(s.store)
  {
    if Signed(s, id, o) {
      var r := NewRecord(env, s.quotes[id], id, o.signature.value);
      SignedIs(env, s, id, o, r);
      var saved := Save(s.store, s.store.mem + [r], o.write);
      assert Successes(s.store.mem + [r]) == Successes(s.store.mem);
      if o.write.Done? {
        BroadcastSucceedsNone(saved, |s.store.mem|, o.attempt);
      }
    } else {
      UnsignedChangesNothing(env, s, id, o);
    }
  }

  lemma HistorySucceeds(w: World, step: Step, tx: Tx)
    requires step.History? && |step.readings| == |Memory(w)|
    requires tx in AllSuccesses(HistoryOutcome(w.service, step.networkOk, step.readings, step.write).0.store)
    ensures tx in AllSuccesses(w.service.store) || EarnedBy(w, step, tx)
  {
    var mem := Memory(w);
    if tx !in AllSuccesses(w.service.store) {
      var next := RefreshedAll(mem, step.readings);
      var r :| r in next && r.state == Succeeded && r.tx == tx;
      var k :| 0 <= k < |next| && next[k] == r;
      RefreshedSucceeds(mem[k], step.readings[k]);
      assert mem[k] in mem;
    }
  }

  lemma StepSucceeds(g: Setting, w: World, step: Step, tx: Tx)
    requires Enabled(g, w, step) && tx in AllSuccesses(Apply(g, w, step).service.store)
    ensures tx in AllSuccesses(w.service.store) || EarnedBy(w, step, tx)
  {
    match step
    case MakeQuote(o) => QuoteChange(w.service, o, Amount(o.offer));
    case Send(id, o) => SendSucceedsNone(g.env, w.service, id, o);
    case Retry(hash, a) =>
      var i := FirstHash(Memory(w), hash, 0);
      if i < |Memory(w)| {
        BroadcastSucceedsNone(w.service.store, i, a);
      }
    case History(_, _, _, _, _) => HistorySucceeds(w, step, tx);
    case Crash =>
  }

  /** In every run, a record counts as successful, in memory or in the file, only if a pass of History read a receipt
      of its own that did not fail and, for a token, returned true. */
  lemma {:induction false} SuccessWasEarned(g: Setting, states: seq<World>, steps: seq<Step>, j: nat, tx: Tx)
    requires IsRun(g, states, steps) && j < |states| && tx in AllSuccesses(states[j].service.store)
    ensures exists m | 0 <= m < j :: EarnedBy(states[m], steps[m], tx)
  {
    if j > 0 {
      StepSucceeds(g, states[j - 1], steps[j - 1], tx);
      if tx in AllSuccesses(states[j - 1].service.store) {
        SuccessWasEarned(g, states, steps, j - 1, tx);
      }
    }
  }
}

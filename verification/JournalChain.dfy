/**
 The journal over the chain itself: no winner is assumed, every finalized answer comes from Transaction,
 read in its order from a chain that may reorganise between any two reads. What compaction files as
 replaced never executes.
 */
module JournalChain {
  import opened Common
  import opened JournalModel
  import opened JournalInvariants
  import opened JournalReload
  import opened JournalStore
  import opened JournalProtocol
  import opened JournalSafety
  import opened JournalTheorems
  import opened JournalVersions
  import opened JournalEffects
  import ChainModel
  import Finality

  type Chains = seq<ChainModel.Chain>

  /** One lookup of History: when its reads happen, and what the node says without a receipt. */
  datatype Look = Look(at: Finality.Reads, lookup: Finality.Lookup)

  /** The wallet's account, the states that the chain goes through, and what each step of the wallet reads of it. */
  datatype Setting = Setting(sender: ChainModel.Address, run: Chains, looks: seq<Look>, clock: seq<nat>)

  ghost predicate Lawful(c: Setting) {
    ChainModel.IsHistory(c.run) && forall chain <- c.run :: |chain.blocks| > 0
  }

  function StateOf(s: Finality.TxState): State {
    match s
    case Pending => State.Pending
    case ReceiptUnavailable => State.ReceiptUnavailable
    case ReorgDetected => State.ReorgDetected
    case Succeeded => State.Succeeded
    case Reverted => State.Reverted
  }

  /** The reads of step k fall between the chain state in which the step begins and the one in which it ends. */
  ghost predicate Timely(c: Setting, k: nat) {
    && k < |c.looks| && k + 1 < |c.clock| && c.clock[k] <= c.clock[k + 1] < |c.run|
    && Finality.Within(c.looks[k].at, c.run) && Finality.InOrder(c.looks[k].at)
    && (c.looks[k].at.finalHead.Some? ==> c.looks[k].at.finalHead.value <= c.clock[k + 1])
  }

  /** What History writes is the answer of Transaction. */
  ghost predicate Answers(c: Setting, k: nat, hash: Hash, seen: Observation)
    requires Lawful(c) && Timely(c, k)
  {
    var a := Finality.Transaction(c.run, hash, c.looks[k].at, c.looks[k].lookup);
    a.Report? && seen.state == StateOf(a.state) && seen.finalized == a.finalized && seen.error == ""
  }

  /** A run of the wallet over the chain. */
  ghost predicate IsChainRun(states: seq<World>, steps: seq<Step>, chainId: int, c: Setting)
    requires Lawful(c)
  {
    && |states| == |steps| + 1 && states[0] == START
    && |c.clock| == |states| && c.clock[0] < |c.run|
    && (forall k | 0 <= k < |steps| :: Timely(c, k))
    && (forall k | 0 <= k < |steps| ::
          Possible(states[k], steps[k], chainId) && states[k + 1] == Apply(states[k], steps[k], Env(chainId, map[])))
    && (forall k | 0 <= k < |steps| && steps[k].Refresh? ::
          Answers(c, k, states[k].history.items[steps[k].index].id.hash, steps[k].seen))
  }

  /** The chain executes a transaction of the wallet only from its account and at its nonce. */
  ghost predicate OwnTransactions(states: seq<World>, c: Setting) {
    forall k, id | 0 <= k < |states| && id in Ids(states[k].store.mem) ::
      Finality.Spends(c.run, id.hash, c.sender, id.nonce)
  }

  // ---- The winners exist -----------------------------------------------------------------------------

  ghost function FinalNonces(c: ChainModel.Chain, sender: ChainModel.Address): set<nat> {
    set n, tx | 0 <= n < |c.blocks| && tx in c.blocks[n].txs && n <= c.final && tx.sender == sender :: tx.nonce
  }

  /** Every chain has its map of winners. */
  lemma WinnersExist(run: Chains, sender: ChainModel.Address) returns (winners: Winners)
    requires ChainModel.IsHistory(run)
    ensures Finality.AreWinners(winners, run, sender)
  {
    if run == [] {
      winners := map[];
    } else {
      var last := run[|run| - 1];
      winners := map nonce | nonce in FinalNonces(last, sender) :: FinalHash(last, sender, nonce);
      forall nonce: nat, hash | Finality.FinalAt(run, sender, nonce, hash)
        ensures nonce in winners && winners[nonce] == hash
      {
        FinalIsKnown(last, sender, nonce, hash);
        var n :| 0 <= n < |last.blocks| && n <= last.final
          && Finality.SpendsIn(last.blocks[n], sender, nonce, FinalHash(last, sender, nonce));
        Finality.SpentOnce(last, sender, nonce, FinalHash(last, sender, nonce), hash, n);
      }
    }
  }

  ghost function FinalHash(c: ChainModel.Chain, sender: ChainModel.Address, nonce: nat): Hash {
    if hash :| Finality.FinalIn(c, sender, nonce, hash) then hash else ""
  }

  lemma FinalIsKnown(c: ChainModel.Chain, sender: ChainModel.Address, nonce: nat, hash: Hash)
    requires Finality.FinalIn(c, sender, nonce, hash)
    ensures nonce in FinalNonces(c, sender) && Finality.FinalIn(c, sender, nonce, FinalHash(c, sender, nonce))
  {
    var n :| 0 <= n < |c.blocks| && n <= c.final && Finality.SpendsIn(c.blocks[n], sender, nonce, hash);
    var tx :| tx in c.blocks[n].txs && tx.sender == sender && tx.nonce == nonce && tx.hash == hash;
  }

  /** So what the machine assumes of its answers holds, and all that is proved of its runs applies. */
  lemma ChainRunIsRun(states: seq<World>, steps: seq<Step>, chainId: int, c: Setting) returns (env: Env)
    requires Lawful(c) && IsChainRun(states, steps, chainId, c) && OwnTransactions(states, c)
    ensures env.chainId == chainId && Finality.AreWinners(env.winners, c.run, c.sender)
    ensures IsRun(states, steps, env)
  {
    env := Env(chainId, WinnersOf(c));
    ChainStretchIsRun(states, steps, chainId, c, env, |steps|);
    assert states[..|steps| + 1] == states && steps[..|steps|] == steps;
  }

  ghost function WinnersOf(c: Setting): (winners: Winners)
    requires Lawful(c)
    ensures Finality.AreWinners(winners, c.run, c.sender)
  {
    var last := if c.run == [] then ChainModel.Chain([], 0) else c.run[|c.run| - 1];
    assert exists winners: Winners :: Finality.AreWinners(winners, c.run, c.sender) by {
      var winners := WinnersExist(c.run, c.sender);
    }
    var winners: Winners :| Finality.AreWinners(winners, c.run, c.sender);
    winners
  }

  lemma SameApply(s: World, step: Step, env: Env, env': Env)
    requires env.chainId == env'.chainId && Possible(s, step, env.chainId)
    ensures Apply(s, step, env) == Apply(s, step, env')
  {
  }

  lemma AnswerIsLegal(c: Setting, k: nat, id: Identity, seen: Observation, env: Env)
    requires Lawful(c) && Timely(c, k) && Answers(c, k, id.hash, seen)
    requires Finality.AreWinners(env.winners, c.run, c.sender) && Finality.Spends(c.run, id.hash, c.sender, id.nonce)
    ensures ChainAnswer(seen, id, env)
    ensures seen.finalized ==> Finality.SaysFinalized(c.run, id.hash, c.looks[k].at, c.looks[k].lookup)
  {
    var look := c.looks[k];
    if seen.finalized {
      Finality.ReportsAgreeWithWinners(c.run, env.winners, id.hash, c.sender, id.nonce, look.at, look.lookup);
      Finality.FinalizedIsPermanent(c.run, id.hash, look.at, look.lookup);
    }
  }

  /** A step that the chain answers is a step of the machine. */
  lemma StepIsLegal(s: World, t: Torn, step: Step, s': World, env: Env, c: Setting, k: nat)
    requires Lawful(c) && Timely(c, k) && WorldInv(s, t, env) && Possible(s, step, env.chainId)
    requires s' == Apply(s, step, Env(env.chainId, map[]))
    requires step.Refresh? ==> Answers(c, k, s.history.items[step.index].id.hash, step.seen)
    requires Finality.AreWinners(env.winners, c.run, c.sender)
    requires forall id <- Ids(s.store.mem) :: Finality.Spends(c.run, id.hash, c.sender, id.nonce)
    ensures Takes(s, step, s', env)
  {
    if step.Refresh? {
      ItemKnown(s, t, step.index, env);
      AnswerIsLegal(c, k, s.history.items[step.index].id, step.seen, env);
    }
    SameApply(s, step, env, Env(env.chainId, map[]));
  }

  lemma ChainStep(states: seq<World>, steps: seq<Step>, c: Setting, env: Env, k: nat)
    requires Lawful(c) && IsChainRun(states, steps, env.chainId, c) && OwnTransactions(states, c) && k < |steps|
    requires Finality.AreWinners(env.winners, c.run, c.sender) && IsRun(states[..k + 1], steps[..k], env)
    ensures Takes(states[k], steps[k], states[k + 1], env)
  {
    var t := RunInv(states[..k + 1], steps[..k], env, k);
    assert states[..k + 1][k] == states[k] && Timely(c, k);
    StepIsLegal(states[k], t, steps[k], states[k + 1], env, c, k);
  }

  lemma {:induction false} ChainStretchIsRun(states: seq<World>, steps: seq<Step>, chainId: int, c: Setting, env: Env,
                                             n: nat)
    requires Lawful(c) && IsChainRun(states, steps, chainId, c) && OwnTransactions(states, c) && n <= |steps|
    requires env.chainId == chainId && Finality.AreWinners(env.winners, c.run, c.sender)
    ensures IsRun(states[..n + 1], steps[..n], env)
  {
    if n > 0 {
      ChainStretchIsRun(states, steps, chainId, c, env, n - 1);
      ChainStep(states, steps, c, env, n - 1);
      RunSnoc(states[..n], steps[..n - 1], steps[n - 1], states[n], env);
      assert states[..n] + [states[n]] == states[..n + 1] && steps[..n - 1] + [steps[n - 1]] == steps[..n];
    }
  }

  lemma ItemKnown(s: World, t: Torn, i: nat, env: Env)
    requires WorldInv(s, t, env) && s.history.Refreshing? && i < |s.history.items|
    ensures s.history.items[i].id in Ids(s.store.mem)
  {
    assert s.history.items[i] in s.history.items;
  }

  lemma RunSnoc(states: seq<World>, steps: seq<Step>, step: Step, s': World, env: Env)
    requires IsRun(states, steps, env) && Takes(states[|steps|], step, s', env)
    ensures IsRun(states + [s'], steps + [step], env)
  {
    var all, taken := states + [s'], steps + [step];
    forall i | 0 <= i < |taken|
      ensures Enabled(all[i], taken[i], env) && all[i + 1] == Apply(all[i], taken[i], env)
    {
      if i < |steps| {
        assert all[i] == states[i] && all[i + 1] == states[i + 1] && taken[i] == steps[i];
      }
    }
  }

  // ---- Final records are final on the chain --------------------------------------------------------------

  /** Transaction has said at some time that this record is final, with this result. */
  ghost predicate Proven(c: Setting, r: Record, now: nat)
    requires Lawful(c)
  {
    exists k: nat :: k < now && Timely(c, k) && ProvenAt(c, r, k)
  }

  ghost predicate ProvenAt(c: Setting, r: Record, k: nat)
    requires Lawful(c) && Timely(c, k)
  {
    var a := Finality.Transaction(c.run, r.id.hash, c.looks[k].at, c.looks[k].lookup);
    a.Report? && a.finalized && StateOf(a.state) == r.state
  }

  ghost predicate AllProven(c: Setting, rs: seq<Record>, now: nat)
    requires Lawful(c)
  {
    forall r <- rs :: FinalMined(r) ==> Proven(c, r, now)
  }

  /** In memory, in the journal file and in every archive file. */
  ghost predicate StoreProven(c: Setting, s: Store, now: nat)
    requires Lawful(c)
  {
    && AllProven(c, s.mem.active, now) && AllProven(c, s.mem.archived, now) && AllProven(c, s.disk.active, now)
    && (forall name <- s.disk.archives :: AllProven(c, s.disk.archives[name], now))
  }

  lemma ProvenLater(c: Setting, s: Store, now: nat, later: nat)
    requires Lawful(c) && StoreProven(c, s, now) && now <= later
    ensures StoreProven(c, s, later)
  {
    forall r: Record | Proven(c, r, now)
      ensures Proven(c, r, later)
    {
      var k: nat :| k < now && Timely(c, k) && ProvenAt(c, r, k);
    }
  }

  lemma UpdateProven(c: Setting, s: Store, hash: Hash, expected: nat, o: Observation, write: Write, now: nat)
    requires Lawful(c) && StoreProven(c, s, now)
    requires o.finalized ==> forall r: Record :: r.id.hash == hash && r.state == o.state ==> Proven(c, r, now)
    ensures StoreProven(c, Update(s, hash, expected, o, write).0, now)
  {
    var i := LastIndex(s.mem.active, hash);
    if i < |s.mem.active| {
      var next := s.mem.active[i := Observed(s.mem.active[i], o)];
      forall r <- next | FinalMined(r)
        ensures Proven(c, r, now)
      {
        assert r in s.mem.active || r == next[i];
      }
    }
  }

  lemma AppendProven(c: Setting, s: Store, r: Record, chainId: int, write: Write, now: nat)
    requires Lawful(c) && StoreProven(c, s, now) && !r.finalized
    ensures StoreProven(c, Append(s, r, chainId, write).0, now)
  {
  }

  lemma ArchiveProven(c: Setting, s: Store, w1: Write, w2: Write, now: nat)
    requires Lawful(c) && StoreProven(c, s, now)
    ensures StoreProven(c, Archive(s, w1, w2).0, now)
  {
    SplitMembers(s.mem, |s.mem.active|);
    assert AllProven(c, KeptTo(s.mem, |s.mem.active|), now);
    forall r <- Batch(s.mem) | FinalMined(r)
      ensures Proven(c, r, now)
    {
      var i :| 0 <= i < |s.mem.active| && r == Sealed(s.mem.active[i]) && Archivable(s.mem, i);
      assert s.mem.active[i] in s.mem.active;
    }
  }

  lemma {:induction false} MergeProven(c: Setting, v: View, file: seq<Record>, now: nat)
    requires Lawful(c) && AllProven(c, v.archived, now) && AllProven(c, file, now)
    ensures Merge(v, file).active == v.active && AllProven(c, Merge(v, file).archived, now)
  {
    if file != [] {
      MergeProven(c, v, file[..|file| - 1], now);
      var last := file[|file| - 1];
      assert last in file;
      FromDiskProven(c, last, now);
    }
  }

  lemma FromDiskProven(c: Setting, r: Record, now: nat)
    requires Lawful(c) && (FinalMined(r) ==> Proven(c, r, now))
    ensures FinalMined(FromDisk(r)) ==> Proven(c, FromDisk(r), now)
  {
    if FinalMined(r) {
      var k: nat :| k < now && Timely(c, k) && ProvenAt(c, r, k);
      assert ProvenAt(c, FromDisk(r), k);
    }
  }

  lemma {:induction false} MergeAllProven(c: Setting, v: View, files: Files, order: seq<ArchiveName>, now: nat)
    requires Lawful(c) && AllProven(c, v.archived, now) && (forall name <- order :: name in files)
    requires forall name <- files :: AllProven(c, files[name], now)
    ensures MergeAll(v, files, order).active == v.active && AllProven(c, MergeAll(v, files, order).archived, now)
  {
    if order != [] {
      MergeAllProven(c, v, files, order[..|order| - 1], now);
      MergeProven(c, MergeAll(v, files, order[..|order| - 1]), files[order[|order| - 1]], now);
    }
  }

  lemma LoadProven(c: Setting, s: Store, chainId: int, order: seq<ArchiveName>, now: nat)
    requires Lawful(c) && StoreProven(c, s, now) && Lists(order, s.disk.archives)
      && Load(s.disk, chainId, order).Loaded?
    ensures StoreProven(c, Store(Load(s.disk, chainId, order).view, s.disk), now)
  {
    var active := Restored(s.disk.active);
    forall r <- active
      ensures FinalMined(r) ==> Proven(c, r, now)
    {
      var i :| 0 <= i < |active| && active[i] == r;
      FromDiskProven(c, s.disk.active[i], now);
    }
    MergeAllProven(c, View(active, []), s.disk.archives, order, now);
  }

  lemma NotFinalized(s: World, t: Torn, env: Env)
    requires WorldInv(s, t, env) && s.send.Sent?
    ensures !s.send.result.finalized
  {
  }

  /** The updates, given what the observation is worth. */
  lemma UpdateStepProven(c: Setting, s: World, step: Step, env: Env, k: nat)
    requires Lawful(c) && StoreProven(c, s.store, k) && Possible(s, step, env.chainId)
    requires step.Settle? || step.Refresh? || step.Demote?
    requires step.Settle? ==> !s.send.result.finalized
    requires step.Refresh? && step.seen.finalized ==>
      forall r: Record :: r.id.hash == s.history.items[step.index].id.hash && r.state == step.seen.state
        ==> Proven(c, r, k)
    ensures StoreProven(c, NextStore(s, step, env), k)
  {
    if step.Settle? {
      UpdateProven(c, s.store, s.send.record.id.hash, s.send.record.version, s.send.result, step.write, k);
    } else if step.Refresh? {
      var item := s.history.items[step.index];
      UpdateProven(c, s.store, item.id.hash, item.version, step.seen, step.write, k);
    } else {
      UpdateProven(c, s.store, s.history.item.id.hash, s.history.item.version, DEMOTED, step.write, k);
    }
  }

  lemma OtherStepProven(c: Setting, s: World, step: Step, env: Env, k: nat)
    requires Lawful(c) && StoreProven(c, s.store, k) && Possible(s, step, env.chainId)
    requires !step.Settle? && !step.Refresh? && !step.Demote?
    ensures StoreProven(c, NextStore(s, step, env), k)
  {
    if step.SendAppend? {
      AppendProven(c, s.store, NewRecord(s.send.quote, step.signed), env.chainId, step.write, k);
    } else if step.Compact? {
      ArchiveProven(c, s.store, step.write, step.secondWrite, k);
    } else if step.Crash? && Load(s.store.disk, env.chainId, step.order).Loaded? {
      LoadProven(c, s.store, env.chainId, step.order, k);
    }
  }

  lemma StepProven(c: Setting, s: World, t: Torn, step: Step, env: Env, k: nat)
    requires Lawful(c) && StoreProven(c, s.store, k) && WorldInv(s, t, env) && Enabled(s, step, env)
    requires Timely(c, k) && (step.Refresh? ==> Answers(c, k, s.history.items[step.index].id.hash, step.seen))
    ensures StoreProven(c, NextStore(s, step, env), k + 1)
  {
    ProvenLater(c, s.store, k, k + 1);
    if step.Settle? || step.Refresh? || step.Demote? {
      if step.Settle? {
        NotFinalized(s, t, env);
      } else if step.Refresh? {
        RefreshProven(c, k, s.history.items[step.index].id.hash, step.seen);
      }
      UpdateStepProven(c, s, step, env, k + 1);
    } else {
      OtherStepProven(c, s, step, env, k + 1);
    }
  }

  lemma RefreshProven(c: Setting, k: nat, hash: Hash, seen: Observation)
    requires Lawful(c) && Timely(c, k) && Answers(c, k, hash, seen)
    ensures seen.finalized ==> forall r: Record :: r.id.hash == hash && r.state == seen.state ==> Proven(c, r, k + 1)
  {
    forall r: Record | r.id.hash == hash && r.state == seen.state && seen.finalized
      ensures Proven(c, r, k + 1)
    {
      assert ProvenAt(c, r, k);
    }
  }

  lemma {:induction false} RunProven(states: seq<World>, steps: seq<Step>, env: Env, c: Setting, i: nat)
    requires Lawful(c) && IsChainRun(states, steps, env.chainId, c) && IsRun(states, steps, env) && i <= |steps|
    ensures StoreProven(c, states[i].store, i)
  {
    if i > 0 {
      RunProven(states, steps, env, c, i - 1);
      var t := RunInv(states, steps, env, i - 1);
      StepProven(c, states[i - 1], t, steps[i - 1], env, i - 1);
      NextStoreIs(states[i - 1], steps[i - 1], env);
    }
  }

  lemma {:induction false} ClockGoesOn(c: Setting, i: nat, j: nat)
    requires i <= j && forall k | 0 <= k < j :: Timely(c, k)
    requires j < |c.clock|
    ensures c.clock[i] <= c.clock[j]
  {
    if i < j {
      ClockGoesOn(c, i, j - 1);
      assert Timely(c, j - 1);
    }
  }

  // ---- What a refresh records is what the chain holds --------------------------------------------------------

  /** A refresh that finds its version, and whose answer is a success or a revert, leaves that result in the record; the
      chain that gave the receipt has executed the transaction with just this result, and the record is final exactly if
      the block was still canonical after a finalized head at or above it. */
  lemma RefreshRecordsTheChain(states: seq<World>, steps: seq<Step>, chainId: int, c: Setting, k: nat, p: nat)
    returns (tx: ChainModel.Execution)
    requires Lawful(c) && IsChainRun(states, steps, chainId, c) && OwnTransactions(states, c)
    requires k < |steps| && steps[k].Refresh? && steps[k].write.Done? && Mined(steps[k].seen.state)
    requires Current(states[k].store.mem, p, states[k].history.items[steps[k].index])
    ensures Timely(c, k) && p < |states[k + 1].store.mem.active|
    ensures var r', hash := states[k + 1].store.mem.active[p], states[k].history.items[steps[k].index].id.hash;
      var a := Finality.Transaction(c.run, hash, c.looks[k].at, c.looks[k].lookup);
      && r'.id.hash == hash && a.Report? && Finality.Found(c.run, hash, c.looks[k].at, tx, a.block)
      && (r'.state == Succeeded <==> tx.success) && (r'.state == Reverted <==> !tx.success)
      && (r'.finalized <==> Finality.StaysCanonical(c.run, a.block, a.blockHash, c.looks[k].at))
  {
    var env := ChainRunIsRun(states, steps, chainId, c);
    RefreshIsRecorded(states, steps, env, k, p);
    var hash := states[k].history.items[steps[k].index].id.hash;
    tx := MinedAnswer(c, k, hash, steps[k].seen);
  }

  lemma MinedAnswer(c: Setting, k: nat, hash: Hash, seen: Observation) returns (tx: ChainModel.Execution)
    requires Lawful(c) && Timely(c, k) && Answers(c, k, hash, seen) && Mined(seen.state)
    ensures var a := Finality.Transaction(c.run, hash, c.looks[k].at, c.looks[k].lookup);
      && a.Report? && Finality.Found(c.run, hash, c.looks[k].at, tx, a.block)
      && (seen.state == Succeeded <==> tx.success) && (seen.state == Reverted <==> !tx.success)
      && (seen.finalized <==> Finality.StaysCanonical(c.run, a.block, a.blockHash, c.looks[k].at))
  {
    tx := Finality.MinedReportIsTrue(c.run, hash, c.looks[k].at, c.looks[k].lookup);
  }

  // ---- What is filed as replaced never executes ------------------------------------------------------------

  /** In the archive in memory, or in an archive file. */
  ghost predicate InArchive(s: Store, r: Record) {
    r in s.mem.archived || exists name <- s.disk.archives :: r in s.disk.archives[name]
  }

  lemma WinnerProven(s: Store, r: Record, c: Setting, i: nat)
    requires Lawful(c) && StoreProven(c, s, i) && r in All(s.mem) && FinalMined(r)
    ensures Proven(c, r, i)
  {
  }

  lemma RivalOf(s: Store, r: Record, chainId: int, w: Winners) returns (winner: Record)
    requires Inv(s.mem, s.disk.archives, chainId, w) && InArchive(s, r) && r.state == Replaced
    ensures winner in All(s.mem) && FinalMined(winner) && winner.id.nonce == r.id.nonce && winner.id.hash != r.id.hash
    ensures winner.id in Ids(s.mem) && r.id in Ids(s.mem)
  {
    var v := s.mem;
    if r !in v.archived {
      var name :| name in s.disk.archives && r in s.disk.archives[name];
      assert GoodFile(name, s.disk.archives[name], DigestOf(v), chainId, w);
    }
    assert GoodArchived(r, DigestOf(v), chainId, w);
    winner :| winner in All(v) && FinalMined(winner) && winner.id.nonce == r.id.nonce;
    assert Won(w, winner.id);
  }

  /** The step of the run that proved a final record. */
  lemma ProofOf(states: seq<World>, steps: seq<Step>, env: Env, c: Setting, i: nat, r: Record) returns (k: nat)
    requires Lawful(c) && IsChainRun(states, steps, env.chainId, c) && IsRun(states, steps, env) && i <= |steps|
    requires r in All(states[i].store.mem) && FinalMined(r)
    ensures Timely(c, k) && ProvenAt(c, r, k) && k + 1 < |c.clock| && c.clock[k + 1] <= c.clock[i]
  {
    RunProven(states, steps, env, c, i);
    WinnerProven(states[i].store, r, c, i);
    k :| k < i && Timely(c, k) && ProvenAt(c, r, k);
    ClockGoesOn(c, k + 1, i);
  }

  lemma ArchivedRival(states: seq<World>, steps: seq<Step>, env: Env, i: nat, r: Record) returns (winner: Record)
    requires IsRun(states, steps, env) && i <= |steps| && InArchive(states[i].store, r) && r.state == Replaced
    ensures winner in All(states[i].store.mem) && FinalMined(winner)
    ensures winner.id.nonce == r.id.nonce && winner.id.hash != r.id.hash
    ensures winner.id in Ids(states[i].store.mem) && r.id in Ids(states[i].store.mem)
  {
    var t := RunInv(states, steps, env, i);
    winner := RivalOf(states[i].store, r, env.chainId, env.winners);
  }

  /** After a proof, no rival of the nonce is on any later chain. */
  lemma RivalGone(c: Setting, k: nat, winner: Record, rival: Identity, j: nat)
    requires Lawful(c) && Timely(c, k) && ProvenAt(c, winner, k) && c.clock[k + 1] <= j < |c.run|
    requires winner.id.nonce == rival.nonce && winner.id.hash != rival.hash
    requires Finality.Spends(c.run, winner.id.hash, c.sender, winner.id.nonce)
    requires Finality.Spends(c.run, rival.hash, c.sender, rival.nonce)
    ensures Finality.ReceiptFrom(c.run[j].blocks, rival.hash, 0).None?
  {
    var look := c.looks[k];
    Finality.RivalNeverExecutes(c.run, winner.id.hash, rival.hash, c.sender, rival.nonce, look.at, look.lookup, j);
  }

  /** In every run of the wallet over a chain that may reorganise at any time: a record that is archived as replaced, in
      memory or in a file, has no receipt on any later state of the chain. */
  lemma ReplacedNeverExecutes(states: seq<World>, steps: seq<Step>, chainId: int, c: Setting, i: nat, r: Record, j: nat)
    requires Lawful(c) && IsChainRun(states, steps, chainId, c) && OwnTransactions(states, c)
    requires i <= |steps| && InArchive(states[i].store, r) && r.state == Replaced
    requires c.clock[i] <= j < |c.run|
    ensures Finality.ReceiptFrom(c.run[j].blocks, r.id.hash, 0).None?
  {
    var env := ChainRunIsRun(states, steps, chainId, c);
    var winner := ArchivedRival(states, steps, env, i, r);
    var k := ProofOf(states, steps, env, c, i, winner);
    RivalGone(c, k, winner, r.id, j);
  }

  lemma WinnerThere(c: Setting, k: nat, r: Record, j: nat)
    requires Lawful(c) && Timely(c, k) && ProvenAt(c, r, k) && c.clock[k + 1] <= j < |c.run|
    ensures var receipt := Finality.ReceiptFrom(c.run[j].blocks, r.id.hash, 0);
      receipt.Some? && receipt.value.success == (r.state == Succeeded) && receipt.value.number <= c.run[j].final
  {
    var look := c.looks[k];
    var a := Finality.Transaction(c.run, r.id.hash, look.at, look.lookup);
    Finality.FinalizedIsPermanent(c.run, r.id.hash, look.at, look.lookup);
    Finality.ForeverHasReceipt(c.run, r.id.hash, a.block, a.state == Finality.Succeeded, look.at.finalHead.value, j);
  }

  /** And a record that is finalized and mined has a final receipt with its result on every later state. */
  lemma FinalizedExecuted(states: seq<World>, steps: seq<Step>, chainId: int, c: Setting, i: nat, r: Record, j: nat)
    requires Lawful(c) && IsChainRun(states, steps, chainId, c) && OwnTransactions(states, c)
    requires i <= |steps| && r in All(states[i].store.mem) && FinalMined(r)
    requires c.clock[i] <= j < |c.run|
    ensures var receipt := Finality.ReceiptFrom(c.run[j].blocks, r.id.hash, 0);
      receipt.Some? && receipt.value.success == (r.state == Succeeded) && receipt.value.number <= c.run[j].final
  {
    var env := ChainRunIsRun(states, steps, chainId, c);
    var k := ProofOf(states, steps, env, c, i, r);
    WinnerThere(c, k, r, j);
  }
}

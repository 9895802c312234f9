/**
 What holds in every state of every run of the wallet: from the empty directory, through any
 interleaving of Quote, Send, Retry and History, with failing writes and crashes at any point.
 */
module JournalTheorems {
  import opened Common
  import opened JournalModel
  import opened JournalInvariants
  import opened JournalReload
  import opened JournalCompaction
  import opened JournalStore
  import opened Replacement
  import opened JournalProtocol
  import opened JournalSafety

  lemma StartInv(env: Env)
    ensures WorldInv(START, Clean, env)
  {
  }

  lemma {:induction false} RunInv(states: seq<World>, steps: seq<Step>, env: Env, i: nat) returns (t: Torn)
    requires IsRun(states, steps, env) && i <= |steps|
    ensures WorldInv(states[i], t, env)
  {
    if i == 0 {
      StartInv(env);
      t := Clean;
    } else {
      var t0 := RunInv(states, steps, env, i - 1);
      t := StepKeeps(states[i - 1], t0, steps[i - 1], env);
    }
  }

  lemma UpdateFollows(s: World, t: Torn, r: Record, o: Observation, write: Write, env: Env)
    requires WorldInv(s, t, env) && OpenSnapshot(r, s.store.mem) && LegalObservation(o, r.id, env.winners)
    ensures Follows(s.store.mem, Update(s.store, r.id.hash, r.version, o, write).0.mem)
  {
    var t' := UpdateStore(s.store, t, r.id, r.version, o, write, env.chainId, env.winners);
  }

  lemma AppendFollows(s: World, t: Torn, step: Step, env: Env)
    requires WorldInv(s, t, env) && Enabled(s, step, env) && step.SendAppend?
    ensures Follows(s.store.mem, Apply(s, step, env).store.mem)
    ensures Apply(s, step, env).send.Durable? ==>
      Ids(Apply(s, step, env).store.mem) == Ids(s.store.mem) + {NewRecord(s.send.quote, step.signed).id}
  {
    var r := NewRecord(s.send.quote, step.signed);
    NewRecordIsOk(s, t, step.signed, step.write, env);
    var t' := AppendStore(s.store, t, r, step.write, env.chainId, env.winners);
    AppendApplies(s, step, env);
  }

  /** Every step, crashes included, gives memory a view that follows the one before. */
  lemma StepFollows(s: World, t: Torn, step: Step, env: Env)
    requires WorldInv(s, t, env) && Enabled(s, step, env)
    ensures Follows(s.store.mem, Apply(s, step, env).store.mem)
  {
    if step.SendAppend? {
      AppendFollows(s, t, step, env);
    } else if step.Settle? {
      UpdateFollows(s, t, s.send.record, s.send.result, step.write, env);
    } else if step.Refresh? {
      UpdateFollows(s, t, s.history.items[step.index], step.seen, step.write, env);
    } else if step.Demote? {
      UpdateFollows(s, t, s.history.item, DEMOTED, step.write, env);
    } else if step.Compact? {
      var t' := ArchiveStore(s.store, t, step.write, step.secondWrite, env.chainId, env.winners);
    } else if step.Crash? {
      ReloadStore(s.store, t, step.order, env.chainId, env.winners);
    } else {
      FollowsItself(s.store.mem);
      assert Apply(s, step, env).store == s.store;
    }
  }

  lemma WorldUnique(s: World, t: Torn, env: Env)
    requires WorldInv(s, t, env)
    ensures UniqueView(s.store.mem) && s.broadcast <= Ids(s.store.mem)
  {
  }

  lemma RunStep(states: seq<World>, steps: seq<Step>, env: Env, i: nat)
    requires IsRun(states, steps, env) && i < |steps|
    ensures Follows(states[i].store.mem, states[i + 1].store.mem) && UniqueView(states[i + 1].store.mem)
  {
    var t := RunInv(states, steps, env, i);
    StepFollows(states[i], t, steps[i], env);
    var t' := StepKeeps(states[i], t, steps[i], env);
    WorldUnique(states[i + 1], t', env);
  }

  lemma RunUnique(states: seq<World>, steps: seq<Step>, env: Env, i: nat)
    requires IsRun(states, steps, env) && i <= |steps|
    ensures UniqueView(states[i].store.mem) && states[i].broadcast <= Ids(states[i].store.mem)
  {
    var t := RunInv(states, steps, env, i);
    WorldUnique(states[i], t, env);
  }

  lemma {:induction false} ChainFollows(views: seq<View>, i: nat, j: nat)
    requires i <= j < |views|
    requires forall k | 0 <= k < |views| :: UniqueView(views[k])
    requires forall k {:trigger views[k]} | 0 < k < |views| :: Follows(views[k - 1], views[k])
    ensures Follows(views[i], views[j])
    decreases j - i
  {
    if i == j {
      FollowsItself(views[i]);
    } else {
      ChainFollows(views, i, j - 1);
      FollowsTransitive(views[i], views[j - 1], views[j]);
    }
  }

  lemma RunFollows(states: seq<World>, steps: seq<Step>, env: Env, i: nat, j: nat)
    requires IsRun(states, steps, env) && i <= j <= |steps|
    ensures Follows(states[i].store.mem, states[j].store.mem)
  {
    var views := seq(|states|, k requires 0 <= k < |states| => states[k].store.mem);
    forall k | 0 <= k < |views| ensures UniqueView(views[k]) && (0 < k ==> Follows(views[k - 1], views[k])) {
      RunUnique(states, steps, env, k);
      if 0 < k {
        RunStep(states, steps, env, k - 1);
      }
    }
    ChainFollows(views, i, j);
  }

  // ---- Crash safety --------------------------------------------------------------------------------

  /** Duplicates, never a gap: whatever was ever broadcast is on disk, and a restart at this point
      loads without error and finds it again with the same bytes. */
  lemma NothingBroadcastIsLost(states: seq<World>, steps: seq<Step>, env: Env, i: nat, order: seq<ArchiveName>)
    requires IsRun(states, steps, env) && i <= |steps|
    requires Lists(order, states[i].store.disk.archives)
    ensures forall id <- states[i].broadcast :: OnDisk(id, states[i].store.disk)
    ensures Load(states[i].store.disk, env.chainId, order).Loaded?
    ensures forall id <- states[i].broadcast ::
      IdentityOf(FindHash(All(Load(states[i].store.disk, env.chainId, order).view), id.hash)) == Some(id)
  {
    var s := states[i];
    var t := RunInv(states, steps, env, i);
    NothingMissing(s.store, t, env.chainId, env.winners);
    ReloadStore(s.store, t, order, env.chainId, env.winners);
    forall id <- s.broadcast
      ensures IdentityOf(FindHash(All(Load(s.store.disk, env.chainId, order).view), id.hash)) == Some(id)
    {
      LookupIds(Load(s.store.disk, env.chainId, order).view, id.quoteId, id.hash);
    }
  }

  // ---- Compaction is invisible ----------------------------------------------------------------------

  /** The view that a restart would give answers as what the disk stands for. */
  lemma ReloadAnswers(s: Store, t: Torn, order: seq<ArchiveName>, chainId: int, w: Winners)
    requires StoreInv(s, t, chainId, w) && Lists(order, s.disk.archives)
    ensures Load(s.disk, chainId, order).Loaded?
    ensures SameAnswers(Shadow(s.mem, t), Load(s.disk, chainId, order).view)
  {
    ReloadStore(s, t, order, chainId, w);
    ShadowKeeps(s.mem, s.disk.archives, t, chainId, w);
    ReloadSameAnswers(Shadow(s.mem, t), Load(s.disk, chainId, order).view, chainId, w);
  }

  lemma SameAnswersItself(v: View)
    ensures SameAnswers(v, v)
  {
  }

  /** Whatever happened to earlier writes and happens to its own two, Archive changes no answer of the running
      journal. A restart right after it (or in the middle of it) answers as the running journal did if the active
      file was rewritten, and otherwise as a restart before it would have. */
  lemma CompactionInvisible(s: Store, t: Torn, w1: Write, w2: Write, before: seq<ArchiveName>, after: seq<ArchiveName>,
                            chainId: int, w: Winners)
    requires StoreInv(s, t, chainId, w) && Lists(before, s.disk.archives)
    requires Lists(after, Archive(s, w1, w2).0.disk.archives)
    ensures var s' := Archive(s, w1, w2).0;
      && SameAnswers(s.mem, s'.mem)
      && Load(s.disk, chainId, before).Loaded? && Load(s'.disk, chainId, after).Loaded?
      && SameAnswers(if s'.disk.active == s.disk.active then Load(s.disk, chainId, before).view else s.mem,
                     Load(s'.disk, chainId, after).view)
  {
    var s' := Archive(s, w1, w2).0;
    var t' := ArchiveStore(s, t, w1, w2, chainId, w);
    ReloadAnswers(s, t, before, chainId, w);
    ReloadAnswers(s', t', after, chainId, w);
    var was, will := Load(s.disk, chainId, before).view, Load(s'.disk, chainId, after).view;
    SameAnswersItself(s.mem);
    SameAnswersSymmetric(Shadow(s.mem, t), was);
    if t' == t && s'.mem == s.mem {
      SameAnswersTransitive(was, Shadow(s.mem, t), will);
    } else {
      FilingKeeps(s.mem, s.disk.archives, chainId, w);
      CompactionSameAnswers(s.mem, s'.disk.archives, chainId, w);
      SameAnswersTransitive(s.mem, Compacted(s.mem), will);
      if s'.disk.active == s.disk.active {
        OnlyCompactionTorn(s, t, chainId, w);
        SameAnswersTransitive(was, Compacted(s.mem), will);
      }
    }
  }

  /** No other failed write leaves an active file that looks compacted. */
  lemma OnlyCompactionTorn(s: Store, t: Torn, chainId: int, w: Winners)
    requires StoreInv(s, t, chainId, w) && Batch(s.mem) != [] && s.disk.active == Compacted(s.mem).active
    ensures Shadow(s.mem, t) == Compacted(s.mem)
  {
    BatchIsDue(s.mem);
  }

  /** In every run, then: History's compaction is invisible, in memory and through a restart. */
  lemma RunCompactionInvisible(states: seq<World>, steps: seq<Step>, env: Env, i: nat,
                               before: seq<ArchiveName>, after: seq<ArchiveName>)
    requires IsRun(states, steps, env) && i < |steps| && steps[i].Compact?
    requires Lists(before, states[i].store.disk.archives) && Lists(after, states[i + 1].store.disk.archives)
    ensures var s, s' := states[i].store, states[i + 1].store;
      && SameAnswers(s.mem, s'.mem)
      && Load(s.disk, env.chainId, before).Loaded? && Load(s'.disk, env.chainId, after).Loaded?
      && SameAnswers(if s'.disk.active == s.disk.active then Load(s.disk, env.chainId, before).view else s.mem,
                     Load(s'.disk, env.chainId, after).view)
  {
    var t := RunInv(states, steps, env, i);
    CompactApplies(states[i], steps[i], env);
    CompactionInvisible(states[i].store, t, steps[i].write, steps[i].secondWrite, before, after, env.chainId,
                        env.winners);
  }

  lemma CompactApplies(s: World, step: Step, env: Env)
    requires Enabled(s, step, env) && step.Compact?
    ensures Apply(s, step, env).store == Archive(s.store, step.write, step.secondWrite).0
  {
  }

  // ---- Finality and versions -------------------------------------------------------------------------

  /** A record that is finalized and mined never changes again, in memory or across restarts. */
  lemma FinalizedForever(states: seq<World>, steps: seq<Step>, env: Env, i: nat, j: nat, r: Record)
    requires IsRun(states, steps, env) && i <= j <= |steps|
    requires r in All(states[i].store.mem) && FinalMined(r)
    ensures r in All(states[j].store.mem)
  {
    RunFollows(states, steps, env, i, j);
  }

  /** Rivals at one nonce resolve to one winner. */
  lemma OneWinnerPerNonce(states: seq<World>, steps: seq<Step>, env: Env, i: nat, a: Record, b: Record)
    requires IsRun(states, steps, env) && i <= |steps|
    requires a in All(states[i].store.mem) && b in All(states[i].store.mem)
    requires FinalMined(a) && FinalMined(b) && a.id.nonce == b.id.nonce
    ensures a == b
  {
    var t := RunInv(states, steps, env, i);
    var v := states[i].store.mem;
    assert Won(env.winners, a.id) && Won(env.winners, b.id);
    AllIds(v);
    SameInDistinct(All(v), a, b);
  }

  /** While a record stays active its version grows with every change. */
  lemma VersionsGrow(states: seq<World>, steps: seq<Step>, env: Env, i: nat, j: nat, r: Record, r': Record)
    requires IsRun(states, steps, env) && i <= j <= |steps|
    requires r in states[i].store.mem.active && r' in states[j].store.mem.active && r.id.hash == r'.id.hash
    ensures r.version <= r'.version && (r != r' ==> r.version < r'.version)
  {
    RunFollows(states, steps, env, i, j);
  }

  /** The copy of a record that a thread will compare versions with. */
  ghost predicate Holds(s: World, r: Record) {
    || (s.send.Durable? && r == s.send.record)
    || (s.send.Resending? && r == s.send.record)
    || (s.send.Sent? && r == s.send.record)
    || (s.history.Refreshing? && r in s.history.items)
    || (s.history.Demoting? && r == s.history.item)
  }

  /** A version check that passes means that the active record is exactly the thread's copy. */
  lemma PassingCheckMeansUnchanged(states: seq<World>, steps: seq<Step>, env: Env, i: nat, r: Record, x: Record)
    requires IsRun(states, steps, env) && i <= |steps| && Holds(states[i], r)
    requires x in states[i].store.mem.active && x.id.hash == r.id.hash && x.version == r.version
    ensures x == r && !x.finalized
  {
    var t := RunInv(states, steps, env, i);
  }

  // ---- Exactly once ------------------------------------------------------------------------------------

  /** At most one record, and at most one signed transaction ever broadcast, carries a given quote. */
  lemma OneRecordPerQuote(states: seq<World>, steps: seq<Step>, env: Env, i: nat, a: Identity, b: Identity)
    requires IsRun(states, steps, env) && i <= |steps|
    requires a in Ids(states[i].store.mem) + states[i].broadcast
    requires b in Ids(states[i].store.mem) + states[i].broadcast
    requires a.quoteId == b.quoteId
    ensures a == b
  {
    RunUnique(states, steps, env, i);
    SameIdentity(states[i].store.mem, a, b);
  }

  /** Once a quote has its record, every later Send of that quote finds the record instead of signing. */
  lemma SpentQuoteStaysSpent(states: seq<World>, steps: seq<Step>, env: Env, i: nat, j: nat, id: Identity)
    requires IsRun(states, steps, env) && i <= j <= |steps|
    requires id in Ids(states[i].store.mem)
    ensures IdentityOf(FindQuote(All(states[j].store.mem), id.quoteId)) == Some(id)
    ensures j < |steps| ==> steps[j] != SendBegin(id.quoteId)
  {
    RunFollows(states, steps, env, i, j);
    RunUnique(states, steps, env, j);
    LookupIds(states[j].store.mem, id.quoteId, id.hash);
  }

  // ---- Nonces --------------------------------------------------------------------------------------------

  lemma MinedIsKept(states: seq<World>, steps: seq<Step>, env: Env, k: nat)
    requires IsRun(states, steps, env) && k < |steps|
    ensures states[k].everMined <= states[k + 1].everMined
  {
  }

  lemma MinedStaysKnown(states: seq<World>, steps: seq<Step>, env: Env, k: nat, i: nat, n: nat)
    requires IsRun(states, steps, env) && k <= i <= |steps| && n in states[k].everMined
    ensures n in states[i].everMined
  {
    var flags := seq(|states|, m requires 0 <= m < |states| => n in states[m].everMined);
    forall m | k <= m < i ensures flags[m] ==> flags[m + 1] {
      MinedIsKept(states, steps, env, m);
    }
    Persists(flags, k, i);
  }

  /** An update that succeeds leaves the observed state in memory. */
  lemma UpdatedShows(s: Store, r: Record, o: Observation, write: Write)
    requires UniqueView(s.mem) && r.id in Ids(s.mem)
    requires Update(s, r.id.hash, r.version, o, write).1.Updated? && Mined(o.state)
    ensures NonceMined(Update(s, r.id.hash, r.version, o, write).0.mem, r.id.nonce)
  {
    var i := LastIndex(s.mem.active, r.id.hash);
    var x := s.mem.active[i];
    assert x.id in Ids(s.mem);
    SameIdentity(s.mem, x.id, r.id);
    var v' := Update(s, r.id.hash, r.version, o, write).0.mem;
    assert v'.active[i] in All(v');
  }

  lemma NewlyMined(s: World, t: Torn, step: Step, env: Env, n: nat)
    requires WorldInv(s, t, env) && Enabled(s, step, env)
    requires n in Apply(s, step, env).everMined && n !in s.everMined
    ensures NonceMined(Apply(s, step, env).store.mem, n)
  {
    if step.Refresh? {
      RefreshApplies(s, step, env);
      var item := s.history.items[step.index];
      assert item in s.history.items && OpenSnapshot(item, s.store.mem);
      WorldUnique(s, t, env);
      UpdatedShows(s.store, item, step.seen, step.write);
    }
  }

  lemma MinedStep(states: seq<World>, steps: seq<Step>, env: Env, k: nat, n: nat)
    requires IsRun(states, steps, env) && k < |steps| && n in states[k + 1].everMined && n !in states[k].everMined
    ensures NonceMined(states[k + 1].store.mem, n)
  {
    var t := RunInv(states, steps, env, k);
    NewlyMined(states[k], t, steps[k], env, n);
  }

  lemma MinedIsKnown(states: seq<World>, steps: seq<Step>, env: Env, k: nat, n: nat)
    requires IsRun(states, steps, env) && k <= |steps| && NonceMined(states[k].store.mem, n)
    ensures n in states[k].everMined
  {
    var t := RunInv(states, steps, env, k);
  }

  /** The nonces that count as mined are exactly those that memory has shown as mined at some time. */
  lemma {:induction false} EverMinedExactly(states: seq<World>, steps: seq<Step>, env: Env, i: nat, n: nat)
    requires IsRun(states, steps, env) && i <= |steps|
    ensures n in states[i].everMined <==> exists k | 0 <= k <= i :: NonceMined(states[k].store.mem, n)
  {
    if k :| 0 <= k <= i && NonceMined(states[k].store.mem, n) {
      MinedIsKnown(states, steps, env, k, n);
      MinedStaysKnown(states, steps, env, k, i, n);
    }
    if 0 < i {
      EverMinedExactly(states, steps, env, i - 1, n);
      if n in states[i].everMined && n !in states[i - 1].everMined {
        MinedStep(states, steps, env, i - 1, n);
      }
    }
  }

  ghost predicate NeverMined(states: seq<World>, i: nat, n: nat)
    requires i < |states|
  {
    forall k | 0 <= k <= i :: !NonceMined(states[k].store.mem, n)
  }

  /** At most one nonce of the journal has never been recorded as mined. */
  lemma OneUnminedNonce(states: seq<World>, steps: seq<Step>, env: Env, i: nat, a: Identity, b: Identity)
    requires IsRun(states, steps, env) && i <= |steps|
    requires a in Ids(states[i].store.mem) && b in Ids(states[i].store.mem)
    requires NeverMined(states, i, a.nonce) && NeverMined(states, i, b.nonce)
    ensures a.nonce == b.nonce
  {
    var t := RunInv(states, steps, env, i);
    EverMinedExactly(states, steps, env, i, a.nonce);
    EverMinedExactly(states, steps, env, i, b.nonce);
  }

  predicate AppendsReplacement(s: World, step: Step, env: Env) {
    && step.SendAppend? && Enabled(s, step, env) && s.send.quote.original.Some?
    && Apply(s, step, env).send.Durable?
  }

  lemma CountIsExact(s: World, t: Torn, step: Step, env: Env)
    requires WorldInv(s, t, env) && AppendsReplacement(s, step, env)
    ensures s.send.quote.count == |AtNonce(Ids(s.store.mem), s.send.quote.nonce)|
    ensures NewRecord(s.send.quote, step.signed).id !in Ids(s.store.mem)
  {
    assert FreshQuote(s.send.quote.id, Ids(s.store.mem));
  }

  lemma AppendCounts(states: seq<World>, steps: seq<Step>, env: Env, i: nat)
    requires IsRun(states, steps, env) && i < |steps| && AppendsReplacement(states[i], steps[i], env)
    ensures var q := states[i].send.quote;
      && q.count == |AtNonce(Ids(states[i].store.mem), q.nonce)|
      && q.count < |AtNonce(Ids(states[i + 1].store.mem), q.nonce)|
  {
    var t := RunInv(states, steps, env, i);
    CountIsExact(states[i], t, steps[i], env);
    AppendFollows(states[i], t, steps[i], env);
    var q := states[i].send.quote;
    AtNonceSnoc(Ids(states[i].store.mem), NewRecord(q, steps[i].signed).id, q.nonce);
  }

  lemma SubsetCount(a: set<Identity>, b: set<Identity>, nonce: nat)
    requires a <= b
    ensures |AtNonce(a, nonce)| <= |AtNonce(b, nonce)|
  {
    var extra := AtNonce(b, nonce) - AtNonce(a, nonce);
    assert AtNonce(b, nonce) == AtNonce(a, nonce) + extra;
  }

  lemma CountsGrow(states: seq<World>, steps: seq<Step>, env: Env, i: nat, j: nat, nonce: nat)
    requires IsRun(states, steps, env) && i <= j <= |steps|
    ensures |AtNonce(Ids(states[i].store.mem), nonce)| <= |AtNonce(Ids(states[j].store.mem), nonce)|
  {
    RunFollows(states, steps, env, i, j);
    SubsetCount(Ids(states[i].store.mem), Ids(states[j].store.mem), nonce);
  }

  /** Two replacement quotes of one nonce priced against the same number of records are never both used. */
  lemma CountUsedOnce(states: seq<World>, steps: seq<Step>, env: Env, i: nat, j: nat)
    requires IsRun(states, steps, env) && i < j < |steps|
    requires AppendsReplacement(states[i], steps[i], env) && AppendsReplacement(states[j], steps[j], env)
    requires states[i].send.quote.nonce == states[j].send.quote.nonce
    ensures states[i].send.quote.count < states[j].send.quote.count
  {
    AppendCounts(states, steps, env, i);
    AppendCounts(states, steps, env, j);
    CountsGrow(states, steps, env, i + 1, j, states[j].send.quote.nonce);
  }

  // ---- The replacement ladder ------------------------------------------------------------------------------

  /** Records of one nonce in the order in which they entered, all but the first being replacements. */
  ghost predicate Climb(entered: seq<Identity>, rungs: seq<nat>) {
    && rungs != []
    && (forall k :: 0 <= k < |rungs| ==> rungs[k] < |entered|)
    && (forall k :: 0 <= k < |rungs| ==> entered[rungs[k]].nonce == entered[rungs[0]].nonce)
    && (forall k :: 0 < k < |rungs| ==> rungs[k - 1] < rungs[k] && IsReplacement(entered[rungs[k]]))
  }

  /** Every replacement in the journal strictly outbids each earlier record of its nonce, and k of them
      multiply tip and fee cap by at least (6/5)^k. */
  lemma LadderClimbs(states: seq<World>, steps: seq<Step>, env: Env, i: nat, rungs: seq<nat>)
    requires IsRun(states, steps, env) && i <= |steps|
    requires Climb(states[i].entered, rungs)
    ensures Lists1(states[i].entered, Ids(states[i].store.mem)) && Ladder(states[i].entered)
    ensures var k, e := |rungs| - 1, states[i].entered;
      && Pow(6, k) * e[rungs[0]].signed.feeCap <= Pow(5, k) * e[rungs[k]].signed.feeCap
      && Pow(6, k) * e[rungs[0]].signed.tip <= Pow(5, k) * e[rungs[k]].signed.tip
  {
    var t := RunInv(states, steps, env, i);
    var e := states[i].entered;
    var fees := seq(|rungs|, k requires 0 <= k < |rungs| => e[rungs[k]].signed.feeCap);
    var tips := seq(|rungs|, k requires 0 <= k < |rungs| => e[rungs[k]].signed.tip);
    forall k | 0 <= k < |rungs| - 1 ensures 6 * fees[k] <= 5 * fees[k + 1] && 6 * tips[k] <= 5 * tips[k + 1] {
      assert rungs[k + 1 - 1] < rungs[k + 1];
    }
    LadderGrows(fees);
    LadderGrows(tips);
  }
}

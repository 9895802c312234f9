/**
 What each operation of the journal leaves behind, field by field: the progress that the safety theorems do
 not ask for. Stated on the records themselves, before and after.
 */
module JournalEffects {
  import opened Common
  import opened JournalModel
  import opened JournalInvariants
  import opened JournalReload
  import opened JournalCompaction
  import opened JournalStore
  import opened JournalProtocol
  import opened JournalSafety
  import opened JournalTheorems
  import opened JournalVersions
  import opened Replacement

  // ---- Compare-and-set -------------------------------------------------------------------------------

  /** The record says what was observed, and is otherwise the record that it was. */
  predicate Shows(r: Record, r': Record, o: Observation) {
    && r'.id == r.id
    && r'.state == o.state && r'.finalized == o.finalized && r'.confirmations == o.confirmations
    && r'.feeEth == o.feeEth && r'.error == o.error
    && r'.version == (if r'.(version := r.version) == r then r.version else r.version + 1)
  }

  /** One record of a list shows the observation and all others are as they were. */
  ghost predicate Written(rs: seq<Record>, rs': seq<Record>, p: nat, o: Observation) {
    && |rs'| == |rs| && p < |rs| && Shows(rs[p], rs'[p], o)
    && forall j | 0 <= j < |rs| && j != p :: rs'[j] == rs[j]
  }

  lemma {:induction false} LastIndexFinds(rs: seq<Record>, p: nat)
    requires p < |rs| && forall j | p < j < |rs| :: rs[j].id.hash != rs[p].id.hash
    ensures LastIndex(rs, rs[p].id.hash) == p
  {
    if p < |rs| - 1 {
      LastIndexFinds(rs[..|rs| - 1], p);
    }
  }

  lemma {:induction false} LastIndexMisses(rs: seq<Record>, hash: Hash)
    requires forall r <- rs :: r.id.hash != hash
    ensures LastIndex(rs, hash) == |rs|
  {
    if rs != [] {
      LastIndexMisses(rs[..|rs| - 1], hash);
    }
  }

  /** An update whose version matches writes the whole observation into the record of that hash and into nothing else;
      a write that fails leaves memory alone and the file as it was or as it should have become. */
  lemma UpdateWrites(s: Store, p: nat, o: Observation, write: Write)
    requires Distinct(s.mem.active) && p < |s.mem.active|
    ensures var r := s.mem.active[p];
      var (s', result) := Update(s, r.id.hash, r.version, o, write);
      && s'.mem.archived == s.mem.archived && s'.disk.archives == s.disk.archives
      && (write.Done? ==>
            && result == Updated && Written(s.mem.active, s'.mem.active, p, o)
            && (s' != s ==> s'.disk.active == s'.mem.active))
      && (!write.Done?
        ==> s'.mem == s.mem && (s' == s || (write.FailedNew? && Written(s.mem.active, s'.disk.active, p, o))))
      && (result != Updated ==> result == UpdateFailed && !write.Done?)
      && (s' == s && result == Updated ==> Shows(r, r, o))
  {
    LastIndexFinds(s.mem.active, p);
  }

  /** An update of another version, or of a hash that is not active, changes nothing and says so. */
  lemma UpdateRefuses(s: Store, hash: Hash, expected: nat, o: Observation, write: Write)
    requires Distinct(s.mem.active)
    ensures (forall r <- s.mem.active :: r.id.hash != hash) <==> Update(s, hash, expected, o, write) == (s, NotFound)
    ensures (exists r <- s.mem.active :: r.id.hash == hash && r.version != expected)
      <==> Update(s, hash, expected, o, write) == (s, Stale)
  {
    if r :| r in s.mem.active && r.id.hash == hash {
      var p :| 0 <= p < |s.mem.active| && s.mem.active[p] == r;
      LastIndexFinds(s.mem.active, p);
      forall x <- s.mem.active | x.id.hash == hash ensures x == r {
        SameInDistinct(s.mem.active, x, r);
      }
    } else {
      LastIndexMisses(s.mem.active, hash);
    }
  }

  // ---- In every run ----------------------------------------------------------------------------------

  /** The active record that a thread's copy names, if its version is still the copy's. */
  ghost predicate Current(v: View, p: nat, copy: Record) {
    p < |v.active| && v.active[p].id.hash == copy.id.hash && v.active[p].version == copy.version
  }

  lemma UpdateInRun(s: World, t: Torn, p: nat, copy: Record, o: Observation, env: Env)
    requires WorldInv(s, t, env) && Current(s.store.mem, p, copy)
    ensures var (s', result) := Update(s.store, copy.id.hash, copy.version, o, Done);
      result == Updated && Written(s.store.mem.active, s'.mem.active, p, o)
      && (s' != s.store ==> s'.disk.active == s'.mem.active)
  {
    UpdateWrites(s.store, p, o, Done);
  }

  /** A refresh that finds its version writes the whole answer: a final success or revert becomes final. */
  lemma RefreshIsRecorded(states: seq<World>, steps: seq<Step>, env: Env, k: nat, p: nat)
    requires IsRun(states, steps, env) && k < |steps| && steps[k].Refresh? && steps[k].write.Done?
    requires states[k].history.Refreshing? && steps[k].index < |states[k].history.items|
    requires Current(states[k].store.mem, p, states[k].history.items[steps[k].index])
    ensures var rs, rs', seen := states[k].store.mem.active, states[k + 1].store.mem.active, steps[k].seen;
      && Written(rs, rs', p, seen) && states[k + 1].history == states[k].history
      && (seen.finalized && (seen.state == Succeeded || seen.state == Reverted) ==>
            FinalMined(rs'[p]) && rs'[p].state == seen.state)
      && (rs' != rs ==> states[k + 1].store.disk.active == rs')
  {
    var t := RunInv(states, steps, env, k);
    RefreshApplies(states[k], steps[k], env);
    UpdateInRun(states[k], t, p, states[k].history.items[steps[k].index], steps[k].seen, env);
  }

  /** A record that the node has lost is demoted to an unknown broadcast. */
  lemma DemotionIsRecorded(states: seq<World>, steps: seq<Step>, env: Env, k: nat, p: nat)
    requires IsRun(states, steps, env) && k < |steps| && steps[k].Demote? && steps[k].write.Done?
    requires states[k].history.Demoting? && Current(states[k].store.mem, p, states[k].history.item)
    ensures var rs, rs' := states[k].store.mem.active, states[k + 1].store.mem.active;
      && p < |rs'| && rs'[p].id == rs[p].id
      && rs'[p].state == BroadcastUnknown && !rs'[p].finalized
      && rs'[p].confirmations == "" && rs'[p].feeEth == "" && rs'[p].error == ""
  {
    var t := RunInv(states, steps, env, k);
    DemoteApplies(states[k], steps[k], env);
    UpdateInRun(states[k], t, p, states[k].history.item, DEMOTED, env);
  }

  predicate Broadcasts(step: Step) {
    step.SendBroadcast? || step.RetryBroadcast?
  }

  function FailureOf(step: Step): string
    requires Broadcasts(step)
  {
    if step.SendBroadcast? then step.failure else step.failure
  }

  lemma WaitsToSettle(states: seq<World>, steps: seq<Step>, env: Env, k: nat)
    requires IsRun(states, steps, env) && k < |steps| && states[k].send.Sent? && !steps[k].Settle? && !steps[k].Crash?
    ensures states[k + 1].send == states[k].send
  {
  }

  lemma StillSent(states: seq<World>, steps: seq<Step>, env: Env, i: nat, j: nat)
    requires IsRun(states, steps, env) && i <= j <= |steps| && states[i].send.Sent?
    requires forall k | i <= k < j :: !steps[k].Settle? && !steps[k].Crash?
    ensures states[j].send == states[i].send
  {
    var flags := seq(|states|, k requires 0 <= k < |states| => states[k].send == states[i].send);
    forall k | i <= k < j ensures flags[k] ==> flags[k + 1] {
      if flags[k] {
        WaitsToSettle(states, steps, env, k);
      }
    }
    Persists(flags, i, j);
  }

  lemma SettleApplies(s: World, step: Step, env: Env)
    requires Enabled(s, step, env) && step.Settle?
    ensures s.send.Sent?
    ensures Apply(s, step, env).store
      == Update(s.store, s.send.record.id.hash, s.send.record.version, s.send.result, step.write).0
  {
  }

  /** What the network answered is what the record says when the call has ended: submitted exactly if there was no
      failure, and else unknown, with the text of the failure. */
  lemma BroadcastIsRecorded(states: seq<World>, steps: seq<Step>, env: Env, i: nat, j: nat, p: nat)
    requires IsRun(states, steps, env) && i < j < |steps| && Broadcasts(steps[i])
    requires steps[j].Settle? && steps[j].write.Done?
    requires forall k | i < k < j :: !steps[k].Settle? && !steps[k].Crash?
    requires states[j].send.Sent? ==> Current(states[j].store.mem, p, states[j].send.record)
    ensures states[j].send.Sent?
    ensures states[i].send.Durable? || states[i].send.Resending?
    ensures var r, failure := states[i].send.record, FailureOf(steps[i]);
      && states[j].send.record == r && p < |states[j + 1].store.mem.active|
      && var r' := states[j + 1].store.mem.active[p];
      && r'.id.hash == r.id.hash && r'.state == (if failure == "" then Submitted else BroadcastUnknown)
      && r'.error == failure && !r'.finalized && r'.confirmations == "" && r'.feeEth == ""
  {
    BroadcastEnds(states[i], steps[i], env);
    StillSent(states, steps, env, i + 1, j);
    var t := RunInv(states, steps, env, j);
    SettleApplies(states[j], steps[j], env);
    UpdateInRun(states[j], t, p, states[j].send.record, states[j].send.result, env);
  }

  lemma BroadcastEnds(s: World, step: Step, env: Env)
    requires Enabled(s, step, env) && Broadcasts(step)
    ensures s.send.Durable? || s.send.Resending?
    ensures var s', failure := Apply(s, step, env), FailureOf(step);
      && s'.send.Sent? && s'.send.record == s.send.record
      && s'.send.result.state == (if failure == "" then Submitted else BroadcastUnknown)
      && s'.send.result.error == failure && !s'.send.result.finalized
      && s'.send.result.confirmations == "" && s'.send.result.feeEth == ""
  {
  }

  // ---- Lists of work -----------------------------------------------------------------------------------

  /** A record whose result may still change: not final, and no record of its nonce is finalized and mined. */
  ghost predicate Unresolved(v: View, r: Record) {
    && !r.finalized
    && forall x <- All(v) | x.id.nonce == r.id.nonce :: !(x.finalized && (x.state == Succeeded || x.state == Reverted))
  }

  lemma {:induction false} RefreshListsAll(v: View, rs: seq<Record>, r: Record)
    ensures r in RefreshOf(v, rs) <==> r in rs && Unresolved(v, r)
  {
    if rs != [] {
      RefreshListsAll(v, rs[..|rs| - 1], r);
      assert rs == rs[..|rs| - 1] + [rs[|rs| - 1]];
      assert NeedsRefresh(v, rs[|rs| - 1]) <==> Unresolved(v, rs[|rs| - 1]);
    }
  }

  /** A later record of the active list is looked up before an earlier one. */
  lemma {:induction false} RefreshNewestFirst(v: View, rs: seq<Record>, i: nat, j: nat) returns (a: nat, b: nat)
    requires i < j < |rs| && Unresolved(v, rs[i]) && Unresolved(v, rs[j])
    ensures b < a < |RefreshOf(v, rs)| && RefreshOf(v, rs)[a] == rs[i] && RefreshOf(v, rs)[b] == rs[j]
  {
    var init, last := rs[..|rs| - 1], rs[|rs| - 1];
    assert forall k | 0 <= k < |rs| :: NeedsRefresh(v, rs[k]) <==> Unresolved(v, rs[k]);
    if j == |rs| - 1 {
      RefreshListsAll(v, init, rs[i]);
      assert init[i] in init;
      var k :| 0 <= k < |RefreshOf(v, init)| && RefreshOf(v, init)[k] == rs[i];
      a, b := k + 1, 0;
    } else {
      a, b := RefreshNewestFirst(v, init, i, j);
      if NeedsRefresh(v, last) {
        a, b := a + 1, b + 1;
      }
    }
  }

  // ---- Compaction ----------------------------------------------------------------------------------------

  /** Old enough to file, and resolved. */
  ghost predicate Due(v: View, i: nat)
    requires i < |v.active|
  {
    i + 100 < |v.active| && !Unresolved(v, v.active[i])
  }

  lemma DueIsArchivable(v: View, i: nat)
    requires i < |v.active|
    ensures Due(v, i) <==> Archivable(v, i)
  {
  }

  /** What a compaction of at least 900 active records does when both writes succeed: the records that are due leave
      the active list, each to the archive, as they are if final and otherwise final and replaced; the rest stay. */
  lemma CompactionFiles(s: Store)
    requires Distinct(s.mem.active) && 900 <= |s.mem.active|
    ensures var s' := Archive(s, Done, Done).0;
      && (forall i | 0 <= i < |s.mem.active| && !Due(s.mem, i) :: s.mem.active[i] in s'.mem.active)
      && (forall i | 0 <= i < |s.mem.active| && Due(s.mem, i) ::
            var r := s.mem.active[i];
            (forall x <- s'.mem.active :: x.id != r.id)
            && (if r.finalized then r else r.(finalized := true, state := Replaced)) in s'.mem.archived)
      && s.mem.archived <= s'.mem.archived
      && |s'.mem.active| + |s'.mem.archived| == |s.mem.active| + |s.mem.archived|
      && (s' != s ==> s'.disk.active == s'.mem.active)
  {
    var v := s.mem;
    SplitMembers(v, |v.active|);
    BatchIsDue(v);
    forall i | 0 <= i < |v.active|
      ensures Due(v, i) <==> Archivable(v, i)
      ensures Due(v, i) ==> Sealed(v.active[i]) in Batch(v) && v.active[i].id in IdsOf(Batch(v))
    {
      DueIsArchivable(v, i);
    }
    forall i | 0 <= i < |v.active| && Due(v, i), x <- Compacted(v).active
      ensures x.id != v.active[i].id
    {
      assert x.id !in IdsOf(Batch(v));
    }
  }

  // ---- Loading -------------------------------------------------------------------------------------------

  predicate Sound(r: Record, chainId: int) {
    0 < |r.id.quoteId| <= 128 && r.id.signed.hash == r.id.hash && r.id.signed.chainId == chainId
  }

  /** A start fails exactly if the journal file has over a thousand records or one that is not sound, or some archive
      file has one that is not sound or not final. */
  lemma LoadRefusesExactly(disk: Disk, chainId: int, order: seq<ArchiveName>)
    requires Lists(order, disk.archives)
    ensures Load(disk, chainId, order).LoadFailed? <==>
      || 1000 < |disk.active| || (exists r <- disk.active :: !Sound(r, chainId))
      || (exists name <- disk.archives, r <- disk.archives[name] :: !(Sound(r, chainId) && r.finalized))
  {
    if exists name <- disk.archives, r <- disk.archives[name] :: !(Sound(r, chainId) && r.finalized) {
      var name: ArchiveName, r: Record :|
        name in disk.archives && r in disk.archives[name] && !(Sound(r, chainId) && r.finalized);
      assert !LoadableFile(disk.archives[name], chainId);
      assert name in order;
    }
  }

  function Versioned(r: Record): Record {
    if r.version == 0 then r.(version := 1) else r
  }

  /** No hash is archived twice, or archived and active. */
  ghost predicate Once(v: View) {
    && (forall i, j | 0 <= i < j < |v.archived| :: v.archived[i].id.hash != v.archived[j].id.hash)
    && (forall a <- v.archived, b <- v.active :: a.id.hash != b.id.hash)
  }

  ghost predicate Holds(v: View, hash: Hash) {
    exists r <- All(v) :: r.id.hash == hash
  }

  /** `v'` is `v` with further archived records, of hashes that it did not hold. */
  ghost predicate Grows(v: View, v': View) {
    v'.active == v.active && v.archived <= v'.archived && (Once(v) ==> Once(v'))
  }

  lemma AddOne(v: View, r: Record)
    ensures var v' := if Holds(v, r.id.hash) then v else v.(archived := v.archived + [r]);
      Grows(v, v') && Holds(v', r.id.hash) && (forall x <- v'.archived :: x in v.archived || x == r)
  {
    if !Holds(v, r.id.hash) {
      forall x <- All(v) ensures x.id.hash != r.id.hash { }
      assert forall x <- v.archived + v.active :: x in All(v);
      assert v.(archived := v.archived + [r]).archived[|v.archived|] == r;
      assert r in All(v.(archived := v.archived + [r]));
    }
  }

  lemma HoldsMore(v: View, v': View, hash: Hash)
    requires Grows(v, v') && Holds(v, hash)
    ensures Holds(v', hash)
  {
    var x :| x in All(v) && x.id.hash == hash;
    assert x in All(v');
  }

  /** One archive file adds its records whose hashes are new, and only those. */
  lemma {:induction false} MergeAdds(v: View, file: seq<Record>)
    ensures var v' := Merge(v, file);
      && Grows(v, v') && (forall r <- file :: Holds(v', r.id.hash))
      && (forall x <- v'.archived :: x in v.archived || exists r <- file :: x == Versioned(r))
  {
    if file != [] {
      var init, last := file[..|file| - 1], file[|file| - 1];
      MergeAdds(v, init);
      AddOne(Merge(v, init), Versioned(last));
      forall r <- file
        ensures Holds(Merge(v, file), r.id.hash)
      {
        if r in init {
          HoldsMore(Merge(v, init), Merge(v, file), r.id.hash);
        }
      }
    }
  }

  /** What loads as archived is what the archive files hold, each hash once and none that is active; every hash of a
      file is there. */
  lemma {:induction false} LoadMerges(v: View, files: Files, order: seq<ArchiveName>)
    requires forall name <- order :: name in files
    ensures var v' := MergeAll(v, files, order);
      && Grows(v, v') && (forall name <- order, r <- files[name] :: Holds(v', r.id.hash))
      && (forall x <- v'.archived :: x in v.archived || exists name <- order, r <- files[name] :: x == Versioned(r))
  {
    if order != [] {
      var init, last := order[..|order| - 1], order[|order| - 1];
      var before, v' := MergeAll(v, files, init), MergeAll(v, files, order);
      LoadMerges(v, files, init);
      MergeAdds(before, files[last]);
      forall name <- order, r <- files[name]
        ensures Holds(v', r.id.hash)
      {
        if name in init {
          HoldsMore(before, v', r.id.hash);
        }
      }
    }
  }

  /** So a start from sound files has the journal file as active and the archives, merged in this way, as archived. */
  lemma LoadedExactly(disk: Disk, chainId: int, order: seq<ArchiveName>)
    requires Lists(order, disk.archives) && Load(disk, chainId, order).Loaded?
    ensures var v := Load(disk, chainId, order).view;
      && |v.active| == |disk.active| && Once(v)
      && (forall i | 0 <= i < |v.active| :: v.active[i] == Versioned(disk.active[i]))
      && (forall name <- disk.archives, r <- disk.archives[name] :: Holds(v, r.id.hash))
      && (forall x <- v.archived :: exists name <- disk.archives, r <- disk.archives[name] :: x == Versioned(r))
  {
    LoadMerges(View(Restored(disk.active), []), disk.archives, order);
  }

  // ---- Checks that a broadcast has passed ------------------------------------------------------------------

  /** Whatever hands bytes to the network a second time has seen in this very call that the nonce was not mined. */
  lemma RetryIsOfUnmined(states: seq<World>, steps: seq<Step>, env: Env, j: nat) returns (m: nat)
    requires IsRun(states, steps, env) && j < |steps| && steps[j].RetryBroadcast?
    ensures states[j].send.Resending? && m < j
    ensures !NonceMined(states[m].store.mem, states[j].send.record.id.nonce)
    ensures forall k | m < k <= j :: states[k].send == states[j].send
  {
    m := ResendingSince(states, steps, env, j);
  }

  lemma {:induction false} ResendingSince(states: seq<World>, steps: seq<Step>, env: Env, j: nat) returns (m: nat)
    requires IsRun(states, steps, env) && j <= |steps| && states[j].send.Resending?
    ensures m < j && !NonceMined(states[m].store.mem, states[j].send.record.id.nonce)
    ensures forall k | m < k <= j :: states[k].send == states[j].send
  {
    ResendingStep(states, steps, env, j - 1);
    if states[j - 1].send == states[j].send {
      m := ResendingSince(states, steps, env, j - 1);
    } else {
      m := j - 1;
    }
  }

  lemma ResendingStep(states: seq<World>, steps: seq<Step>, env: Env, k: nat)
    requires IsRun(states, steps, env) && k < |steps| && states[k + 1].send.Resending?
    ensures states[k].send == states[k + 1].send
      || !NonceMined(states[k].store.mem, states[k + 1].send.record.id.nonce)
  {
  }

  /** Whatever is signed as a replacement has seen in this very call that its nonce was not mined and held as many
      records as when it was priced; whatever is signed otherwise has seen every nonce of the journal mined. */
  lemma SigningIsChecked(states: seq<World>, steps: seq<Step>, env: Env, j: nat) returns (m: nat)
    requires IsRun(states, steps, env) && j <= |steps| && states[j].send.Ready?
    ensures m < j && forall k | m < k <= j :: states[k].send == states[j].send
    ensures var v, q := states[m].store.mem, states[j].send.quote;
      if q.original.None? then forall r <- All(v) :: NonceMined(v, r.id.nonce)
      else !NonceMined(v, q.nonce) && |AtNonce(Ids(states[j].store.mem), q.nonce)| == q.count
  {
    m := ReadySince(states, steps, env, j);
    var t := RunInv(states, steps, env, j);
  }

  lemma {:induction false} ReadySince(states: seq<World>, steps: seq<Step>, env: Env, j: nat) returns (m: nat)
    requires IsRun(states, steps, env) && j <= |steps| && states[j].send.Ready?
    ensures m < j && forall k | m < k <= j :: states[k].send == states[j].send
    ensures var v, q := states[m].store.mem, states[j].send.quote;
      if q.original.None? then forall r <- All(v) :: NonceMined(v, r.id.nonce) else !NonceMined(v, q.nonce)
  {
    ReadyStep(states, steps, env, j - 1);
    if states[j - 1].send == states[j].send {
      m := ReadySince(states, steps, env, j - 1);
    } else {
      m := j - 1;
    }
  }

  lemma ReadyStep(states: seq<World>, steps: seq<Step>, env: Env, k: nat)
    requires IsRun(states, steps, env) && k < |steps| && states[k + 1].send.Ready?
    ensures var v, q := states[k].store.mem, states[k + 1].send.quote;
      states[k].send == states[k + 1].send
      || (if q.original.None? then forall r <- All(v) :: NonceMined(v, r.id.nonce) else !NonceMined(v, q.nonce))
  {
    var t := RunInv(states, steps, env, k);
    CountedIsReplacement(states[k], t, env);
    PassedCheck(states[k], steps[k], env);
  }

  lemma CountedIsReplacement(s: World, t: Torn, env: Env)
    requires WorldInv(s, t, env)
    ensures s.send.Counted? ==> s.send.quote.original.Some?
  {
  }

  lemma PassedCheck(s: World, step: Step, env: Env)
    requires Enabled(s, step, env) && Apply(s, step, env).send.Ready?
    requires s.send.Counted? ==> s.send.quote.original.Some?
    ensures var v, q := s.store.mem, Apply(s, step, env).send.quote;
      s.send == Apply(s, step, env).send
      || (if q.original.None? then forall r <- All(v) :: NonceMined(v, r.id.nonce) else !NonceMined(v, q.nonce))
  {
  }

  /** A replacement is priced after the call has seen that the nonce of its original was not mined. */
  lemma PricingIsOfUnmined(states: seq<World>, steps: seq<Step>, env: Env, j: nat) returns (m: nat)
    requires IsRun(states, steps, env) && j < |steps| && steps[j].QuotePrice?
    ensures states[j].send.Pricing? && m < j && steps[m].QuoteUnmined?
    ensures !NonceMined(states[m].store.mem, states[j].send.record.id.nonce)
    ensures forall k | m < k <= j :: states[k].send == states[j].send
  {
    m := PricingSince(states, steps, env, j);
  }

  lemma {:induction false} PricingSince(states: seq<World>, steps: seq<Step>, env: Env, j: nat) returns (m: nat)
    requires IsRun(states, steps, env) && j <= |steps| && states[j].send.Pricing?
    ensures m < j && steps[m].QuoteUnmined? && !NonceMined(states[m].store.mem, states[j].send.record.id.nonce)
    ensures forall k | m < k <= j :: states[k].send == states[j].send
  {
    PricingStep(states, steps, env, j - 1);
    if states[j - 1].send == states[j].send {
      m := PricingSince(states, steps, env, j - 1);
    } else {
      m := j - 1;
    }
  }

  lemma PricingStep(states: seq<World>, steps: seq<Step>, env: Env, k: nat)
    requires IsRun(states, steps, env) && k < |steps| && states[k + 1].send.Pricing?
    ensures states[k].send == states[k + 1].send
      || (steps[k].QuoteUnmined? && !NonceMined(states[k].store.mem, states[k + 1].send.record.id.nonce))
  {
  }

  // ---- History -----------------------------------------------------------------------------------------------

  /** History sets out to look up exactly the active records whose result may still change. */
  lemma HistoryLooksUpAll(s: World, step: Step, r: Record, env: Env)
    requires Enabled(s, step, env) && step.HistoryBegin?
    ensures Apply(s, step, env).history.Refreshing?
    ensures r in Apply(s, step, env).history.items <==> r in s.store.mem.active && Unresolved(s.store.mem, r)
  {
    RefreshListsAll(s.store.mem, s.store.mem.active, r);
  }

  /** What History demotes was shown as mined by the record of that hash, earlier in the same call. */
  lemma {:induction false} DemotionIsOfMined(states: seq<World>, steps: seq<Step>, env: Env, j: nat)
    returns (m: nat, r: Record)
    requires IsRun(states, steps, env) && j <= |steps| && states[j].history.Demoting?
    ensures m < j && steps[m].LookUp? && r in All(states[m].store.mem)
    ensures r.id.hash == states[j].history.item.id.hash && (r.state == Succeeded || r.state == Reverted)
    ensures forall k | m < k <= j :: states[k].history == states[j].history
  {
    if states[j - 1].history == states[j].history {
      m, r := DemotionIsOfMined(states, steps, env, j - 1);
    } else {
      m := j - 1;
      r := LookUpStep(states, steps, env, m);
    }
  }

  lemma LookUpStep(states: seq<World>, steps: seq<Step>, env: Env, k: nat) returns (r: Record)
    requires IsRun(states, steps, env) && k < |steps|
    requires states[k + 1].history.Demoting? && states[k].history != states[k + 1].history
    ensures steps[k].LookUp? && r in All(states[k].store.mem)
    ensures r.id.hash == states[k + 1].history.item.id.hash && (r.state == Succeeded || r.state == Reverted)
  {
    var all := All(states[k].store.mem);
    var hash := states[k + 1].history.item.id.hash;
    LookUpFinds(states[k], steps[k], env);
    FindHashFinds(all, hash);
    r := FindHash(all, hash).value;
  }

  lemma LookUpFinds(s: World, step: Step, env: Env)
    requires Enabled(s, step, env)
    requires Apply(s, step, env).history.Demoting? && s.history != Apply(s, step, env).history
    ensures step.LookUp?
    ensures var found := FindHash(All(s.store.mem), Apply(s, step, env).history.item.id.hash);
      found.Some? && Mined(found.value.state)
  {
  }

  /** In every run, a call of History that ends with both writes done has filed what was due. */
  lemma HistoryCompacts(states: seq<World>, steps: seq<Step>, env: Env, k: nat, i: nat)
    requires IsRun(states, steps, env) && k < |steps|
    requires steps[k].Compact? && steps[k].write.Done? && steps[k].secondWrite.Done?
    requires 900 <= |states[k].store.mem.active| && i < |states[k].store.mem.active|
    ensures var v, v', r := states[k].store.mem, states[k + 1].store.mem, states[k].store.mem.active[i];
      if Due(v, i) then
        && (forall x <- v'.active :: x.id != r.id)
        && (if r.finalized then r else r.(finalized := true, state := Replaced)) in v'.archived
      else r in v'.active
    ensures |All(states[k + 1].store.mem)| == |All(states[k].store.mem)|
  {
    var t := RunInv(states, steps, env, k);
    CompactEnds(states[k], steps[k], env);
    CompactionFiles(states[k].store);
  }

  // ---- Storage faults --------------------------------------------------------------------------------------

  /** The steps that begin a call of the send lock. */
  predicate Begins(step: Step) {
    step.QuoteNew? || step.QuoteFind? || step.SendBegin? || step.RetryBegin?
  }

  lemma FaultHolds(states: seq<World>, steps: seq<Step>, env: Env, k: nat)
    requires IsRun(states, steps, env) && k < |steps| && states[k].fault && !steps[k].Crash?
    ensures states[k + 1].fault && !Begins(steps[k])
  {
  }

  /** Once the fault is set, no Quote, Send or Retry begins until a restart. */
  lemma FaultStopsCalls(states: seq<World>, steps: seq<Step>, env: Env, i: nat, j: nat)
    requires IsRun(states, steps, env) && i <= j < |steps| && states[i].fault
    requires forall k | i <= k <= j :: !steps[k].Crash?
    ensures states[j].fault && !Begins(steps[j])
  {
    var flags := seq(|states|, k requires 0 <= k < |states| => states[k].fault);
    forall k | i <= k < j ensures flags[k] ==> flags[k + 1] {
      if flags[k] {
        FaultHolds(states, steps, env, k);
      }
    }
    Persists(flags, i, j);
    FaultHolds(states, steps, env, j);
  }

  /** The record shows the observation already, so that there is nothing to write. */
  predicate ShowsAlready(r: Record, o: Observation) {
    r.state == o.state && r.finalized == o.finalized && r.confirmations == o.confirmations
    && r.feeEth == o.feeEth && r.error == o.error
  }

  /** An update that finds its version fails exactly if it has something to write and cannot. */
  lemma UpdateFailsExactly(s: Store, p: nat, o: Observation, write: Write)
    requires Distinct(s.mem.active) && p < |s.mem.active|
    ensures var r := s.mem.active[p];
      Update(s, r.id.hash, r.version, o, write).1 == UpdateFailed <==> !write.Done? && !ShowsAlready(r, o)
  {
    LastIndexFinds(s.mem.active, p);
  }

  /** A call whose record cannot be written after the broadcast ends in the fault, and so does one whose record is
      gone. */
  lemma FailedSettleFlags(s: World, t: Torn, step: Step, env: Env)
    requires WorldInv(s, t, env) && Enabled(s, step, env) && step.Settle?
    ensures forall p: nat :: Current(s.store.mem, p, s.send.record) ==>
      (Apply(s, step, env).send.Failing? <==> !step.write.Done? && !ShowsAlready(s.store.mem.active[p], s.send.result))
    ensures (forall r <- s.store.mem.active :: r.id.hash != s.send.record.id.hash) ==> Apply(s, step, env).send.Failing?
  {
    SettleEnds(s, step, env);
    UpdateRefuses(s.store, s.send.record.id.hash, s.send.record.version, s.send.result, step.write);
    forall p: nat | Current(s.store.mem, p, s.send.record)
      ensures Apply(s, step, env).send.Failing?
        <==> !step.write.Done? && !ShowsAlready(s.store.mem.active[p], s.send.result)
    {
      UpdateFailsExactly(s.store, p, s.send.result, step.write);
      UpdateWrites(s.store, p, s.send.result, step.write);
    }
  }

  lemma SettleEnds(s: World, step: Step, env: Env)
    requires Enabled(s, step, env) && step.Settle?
    ensures s.send.Sent?
    ensures var result := Update(s.store, s.send.record.id.hash, s.send.record.version, s.send.result, step.write).1;
      Apply(s, step, env).send == if result.NotFound? || result.UpdateFailed? then Failing else Idle
  {
  }

  /** The same for the two updates of History. */
  lemma FailedRefreshFlags(s: World, t: Torn, step: Step, p: nat, env: Env)
    requires WorldInv(s, t, env) && Enabled(s, step, env) && step.Refresh?
    requires s.history.Refreshing? && Current(s.store.mem, p, s.history.items[step.index])
    ensures Apply(s, step, env).history
      == if !step.write.Done? && !ShowsAlready(s.store.mem.active[p], step.seen) then HistoryFailing else s.history
  {
    RefreshApplies(s, step, env);
    UpdateFailsExactly(s.store, p, step.seen, step.write);
    UpdateWrites(s.store, p, step.seen, step.write);
  }

  lemma FailedDemotionFlags(s: World, t: Torn, step: Step, p: nat, env: Env)
    requires WorldInv(s, t, env) && Enabled(s, step, env) && step.Demote?
    requires s.history.Demoting? && Current(s.store.mem, p, s.history.item)
    ensures Apply(s, step, env).history
      == if !step.write.Done? && !ShowsAlready(s.store.mem.active[p], DEMOTED) then HistoryFailing
         else Refreshing(s.history.items)
  {
    DemoteApplies(s, step, env);
    UpdateFailsExactly(s.store, p, DEMOTED, step.write);
    UpdateWrites(s.store, p, DEMOTED, step.write);
  }

  /** An append that cannot be written ends in the fault, and nothing is broadcast. */
  lemma FailedAppendFlags(s: World, t: Torn, step: Step, env: Env)
    requires WorldInv(s, t, env) && Enabled(s, step, env) && step.SendAppend?
    ensures |s.store.mem.active| < 1000 ==>
      (Apply(s, step, env).send.Failing? <==> !step.write.Done?)
        && (Apply(s, step, env).send.Durable? <==> step.write.Done?)
  {
    NewRecordIsOk(s, t, step.signed, step.write, env);
    AppendApplies(s, step, env);
  }

  /** A compaction with something to file fails exactly if one of the writes that it comes to fails. */
  lemma FailedCompactionFlags(s: World, t: Torn, step: Step, i: nat, env: Env)
    requires WorldInv(s, t, env) && Enabled(s, step, env) && step.Compact?
    requires 900 <= |s.store.mem.active| && i < |s.store.mem.active| && Due(s.store.mem, i)
    ensures Apply(s, step, env).history
      == if step.write.Done? && step.secondWrite.Done? then Resting else HistoryFailing
  {
    ArchiveFailsExactly(s.store, i, step.write, step.secondWrite);
    CompactEnds(s, step, env);
  }

  lemma ArchiveFailsExactly(s: Store, i: nat, w1: Write, w2: Write)
    requires 900 <= |s.mem.active| && i < |s.mem.active| && Due(s.mem, i)
    ensures Archive(s, w1, w2).1.ArchiveFailed? <==> !(w1.Done? && w2.Done?)
  {
    DueIsArchivable(s.mem, i);
    SplitMembers(s.mem, |s.mem.active|);
  }

  lemma CompactEnds(s: World, step: Step, env: Env)
    requires Enabled(s, step, env) && step.Compact?
    ensures Apply(s, step, env).history
      == if Archive(s.store, step.write, step.secondWrite).1.ArchiveFailed? then HistoryFailing else Resting
    ensures Apply(s, step, env).store == Archive(s.store, step.write, step.secondWrite).0
  {
  }

  lemma FlaggingSetsTheFault(s: World, step: Step, env: Env)
    requires Enabled(s, step, env) && !step.Crash?
    ensures s.send.Failing? && OfSend(step) ==> Apply(s, step, env).fault && Apply(s, step, env).send.Idle?
    ensures s.history.HistoryFailing? && !OfSend(step)
      ==> Apply(s, step, env).fault && Apply(s, step, env).history.Resting?
  {
  }

  // ---- New records and quotes ----------------------------------------------------------------------------

  /** What a successful append stores: a pending record of the quote and of the signed transaction, at the end of the
      active list and of its file. */
  lemma AppendIsRecorded(s: World, t: Torn, step: Step, env: Env)
    requires WorldInv(s, t, env) && Enabled(s, step, env) && step.SendAppend? && step.write.Done?
    requires |s.store.mem.active| < 1000
    ensures var s', q, n := Apply(s, step, env), s.send.quote, |s.store.mem.active|;
      && |s'.store.mem.active| == n + 1 && s'.store.mem.active[..n] == s.store.mem.active
      && s'.store.mem.archived == s.store.mem.archived && s'.store.disk.active == s'.store.mem.active
      && s'.send == Durable(s'.store.mem.active[n])
      && var r := s'.store.mem.active[n];
      && r.id.hash == step.signed.hash && r.id.signed == step.signed && r.id.quoteId == q.id && r.id.action == q.action
      && r.id.nonce == q.nonce && r.state == State.Pending && !r.finalized && r.version == 1
      && r.confirmations == "" && r.feeEth == "" && r.error == ""
  {
    NewRecordIsOk(s, t, step.signed, step.write, env);
    AppendApplies(s, step, env);
  }

  /** How each step changes the stored quotes: a new quote is stored, a replacement with the number of records that its
      nonce has, a signed one is dropped when its call has ended, a restart drops all, and nothing else touches them. */
  lemma QuotesChangeExactly(s: World, t: Torn, step: Step, env: Env)
    requires WorldInv(s, t, env) && Enabled(s, step, env)
    ensures var s' := Apply(s, step, env);
      s'.quotes ==
        if step.QuoteNew? then s.quotes[step.quote.id := step.quote]
        else if step.QuoteCount? then
          s.quotes[s.send.quote.id := s.send.quote.(count := |AtNonce(Ids(s.store.mem), s.send.quote.nonce)|)]
        else if step.Settle? && s.send.signedNow && !s'.send.Failing? then s.quotes - {s.send.record.id.quoteId}
        else if step.Crash? then map[]
        else s.quotes
  {
    if step.QuoteCount? {
      CountedQuote(s, t, env);
    } else if step.Crash? {
      CrashForgets(s, t, step, env);
    }
    if !step.Crash? {
      QuotesOfStep(s, step, env);
    }
  }

  lemma CrashForgets(s: World, t: Torn, step: Step, env: Env)
    requires WorldInv(s, t, env) && Enabled(s, step, env) && step.Crash?
    ensures Apply(s, step, env).quotes == map[]
  {
    CrashKeeps(s, t, step.order, env);
  }

  lemma QuotesOfStep(s: World, step: Step, env: Env)
    requires Enabled(s, step, env) && !step.Crash?
    ensures var s' := Apply(s, step, env);
      s'.quotes ==
        if step.QuoteNew? then s.quotes[step.quote.id := step.quote]
        else if step.QuoteCount? then
          s.quotes[s.send.quote.id := s.send.quote.(count := |NonceRecords(All(s.store.mem), s.send.quote.nonce)|)]
        else if step.Settle? && s.send.signedNow && !s'.send.Failing? then s.quotes - {s.send.record.id.quoteId}
        else s.quotes
  {
  }

  lemma CountedQuote(s: World, t: Torn, env: Env)
    requires WorldInv(s, t, env) && s.send.Priced?
    ensures |NonceRecords(All(s.store.mem), s.send.quote.nonce)| == |AtNonce(Ids(s.store.mem), s.send.quote.nonce)|
  {
    AllIds(s.store.mem);
    NonceRecordsCount(All(s.store.mem), s.send.quote.nonce);
  }

  /** A replacement quote is for the nonce of the record that was looked up, names it, and carries the computed price.
      */
  lemma PricesExactly(s: World, step: Step, env: Env)
    requires Enabled(s, step, env) && step.QuotePrice?
    ensures s.send.Pricing? && Apply(s, step, env).send.Priced?
    ensures var r, q := s.send.record, Apply(s, step, env).send.quote;
      && q.id == step.id && q.action == step.action && (q.action == Speedup || q.action == Cancel)
      && q.nonce == r.id.signed.nonce && q.original == Some(r.id.hash)
      && Suffices(NonceRecords(All(s.store.mem), q.nonce), step.suggestedTip, step.baseFee, q.tip, q.feeCap)
  {
    PriceIsLeast(NonceRecords(All(s.store.mem), s.send.record.id.signed.nonce), step.suggestedTip, step.baseFee, 0, 0);
  }
}

/**
 The invariant of the wallet's step machine and the proof that every step keeps it.
 */
module JournalSafety {
  import opened Common
  import opened JournalModel
  import opened JournalInvariants
  import opened JournalReload
  import opened JournalCompaction
  import opened JournalStore
  import opened Replacement
  import opened JournalProtocol

  // ---- What the whole machine keeps -----------------------------------------------------------

  /** At most one nonce has never been recorded as mined. */
  ghost predicate OneOpenNonce(ids: set<Identity>, everMined: set<nat>) {
    forall a <- ids, b <- ids :: a.nonce !in everMined && b.nonce !in everMined ==> a.nonce == b.nonce
  }

  ghost predicate OutbidsAll(tip: nat, feeCap: nat, nonce: nat, ids: set<Identity>) {
    forall id <- ids :: id.nonce == nonce ==> Outbids(tip, feeCap, id.signed)
  }

  /** Every replacement outbids each record that entered before it at the same nonce. */
  ghost predicate Ladder(entered: seq<Identity>) {
    forall i, j :: 0 <= i < j < |entered| && entered[i].nonce == entered[j].nonce && IsReplacement(entered[j]) ==>
      Outbids(entered[j].signed.tip, entered[j].signed.feeCap, entered[i].signed)
  }

  ghost predicate Lists1(entered: seq<Identity>, ids: set<Identity>) {
    && (forall id <- entered :: id in ids) && (forall id <- ids :: id in entered)
    && (forall i, j :: 0 <= i < j < |entered| ==> entered[i] != entered[j])
  }

  ghost predicate MinedKnown(v: View, everMined: set<nat>) {
    forall r <- All(v) :: Mined(r.state) ==> r.id.nonce in everMined
  }

  ghost predicate LedgerInv(s: World) {
    var ids := Ids(s.store.mem);
    && s.broadcast <= ids
    && OneOpenNonce(ids, s.everMined)
    && MinedKnown(s.store.mem, s.everMined)
    && Lists1(s.entered, ids) && Ladder(s.entered)
  }

  ghost predicate TornLedger(t: Torn, ids: set<Identity>, everMined: set<nat>) {
    match t
    case TornAppend(r) =>
      && OneOpenNonce(ids + {r.id}, everMined)
      && (IsReplacement(r.id) ==> OutbidsAll(r.id.signed.tip, r.id.signed.feeCap, r.id.nonce, ids))
    case _ => true
  }

  ghost predicate GoodReplacement(q: Quote, ids: set<Identity>) {
    OutbidsAll(q.tip, q.feeCap, q.nonce, ids) && exists id <- ids :: id.nonce == q.nonce
  }

  /** A replacement quote still outbids its nonce unless a record has been added there since. */
  ghost predicate GoodQuote(q: Quote, ids: set<Identity>) {
    && WellFormedQuote(q)
    && (q.original.Some? ==>
      && q.count <= |AtNonce(ids, q.nonce)|
      && (q.count == |AtNonce(ids, q.nonce)| ==> GoodReplacement(q, ids)))
  }

  ghost predicate FreshQuote(id: QuoteId, ids: set<Identity>) {
    forall x <- ids :: x.quoteId != id
  }

  /** A thread's copy of a record: the journal still knows it, and as long as the version is the same
      the active record is exactly that copy. */
  ghost predicate Snapshot(r: Record, v: View) {
    && r.id in Ids(v)
    && (FinalMined(r) ==> r in All(v))
    && (r.finalized ==> NonceFinal(v, r.id.nonce))
    && (forall x <- v.active :: x.id.hash == r.id.hash ==>
          r.version <= x.version && (r.version == x.version ==> r == x))
  }

  ghost predicate OpenSnapshot(r: Record, v: View) {
    Snapshot(r, v) && !r.finalized
  }

  ghost predicate SendInv(pc: SendPc, v: View, everMined: set<nat>) {
    var ids := Ids(v);
    match pc
    case Idle => true
    case Failing => true
    case Quoting(r) => r.id in ids && r.id.signed.nonce == r.id.nonce
    case Pricing(r) => r.id in ids && r.id.signed.nonce == r.id.nonce
    case Priced(q) => WellFormedQuote(q) && q.original.Some? && GoodReplacement(q, ids)
    case Checking(q) => GoodQuote(q, ids) && FreshQuote(q.id, ids)
    case Counted(q) =>
      && WellFormedQuote(q) && FreshQuote(q.id, ids)
      && q.original.Some? && GoodReplacement(q, ids) && q.count == |AtNonce(ids, q.nonce)|
    case Ready(q) =>
      && WellFormedQuote(q) && FreshQuote(q.id, ids)
      && (if q.original.Some? then GoodReplacement(q, ids) && q.count == |AtNonce(ids, q.nonce)|
          else forall id <- ids :: id.nonce in everMined)
    case Durable(r) => OpenSnapshot(r, v)
    case Retrying(r) => Snapshot(r, v)
    case Resending(r) => OpenSnapshot(r, v)
    case Sent(r, o, _) => OpenSnapshot(r, v) && !o.finalized && !Mined(o.state)
  }

  ghost predicate HistoryInv(pc: HistoryPc, v: View) {
    match pc
    case Resting => true
    case HistoryFailing => true
    case Refreshing(items) => forall r <- items :: OpenSnapshot(r, v)
    case Demoting(items, item) => OpenSnapshot(item, v) && forall r <- items :: OpenSnapshot(r, v)
  }

  ghost predicate WorldInv(s: World, t: Torn, env: Env) {
    && StoreInv(s.store, t, env.chainId, env.winners)
    && LedgerInv(s)
    && TornLedger(t, Ids(s.store.mem), s.everMined)
    && (forall id <- s.quotes :: GoodQuote(s.quotes[id], Ids(s.store.mem)) && s.quotes[id].id == id)
    && SendInv(s.send, s.store.mem, s.everMined)
    && HistoryInv(s.history, s.store.mem)
  }

  // ---- What survives a change of memory -----------------------------------------------------------

  lemma SnapshotStable(r: Record, v: View, v': View)
    requires Snapshot(r, v) && Follows(v, v') && UniqueView(v')
    ensures Snapshot(r, v')
  {
    if r.finalized {
      var f :| f in All(v) && f.id.nonce == r.id.nonce && FinalMined(f);
      assert f in All(v');
    }
    forall x' <- v'.active | x'.id.hash == r.id.hash
      ensures r.version <= x'.version && (r.version == x'.version ==> r == x')
    {
      assert x'.id in IdsOf(v'.active) && r.id in Ids(v');
      SameIdentity(v', x'.id, r.id);
      assert x'.id in IdsOf(v'.active) * Ids(v);
      var x :| x in v.active && x.id == x'.id;
    }
  }

  lemma HistoryStable(pc: HistoryPc, v: View, v': View)
    requires HistoryInv(pc, v) && Follows(v, v') && UniqueView(v')
    ensures HistoryInv(pc, v')
  {
    forall r: Record | OpenSnapshot(r, v) ensures OpenSnapshot(r, v') {
      SnapshotStable(r, v, v');
    }
  }

  /** As long as no record is added, History may do what it likes under Send's feet. */
  lemma SendStable(pc: SendPc, v: View, v': View, everMined: set<nat>, everMined': set<nat>)
    requires SendInv(pc, v, everMined) && everMined <= everMined'
    requires Follows(v, v') && UniqueView(v') && Ids(v') == Ids(v)
    ensures SendInv(pc, v', everMined')
  {
    if pc.Durable? || pc.Retrying? || pc.Resending? || pc.Sent? {
      SnapshotStable(pc.record, v, v');
    }
  }

  lemma QuoteStable(q: Quote, ids: set<Identity>, id: Identity)
    requires GoodQuote(q, ids) && id !in ids
    ensures GoodQuote(q, ids + {id})
  {
    if q.original.Some? {
      AtNonceSnoc(ids, id, q.nonce);
    }
  }

  /** The snapshot that a lookup takes. */
  lemma TakeSnapshot(v: View, r: Record, chainId: int, w: Winners)
    requires ViewInv(v, chainId, w) && r in All(v)
    ensures Snapshot(r, v)
  {
    if r in v.archived {
      assert GoodArchived(r, DigestOf(v), chainId, w);
      if !Mined(r.state) {
        assert r.id.nonce in DigestOf(v).finalNonces;
      }
    } else {
      forall x <- v.active | x.id.hash == r.id.hash ensures x == r {
        SameInDistinct(v.active, x, r);
      }
    }
  }

  lemma {:induction false} NonceRecordsMembers(rs: seq<Record>, nonce: nat)
    ensures forall r :: r in NonceRecords(rs, nonce) <==> r in rs && r.id.nonce == nonce
  {
    if rs != [] {
      NonceRecordsMembers(rs[..|rs| - 1], nonce);
      assert rs == rs[..|rs| - 1] + [rs[|rs| - 1]];
    }
  }

  lemma {:induction false} RefreshMembers(v: View, rs: seq<Record>)
    ensures forall r <- RefreshOf(v, rs) :: r in rs && !r.finalized
  {
    if rs != [] {
      RefreshMembers(v, rs[..|rs| - 1]);
      assert rs == rs[..|rs| - 1] + [rs[|rs| - 1]];
    }
  }

  /** The steps of the thread that holds the send lock. */
  predicate OfSend(step: Step) {
    !step.HistoryBegin? && !step.Refresh? && !step.LookUp? && !step.Demote? && !step.Compact? && !step.HistoryFlag?
    && !step.Crash?
  }

  // ---- Quoting --------------------------------------------------------------------------------------

  lemma QuoteKeeps(s: World, t: Torn, step: Step, env: Env)
    requires WorldInv(s, t, env) && Enabled(s, step, env)
    requires step.QuoteNew? || step.QuoteFind? || step.QuoteUnmined? || step.QuotePrice? || step.QuoteCount?
    ensures WorldInv(Apply(s, step, env), t, env)
  {
    var v := s.store.mem;
    match step
    case QuoteNew(q) =>
    case QuoteFind(hash) =>
      FindHashFinds(All(v), hash);
      var r := FindHash(All(v), hash).value;
      assert r.id.signed.nonce == r.id.nonce;
    case QuoteUnmined =>
    case QuotePrice(id, action, suggestedTip, baseFee) => PriceKeeps(v, s.send.record, suggestedTip, baseFee);
    case QuoteCount =>
      AllIds(v);
      NonceRecordsCount(All(v), s.send.quote.nonce);
  }

  lemma PriceKeeps(v: View, r: Record, suggestedTip: nat, baseFee: nat)
    requires r.id in Ids(v) && r.id.signed.nonce == r.id.nonce
    ensures var p := PriceOf(NonceRecords(All(v), r.id.signed.nonce), suggestedTip, baseFee);
      OutbidsAll(p.tip, p.feeCap, r.id.signed.nonce, Ids(v))
  {
    var nonce := r.id.signed.nonce;
    var rs := NonceRecords(All(v), nonce);
    PriceOutbids(rs, suggestedTip, baseFee);
    NonceRecordsMembers(All(v), nonce);
    AllIds(v);
    forall id <- Ids(v) | id.nonce == nonce ensures exists x <- rs :: x.id == id {
      var x :| x in All(v) && x.id == id;
      assert x in rs;
    }
  }

  // ---- Send -----------------------------------------------------------------------------------------

  lemma SendChecksKeep(s: World, t: Torn, step: Step, env: Env)
    requires WorldInv(s, t, env) && Enabled(s, step, env)
    requires step.SendBegin? || step.SendInFlight? || step.SendCount? || step.SendUnmined?
    ensures WorldInv(Apply(s, step, env), t, env)
  {
    var v := s.store.mem;
    AllIds(v);
    match step
    case SendBegin(id) =>
      FindQuoteFinds(All(v), id);
      assert FreshQuote(id, Ids(v));
    case SendInFlight =>
      forall id <- Ids(v) ensures id.nonce in s.everMined {
        var r :| r in All(v) && r.id == id;
        assert NonceMined(v, id.nonce);
        var m :| m in All(v) && m.id.nonce == id.nonce && Mined(m.state);
      }
    case SendCount => NonceRecordsCount(All(v), s.send.quote.nonce);
    case SendUnmined =>
  }

  lemma EnteredGrows(entered: seq<Identity>, ids: set<Identity>, id: Identity)
    requires Lists1(entered, ids) && Ladder(entered) && id !in ids
    requires IsReplacement(id) ==> OutbidsAll(id.signed.tip, id.signed.feeCap, id.nonce, ids)
    ensures Lists1(entered + [id], ids + {id}) && Ladder(entered + [id])
  {
    var next := entered + [id];
    forall i | 0 <= i < |entered| ensures next[i] in ids && next[i] == entered[i] {
      assert entered[i] in entered;
    }
    forall x <- ids + {id} ensures x in next {
      if x != id {
        assert x in entered;
      }
    }
  }

  /** The new record keeps the ledger: one open nonce, one record per quote, a higher rung. */
  lemma NewRecordLedger(v: View, q: Quote, signed: SignedTx, everMined: set<nat>)
    requires OneOpenNonce(Ids(v), everMined)
    requires SendInv(Ready(q), v, everMined)
    requires signed.nonce == q.nonce && signed.tip == q.tip && signed.feeCap == q.feeCap
    ensures var id := NewRecord(q, signed).id;
      && OneOpenNonce(Ids(v) + {id}, everMined)
      && (IsReplacement(id) ==> OutbidsAll(id.signed.tip, id.signed.feeCap, id.nonce, Ids(v)))
  {
  }

  lemma NewRecordFresh(v: View, q: Quote, signed: SignedTx, chainId: int, w: Winners)
    requires WellFormedQuote(q) && FreshQuote(q.id, Ids(v))
    requires signed.chainId == chainId && signed.nonce == q.nonce && forall r <- All(v) :: r.id.hash != signed.hash
    ensures var r := NewRecord(q, signed);
      Fresh(r.id, Ids(v)) && GoodActive(r.(version := 1), chainId, w)
  {
    AllIds(v);
    var r := NewRecord(q, signed);
    forall x <- Ids(v) ensures x.hash != r.id.hash && x.quoteId != r.id.quoteId {
      var y :| y in All(v) && y.id == x;
    }
  }

  /** What an append that succeeded adds to the ledger. */
  lemma AppendedLedger(s: World, s': World, r: Record)
    requires LedgerInv(s)
    requires Ids(s'.store.mem) == Ids(s.store.mem) + {r.id} && r.id !in Ids(s.store.mem)
    requires s'.store.mem.archived == s.store.mem.archived && !Mined(r.state)
    requires forall x <- s'.store.mem.active :: x in s.store.mem.active || x == r
    requires s'.broadcast == s.broadcast && s'.everMined == s.everMined && s'.entered == s.entered + [r.id]
    requires OneOpenNonce(Ids(s.store.mem) + {r.id}, s.everMined)
    requires IsReplacement(r.id) ==> OutbidsAll(r.id.signed.tip, r.id.signed.feeCap, r.id.nonce, Ids(s.store.mem))
    ensures LedgerInv(s')
  {
    EnteredGrows(s.entered, Ids(s.store.mem), r.id);
  }

  /** The world after an append, given what AppendStore says about the store. */
  lemma AppendedWorld(s: World, t: Torn, store': Store, t': Torn, r: Record, env: Env)
    requires WorldInv(s, t, env) && StoreInv(store', t', env.chainId, env.winners)
    requires Follows(s.store.mem, store'.mem)
    requires Ids(store'.mem) == Ids(s.store.mem) + {r.id} && Fresh(r.id, Ids(s.store.mem))
    requires store'.mem == s.store.mem.(active := s.store.mem.active + [r]) && !Mined(r.state) && !r.finalized
    requires OneOpenNonce(Ids(s.store.mem) + {r.id}, s.everMined)
    requires IsReplacement(r.id) ==> OutbidsAll(r.id.signed.tip, r.id.signed.feeCap, r.id.nonce, Ids(s.store.mem))
    requires t' == Clean
    ensures WorldInv(s.(store := store', send := Durable(r), entered := s.entered + [r.id]), t', env)
  {
    var s' := s.(store := store', send := Durable(r), entered := s.entered + [r.id]);
    assert r.id !in Ids(s.store.mem);
    AppendedLedger(s, s', r);
    HistoryStable(s.history, s.store.mem, store'.mem);
    TakeSnapshot(store'.mem, r, env.chainId, env.winners);
    forall k <- s.quotes ensures GoodQuote(s.quotes[k], Ids(store'.mem)) {
      QuoteStable(s.quotes[k], Ids(s.store.mem), r.id);
    }
  }

  lemma RefusedWorld(s: World, t: Torn, store': Store, t': Torn, pc: SendPc, env: Env)
    requires WorldInv(s, t, env) && StoreInv(store', t', env.chainId, env.winners)
    requires store'.mem == s.store.mem && (pc.Idle? || pc.Failing?)
    requires TornLedger(t', Ids(s.store.mem), s.everMined)
    ensures WorldInv(s.(store := store', send := pc), t', env)
  {
  }

  /** The facts about a new record that the two cases of an append need. */
  ghost predicate NewRecordOk(s: World, r: Record, env: Env) {
    var ids := Ids(s.store.mem);
    && Fresh(r.id, ids) && GoodActive(r, env.chainId, env.winners)
    && !Mined(r.state) && !r.finalized && r.version == 1
    && OneOpenNonce(ids + {r.id}, s.everMined)
    && (IsReplacement(r.id) ==> OutbidsAll(r.id.signed.tip, r.id.signed.feeCap, r.id.nonce, ids))
  }

  lemma NewRecordIsOk(s: World, t: Torn, signed: SignedTx, write: Write, env: Env)
    requires WorldInv(s, t, env) && Enabled(s, SendAppend(signed, write), env)
    ensures NewRecordOk(s, NewRecord(s.send.quote, signed).(version := 1), env)
  {
    NewRecordFresh(s.store.mem, s.send.quote, signed, env.chainId, env.winners);
    NewRecordLedger(s.store.mem, s.send.quote, signed, s.everMined);
  }

  lemma AppendCases(s: World, t: Torn, r: Record, write: Write, env: Env) returns (t': Torn)
    requires WorldInv(s, t, env) && NewRecordOk(s, r.(version := 1), env)
    ensures var (store', result) := Append(s.store, r, env.chainId, write);
      if result.Appended? then
        WorldInv(s.(store := store', send := Durable(r.(version := 1)), entered := s.entered + [r.id]), t', env)
      else
        WorldInv(s.(store := store', send := Idle), t', env) && WorldInv(s.(store := store', send := Failing), t', env)
  {
    t' := AppendStore(s.store, t, r, write, env.chainId, env.winners);
    var (store', result) := Append(s.store, r, env.chainId, write);
    if result.Appended? {
      AppendedWorld(s, t, store', t', r.(version := 1), env);
    } else {
      RefusedWorld(s, t, store', t', Idle, env);
      RefusedWorld(s, t, store', t', Failing, env);
    }
  }

  lemma AppendKeepsWorld(s: World, t: Torn, step: Step, env: Env) returns (t': Torn)
    requires WorldInv(s, t, env) && Enabled(s, step, env) && step.SendAppend?
    ensures WorldInv(Apply(s, step, env), t', env)
  {
    var r := NewRecord(s.send.quote, step.signed);
    NewRecordIsOk(s, t, step.signed, step.write, env);
    t' := AppendCases(s, t, r, step.write, env);
    AppendApplies(s, step, env);
  }

  /** The three ways an append can leave the send thread. */
  lemma AppendApplies(s: World, step: Step, env: Env)
    requires Enabled(s, step, env) && step.SendAppend?
    ensures var r := NewRecord(s.send.quote, step.signed);
      var (store', result) := Append(s.store, r, env.chainId, step.write);
      Apply(s, step, env) ==
        if result.Appended? then
          s.(store := store', send := Durable(r.(version := 1)), entered := s.entered + [r.id])
        else if result.JournalFull? then s.(store := store', send := Idle)
        else s.(store := store', send := Failing)
  {
  }

  lemma BroadcastKeeps(s: World, t: Torn, step: Step, env: Env)
    requires WorldInv(s, t, env) && Enabled(s, step, env)
    requires step.SendBroadcast? || step.RetryBroadcast?
    ensures WorldInv(Apply(s, step, env), t, env)
  {
    assert s.send.record.id in Ids(s.store.mem);
  }

  lemma FoundSnapshot(v: View, hash: Hash, chainId: int, w: Winners)
    requires ViewInv(v, chainId, w) && FindHash(All(v), hash).Some?
    ensures Snapshot(FindHash(All(v), hash).value, v)
  {
    FindHashFinds(All(v), hash);
    TakeSnapshot(v, FindHash(All(v), hash).value, chainId, w);
  }

  lemma RetryBeginKeeps(s: World, t: Torn, step: Step, env: Env)
    requires WorldInv(s, t, env) && Enabled(s, step, env) && step.RetryBegin?
    ensures WorldInv(Apply(s, step, env), t, env)
  {
    FoundSnapshot(s.store.mem, step.hash, env.chainId, env.winners);
  }

  lemma RetryUnminedKeeps(s: World, t: Torn, step: Step, env: Env)
    requires WorldInv(s, t, env) && Enabled(s, step, env) && step.RetryUnmined?
    ensures WorldInv(Apply(s, step, env), t, env)
  {
    var nonce := s.send.record.id.nonce;
    assert NonceFinal(s.store.mem, nonce) ==> NonceMined(s.store.mem, nonce);
  }

  // ---- Compare-and-set, from either thread -------------------------------------------------------------

  lemma UpdateKeepsWorld(s: World, t: Torn, r: Record, o: Observation, write: Write, everMined: set<nat>, env: Env)
    returns (t': Torn)
    requires WorldInv(s, t, env) && OpenSnapshot(r, s.store.mem)
    requires LegalObservation(o, r.id, env.winners)
    requires s.everMined <= everMined
    requires Update(s.store, r.id.hash, r.version, o, write).1.Updated? && Mined(o.state) ==> r.id.nonce in everMined
    ensures var store' := Update(s.store, r.id.hash, r.version, o, write).0;
      && WorldInv(s.(store := store', everMined := everMined), t', env)
      && Ids(store'.mem) == Ids(s.store.mem)
  {
    var v := s.store.mem;
    t' := UpdateStore(s.store, t, r.id, r.version, o, write, env.chainId, env.winners);
    UpdateMembers(s.store, r.id.hash, r.version, o, write);
    var store' := Update(s.store, r.id.hash, r.version, o, write).0;
    SendStable(s.send, v, store'.mem, s.everMined, everMined);
    HistoryStable(s.history, v, store'.mem);
    forall x <- All(store'.mem) | Mined(x.state) ensures x.id.nonce in everMined {
      if x !in All(v) {
        assert x in store'.mem.active && x.id.hash == r.id.hash;
        SameIdentity(store'.mem, x.id, r.id);
      }
    }
  }

  /** Send may always drop what it was doing, and quotes may be dropped. */
  lemma SendRests(s: World, t: Torn, pc: SendPc, quotes: map<QuoteId, Quote>, env: Env)
    requires WorldInv(s, t, env)
    requires pc.Idle? || pc.Failing?
    requires forall id <- quotes :: id in s.quotes && quotes[id] == s.quotes[id]
    ensures WorldInv(s.(send := pc, quotes := quotes), t, env)
    ensures WorldInv(s.(send := pc, quotes := quotes, fault := true), t, env)
  {
  }

  lemma HistoryMoves(s: World, t: Torn, pc: HistoryPc, env: Env)
    requires WorldInv(s, t, env) && HistoryInv(pc, s.store.mem)
    ensures WorldInv(s.(history := pc), t, env)
    ensures WorldInv(s.(history := pc, fault := true), t, env)
  {
  }

  lemma SettleKeeps(s: World, t: Torn, step: Step, env: Env) returns (t': Torn)
    requires WorldInv(s, t, env) && Enabled(s, step, env) && step.Settle?
    ensures WorldInv(Apply(s, step, env), t', env)
  {
    var r := s.send.record;
    t' := UpdateKeepsWorld(s, t, r, s.send.result, step.write, s.everMined, env);
    var (store', result) := Update(s.store, r.id.hash, r.version, s.send.result, step.write);
    var s1 := s.(store := store', everMined := s.everMined);
    if result.NotFound? || result.UpdateFailed? {
      SendRests(s1, t', Failing, s.quotes, env);
    } else {
      SendRests(s1, t', Idle, if s.send.signedNow then s.quotes - {r.id.quoteId} else s.quotes, env);
    }
  }

  /** What a refresh makes of the world. */
  lemma RefreshApplies(s: World, step: Step, env: Env)
    requires Enabled(s, step, env) && step.Refresh?
    ensures s.history.Refreshing? && step.index < |s.history.items|
    ensures var item := s.history.items[step.index];
      var (store', result) := Update(s.store, item.id.hash, item.version, step.seen, step.write);
      var mined := s.everMined + (if result.Updated? && Mined(step.seen.state) then {item.id.nonce} else {});
      && ChainAnswer(step.seen, item.id, env)
      && Apply(s, step, env) == s.(store := store', everMined := mined,
           history := if result.NotFound? || result.UpdateFailed? then HistoryFailing else s.history)
  {
  }

  lemma RefreshKeeps(s: World, t: Torn, step: Step, env: Env) returns (t': Torn)
    requires WorldInv(s, t, env) && Enabled(s, step, env) && step.Refresh?
    ensures WorldInv(Apply(s, step, env), t', env)
  {
    RefreshApplies(s, step, env);
    var item, seen := s.history.items[step.index], step.seen;
    var (store', result) := Update(s.store, item.id.hash, item.version, seen, step.write);
    var mined := s.everMined + (if result.Updated? && Mined(seen.state) then {item.id.nonce} else {});
    t' := UpdateKeepsWorld(s, t, item, seen, step.write, mined, env);
    var s1 := s.(store := store', everMined := mined);
    HistoryMoves(s1, t', HistoryFailing, env);
    HistoryMoves(s1, t', s.history, env);
  }

  lemma DemoteApplies(s: World, step: Step, env: Env)
    requires Enabled(s, step, env) && step.Demote?
    ensures s.history.Demoting?
    ensures var item := s.history.item;
      var (store', result) := Update(s.store, item.id.hash, item.version, DEMOTED, step.write);
      Apply(s, step, env) == s.(store := store',
        history := if result.NotFound? || result.UpdateFailed? then HistoryFailing else Refreshing(s.history.items))
  {
  }

  lemma DemoteKeeps(s: World, t: Torn, step: Step, env: Env) returns (t': Torn)
    requires WorldInv(s, t, env) && Enabled(s, step, env) && step.Demote?
    ensures WorldInv(Apply(s, step, env), t', env)
  {
    DemoteApplies(s, step, env);
    t' := DemotedWorld(s, t, s.history.item, s.history.items, step.write, env);
  }

  lemma DemotedWorld(s: World, t: Torn, item: Record, items: seq<Record>, write: Write, env: Env) returns (t': Torn)
    requires WorldInv(s, t, env) && s.history == Demoting(items, item)
    ensures var store' := Update(s.store, item.id.hash, item.version, DEMOTED, write).0;
      && WorldInv(s.(store := store', history := HistoryFailing), t', env)
      && WorldInv(s.(store := store', history := Refreshing(items)), t', env)
  {
    t' := UpdateKeepsWorld(s, t, item, DEMOTED, write, s.everMined, env);
    var s1 := s.(store := Update(s.store, item.id.hash, item.version, DEMOTED, write).0);
    HistoryMoves(s1, t', HistoryFailing, env);
    HistoryMoves(s1, t', Refreshing(items), env);
  }

  lemma HistoryBegins(v: View, chainId: int, w: Winners)
    requires ViewInv(v, chainId, w)
    ensures HistoryInv(Refreshing(RefreshRecords(v)), v)
  {
    RefreshMembers(v, v.active);
    forall r <- RefreshRecords(v) ensures OpenSnapshot(r, v) {
      TakeSnapshot(v, r, chainId, w);
    }
  }

  lemma HistoryReadsKeep(s: World, t: Torn, step: Step, env: Env)
    requires WorldInv(s, t, env) && Enabled(s, step, env)
    requires step.HistoryBegin? || step.LookUp? || step.HistoryFlag?
    ensures WorldInv(Apply(s, step, env), t, env)
  {
    if step.HistoryBegin? {
      HistoryBegins(s.store.mem, env.chainId, env.winners);
      HistoryMoves(s, t, Refreshing(RefreshRecords(s.store.mem)), env);
    } else if step.LookUp? {
      HistoryMoves(s, t, Demoting(s.history.items, s.history.items[step.index]), env);
    } else {
      HistoryMoves(s, t, Resting, env);
    }
  }

  lemma SendStops(s: World, t: Torn, step: Step, env: Env)
    requires WorldInv(s, t, env) && Enabled(s, step, env)
    requires step.GiveUp? || step.SendFlag?
    ensures WorldInv(Apply(s, step, env), t, env)
  {
    SendRests(s, t, Idle, s.quotes, env);
  }

  lemma CompactKeeps(s: World, t: Torn, step: Step, env: Env) returns (t': Torn)
    requires WorldInv(s, t, env) && Enabled(s, step, env) && step.Compact?
    ensures WorldInv(Apply(s, step, env), t', env)
  {
    var Compact(w1, w2) := step;
    t' := ArchiveStore(s.store, t, w1, w2, env.chainId, env.winners);
    var store' := Archive(s.store, w1, w2).0;
    SendStable(s.send, s.store.mem, store'.mem, s.everMined, s.everMined);
  }

  // ---- Crash -------------------------------------------------------------------------------------------

  /** Memory learns of the record that a failed append left on disk, and of nothing else. */
  lemma LearnedIs(s: World, t: Torn, env: Env)
    requires WorldInv(s, t, env)
    ensures Learned(s.entered, s.store.disk.active) ==
      s.entered + (if t.TornAppend? then [t.record.id] else [])
  {
    var active := s.store.disk.active;
    var v := Shadow(s.store.mem, t);
    ShadowKeeps(s.store.mem, s.store.disk.archives, t, env.chainId, env.winners);
    if active != [] {
      var last := active[|active| - 1];
      assert last in v.active && last.id in Ids(v);
      if t.TornAppend? {
        assert last == t.record;
        assert last.id !in Ids(s.store.mem);
      } else {
        assert last.id in Ids(s.store.mem);
      }
    }
  }

  lemma CrashLedger(s: World, t: Torn, loaded: View, env: Env)
    requires WorldInv(s, t, env)
    requires ViewInv(loaded, env.chainId, env.winners) && SameView(Shadow(s.store.mem, t), loaded)
    ensures LedgerInv(s.(store := s.store.(mem := loaded), everMined := s.everMined + MinedNonces(loaded),
                         entered := Learned(s.entered, s.store.disk.active)))
  {
    var v := s.store.mem;
    ShadowKeeps(v, s.store.disk.archives, t, env.chainId, env.winners);
    LearnedIs(s, t, env);
    if t.TornAppend? {
      EnteredGrows(s.entered, Ids(v), t.record.id);
    } else {
      assert Learned(s.entered, s.store.disk.active) == s.entered;
    }
  }

  lemma CrashKeeps(s: World, t: Torn, order: seq<ArchiveName>, env: Env)
    requires WorldInv(s, t, env) && Enabled(s, Crash(order), env)
    ensures Load(s.store.disk, env.chainId, order).Loaded?
    ensures WorldInv(Apply(s, Crash(order), env), Clean, env)
  {
    ReloadStore(s.store, t, order, env.chainId, env.winners);
    CrashLedger(s, t, Load(s.store.disk, env.chainId, order).view, env);
  }

  lemma SendStepKeeps(s: World, t: Torn, step: Step, env: Env) returns (t': Torn)
    requires WorldInv(s, t, env) && Enabled(s, step, env) && OfSend(step)
    ensures WorldInv(Apply(s, step, env), t', env)
  {
    t' := t;
    if step.QuoteNew? || step.QuoteFind? || step.QuoteUnmined? || step.QuotePrice? || step.QuoteCount? {
      QuoteKeeps(s, t, step, env);
    } else if step.SendBegin? || step.SendInFlight? || step.SendCount? || step.SendUnmined? {
      SendChecksKeep(s, t, step, env);
    } else if step.SendAppend? {
      t' := AppendKeepsWorld(s, t, step, env);
    } else if step.SendBroadcast? || step.RetryBroadcast? {
      BroadcastKeeps(s, t, step, env);
    } else if step.RetryBegin? {
      RetryBeginKeeps(s, t, step, env);
    } else if step.RetryUnmined? {
      RetryUnminedKeeps(s, t, step, env);
    } else if step.Settle? {
      t' := SettleKeeps(s, t, step, env);
    } else {
      SendStops(s, t, step, env);
    }
  }

  lemma HistoryStepKeeps(s: World, t: Torn, step: Step, env: Env) returns (t': Torn)
    requires WorldInv(s, t, env) && Enabled(s, step, env) && !OfSend(step) && !step.Crash?
    ensures WorldInv(Apply(s, step, env), t', env)
  {
    t' := t;
    if step.Refresh? {
      t' := RefreshKeeps(s, t, step, env);
    } else if step.Demote? {
      t' := DemoteKeeps(s, t, step, env);
    } else if step.Compact? {
      t' := CompactKeeps(s, t, step, env);
    } else {
      HistoryReadsKeep(s, t, step, env);
    }
  }

  /** Every step keeps the invariant. */
  lemma StepKeeps(s: World, t: Torn, step: Step, env: Env) returns (t': Torn)
    requires WorldInv(s, t, env) && Enabled(s, step, env)
    ensures WorldInv(Apply(s, step, env), t', env)
  {
    if step.Crash? {
      CrashKeeps(s, t, step.order, env);
      t' := Clean;
    } else if OfSend(step) {
      t' := SendStepKeeps(s, t, step, env);
    } else {
      t' := HistoryStepKeeps(s, t, step, env);
    }
  }
}

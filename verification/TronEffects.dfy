/**
 What each call of the TRON service does, in terms of its inputs and of the records before and after: when a
 record is signed, sent, confirmed, failed or expired, and when nothing happens.
 */
module TronEffects {
  import opened Common
  import opened Bytes
  import opened TronModel
  import TronWire
  import TronQuote
  import opened TronSafety

  // ---- One record of a pass of History ----------------------------------------------------------------

  predicate Open(r: Record) {
    !r.finalized && r.state != Succeeded && r.state != ExecutionFailed && r.state != ExpiredUnconfirmed
  }

  /** The reads were made: not cancelled, the head readable if the local clock asked for it, and an answer about the
      receipt. */
  predicate Made(r: Record, o: Reading) {
    && !o.cancelled && o.info.Some?
    && (o.late && r.tx.expires.Some? ==>
          o.solid.Some? && |o.solid.value.id| == 32 && 0 < o.solid.value.timestamp <= o.clock + 30000)
  }

  /** The head that was read, or none: then it counts as time zero. */
  function HeadRead(r: Record, o: Reading): Solid
    requires Made(r, o)
  {
    if o.late && r.tx.expires.Some? then o.solid.value else Solid([], 0)
  }

  /** No receipt, and a head past the deadline. */
  predicate ShowsExpiry(r: Record, o: Reading) {
    Made(r, o) && o.info.value.NoReceipt? && r.tx.expires.Some? && r.tx.expires.value < HeadRead(r, o).timestamp
  }

  /** A receipt of this transaction. */
  predicate ShowsReceipt(r: Record, o: Reading) {
    && Made(r, o) && o.info.value.Receipt?
    && o.info.value.id == r.tx.hash && 0 < o.info.value.block && 0 <= o.info.value.fee
  }

  /** The receipt says that the execution failed, or the token call returned false. */
  predicate ShowsFailure(r: Record, o: Reading) {
    ShowsReceipt(r, o)
      && (ReceiptFailed(o.info.value) || (r.tx.contract != "" && o.info.value.returned == Returned(false)))
  }

  /** What a record becomes, by what its reads show. */
  lemma RefreshExactly(r: Record, o: Reading)
    requires Open(r)
    ensures ShowsExpiry(r, o) <==> Refreshed(r, o).Some? && Refreshed(r, o).value.state == ExpiredUnconfirmed
    ensures ShowsExpiry(r, o) ==>
      Refreshed(r, o).value
        == r.(state := ExpiredUnconfirmed, checkedBlock := HeadRead(r, o).id, checkedAt := HeadRead(r, o).timestamp)
    ensures ShowsFailure(r, o) <==> Refreshed(r, o).Some? && Refreshed(r, o).value.state == ExecutionFailed
    ensures ShowsFailure(r, o) ==>
      var i := o.info.value;
      Refreshed(r, o).value == r.(state := ExecutionFailed, finalized := true, fee := i.fee,
        result := if !ReceiptFailed(i) then "TRC20_RETURNED_FALSE" else if i.receiptResult == "" then i.result
          else i.receiptResult)
    ensures Succeeds(r, o) <==> Refreshed(r, o).Some? && Refreshed(r, o).value.state == Succeeded
    ensures Succeeds(r, o) ==>
      Refreshed(r, o).value
        == r.(state := Succeeded, finalized := true, fee := o.info.value.fee, result := o.info.value.receiptResult)
    ensures Refreshed(r, o).Some? && !ShowsExpiry(r, o) && !ShowsFailure(r, o) && !Succeeds(r, o) ==>
      Refreshed(r, o).value == r && o.info.value.NoReceipt?
  {
  }

  /** When History gives up at a record: a read failed, or the receipt is not of the transaction, or it cannot be
      read. */
  lemma AbandonsExactly(r: Record, o: Reading)
    requires !r.finalized
    ensures Refreshed(r, o).None? <==>
      || !Made(r, o)
      || (o.info.value.Receipt? && !ShowsReceipt(r, o))
      || (ShowsReceipt(r, o) && !ReceiptFailed(o.info.value) && r.tx.contract != ""
        && o.info.value.returned.Unreadable?)
  {
  }

  /** A record that is final is not read for, and stays. */
  lemma FinalIsSkipped(r: Record, o: Reading)
    requires r.finalized
    ensures Refreshed(r, o) == Some(r)
  {
  }

  // ---- A whole pass ---------------------------------------------------------------------------------------

  ghost predicate Readable(records: seq<Record>, readings: seq<Reading>) {
    |readings| == |records| && forall k | 0 <= k < |records| :: Refreshed(records[k], readings[k]).Some?
  }

  /** A pass whose reads all succeed and whose save is done leaves every record, in memory and in the file, as its reads
      show it; any other pass leaves memory as it was. */
  lemma PassExactly(s: Service, networkOk: bool, readings: seq<Reading>, w: Write)
    requires |readings| == |s.store.mem|
    ensures var s', mem := HistoryOutcome(s, networkOk, readings, w).0, s.store.mem;
      && s'.quotes == s.quotes
      && (networkOk && Readable(mem, readings) && w.Done? ==>
            && |s'.store.mem| == |mem| && s'.store.fault == s.store.fault
            && (forall k | 0 <= k < |mem| :: Some(s'.store.mem[k]) == Refreshed(mem[k], readings[k]))
            && (s'.store.mem != mem ==> s'.store.disk == s'.store.mem))
      && (!(networkOk && Readable(mem, readings)) ==> s' == s)
      && (!w.Done? ==> s'.store.mem == mem && (s' == s || s'.store.fault))
  {
  }

  /** The reads show nothing new. */
  ghost predicate Steady(records: seq<Record>, readings: seq<Reading>)
    requires |readings| == |records|
  {
    forall k | 0 <= k < |records| :: Refreshed(records[k], readings[k]) == Some(records[k])
  }

  /** A pass answers with the last twenty records, as they then are, exactly if its reads and its save succeed. */
  lemma PassAnswers(s: Service, networkOk: bool, readings: seq<Reading>, w: Write)
    requires |readings| == |s.store.mem|
    ensures var (s', answer) := HistoryOutcome(s, networkOk, readings, w);
      && (answer.Listed?
        <==> networkOk && Readable(s.store.mem, readings) && (Steady(s.store.mem, readings) || w.Done?))
      && (answer.Listed? ==>
            && |answer.records| == (if |s'.store.mem| < 20 then |s'.store.mem| else 20)
            && answer.records == s'.store.mem[|s'.store.mem| - |answer.records|..])
  {
  }

  /** Such a pass frees the service: when the reads of the pending records each show an expiry, a failure or a success,
      nothing is pending after it, and no quote is refused because a transaction is in flight. */
  lemma PassFrees(s: Service, readings: seq<Reading>, w: Write, o: QuoteInput)
    requires Readable(s.store.mem, readings) && w.Done? && TronQuote.Stated(o.offer)
    requires forall k | 0 <= k < |readings| && IsPending(s.store.mem[k]) ::
      var r := s.store.mem[k];
      Open(r) && (ShowsExpiry(r, readings[k]) || ShowsFailure(r, readings[k]) || Succeeds(r, readings[k]))
    ensures var s' := HistoryOutcome(s, true, readings, w).0;
      && (forall r <- s'.store.mem :: r.finalized || r.state == ExpiredUnconfirmed)
      && QuoteOutcome(s', o).1 != Some(InFlight)
  {
    var s', mem := HistoryOutcome(s, true, readings, w).0, s.store.mem;
    PassExactly(s, true, readings, w);
    forall r <- s'.store.mem
      ensures !IsPending(r)
    {
      var k :| 0 <= k < |mem| && s'.store.mem[k] == r;
      if IsPending(mem[k]) {
        RefreshExactly(mem[k], readings[k]);
      } else {
        ClosedStaysClosed(mem[k], readings[k]);
      }
    }
    NotInFlight(s', o);
  }

  lemma ClosedStaysClosed(r: Record, o: Reading)
    requires !IsPending(r) && Refreshed(r, o).Some?
    ensures !IsPending(Refreshed(r, o).value)
  {
  }

  lemma NotInFlight(s: Service, o: QuoteInput)
    requires TronQuote.Stated(o.offer) && forall r <- s.store.mem :: !IsPending(r)
    ensures QuoteOutcome(s, o).1 != Some(InFlight)
  {
  }

  // ---- Quote ---------------------------------------------------------------------------------------------------

  /** Quote gives a quote exactly under these conditions, and stores what was priced. */
  lemma QuotesExactly(s: Service, o: QuoteInput, amount: Result<TronQuote.Priced, TronQuote.Refusal>)
    ensures Quoted(s, o, amount).0.store == s.store
    ensures Quoted(s, o, amount).1.None? <==>
      && !s.store.fault && (forall r <- s.store.mem :: r.finalized || r.state == ExpiredUnconfirmed)
        && |s.store.mem| < 1000
      && o.parses && !(o.contract == "" && o.to == o.sender) && o.networkOk
      && amount.Ok? && |s.quotes - o.late| < 256
    ensures Quoted(s, o, amount).1.None? ==>
      var quotes, p := Quoted(s, o, amount).0.quotes, amount.value;
      && quotes.Keys == (s.quotes.Keys - o.late) + {o.id}
      && (forall id <- quotes :: id != o.id ==> quotes[id] == s.quotes[id])
      && quotes[o.id].id == o.id && quotes[o.id].raw == p.raw && quotes[o.id].required == p.required
      && quotes[o.id].energy == p.energy && quotes[o.id].expires == o.offer.expires
      && quotes[o.id].sender == o.sender && quotes[o.id].to == o.to && quotes[o.id].contract == o.contract
    ensures Quoted(s, o, amount).1.Some? ==>
      Quoted(s, o, amount).0.quotes == s.quotes || Quoted(s, o, amount).0.quotes == s.quotes - o.late
  {
  }

  // ---- Send ----------------------------------------------------------------------------------------------------

  /** The conditions under which Send signs. */
  predicate MaySign(s: Service, id: QuoteId, o: SendInput) {
    && 0 < |id| <= 128 && (forall r <- s.store.mem :: r.tx.quoteId != id)
    && !s.store.fault && (forall r <- s.store.mem :: r.finalized || r.state == ExpiredUnconfirmed)
      && |s.store.mem| < 1000
    && id in s.quotes
    && var q := s.quotes[id];
    && !o.late && o.networkOk && o.balance.Some? && q.required <= o.balance.value
    && (q.contract != "" ==> o.token.Simulated? && 0 < o.token.energy <= 2 * q.energy)
    && o.key == Some(q.sender) && !o.lateAgain && o.signature.Some?
  }

  lemma SignedExactly(s: Service, id: QuoteId, o: SendInput)
    ensures Signed(s, id, o) <==> MaySign(s, id, o)
  {
    var mem := s.store.mem;
    var known := FirstQuote(mem, id, 0);
    if known < |mem| {
      assert mem[known] in mem;
    } else {
      forall r <- mem ensures r.tx.quoteId != id {
        var k :| 0 <= k < |mem| && mem[k] == r;
      }
    }
  }

  /** The record that Send makes of a quote and a signature, before it is sent. */
  ghost predicate IsSigned(env: Env, r: Record, q: Quote, id: QuoteId, signature: seq<byte>) {
    && r.tx.hash == env.digest(q.raw) && r.tx.quoteId == id && r.tx.raw == q.raw
    && r.tx.sender == q.sender && r.tx.to == q.to && r.tx.contract == q.contract && r.tx.expires == Some(q.expires)
    && r.tx.signed == TronWire.Frame(q.raw, signature)
    && !r.finalized
  }

  /** The bytes go out: the network and the deadline are fine. */
  predicate Goes(a: Attempt) {
    a.networkOk && !a.late
  }

  /** The state that an attempt leaves, if its save is done. */
  predicate Recorded(r: Record, was: State, a: Attempt) {
    r.state == if !Goes(a) || !a.write.Done? then was else if a.accepted then Submitted else BroadcastUnknown
  }

  /** Otherwise Send changes nothing and transmits nothing. */
  lemma SendRefuses(env: Env, s: Service, id: QuoteId, o: SendInput)
    requires !MaySign(s, id, o)
    ensures SendOutcome(env, s, id, o).0 == s && SendTransmits(env, s, id, o).None?
  {
    SignedExactly(s, id, o);
    UnsignedChangesNothing(env, s, id, o);
  }

  /** If it signs and the save is done, one record is added, its quote is spent, the file has the record too, and its
      bytes reach the network exactly if they go out and are delivered. */
  lemma SendSigns(env: Env, s: Service, id: QuoteId, o: SendInput)
    requires MaySign(s, id, o) && o.write.Done?
    ensures var s', n := SendOutcome(env, s, id, o).0, |s.store.mem|;
      && |s'.store.mem| == n + 1 && s'.store.mem[..n] == s.store.mem
      && IsSigned(env, s'.store.mem[n], s.quotes[id], id, o.signature.value)
      && Recorded(s'.store.mem[n], BroadcastUnknown, o.attempt)
      && s'.quotes == s.quotes - {id}
      && |s'.store.disk| == n + 1 && s'.store.disk[..n] == s.store.mem && s'.store.disk[n].tx == s'.store.mem[n].tx
      && (s'.store.fault <==> Goes(o.attempt) && !o.attempt.write.Done?)
      && SendTransmits(env, s, id, o)
         == if Goes(o.attempt) && o.attempt.delivered then Some(s'.store.mem[n].tx) else None
  {
    SignedExactly(s, id, o);
    var r := NewRecord(env, s.quotes[id], id, o.signature.value);
    SignedIs(env, s, id, o, r);
    AddedExactly(s, id, r, o.attempt);
  }

  lemma AddedExactly(s: Service, id: QuoteId, r: Record, a: Attempt)
    requires !s.store.fault
    ensures var s', n := Added(s, id, r, Done, a), |s.store.mem|;
      && |s'.store.mem| == n + 1 && s'.store.mem[..n] == s.store.mem
      && s'.store.mem[n] == r.(state := s'.store.mem[n].state) && Recorded(s'.store.mem[n], r.state, a)
      && s'.quotes == s.quotes - {id}
      && |s'.store.disk| == n + 1 && s'.store.disk[..n] == s.store.mem && s'.store.disk[n].tx == r.tx
      && (s'.store.fault <==> Goes(a) && !a.write.Done?)
  {
  }

  /** If it signs and the save fails, the fault is set, memory and quotes stay, and nothing is transmitted. */
  lemma SendFails(env: Env, s: Service, id: QuoteId, o: SendInput)
    requires MaySign(s, id, o) && !o.write.Done?
    ensures var s' := SendOutcome(env, s, id, o).0;
      s'.store.fault && s'.store.mem == s.store.mem && s'.quotes == s.quotes && SendTransmits(env, s, id, o).None?
  {
    SignedExactly(s, id, o);
    SignedIs(env, s, id, o, NewRecord(env, s.quotes[id], id, o.signature.value));
  }

  /** What Send answers when it signs: the record as it is then saved, with a doubt if the network could not be asked.
      */
  lemma SendAnswers(env: Env, s: Service, id: QuoteId, o: SendInput)
    requires MaySign(s, id, o)
    ensures var (s', answer) := SendOutcome(env, s, id, o);
      answer == if !o.write.Done? then Refused(SaveFailed)
                else if !o.attempt.networkOk then Unsure(s'.store.mem[|s.store.mem|])
                else if o.attempt.late then Refused(AlreadyExpired)
                else if !o.attempt.write.Done? then Refused(SaveFailed)
                else Given(s'.store.mem[|s.store.mem|])
  {
    SignedExactly(s, id, o);
  }

  /** A reason that Send gives is true. */
  lemma RefusalIsTrue(env: Env, s: Service, id: QuoteId, o: SendInput)
    requires !MaySign(s, id, o)
    ensures var answer := SendOutcome(env, s, id, o).1;
      match answer
      case Given(r) => r in s.store.mem && r.tx.quoteId == id
      case Unsure(_) => false
      case Refused(reason) =>
        match reason
        case Faulted => s.store.fault
        case InFlight => exists r <- s.store.mem :: !r.finalized && r.state != ExpiredUnconfirmed
        case JournalFull => 1000 <= |s.store.mem|
        case QuoteNotFound => id !in s.quotes || !(0 < |id| <= 128)
        case QuoteExpired => o.late || o.lateAgain
        case NetworkFailed => !o.networkOk || o.balance.None? || o.token.Unread?
        case InsufficientFunds =>
          id in s.quotes && ((o.balance.Some? && o.balance.value < s.quotes[id].required) || o.token.Changed?)
        case SimulationFailed =>
          id in s.quotes && (o.token.CallFailed?
                             || (o.token.Simulated? && !(0 < o.token.energy <= 2 * s.quotes[id].energy)))
        case PasswordMismatch => o.key.None?
        case WrongSigner => id in s.quotes && o.key.Some? && o.key.value != s.quotes[id].sender
        case SigningFailed => o.signature.None?
        case _ => false
  {
    SignedExactly(s, id, o);
  }

  // ---- Retry ---------------------------------------------------------------------------------------------------

  /** Retry sends the first record of the hash again exactly if there is no fault and the record is open. */
  predicate MayRetry(s: Service, hash: Hash, i: nat) {
    && !s.store.fault && i < |s.store.mem| && s.store.mem[i].tx.hash == hash
    && (forall k | 0 <= k < i :: s.store.mem[k].tx.hash != hash)
    && !s.store.mem[i].finalized && s.store.mem[i].state != ExpiredUnconfirmed
  }

  lemma RetrySends(s: Service, hash: Hash, i: nat, a: Attempt)
    requires MayRetry(s, hash, i)
    ensures var s', r := RetryOutcome(s, hash, a).0, s.store.mem[i];
      && |s'.store.mem| == |s.store.mem| && s'.quotes == s.quotes
      && (forall k | 0 <= k < |s.store.mem| && k != i :: s'.store.mem[k] == s.store.mem[k])
      && s'.store.mem[i] == r.(state := s'.store.mem[i].state) && Recorded(s'.store.mem[i], r.state, a)
      && (s'.store.fault <==> Goes(a) && !a.write.Done?)
      && (s'.store.mem != s.store.mem ==> s'.store.disk == s'.store.mem)
      && RetryTransmits(s, hash, a) == if Goes(a) && a.delivered then Some(r.tx) else None
  {
    assert FirstHash(s.store.mem, hash, 0) == i;
  }

  lemma RetryRefuses(s: Service, hash: Hash, a: Attempt)
    requires forall i: nat :: !MayRetry(s, hash, i)
    ensures RetryOutcome(s, hash, a).0 == s && RetryTransmits(s, hash, a).None?
  {
    assert !MayRetry(s, hash, FirstHash(s.store.mem, hash, 0));
  }

  // ---- Loading -------------------------------------------------------------------------------------------------

  predicate Parses(env: Env, a: Address) {
    a == "" || env.address(a).Some?
  }

  /** A stored record that the service accepts: its hash is that of its bytes, and its signed bytes are their frame
      with a signature of its sender. */
  ghost predicate Genuine(env: Env, r: Record) {
    && 0 < |r.tx.quoteId| <= 128 && |r.tx.hash| == 32
    && Parses(env, r.tx.sender) && Parses(env, r.tx.to) && Parses(env, r.tx.contract)
    && env.digest(r.tx.raw) == r.tx.hash
    && exists signature: seq<byte> :: |signature| == 65
         && r.tx.signed == TronWire.Frame(r.tx.raw, signature) && env.signer(r.tx.hash, signature) == Some(r.tx.sender)
  }

  lemma GenuineIsLoadable(env: Env, r: Record)
    ensures Genuine(env, r) <==> Loadable(env, r)
  {
    TronWire.LoaderAcceptsFrames(r.tx.raw, r.tx.signed);
    if TronWire.LoadsAs(r.tx.raw, r.tx.signed) {
      forall signature: seq<byte> | |signature| == 65 && r.tx.signed == TronWire.Frame(r.tx.raw, signature)
        ensures signature == r.tx.signed[|r.tx.signed| - 65..]
      {
        FrameSignature(r.tx.raw, signature);
      }
    }
  }

  /** The service starts exactly from a file of at most a thousand genuine records, with these records and nothing
      else. */
  lemma StartsExactly(env: Env, disk: seq<Record>)
    ensures Reload(env, disk).Some? <==> |disk| <= 1000 && forall r <- disk :: Genuine(env, r)
    ensures Reload(env, disk).Some? ==> Reload(env, disk).value == Service(Store(disk, disk, false), map[])
  {
    forall r <- disk
      ensures Genuine(env, r) <==> Loadable(env, r)
    {
      GenuineIsLoadable(env, r);
    }
  }
}

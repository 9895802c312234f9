/**
 The EVM wallet as a step machine. Quote, Send and Retry share one lock, History has its own, so one
 thread of each kind runs at a time and they interleave at every journal call. A write may fail with
 the old or the new content on disk, and the process may crash between any two steps; a crash in the
 middle of a call is the failed call followed by the crash, since nobody sees memory in between.
 */
module JournalProtocol {
  import opened Common
  import opened JournalModel
  import opened JournalInvariants
  import opened JournalReload
  import opened JournalStore
  import opened Replacement

  /** The chain the wallet is configured for, and the one winner that chain can finalize per nonce. */
  datatype Env = Env(chainId: int, winners: Winners)

  /** The part of a bound quote that the protocol reads. A replacement names the record it replaces
      and how many records its nonce had when it was priced. */
  datatype Quote = Quote(
    id: QuoteId, action: Action, nonce: nat, tip: nat, feeCap: nat, original: Option<Hash>, count: nat)

  datatype SendPc =
    | Idle
    | Quoting(record: Record)
    | Pricing(record: Record)
    | Priced(quote: Quote)
    | Checking(quote: Quote)
    | Counted(quote: Quote)
    | Ready(quote: Quote)
    | Durable(record: Record)
    | Retrying(record: Record)
    | Resending(record: Record)
    | Sent(record: Record, result: Observation, signedNow: bool)
    | Failing

  datatype HistoryPc =
    | Resting
    | Refreshing(items: seq<Record>)
    | Demoting(items: seq<Record>, item: Record)
    | HistoryFailing

  /** `broadcast`, `everMined` and `entered` are history: the records whose bytes were ever handed to the
      network, the nonces that memory ever showed as mined, and the records in the order in which memory learned
      of them. */
  datatype World = World(
    store: Store,
    fault: bool,
    quotes: map<QuoteId, Quote>,
    send: SendPc,
    history: HistoryPc,
    broadcast: set<Identity>,
    everMined: set<nat>,
    entered: seq<Identity>)

  datatype Step =
    // QuoteCommand
    | QuoteNew(quote: Quote)
    | QuoteFind(hash: Hash)
    | QuoteUnmined
    | QuotePrice(id: QuoteId, action: Action, suggestedTip: nat, baseFee: nat)
    | QuoteCount
    // Send
    | SendBegin(quoteId: QuoteId)
    | SendInFlight
    | SendCount
    | SendUnmined
    | SendAppend(signed: SignedTx, write: Write)
    | SendBroadcast(delivered: bool, failure: string)
    // Retry
    | RetryBegin(hash: Hash)
    | RetryUnmined
    | RetryBroadcast(delivered: bool, failure: string)
    // either
    | Settle(write: Write)
    | GiveUp
    | SendFlag
    // History
    | HistoryBegin
    | Refresh(index: nat, seen: Observation, write: Write)
    | LookUp(index: nat)
    | Demote(write: Write)
    | Compact(write: Write, secondWrite: Write)
    | HistoryFlag
    // the machine stops and starts again
    | Crash(order: seq<ArchiveName>)

  const START: World :=
    World(Store(View([], []), Disk([], map[])), false, map[], Idle, Resting, {}, {}, [])

  /** The answer of one chain lookup, as History may write it. */
  predicate ChainAnswer(o: Observation, id: Identity, env: Env) {
    && o.state in {Succeeded, Reverted, ReorgDetected, State.Pending, ReceiptUnavailable}
    && o.error == ""
    && (o.finalized ==> Mined(o.state) && Won(env.winners, id))
  }

  function NewRecord(q: Quote, signed: SignedTx): Record {
    Record(Identity(signed.hash, q.id, q.action, q.nonce, signed), State.Pending, false, "", "", "", 0)
  }

  function BroadcastResult(failure: string): Observation {
    Observation(if failure == "" then Submitted else BroadcastUnknown, false, "", "", failure)
  }

  const DEMOTED: Observation := Observation(BroadcastUnknown, false, "", "", "")

  predicate WellFormedQuote(q: Quote) {
    0 < |q.id| <= 128 && (q.original.Some? <==> q.action == Speedup || q.action == Cancel)
  }

  /** What the wallet's own state and its signer allow next, whatever the chain answers. */
  predicate Possible(s: World, step: Step, chainId: int) {
    var v := s.store.mem;
    match step
    case QuoteNew(q) => s.send.Idle? && !s.fault && WellFormedQuote(q) && q.original.None?
    case QuoteFind(hash) => s.send.Idle? && !s.fault && FindHash(All(v), hash).Some?
    case QuoteUnmined => s.send.Quoting? && !NonceMined(v, s.send.record.id.nonce)
    case QuotePrice(id, action, _, _) => s.send.Pricing? && 0 < |id| <= 128 && action in {Speedup, Cancel}
    case QuoteCount => s.send.Priced?
    case SendBegin(id) => s.send.Idle? && !s.fault && FindQuote(All(v), id).None? && id in s.quotes
    case SendInFlight => s.send.Checking? && s.send.quote.original.None? && !HasInFlight(v)
    case SendCount =>
      && s.send.Checking? && s.send.quote.original.Some?
      && |NonceRecords(All(v), s.send.quote.nonce)| == s.send.quote.count
    case SendUnmined => s.send.Counted? && !NonceMined(v, s.send.quote.nonce)
    case SendAppend(signed, _) =>
      && s.send.Ready?
      && signed.chainId == chainId && signed.nonce == s.send.quote.nonce
      && signed.tip == s.send.quote.tip && signed.feeCap == s.send.quote.feeCap
      && forall r <- All(v) :: r.id.hash != signed.hash
    case SendBroadcast(_, _) => s.send.Durable?
    case RetryBegin(hash) => s.send.Idle? && !s.fault && FindHash(All(v), hash).Some?
    case RetryUnmined => s.send.Retrying? && !NonceMined(v, s.send.record.id.nonce)
    case RetryBroadcast(_, _) => s.send.Resending?
    case Settle(_) => s.send.Sent?
    case GiveUp => !s.send.Durable? && !s.send.Sent? && !s.send.Failing?
    case SendFlag => s.send.Failing?
    case HistoryBegin => s.history.Resting?
    case Refresh(i, _, _) => s.history.Refreshing? && i < |s.history.items|
    case LookUp(i) =>
      && s.history.Refreshing? && i < |s.history.items|
      && var found := FindHash(All(v), s.history.items[i].id.hash);
      found.Some? && Mined(found.value.state)
    case Demote(_) => s.history.Demoting?
    case Compact(_, _) => s.history.Refreshing?
    case HistoryFlag => s.history.HistoryFailing?
    case Crash(order) =>
      (forall name <- order :: name in s.store.disk.archives) && (forall name <- s.store.disk.archives :: name in order)
  }

  predicate Enabled(s: World, step: Step, env: Env) {
    && Possible(s, step, env.chainId)
    && (step.Refresh? ==> ChainAnswer(step.seen, s.history.items[step.index].id, env))
  }

  /** The nonces that a view shows as mined. */
  function MinedNonces(v: View): set<nat> {
    set r <- All(v) | Mined(r.state) :: r.id.nonce
  }

  /** The record that only the disk knows about, after a failed append. */
  function Learned(entered: seq<Identity>, active: seq<Record>): seq<Identity> {
    if active != [] && active[|active| - 1].id !in entered then entered + [active[|active| - 1].id] else entered
  }

  function Apply(s: World, step: Step, env: Env): World
    requires Possible(s, step, env.chainId)
  {
    var v := s.store.mem;
    match step
    case QuoteNew(q) => s.(quotes := s.quotes[q.id := q])
    case QuoteFind(hash) => s.(send := Quoting(FindHash(All(v), hash).value))
    case QuoteUnmined => s.(send := Pricing(s.send.record))
    case QuotePrice(id, action, suggestedTip, baseFee) =>
      var signed := s.send.record.id.signed;
      var price := PriceOf(NonceRecords(All(v), signed.nonce), suggestedTip, baseFee);
      s.(send := Priced(Quote(id, action, signed.nonce, price.tip, price.feeCap, Some(s.send.record.id.hash), 0)))
    case QuoteCount =>
      var q := s.send.quote;
      s.(quotes := s.quotes[q.id := q.(count := |NonceRecords(All(v), q.nonce)|)], send := Idle)
    case SendBegin(id) => s.(send := Checking(s.quotes[id]))
    case SendInFlight => s.(send := Ready(s.send.quote))
    case SendCount => s.(send := Counted(s.send.quote))
    case SendUnmined => s.(send := Ready(s.send.quote))
    case SendAppend(signed, write) =>
      var r := NewRecord(s.send.quote, signed);
      var (store', result) := Append(s.store, r, env.chainId, write);
      (match result
       case Appended(version) =>
         s.(store := store', send := Durable(r.(version := version)), entered := s.entered + [r.id])
       case JournalFull => s.(store := store', send := Idle)
       case _ => s.(store := store', send := Failing))
    case SendBroadcast(delivered, failure) =>
      s.(broadcast := s.broadcast + (if delivered then {s.send.record.id} else {}),
         send := Sent(s.send.record, BroadcastResult(failure), true))
    case RetryBegin(hash) => s.(send := Retrying(FindHash(All(v), hash).value))
    case RetryUnmined => s.(send := Resending(s.send.record))
    case RetryBroadcast(delivered, failure) =>
      s.(broadcast := s.broadcast + (if delivered then {s.send.record.id} else {}),
         send := Sent(s.send.record, BroadcastResult(failure), false))
    case Settle(write) =>
      var r := s.send.record;
      var (store', result) := Update(s.store, r.id.hash, r.version, s.send.result, write);
      if result.NotFound? || result.UpdateFailed? then s.(store := store', send := Failing)
      else s.(store := store', send := Idle,
              quotes := if s.send.signedNow then s.quotes - {r.id.quoteId} else s.quotes)
    case GiveUp => s.(send := Idle)
    case SendFlag => s.(fault := true, send := Idle)
    case HistoryBegin => s.(history := Refreshing(RefreshRecords(v)))
    case Refresh(i, seen, write) =>
      var item := s.history.items[i];
      var (store', result) := Update(s.store, item.id.hash, item.version, seen, write);
      s.(store := store',
         everMined := s.everMined + (if result.Updated? && Mined(seen.state) then {item.id.nonce} else {}),
         history := if result.NotFound? || result.UpdateFailed? then HistoryFailing else s.history)
    case LookUp(i) => s.(history := Demoting(s.history.items, s.history.items[i]))
    case Demote(write) =>
      var item := s.history.item;
      var (store', result) := Update(s.store, item.id.hash, item.version, DEMOTED, write);
      s.(store := store',
         history := if result.NotFound? || result.UpdateFailed? then HistoryFailing else Refreshing(s.history.items))
    case Compact(write, secondWrite) =>
      var (store', result) := Archive(s.store, write, secondWrite);
      s.(store := store', history := if result.ArchiveFailed? then HistoryFailing else Resting)
    case HistoryFlag => s.(fault := true, history := Resting)
    case Crash(order) =>
      var loaded := Load(s.store.disk, env.chainId, order);
      if loaded.LoadFailed? then s
      else
        World(Store(loaded.view, s.store.disk), false, map[], Idle, Resting, s.broadcast,
              s.everMined + MinedNonces(loaded.view), Learned(s.entered, s.store.disk.active))
  }

  ghost predicate Takes(s: World, step: Step, s': World, env: Env) {
    Enabled(s, step, env) && s' == Apply(s, step, env)
  }

  /** A finite run: the states before and after each of its steps. */
  ghost predicate IsRun(states: seq<World>, steps: seq<Step>, env: Env) {
    && |states| == |steps| + 1
    && states[0] == START
    && forall i | 0 <= i < |steps| ::
         Enabled(states[i], steps[i], env) && states[i + 1] == Apply(states[i], steps[i], env)
  }
}

/**
 The TRON journal on values: what each call makes of the memory, the file and the quotes.
 */
module TronModel {
  import opened Common
  import opened Bytes
  import TronWire
  import TronQuote

  type Hash = seq<byte>
  type Address = string
  type QuoteId = string

  const CAPACITY: nat := 1000
  const MAX_QUOTES: nat := 256

  datatype State = BroadcastUnknown | Submitted | Succeeded | ExecutionFailed | ExpiredUnconfirmed

  /** The part of a record that never changes. A deadline may be absent, as a zero time. */
  datatype Tx = Tx(
    hash: Hash, quoteId: QuoteId, sender: Address, to: Address, contract: Address,
    expires: Option<int>, raw: seq<byte>, signed: seq<byte>)

  datatype Record = Record(
    tx: Tx, state: State, finalized: bool, fee: int, result: string, checkedBlock: Hash, checkedAt: int)

  datatype Quote = Quote(
    id: QuoteId, sender: Address, to: Address, contract: Address, raw: seq<byte>, required: int, energy: int,
    expires: int)

  datatype Store = Store(mem: seq<Record>, disk: seq<Record>, fault: bool)

  datatype Service = Service(store: Store, quotes: map<QuoteId, Quote>)

  /** Hashing, signature recovery and address parsing. */
  datatype Env = Env(
    digest: seq<byte> -> Hash, signer: (Hash, seq<byte>) -> Option<Address>, address: Address -> Option<seq<byte>>)

  datatype Refusal =
    | Faulted | InFlight | JournalFull | QuoteNotFound | QuoteExpired | NetworkFailed | InsufficientFunds
    | SimulationFailed | PasswordMismatch | WrongSigner | SigningFailed | SaveFailed | AlreadyExpired | RecordNotFound
    | SelfTransfer | BadAddress | QuotesFull | Unpriced(reason: TronQuote.Refusal)

  /** A record may come with an error beside it. */
  datatype Answer = Given(record: Record) | Unsure(record: Record) | Refused(reason: Refusal)

  predicate IsPending(r: Record) {
    !r.finalized && r.state != ExpiredUnconfirmed
  }

  predicate HasPending(records: seq<Record>) {
    exists r <- records :: IsPending(r)
  }

  /** The first record that satisfies the test, as an index. */
  function FirstQuote(records: seq<Record>, id: QuoteId, i: nat): (k: nat)
    requires i <= |records|
    ensures i <= k <= |records|
    ensures forall j :: i <= j < k ==> records[j].tx.quoteId != id
    ensures k < |records| ==> records[k].tx.quoteId == id
    decreases |records| - i
  {
    if i == |records| || records[i].tx.quoteId == id then i else FirstQuote(records, id, i + 1)
  }

  function FirstHash(records: seq<Record>, hash: Hash, i: nat): (k: nat)
    requires i <= |records|
    ensures i <= k <= |records|
    ensures forall j :: i <= j < k ==> records[j].tx.hash != hash
    ensures k < |records| ==> records[k].tx.hash == hash
    decreases |records| - i
  {
    if i == |records| || records[i].tx.hash == hash then i else FirstHash(records, hash, i + 1)
  }

  /** A failed save latches the fault and leaves memory alone. */
  function Save(s: Store, next: seq<Record>, w: Write): Store {
    match w
    case Done => Store(next, next, s.fault)
    case FailedOld => s.(fault := true)
    case FailedNew => s.(disk := next, fault := true)
  }

  // ---- Quote --------------------------------------------------------------------------------------------

  /** What Quote is asked for and what the node answers: whether the recipient parses, whether the network,
      the account and the token can be read, and the offer they make. `late` are the quotes past their deadline. */
  datatype QuoteInput = QuoteInput(
    id: QuoteId, sender: Address, to: Address, contract: Address, parses: bool, networkOk: bool,
    offer: TronQuote.Offer, late: set<QuoteId>)

  function Amount(offer: TronQuote.Offer): Result<TronQuote.Priced, TronQuote.Refusal>
    requires TronQuote.Stated(offer)
  {
    TronQuote.Price(offer)
  }

  function QuoteOutcome(s: Service, o: QuoteInput): (Service, Option<Refusal>)
    requires TronQuote.Stated(o.offer)
  {
    Quoted(s, o, Amount(o.offer))
  }

  function Quoted(s: Service, o: QuoteInput, amount: Result<TronQuote.Priced, TronQuote.Refusal>)
    : (Service, Option<Refusal>) {
    if s.store.fault then (s, Some(Faulted))
    else if HasPending(s.store.mem) then (s, Some(InFlight))
    else if |s.store.mem| >= CAPACITY then (s, Some(JournalFull))
    else if !o.parses then (s, Some(BadAddress))
    else if o.contract == "" && o.to == o.sender then (s, Some(SelfTransfer))
    else if !o.networkOk then (s, Some(NetworkFailed))
    else
      match amount
      case Err(reason) => (s, Some(Unpriced(reason)))
      case Ok(p) =>
        var kept := s.quotes - o.late;
        if |kept| >= MAX_QUOTES then (s.(quotes := kept), Some(QuotesFull))
        else
          var q := Quote(o.id, o.sender, o.to, o.contract, p.raw, p.required, p.energy, o.offer.expires);
          (s.(quotes := kept[o.id := q]), None)
  }

  // ---- Broadcast ------------------------------------------------------------------------------------------

  /** One attempt: whether the node was reachable, the deadline had passed, the bytes reached the network,
      and the node accepted them under the expected transaction ID; and how the save after it ended. */
  datatype Attempt = Attempt(networkOk: bool, late: bool, delivered: bool, accepted: bool, write: Write)

  predicate Transmits(a: Attempt) {
    a.networkOk && !a.late && a.delivered
  }

  function Attempted(r: Record, a: Attempt): Record {
    r.(state := if a.accepted then Submitted else BroadcastUnknown)
  }

  function Broadcast(s: Store, index: nat, a: Attempt): (Store, Answer)
    requires index < |s.mem|
  {
    if !a.networkOk then (s, Unsure(s.mem[index]))
    else if a.late then (s, Refused(AlreadyExpired))
    else
      var r := Attempted(s.mem[index], a);
      (Save(s, s.mem[index := r], a.write), if a.write.Done? then Given(r) else Refused(SaveFailed))
  }

  // ---- Send -----------------------------------------------------------------------------------------------

  datatype Simulation = Unread | Changed | CallFailed | Simulated(energy: int)

  datatype SendInput = SendInput(
    late: bool, networkOk: bool, balance: Option<int>, token: Simulation, key: Option<Address>, lateAgain: bool,
    signature: Option<seq<byte>>, write: Write, attempt: Attempt)

  function TokenRefusal(q: Quote, token: Simulation): Option<Refusal> {
    match token
    case Unread => Some(NetworkFailed)
    case Changed => Some(InsufficientFunds)
    case CallFailed => Some(SimulationFailed)
    case Simulated(energy) => if energy <= 0 || energy > q.energy * 2 then Some(SimulationFailed) else None
  }

  function QuoteRefusal(q: Quote, o: SendInput): Option<Refusal> {
    if o.late then Some(QuoteExpired)
    else if !o.networkOk || o.balance.None? then Some(NetworkFailed)
    else if o.balance.value < q.required then Some(InsufficientFunds)
    else if q.contract != "" && TokenRefusal(q, o.token).Some? then TokenRefusal(q, o.token)
    else if o.key.None? then Some(PasswordMismatch)
    else if o.key.value != q.sender then Some(WrongSigner)
    else if o.lateAgain then Some(QuoteExpired)
    else if o.signature.None? then Some(SigningFailed)
    else None
  }

  function SendRefusal(s: Service, id: QuoteId, o: SendInput): Option<Refusal> {
    if s.store.fault then Some(Faulted)
    else if HasPending(s.store.mem) then Some(InFlight)
    else if |s.store.mem| >= CAPACITY then Some(JournalFull)
    else if id !in s.quotes then Some(QuoteNotFound)
    else QuoteRefusal(s.quotes[id], o)
  }

  /** The record of a freshly signed quote. */
  function NewRecord(env: Env, q: Quote, id: QuoteId, signature: seq<byte>): Record {
    var tx := Tx(env.digest(q.raw), id, q.sender, q.to, q.contract, Some(q.expires), q.raw,
                 TronWire.Frame(q.raw, signature));
    Record(tx, BroadcastUnknown, false, 0, "", [], 0)
  }

  predicate LegacyId(id: QuoteId) {
    0 < |id| <= 128
  }

  function SendOutcome(env: Env, s: Service, id: QuoteId, o: SendInput): (Service, Answer) {
    var mem := s.store.mem;
    var known := FirstQuote(mem, id, 0);
    if !LegacyId(id) then (s, Refused(QuoteNotFound))
    else if known < |mem| then (s, Given(mem[known]))
    else
      match SendRefusal(s, id, o)
      case Some(reason) => (s, Refused(reason))
      case None =>
        var r := NewRecord(env, s.quotes[id], id, o.signature.value);
        var saved := Save(s.store, mem + [r], o.write);
        if !o.write.Done? then (s.(store := saved), Refused(SaveFailed))
        else
          var (store', answer) := Broadcast(saved, |mem|, o.attempt);
          (Service(store', s.quotes - {id}), answer)
  }

  /** The transaction whose bytes reach the network in this call, if any do. */
  function SendTransmits(env: Env, s: Service, id: QuoteId, o: SendInput): Option<Tx> {
    if LegacyId(id) && FirstQuote(s.store.mem, id, 0) == |s.store.mem| && SendRefusal(s, id, o).None?
       && o.write.Done? && Transmits(o.attempt)
    then Some(NewRecord(env, s.quotes[id], id, o.signature.value).tx)
    else None
  }

  /** The transactions that reached the network, with those of one more call. */
  function With(txs: set<Tx>, tx: Option<Tx>): set<Tx> {
    if tx.Some? then txs + {tx.value} else txs
  }

  // ---- Retry ----------------------------------------------------------------------------------------------

  predicate Closed(r: Record) {
    r.finalized || r.state == ExpiredUnconfirmed
  }

  function RetryOutcome(s: Service, hash: Hash, a: Attempt): (Service, Answer) {
    var mem := s.store.mem;
    var i := FirstHash(mem, hash, 0);
    if s.store.fault then (s, Refused(Faulted))
    else if i == |mem| then (s, Refused(RecordNotFound))
    else if Closed(mem[i]) then (s, Given(mem[i]))
    else
      var (store', answer) := Broadcast(s.store, i, a);
      (s.(store := store'), answer)
  }

  function RetryTransmits(s: Service, hash: Hash, a: Attempt): Option<Tx> {
    var mem := s.store.mem;
    var i := FirstHash(mem, hash, 0);
    if !s.store.fault && i < |mem| && !Closed(mem[i]) && Transmits(a) then Some(mem[i].tx) else None
  }

  // ---- History --------------------------------------------------------------------------------------------

  datatype Solid = Solid(id: Hash, timestamp: int)

  /** What the call of the contract returned, when that can be read. */
  datatype Returned = Unreadable | Returned(ok: bool)

  datatype Info =
    | NoReceipt
    | Receipt(id: Hash, block: int, fee: int, result: string, receiptResult: string, returned: Returned)

  /** The reads for one record: the clock, the solidified head and then the receipt, each of which may fail. */
  datatype Reading = Reading(cancelled: bool, clock: int, late: bool, solid: Option<Solid>, info: Option<Info>)

  predicate NeedsHead(r: Record, o: Reading) {
    o.late && r.tx.expires.Some?
  }

  predicate HeadReadable(o: Reading) {
    o.solid.Some? && |o.solid.value.id| == 32 && 0 < o.solid.value.timestamp <= o.clock + 30000
  }

  /** The record after its reads, or none when History gives up. */
  function Refreshed(r: Record, o: Reading): Option<Record> {
    if r.finalized then Some(r)
    else if o.cancelled || (NeedsHead(r, o) && !HeadReadable(o)) || o.info.None? then None
    else if o.info.value.NoReceipt? then
      var head := if NeedsHead(r, o) then o.solid.value else Solid([], 0);
      if r.tx.expires.Some? && head.timestamp > r.tx.expires.value then
        Some(r.(state := ExpiredUnconfirmed, checkedBlock := head.id, checkedAt := head.timestamp))
      else Some(r)
    else if o.info.value.id != r.tx.hash || o.info.value.block <= 0 || o.info.value.fee < 0 then None
    else Executed(r, o.info.value)
  }

  function Executed(r: Record, i: Info): Option<Record>
    requires i.Receipt?
  {
    var done := r.(finalized := true, fee := i.fee);
    if i.result == "FAILED" || (i.receiptResult != "" && i.receiptResult != "SUCCESS") then
      Some(done.(state := ExecutionFailed, result := if i.receiptResult == "" then i.result else i.receiptResult))
    else if r.tx.contract == "" then Some(done.(state := Succeeded, result := i.receiptResult))
    else if i.returned.Unreadable? then None
    else if i.returned.ok then Some(done.(state := Succeeded, result := i.receiptResult))
    else Some(done.(state := ExecutionFailed, result := "TRC20_RETURNED_FALSE"))
  }

  predicate AllRefreshed(records: seq<Record>, readings: seq<Reading>)
    requires |readings| == |records|
  {
    forall k | 0 <= k < |records| :: Refreshed(records[k], readings[k]).Some?
  }

  function RefreshedAll(records: seq<Record>, readings: seq<Reading>): seq<Record>
    requires |readings| == |records| && AllRefreshed(records, readings)
  {
    seq(|records|, k requires 0 <= k < |records| => Refreshed(records[k], readings[k]).value)
  }

  datatype HistoryAnswer = Listed(records: seq<Record>) | HistoryFailed

  /** A save only when something changed; a fault does not stop History. */
  function HistoryOutcome(s: Service, networkOk: bool, readings: seq<Reading>, w: Write): (Service, HistoryAnswer)
    requires |readings| == |s.store.mem|
  {
    var mem := s.store.mem;
    if !networkOk || !AllRefreshed(mem, readings) then (s, HistoryFailed)
    else
      var next := RefreshedAll(mem, readings);
      if next == mem then (s, Listed(Recent(mem)))
      else (s.(store := Save(s.store, next, w)), if w.Done? then Listed(Recent(next)) else HistoryFailed)
  }

  function Recent(records: seq<Record>): seq<Record> {
    if |records| <= 20 then records else records[|records| - 20..]
  }

  // ---- Loading --------------------------------------------------------------------------------------------

  predicate ParsesOrEmpty(env: Env, a: Address) {
    a == "" || env.address(a).Some?
  }

  /** The checks on one stored record. */
  predicate Loadable(env: Env, r: Record) {
    var tx := r.tx;
    && LegacyId(tx.quoteId) && |tx.hash| == 32
    && ParsesOrEmpty(env, tx.sender) && ParsesOrEmpty(env, tx.to) && ParsesOrEmpty(env, tx.contract)
    && env.digest(tx.raw) == tx.hash
    && TronWire.LoadsAs(tx.raw, tx.signed)
    && env.signer(tx.hash, tx.signed[|tx.signed| - TronWire.SIGNATURE..]) == Some(tx.sender)
  }

  predicate FileLoads(env: Env, stored: seq<Record>) {
    |stored| <= CAPACITY && forall r <- stored :: Loadable(env, r)
  }

  /** A fresh process: the file's records, no quotes and no fault. */
  function Reload(env: Env, disk: seq<Record>): Option<Service> {
    if FileLoads(env, disk) then Some(Service(Store(disk, disk, false), map[])) else None
  }
}

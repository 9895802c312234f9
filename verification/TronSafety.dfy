/**
 What every run of the TRON service keeps: failed saves, restarts and a reorganising chain included.
 Each call holds the one lock from start to end, so a run is a sequence of whole calls; a crash in the
 middle of a call is that call with a failed save, followed by the crash.
 */
module TronSafety {
  import opened Common
  import opened Bytes
  import opened TronModel
  import opened TronChain
  import TronWire
  import TronQuote

  /** What the service runs in: hashing and addresses, and the chain its node follows. */
  datatype Setting = Setting(env: Env, chain: nat -> Chain)

  function Deadline(raw: seq<byte>): Option<int> {
    match TronWire.Decode(raw)
    case None => None
    case Some(message) => Some(message.expiration)
  }

  ghost predicate Lawful(g: Setting) {
    && IsHistory(g.chain, Deadline)
    && (forall raw :: |g.env.digest(raw)| == 32)
  }

  /** `broadcast` are the transactions whose bytes ever reached the network. */
  datatype World = World(service: Service, now: nat, broadcast: set<Tx>)

  const START: World := World(Service(Store([], [], false), map[]), 0, {})

  /** When the reads of one record happen. */
  datatype Times = Times(head: nat, receipt: nat)

  datatype Step =
    | MakeQuote(input: QuoteInput)
    | Send(id: QuoteId, sending: SendInput)
    | Retry(hash: Hash, attempt: Attempt)
    | History(networkOk: bool, readings: seq<Reading>, times: seq<Times>, later: nat, write: Write)
    | Crash

  /** A signature of the right key, when there is one. */
  predicate Signs(g: Setting, q: Quote, o: SendInput) {
    o.signature.Some? && o.key.Some? ==>
      && |o.signature.value| == TronWire.SIGNATURE
      && g.env.signer(g.env.digest(q.raw), o.signature.value) == o.key
  }

  /** The node answers from the chain it follows: the solidified head first, then the receipt. */
  ghost predicate Answers(g: Setting, r: Record, o: Reading, at: Times, now: nat, later: nat) {
    var atHead, atReceipt := g.chain(at.head), g.chain(at.receipt);
    && now <= at.head <= at.receipt <= later
    && (o.solid.Some? ==>
          atHead.solid < |atHead.blocks| && o.solid.value.timestamp == atHead.blocks[atHead.solid].timestamp)
    && (o.info.Some? ==>
          (o.info.value.NoReceipt? ==> !Holds(atReceipt, r.tx.raw, atReceipt.solid + 1))
          && (o.info.value.Receipt? && o.info.value.id == r.tx.hash ==>
                exists raw :: g.env.digest(raw) == r.tx.hash && Holds(atReceipt, raw, atReceipt.solid + 1)))
  }

  ghost predicate QuoteParses(g: Setting, o: QuoteInput) {
    && TronQuote.Stated(o.offer) && 0 < o.offer.expires
    && ParsesOrEmpty(g.env, o.sender) && ParsesOrEmpty(g.env, o.to) && ParsesOrEmpty(g.env, o.contract)
  }

  ghost predicate Enabled(g: Setting, w: World, step: Step) {
    match step
    case MakeQuote(o) => QuoteParses(g, o)
    case Send(id, o) => id in w.service.quotes ==> Signs(g, w.service.quotes[id], o)
    case Retry(_, _) => true
    case History(_, readings, times, later, _) =>
      var mem := w.service.store.mem;
      && |readings| == |times| == |mem| && w.now <= later
      && (forall k | 0 <= k < |mem| :: Answers(g, mem[k], readings[k], times[k], w.now, later))
    case Crash => true
  }

  ghost function Apply(g: Setting, w: World, step: Step): World
    requires Enabled(g, w, step)
  {
    var s := w.service;
    match step
    case MakeQuote(o) => w.(service := QuoteOutcome(s, o).0)
    case Send(id, o) =>
      w.(service := SendOutcome(g.env, s, id, o).0, broadcast := With(w.broadcast, SendTransmits(g.env, s, id, o)))
    case Retry(hash, a) =>
      w.(service := RetryOutcome(s, hash, a).0, broadcast := With(w.broadcast, RetryTransmits(s, hash, a)))
    case History(networkOk, readings, _, later, write) =>
      w.(service := HistoryOutcome(s, networkOk, readings, write).0, now := later)
    case Crash =>
      match Reload(g.env, s.store.disk)
      case None => w
      case Some(service) => w.(service := service)
  }

  // ---- The invariant --------------------------------------------------------------------------------------

  ghost predicate OnePending(records: seq<Record>) {
    forall i, j | 0 <= i < j < |records| :: !(IsPending(records[i]) && IsPending(records[j]))
  }

  ghost predicate OnePerQuote(records: seq<Record>) {
    forall i, j | 0 <= i < j < |records| :: records[i].tx.quoteId != records[j].tx.quoteId
  }

  /** A stored record: it passes the loader, its bytes carry its deadline, and it tells the truth about the chain. */
  ghost predicate Good(g: Setting, now: nat, r: Record) {
    && Loadable(g.env, r)
    && r.tx.expires.Some? && 0 < r.tx.expires.value && Deadline(r.tx.raw) == r.tx.expires
    && (r.finalized <==> r.state == Succeeded || r.state == ExecutionFailed)
    && (r.finalized ==> Settled(g.chain, g.env.digest, r.tx.hash, now))
    && (r.state == ExpiredUnconfirmed ==> Buried(g.chain, r.tx.raw, now))
  }

  ghost predicate AllGood(g: Setting, now: nat, records: seq<Record>) {
    forall r <- records :: Good(g, now, r)
  }

  ghost predicate FileInv(g: Setting, now: nat, records: seq<Record>) {
    |records| <= CAPACITY && OnePending(records) && OnePerQuote(records) && AllGood(g, now, records)
  }

  /** A later version of a record: the same transaction, closed if it was closed, unchanged if it was final. */
  predicate Follows(a: Record, b: Record) {
    && b.tx == a.tx
    && (a.finalized ==> b == a)
    && (a.state == ExpiredUnconfirmed ==> b.finalized || b.state == ExpiredUnconfirmed)
  }

  ghost predicate Extends(a: seq<Record>, b: seq<Record>) {
    |a| <= |b| && forall k | 0 <= k < |a| :: Follows(a[k], b[k])
  }

  ghost predicate GoodQuote(g: Setting, q: Quote) {
    && 0 < q.expires && Deadline(q.raw) == Some(q.expires)
    && ParsesOrEmpty(g.env, q.sender) && ParsesOrEmpty(g.env, q.to) && ParsesOrEmpty(g.env, q.contract)
  }

  ghost predicate Remembered(txs: set<Tx>, records: seq<Record>) {
    forall tx <- txs :: exists r <- records :: r.tx == tx
  }

  ghost predicate StoreInv(g: Setting, now: nat, s: Store) {
    && FileInv(g, now, s.mem) && FileInv(g, now, s.disk)
    && Extends(s.mem, s.disk)
    && (!s.fault ==> s.disk == s.mem)
  }

  ghost predicate Inv(g: Setting, w: World) {
    && StoreInv(g, w.now, w.service.store)
    && (forall id <- w.service.quotes :: GoodQuote(g, w.service.quotes[id]))
    && Remembered(w.broadcast, w.service.store.mem)
  }

  // ---- Saving ------------------------------------------------------------------------------------------------

  lemma SaveKeeps(g: Setting, now: nat, s: Store, next: seq<Record>, w: Write)
    requires StoreInv(g, now, s) && FileInv(g, now, next) && Extends(s.mem, next)
    ensures StoreInv(g, now, Save(s, next, w)) && Extends(s.mem, Save(s, next, w).mem)
  {
  }

  lemma RemembersMore(txs: set<Tx>, a: seq<Record>, b: seq<Record>)
    requires Remembered(txs, a) && Extends(a, b)
    ensures Remembered(txs, b)
  {
    forall tx <- txs
      ensures exists r <- b :: r.tx == tx
    {
      var r :| r in a && r.tx == tx;
      var k :| 0 <= k < |a| && a[k] == r;
      assert b[k].tx == tx && b[k] in b;
    }
  }

  lemma ExtendsTransitive(a: seq<Record>, b: seq<Record>, c: seq<Record>)
    requires Extends(a, b) && Extends(b, c)
    ensures Extends(a, c)
  {
    forall k | 0 <= k < |a|
      ensures Follows(a[k], c[k])
    {
      assert Follows(a[k], b[k]) && Follows(b[k], c[k]);
    }
  }

  lemma LaterGood(g: Setting, now: nat, later: nat, r: Record)
    requires Good(g, now, r) && now <= later
    ensures Good(g, later, r)
  {
    if r.finalized {
      var raw :| g.env.digest(raw) == r.tx.hash && HeldFrom(g.chain, raw, now);
      assert HeldFrom(g.chain, raw, later);
    }
  }

  lemma LaterFile(g: Setting, now: nat, later: nat, records: seq<Record>)
    requires FileInv(g, now, records) && now <= later
    ensures FileInv(g, later, records)
  {
    forall r <- records
      ensures Good(g, later, r)
    {
      LaterGood(g, now, later, r);
    }
  }

  // ---- Quote, Send and Retry -----------------------------------------------------------------------------------

  lemma PricedCarriesDeadline(offer: TronQuote.Offer, p: TronQuote.Priced)
    requires TronQuote.Stated(offer) && Amount(offer) == Ok(p)
    ensures Deadline(p.raw) == Some(offer.expires)
  {
    TronQuote.PricedSaysWhatWasOffered(offer);
  }

  /** What QuoteOutcome can do to the quotes. */
  lemma QuoteChange(s: Service, o: QuoteInput, amount: Result<TronQuote.Priced, TronQuote.Refusal>)
    ensures var s' := Quoted(s, o, amount).0;
      && s'.store == s.store
      && forall id <- s'.quotes ::
           (id in s.quotes && s'.quotes[id] == s.quotes[id])
           || (amount.Ok? && s'.quotes[id] == Quote(o.id, o.sender, o.to, o.contract, amount.value.raw,
                                                  amount.value.required, amount.value.energy, o.offer.expires))
  {
  }

  lemma QuoteKeeps(g: Setting, w: World, o: QuoteInput)
    requires Inv(g, w) && QuoteParses(g, o)
    ensures Inv(g, w.(service := QuoteOutcome(w.service, o).0))
    ensures QuoteOutcome(w.service, o).0.store == w.service.store
  {
    var amount := Amount(o.offer);
    if amount.Ok? {
      PricedCarriesDeadline(o.offer, amount.value);
    }
    QuoteChange(w.service, o, amount);
  }

  /** One record may be replaced by a later version of itself. */
  lemma UpdateKeeps(g: Setting, now: nat, records: seq<Record>, i: nat, r: Record)
    requires FileInv(g, now, records) && i < |records|
    requires Follows(records[i], r) && Good(g, now, r) && (IsPending(r) ==> IsPending(records[i]))
    ensures FileInv(g, now, records[i := r]) && Extends(records, records[i := r])
  {
    var next := records[i := r];
    forall x <- next
      ensures Good(g, now, x)
    {
      assert x == r || x in records;
    }
  }

  lemma AttemptKeeps(g: Setting, now: nat, s: Store, index: nat, a: Attempt)
    requires StoreInv(g, now, s) && index < |s.mem| && IsPending(s.mem[index])
    ensures var store' := Broadcast(s, index, a).0;
      StoreInv(g, now, store') && Extends(s.mem, store'.mem)
  {
    var r := Attempted(s.mem[index], a);
    assert s.mem[index] in s.mem;
    UpdateKeeps(g, now, s.mem, index, r);
    SaveKeeps(g, now, s, s.mem[index := r], a.write);
  }

  lemma NewRecordGood(g: Setting, now: nat, q: Quote, id: QuoteId, o: SendInput, r: Record)
    requires Lawful(g) && GoodQuote(g, q) && LegacyId(id) && Signs(g, q, o) && QuoteRefusal(q, o).None?
    requires r == NewRecord(g.env, q, id, o.signature.value)
    ensures Good(g, now, r) && IsPending(r) && r.tx.quoteId == id
  {
    var signature := o.signature.value;
    TronWire.LoaderAcceptsFrames(q.raw, TronWire.Frame(q.raw, signature));
    FrameSignature(q.raw, signature);
  }

  lemma FrameSignature(raw: seq<byte>, signature: seq<byte>)
    requires |signature| == TronWire.SIGNATURE
    ensures var signed := TronWire.Frame(raw, signature);
      signed[|signed| - TronWire.SIGNATURE..] == signature
  {
  }

  lemma AppendKeeps(g: Setting, now: nat, records: seq<Record>, r: Record)
    requires FileInv(g, now, records) && |records| < CAPACITY && Good(g, now, r) && !HasPending(records)
    requires forall x <- records :: x.tx.quoteId != r.tx.quoteId
    ensures FileInv(g, now, records + [r]) && Extends(records, records + [r])
  {
    var next := records + [r];
    forall x <- next
      ensures Good(g, now, x)
    {
      assert x == r || x in records;
    }
    forall i, j | 0 <= i < j < |next|
      ensures !(IsPending(next[i]) && IsPending(next[j])) && next[i].tx.quoteId != next[j].tx.quoteId
    {
      assert next[i] in records;
      if j < |records| {
        assert next[j] in records;
      }
    }
  }

  /** A record that is added and then broadcast. */
  lemma AddKeeps(g: Setting, now: nat, s: Store, r: Record, write: Write, a: Attempt)
    requires Lawful(g) && StoreInv(g, now, s) && |s.mem| < CAPACITY && !HasPending(s.mem)
    requires Good(g, now, r) && IsPending(r) && forall x <- s.mem :: x.tx.quoteId != r.tx.quoteId
    ensures var saved := Save(s, s.mem + [r], write);
      && StoreInv(g, now, saved) && Extends(s.mem, saved.mem)
      && (write.Done? ==>
            var store' := Broadcast(saved, |s.mem|, a).0;
            StoreInv(g, now, store') && Extends(s.mem, store'.mem) && Remembered({r.tx}, store'.mem))
  {
    var saved := Save(s, s.mem + [r], write);
    AppendKeeps(g, now, s.mem, r);
    SaveKeeps(g, now, s, s.mem + [r], write);
    if write.Done? {
      var store' := Broadcast(saved, |s.mem|, a).0;
      AttemptKeeps(g, now, saved, |s.mem|, a);
      ExtendsTransitive(s.mem, saved.mem, store'.mem);
      assert saved.mem[|s.mem|] == r;
      assert store'.mem[|s.mem|] in store'.mem;
    }
  }

  /** The calls of Send that get as far as signing. */
  predicate Signed(s: Service, id: QuoteId, o: SendInput) {
    LegacyId(id) && FirstQuote(s.store.mem, id, 0) == |s.store.mem| && SendRefusal(s, id, o).None?
  }

  /** All others change nothing. */
  lemma UnsignedChangesNothing(env: Env, s: Service, id: QuoteId, o: SendInput)
    requires !Signed(s, id, o)
    ensures SendOutcome(env, s, id, o).0 == s && SendTransmits(env, s, id, o).None?
  {
  }

  lemma SignedIs(env: Env, s: Service, id: QuoteId, o: SendInput, r: Record)
    requires Signed(s, id, o) && r == NewRecord(env, s.quotes[id], id, o.signature.value)
    ensures SendOutcome(env, s, id, o).0 == Added(s, id, r, o.write, o.attempt)
    ensures SendTransmits(env, s, id, o) == if o.write.Done? && Transmits(o.attempt) then Some(r.tx) else None
  {
  }

  /** A record is saved and, once durable, broadcast. */
  function Added(s: Service, id: QuoteId, r: Record, write: Write, a: Attempt): Service {
    var saved := Save(s.store, s.store.mem + [r], write);
    if write.Done? then Service(Broadcast(saved, |s.store.mem|, a).0, s.quotes - {id}) else s.(store := saved)
  }

  lemma AddedKeeps(g: Setting, w: World, id: QuoteId, r: Record, write: Write, a: Attempt)
    requires Lawful(g) && Inv(g, w) && |w.service.store.mem| < CAPACITY && !HasPending(w.service.store.mem)
    requires Good(g, w.now, r) && IsPending(r) && forall x <- w.service.store.mem :: x.tx.quoteId != r.tx.quoteId
    ensures var w' := w.(service := Added(w.service, id, r, write, a));
      && Inv(g, w') && Extends(w.service.store.mem, w'.service.store.mem)
      && (write.Done? ==> Inv(g, w'.(broadcast := w.broadcast + {r.tx})))
  {
    AddKeeps(g, w.now, w.service.store, r, write, a);
    RemembersMore(w.broadcast, w.service.store.mem, Added(w.service, id, r, write, a).store.mem);
  }

  lemma QuoteIsNew(records: seq<Record>, id: QuoteId)
    requires FirstQuote(records, id, 0) == |records|
    ensures forall r <- records :: r.tx.quoteId != id
  {
  }

  lemma QuoteInHand(g: Setting, w: World, id: QuoteId, o: SendInput)
    requires Inv(g, w) && Signed(w.service, id, o)
    ensures LegacyId(id) && id in w.service.quotes
    ensures GoodQuote(g, w.service.quotes[id]) && QuoteRefusal(w.service.quotes[id], o).None?
  {
  }

  lemma SignedKeeps(g: Setting, w: World, id: QuoteId, o: SendInput)
    requires Lawful(g) && Inv(g, w) && Signed(w.service, id, o) && Signs(g, w.service.quotes[id], o)
    ensures var w' := w.(service := SendOutcome(g.env, w.service, id, o).0,
                         broadcast := With(w.broadcast, SendTransmits(g.env, w.service, id, o)));
      Inv(g, w') && Extends(w.service.store.mem, w'.service.store.mem)
  {
    QuoteInHand(g, w, id, o);
    var r := NewRecord(g.env, w.service.quotes[id], id, o.signature.value);
    NewRecordGood(g, w.now, w.service.quotes[id], id, o, r);
    SignedIs(g.env, w.service, id, o, r);
    SignedRecordKeeps(g, w, id, o, r, SendOutcome(g.env, w.service, id, o).0, SendTransmits(g.env, w.service, id, o));
  }

  lemma SignedRecordKeeps(g: Setting, w: World, id: QuoteId, o: SendInput, r: Record, service: Service, tx: Option<Tx>)
    requires Lawful(g) && Inv(g, w) && Signed(w.service, id, o)
    requires Good(g, w.now, r) && IsPending(r) && r.tx.quoteId == id
    requires service == Added(w.service, id, r, o.write, o.attempt)
    requires tx == if o.write.Done? && Transmits(o.attempt) then Some(r.tx) else None
    ensures Inv(g, w.(service := service, broadcast := With(w.broadcast, tx)))
    ensures Extends(w.service.store.mem, service.store.mem)
  {
    QuoteIsNew(w.service.store.mem, id);
    AddedKeeps(g, w, id, r, o.write, o.attempt);
  }

  lemma SendKeeps(g: Setting, w: World, id: QuoteId, o: SendInput)
    requires Lawful(g) && Inv(g, w) && (id in w.service.quotes ==> Signs(g, w.service.quotes[id], o))
    ensures var w' := w.(service := SendOutcome(g.env, w.service, id, o).0,
                         broadcast := With(w.broadcast, SendTransmits(g.env, w.service, id, o)));
      Inv(g, w') && Extends(w.service.store.mem, w'.service.store.mem)
  {
    if Signed(w.service, id, o) {
      SignedKeeps(g, w, id, o);
    } else {
      UnsignedChangesNothing(g.env, w.service, id, o);
    }
  }

  lemma RetryKeeps(g: Setting, w: World, hash: Hash, a: Attempt)
    requires Lawful(g) && Inv(g, w)
    ensures var w' := w.(service := RetryOutcome(w.service, hash, a).0,
                         broadcast := With(w.broadcast, RetryTransmits(w.service, hash, a)));
      Inv(g, w') && Extends(w.service.store.mem, w'.service.store.mem)
  {
    var s := w.service;
    var i := FirstHash(s.store.mem, hash, 0);
    if !s.store.fault && i < |s.store.mem| && !Closed(s.store.mem[i]) {
      AttemptKeeps(g, w.now, s.store, i, a);
      RemembersMore(w.broadcast, s.store.mem, Broadcast(s.store, i, a).0.mem);
      assert s.store.mem[i] in s.store.mem;
      RemembersMore({s.store.mem[i].tx}, s.store.mem, Broadcast(s.store, i, a).0.mem);
    }
  }

  // ---- History ---------------------------------------------------------------------------------------------------

  lemma RefreshedFollows(r: Record, o: Reading)
    requires Refreshed(r, o).Some? && (r.finalized <==> r.state == Succeeded || r.state == ExecutionFailed)
    ensures var r' := Refreshed(r, o).value;
      && Follows(r, r') && (IsPending(r') ==> IsPending(r))
      && (r'.finalized <==> r'.state == Succeeded || r'.state == ExecutionFailed)
      && (r' == r
          || (r'.finalized && o.info.Some? && o.info.value.Receipt? && o.info.value.id == r.tx.hash)
          || (r'.state == ExpiredUnconfirmed && o.info == Some(NoReceipt) && r.tx.expires.Some?
              && (if o.solid.Some? then o.solid.value.timestamp > r.tx.expires.value || 0 > r.tx.expires.value
                  else 0 > r.tx.expires.value)))
  {
  }

  predicate ReceiptFailed(i: Info) {
    i.Receipt? && (i.result == "FAILED" || (i.receiptResult != "" && i.receiptResult != "SUCCESS"))
  }

  /** The reads for a record show a receipt of its own that did not fail and, for a token, returned true. */
  predicate Succeeds(r: Record, o: Reading) {
    && !o.cancelled && (NeedsHead(r, o) ==> HeadReadable(o))
    && o.info.Some? && o.info.value.Receipt?
    && var i := o.info.value;
    && i.id == r.tx.hash && 0 < i.block && 0 <= i.fee && !ReceiptFailed(i)
    && (r.tx.contract != "" ==> i.returned == Returned(true))
  }

  /** A record turns from open to successful exactly by such reads. */
  lemma SuccessIsEarned(r: Record, o: Reading)
    requires !r.finalized && r.state != Succeeded
    ensures Refreshed(r, o).Some? && Refreshed(r, o).value.state == Succeeded <==> Succeeds(r, o)
  {
  }

  lemma RefreshedSucceeds(r: Record, o: Reading)
    requires Refreshed(r, o).Some? && Refreshed(r, o).value.state == Succeeded
    ensures Refreshed(r, o).value.tx == r.tx && (r.state == Succeeded || Succeeds(r, o))
  {
  }

  /** What one refreshed record says is true, because the head was read before the receipt. */
  lemma RefreshKeeps(g: Setting, r: Record, o: Reading, at: Times, now: nat, later: nat)
    requires Lawful(g) && Good(g, now, r) && Answers(g, r, o, at, now, later) && Refreshed(r, o).Some?
    ensures var r' := Refreshed(r, o).value;
      Good(g, later, r') && Follows(r, r') && (IsPending(r') ==> IsPending(r))
  {
    LaterGood(g, now, later, r);
    RefreshedFollows(r, o);
    RefreshedIsGood(g, r, o, at, now, later, Refreshed(r, o).value);
  }

  lemma RefreshedIsGood(g: Setting, r: Record, o: Reading, at: Times, now: nat, later: nat, r': Record)
    requires Lawful(g) && Good(g, now, r) && Good(g, later, r) && Answers(g, r, o, at, now, later) && r'.tx == r.tx
    requires r'.finalized <==> r'.state == Succeeded || r'.state == ExecutionFailed
    requires r' == r
      || (r'.finalized && o.info.Some? && o.info.value.Receipt? && o.info.value.id == r.tx.hash)
      || (r'.state == ExpiredUnconfirmed && o.info == Some(NoReceipt)
          && o.solid.Some? && o.solid.value.timestamp > r.tx.expires.value)
    ensures Good(g, later, r')
  {
    if r' != r && r'.finalized {
      var raw :| g.env.digest(raw) == r.tx.hash && Holds(g.chain(at.receipt), raw, g.chain(at.receipt).solid + 1);
      ReceiptIsFinal(g.chain, Deadline, raw, at.receipt);
      assert HeldFrom(g.chain, raw, later);
    } else if r' != r {
      ExpiryIsFinal(g.chain, Deadline, r.tx.raw, at.head, at.receipt);
    }
  }

  lemma {:induction false} HistoryKeeps(g: Setting, now: nat, s: Service, networkOk: bool, readings: seq<Reading>,
                                        times: seq<Times>,
                                        later: nat, write: Write)
    requires Lawful(g) && StoreInv(g, now, s.store) && now <= later
    requires |readings| == |times| == |s.store.mem|
    requires forall k | 0 <= k < |times| :: Answers(g, s.store.mem[k], readings[k], times[k], now, later)
    ensures var s' := HistoryOutcome(s, networkOk, readings, write).0;
      && StoreInv(g, later, s'.store) && Extends(s.store.mem, s'.store.mem) && s'.quotes == s.quotes
  {
    var mem := s.store.mem;
    LaterFile(g, now, later, mem);
    LaterFile(g, now, later, s.store.disk);
    if networkOk && AllRefreshed(mem, readings) {
      var next := RefreshedAll(mem, readings);
      forall k | 0 <= k < |mem|
        ensures Good(g, later, next[k]) && Follows(mem[k], next[k]) && (IsPending(next[k]) ==> IsPending(mem[k]))
      {
        assert mem[k] in mem;
        RefreshKeeps(g, mem[k], readings[k], times[k], now, later);
      }
      PointwiseKeeps(g, later, mem, next);
      SaveKeeps(g, later, s.store, next, write);
    }
  }

  lemma PointwiseKeeps(g: Setting, now: nat, records: seq<Record>, next: seq<Record>)
    requires FileInv(g, now, records) && |next| == |records|
    requires forall k | 0 <= k < |records| ::
      Good(g, now, next[k]) && Follows(records[k], next[k]) && (IsPending(next[k]) ==> IsPending(records[k]))
    ensures FileInv(g, now, next) && Extends(records, next)
  {
    assert forall k | 0 <= k < |records| :: next[k].tx == records[k].tx;
  }

  // ---- Whole runs ------------------------------------------------------------------------------------------------

  lemma ReloadKeeps(g: Setting, now: nat, s: Store)
    requires StoreInv(g, now, s)
    ensures Reload(g.env, s.disk) == Some(Service(Store(s.disk, s.disk, false), map[]))
  {
    assert forall r <- s.disk :: Good(g, now, r);
  }

  lemma StepKeeps(g: Setting, w: World, step: Step)
    requires Lawful(g) && Inv(g, w) && Enabled(g, w, step)
    ensures Inv(g, Apply(g, w, step))
    ensures Extends(w.service.store.mem, Apply(g, w, step).service.store.mem)
    ensures w.broadcast <= Apply(g, w, step).broadcast
  {
    match step
    case MakeQuote(o) => QuoteKeeps(g, w, o);
    case Send(id, o) => SendKeeps(g, w, id, o);
    case Retry(hash, a) => RetryKeeps(g, w, hash, a);
    case History(networkOk, readings, times, later, write) =>
      HistoryKeeps(g, w.now, w.service, networkOk, readings, times, later, write);
      RemembersMore(w.broadcast, w.service.store.mem,
                    HistoryOutcome(w.service, networkOk, readings, write).0.store.mem);
    case Crash =>
      ReloadKeeps(g, w.now, w.service.store);
      RemembersMore(w.broadcast, w.service.store.mem, w.service.store.disk);
  }

  ghost predicate IsRun(g: Setting, states: seq<World>, steps: seq<Step>) {
    && |states| == |steps| + 1
    && states[0] == START
    && forall i | 0 <= i < |steps| :: Enabled(g, states[i], steps[i]) && states[i + 1] == Apply(g, states[i], steps[i])
  }

  lemma {:induction false} RunKeeps(g: Setting, states: seq<World>, steps: seq<Step>, i: nat)
    requires Lawful(g) && IsRun(g, states, steps) && i < |states|
    ensures Inv(g, states[i])
  {
    if i > 0 {
      RunKeeps(g, states, steps, i - 1);
      StepKeeps(g, states[i - 1], steps[i - 1]);
    }
  }

  lemma {:induction false} RunExtends(g: Setting, states: seq<World>, steps: seq<Step>, i: nat, j: nat)
    requires Lawful(g) && IsRun(g, states, steps) && i <= j < |states|
    ensures Extends(states[i].service.store.mem, states[j].service.store.mem)
    decreases j - i
  {
    if i < j {
      RunExtends(g, states, steps, i, j - 1);
      RunKeeps(g, states, steps, j - 1);
      StepKeeps(g, states[j - 1], steps[j - 1]);
      ExtendsTransitive(states[i].service.store.mem, states[j - 1].service.store.mem, states[j].service.store.mem);
    }
  }
}

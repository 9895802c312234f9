/**
 The TRON service as the program runs it: an object that holds one lock for each whole call, so that
 every method is proved to do what TronModel says in one step.
 */
module Tron {
  import opened Common
  import opened Bytes
  import opened TronModel
  import TronQuote

  /** The journal file. Each replacement ends as the environment decides. */
  class JournalFile {
    var content: seq<Record>

    constructor ()
      ensures content == []
    {
      content := [];
    }

    method Replace(next: seq<Record>, write: Write) returns (ok: bool)
      modifies this
      ensures ok == write.Done?
      ensures content == if write.FailedOld? then old(content) else next
    {
      if !write.FailedOld? {
        content := next;
      }
      ok := write.Done?;
    }
  }

  class TronService {
    const file: JournalFile
    var records: seq<Record>
    var quotes: map<QuoteId, Quote>
    var fault: bool
    /** The transactions whose bytes this service has handed to the network. */
    ghost var transmitted: set<Tx>

    constructor (file: JournalFile)
      ensures this.file == file && records == [] && quotes == map[] && !fault && transmitted == {}
    {
      this.file := file;
      records, quotes, fault, transmitted := [], map[], false, {};
    }

    /** Unless a save has failed, the file holds exactly the records in memory. */
    ghost predicate Valid()
      reads this, file
    {
      !fault ==> file.content == records
    }

    ghost function Value(): Service
      reads this, file
    {
      Service(Store(records, file.content, fault), quotes)
    }

    /** Reads the file into a new service, record by record; any bad record stops it. */
    method Load(env: Env) returns (ok: bool)
      requires records == [] && quotes == map[] && !fault
      modifies `records
      ensures ok == Reload(env, file.content).Some?
      ensures ok ==> Valid() && Value() == Reload(env, file.content).value
    {
      var stored := file.content;
      if |stored| > CAPACITY {
        return false;
      }
      var i := 0;
      while i < |stored|
        invariant 0 <= i <= |stored| && stored == file.content
        invariant records == stored[..i]
        invariant forall k :: 0 <= k < i ==> Loadable(env, stored[k])
      {
        if !Loadable(env, stored[i]) {
          return false;
        }
        records := records + [stored[i]];
        i := i + 1;
      }
      ok := true;
    }

    method Pending() returns (pending: bool)
      ensures pending == HasPending(records)
    {
      for i := 0 to |records|
        invariant forall k :: 0 <= k < i ==> !IsPending(records[k])
      {
        if IsPending(records[i]) {
          return true;
        }
      }
      pending := false;
    }

    method SaveRecords(next: seq<Record>, write: Write) returns (ok: bool)
      requires Valid()
      modifies `records, `fault, file
      ensures Valid() && ok == write.Done?
      ensures Value() == old(Value()).(store := Save(old(Value()).store, next, write))
    {
      ok := file.Replace(next, write);
      if ok {
        records := next;
      } else {
        fault := true;
      }
    }

    method MakeQuote(o: QuoteInput) returns (refusal: Option<Refusal>)
      requires Valid() && TronQuote.Stated(o.offer)
      modifies `quotes
      ensures Valid()
      ensures (Value(), refusal) == QuoteOutcome(old(Value()), o)
    {
      if fault {
        return Some(Faulted);
      }
      var pending := Pending();
      if pending {
        return Some(InFlight);
      }
      if |records| >= CAPACITY {
        return Some(JournalFull);
      }
      if !o.parses {
        return Some(BadAddress);
      }
      if o.contract == "" && o.to == o.sender {
        return Some(SelfTransfer);
      }
      if !o.networkOk {
        return Some(NetworkFailed);
      }
      var priced := Amount(o.offer);
      if priced.Err? {
        return Some(Unpriced(priced.error));
      }
      var p := priced.value;
      quotes := quotes - o.late;
      if |quotes| >= MAX_QUOTES {
        return Some(QuotesFull);
      }
      quotes := quotes[o.id := Quote(o.id, o.sender, o.to, o.contract, p.raw, p.required, p.energy, o.offer.expires)];
      refusal := None;
    }

    method FindQuote(id: QuoteId) returns (i: nat)
      ensures i == FirstQuote(records, id, 0)
    {
      i := 0;
      while i < |records| && records[i].tx.quoteId != id
        invariant i <= |records| && FirstQuote(records, id, 0) == FirstQuote(records, id, i)
      {
        i := i + 1;
      }
    }

    method FindHash(hash: Hash) returns (i: nat)
      ensures i == FirstHash(records, hash, 0)
    {
      i := 0;
      while i < |records| && records[i].tx.hash != hash
        invariant i <= |records| && FirstHash(records, hash, 0) == FirstHash(records, hash, i)
      {
        i := i + 1;
      }
    }

    method Send(env: Env, id: QuoteId, o: SendInput) returns (answer: Answer)
      requires Valid()
      modifies this, file
      ensures Valid()
      ensures (Value(), answer) == SendOutcome(env, old(Value()), id, o)
      ensures transmitted == With(old(transmitted), SendTransmits(env, old(Value()), id, o))
    {
      if !LegacyId(id) {
        return Refused(QuoteNotFound);
      }
      var known := FindQuote(id);
      if known < |records| {
        return Given(records[known]);
      }
      if fault {
        return Refused(Faulted);
      }
      var pending := Pending();
      if pending {
        return Refused(InFlight);
      }
      if |records| >= CAPACITY {
        return Refused(JournalFull);
      }
      if id !in quotes {
        return Refused(QuoteNotFound);
      }
      var q := quotes[id];
      var refusal := QuoteRefusal(q, o);
      if refusal.Some? {
        return Refused(refusal.value);
      }
      var saved := SaveRecords(records + [NewRecord(env, q, id, o.signature.value)], o.write);
      if !saved {
        return Refused(SaveFailed);
      }
      quotes := quotes - {id};
      answer := Transmit(|records| - 1, o.attempt);
    }

    /** Only bytes of a record that is in the file at that moment go to the network. */
    method Transmit(index: nat, a: Attempt) returns (answer: Answer)
      requires Valid() && index < |records| && records[index] in file.content
      modifies `records, `fault, `transmitted, file
      ensures Valid()
      ensures transmitted == With(old(transmitted), if Transmits(a) then Some(old(records[index].tx)) else None)
      ensures var (store', given) := Broadcast(old(Value()).store, index, a);
        Value() == old(Value()).(store := store') && answer == given
    {
      if !a.networkOk {
        return Unsure(records[index]);
      }
      if a.late {
        return Refused(AlreadyExpired);
      }
      Deliver(records[index], a.delivered);
      var next := records;
      next := next[index := next[index].(state := if a.accepted then Submitted else BroadcastUnknown)];
      var saved := SaveRecords(next, a.write);
      answer := if saved then Given(next[index]) else Refused(SaveFailed);
    }

    /** The network effect of one attempt. */
    method Deliver(r: Record, delivered: bool)
      requires r in file.content
      modifies `transmitted
      ensures transmitted == if delivered then old(transmitted) + {r.tx} else old(transmitted)
    {
      if delivered {
        transmitted := transmitted + {r.tx};
      }
    }

    method Retry(hash: Hash, a: Attempt) returns (answer: Answer)
      requires Valid()
      modifies `records, `fault, `transmitted, file
      ensures Valid()
      ensures (Value(), answer) == RetryOutcome(old(Value()), hash, a)
      ensures transmitted == With(old(transmitted), RetryTransmits(old(Value()), hash, a))
    {
      if fault {
        return Refused(Faulted);
      }
      var i := FindHash(hash);
      if i == |records| {
        return Refused(RecordNotFound);
      }
      if Closed(records[i]) {
        return Given(records[i]);
      }
      answer := Transmit(i, a);
    }

    method History(networkOk: bool, readings: seq<Reading>, write: Write) returns (answer: HistoryAnswer)
      requires Valid() && |readings| == |records|
      modifies `records, `fault, file
      ensures Valid()
      ensures (Value(), answer) == HistoryOutcome(old(Value()), networkOk, readings, write)
    {
      if !networkOk {
        return HistoryFailed;
      }
      var next := records;
      var i := 0;
      while i < |next|
        invariant 0 <= i <= |next| == |records|
        invariant forall k :: 0 <= k < i ==> Refreshed(records[k], readings[k]) == Some(next[k])
        invariant forall k :: i <= k < |next| ==> next[k] == records[k]
      {
        if !next[i].finalized {
          var r := Refreshed(next[i], readings[i]);
          if r.None? {
            return HistoryFailed;
          }
          next := next[i := r.value];
        }
        i := i + 1;
      }
      assert next == RefreshedAll(records, readings);
      if next != records {
        var saved := SaveRecords(next, write);
        if !saved {
          return HistoryFailed;
        }
      }
      answer := Listed(Recent(records));
    }
  }
}

/**
 Asset movements read from a receipt, seen from one owner, and what they add up to over all owners.
 */
module Ledger {
  import opened Common
  import opened Bytes

  const PADDED: nat := 0x1_0000_0000_0000_0000_0000_0000_0000_0000_0000_0000

  /** An address is a number below 2^160; a topic holds one when its upper 12 bytes are zero. */
  type Address = a: nat | a < PADDED

  const SEPOLIA: int := 11155111
  const POLYGON_AMOY: int := 80002

  datatype Event = Transfer | Deposit | Withdrawal | OtherEvent

  /** The first topic names the event; the others are words. */
  datatype Log = Log(
    address: Address, event: Event, topics: seq<nat>, data: seq<byte>,
    removed: bool, txHash: string, blockHash: string, blockNumber: nat, index: nat)

  datatype Tx = Tx(to: Option<Address>, value: nat)

  /** A log may be missing from the decoded list. */
  datatype Receipt = Receipt(
    txHash: string, blockHash: string, blockNumber: nat, success: bool,
    gasUsed: nat, gasPrice: nat, contractAddress: Address, logs: seq<Option<Log>>)

  datatype Asset = Eth | Pol | Token(address: Address)
  datatype Kind = Fee | Send | Receive
  datatype Evidence = GasUsed | TransactionValue | LogEntry(index: nat)
  datatype Movement = Movement(kind: Kind, asset: Asset, raw: nat, counterparty: Address, evidence: Evidence)

  /** Where the receipt comes from: the chain, when the caller names it, and the wrapped-ether contract. */
  datatype Chain = Chain(id: Option<int>, weth: Address)

  function Native(c: Chain): Asset {
    if c.id == Some(POLYGON_AMOY) then Pol else Eth
  }

  predicate WrapsEther(c: Chain) {
    c.id.None? || c.id == Some(SEPOLIA)
  }

  /** A movement of nothing is not written down. */
  function Entry(kind: Kind, asset: Asset, amount: nat, other: Address, evidence: Evidence): seq<Movement> {
    if amount > 0 then [Movement(kind, asset, amount, other, evidence)] else []
  }

  function FeeMoves(r: Receipt, sender: Address, owner: Address, c: Chain): seq<Movement> {
    if sender == owner then Entry(Fee, Native(c), r.gasUsed * r.gasPrice, 0, GasUsed) else []
  }

  function ValueMoves(tx: Tx, r: Receipt, sender: Address, owner: Address, c: Chain): seq<Movement> {
    (if sender == owner then
       Entry(Send, Native(c), tx.value, if tx.to.Some? then tx.to.value else r.contractAddress, TransactionValue)
     else [])
    + (if tx.to == Some(owner) then Entry(Receive, Native(c), tx.value, sender, TransactionValue) else [])
  }

  predicate IsTransfer(l: Log) {
    |l.data| == 32 && |l.topics| == 2 && l.event.Transfer? && l.topics[0] < PADDED && l.topics[1] < PADDED
  }

  predicate IsWrap(l: Log, c: Chain) {
    |l.data| == 32 && |l.topics| == 1 && WrapsEther(c) && l.address == c.weth
  }

  function LogMoves(l: Log, owner: Address, c: Chain): seq<Movement> {
    if IsTransfer(l) then
      (if l.topics[0] == owner then Entry(Send, Token(l.address), ValueOf(l.data), l.topics[1], LogEntry(l.index))
        else [])
      + (if l.topics[1] == owner
        then Entry(Receive, Token(l.address), ValueOf(l.data), l.topics[0], LogEntry(l.index)) else [])
    else if IsWrap(l, c) && l.topics[0] == owner then
      match l.event
      case Deposit => Entry(Receive, Token(l.address), ValueOf(l.data), l.address, LogEntry(l.index))
      case Withdrawal =>
        Entry(Send, Token(l.address), ValueOf(l.data), l.address, LogEntry(l.index))
        + Entry(Receive, Eth, ValueOf(l.data), l.address, LogEntry(l.index))
      case _ => []
    else []
  }

  /** A log must be there, stand, and belong to the receipt. */
  predicate Belongs(l: Option<Log>, r: Receipt) {
    l.Some? && !l.value.removed && l.value.txHash == r.txHash && l.value.blockHash == r.blockHash
    && l.value.blockNumber == r.blockNumber
  }

  /** All logs belong, and no two share an index. */
  predicate AcceptedTo(r: Receipt, n: nat)
    requires n <= |r.logs|
  {
    && (forall i :: 0 <= i < n ==> Belongs(r.logs[i], r))
    && (forall i, j :: 0 <= i < j < n ==> r.logs[i].value.index != r.logs[j].value.index)
  }

  predicate Accepted(r: Receipt) {
    AcceptedTo(r, |r.logs|)
  }

  function AllLogMoves(logs: seq<Option<Log>>, owner: Address, c: Chain): seq<Movement> {
    if logs == [] then []
    else
      var last := logs[|logs| - 1];
      AllLogMoves(logs[..|logs| - 1], owner, c) + (if last.Some? then LogMoves(last.value, owner, c) else [])
  }

  /** What the owner's ledger says, or none when a log is refused. */
  function Movements(tx: Tx, r: Receipt, sender: Address, owner: Address, c: Chain): Option<seq<Movement>> {
    var fee := FeeMoves(r, sender, owner, c);
    if !r.success then Some(fee)
    else if !Accepted(r) then None
    else Some(fee + ValueMoves(tx, r, sender, owner, c) + AllLogMoves(r.logs, owner, c))
  }

  /** The reading itself: one pass over the logs, with the indexes already seen. */
  method ReceiptMovements(tx: Tx, r: Receipt, sender: Address, owner: Address, c: Chain)
    returns (result: Option<seq<Movement>>)
    ensures result == Movements(tx, r, sender, owner, c)
  {
    var moves := FeeMoves(r, sender, owner, c);
    if !r.success {
      return Some(moves);
    }
    moves := moves + ValueMoves(tx, r, sender, owner, c);
    var logged := ReadLogs(r, owner, c);
    if logged.None? {
      return None;
    }
    result := Some(moves + logged.value);
  }

  /** The indexes of the first n logs. */
  ghost predicate SeenTo(r: Receipt, n: nat, seen: set<nat>)
    requires n <= |r.logs| && AcceptedTo(r, n)
  {
    && (forall k :: 0 <= k < n ==> r.logs[k].value.index in seen)
    && (forall x <- seen :: exists k :: 0 <= k < n && r.logs[k].value.index == x)
  }

  lemma NextAccepted(r: Receipt, n: nat, seen: set<nat>)
    requires n < |r.logs| && AcceptedTo(r, n) && SeenTo(r, n, seen)
    ensures AcceptedTo(r, n + 1) <==> Belongs(r.logs[n], r) && r.logs[n].value.index !in seen
    ensures AcceptedTo(r, n + 1) ==> SeenTo(r, n + 1, seen + {r.logs[n].value.index})
    ensures Accepted(r) ==> AcceptedTo(r, n + 1)
  {
  }

  method ReadLogs(r: Receipt, owner: Address, c: Chain) returns (result: Option<seq<Movement>>)
    ensures result == if Accepted(r) then Some(AllLogMoves(r.logs, owner, c)) else None
  {
    var moves: seq<Movement>, seen: set<nat> := [], {};
    var i := 0;
    while i < |r.logs|
      invariant 0 <= i <= |r.logs| && AcceptedTo(r, i)
      invariant SeenTo(r, i, seen)
      invariant moves == AllLogMoves(r.logs[..i], owner, c)
    {
      var entry := r.logs[i];
      NextAccepted(r, i, seen);
      if !Belongs(entry, r) || entry.value.index in seen {
        return None;
      }
      seen := seen + {entry.value.index};
      var entries := LogEntries(entry.value, owner, c);
      moves := moves + entries;
      NextLog(r.logs, i, owner, c);
      i := i + 1;
    }
    assert r.logs[..|r.logs|] == r.logs;
    result := Some(moves);
  }

  lemma NextLog(logs: seq<Option<Log>>, i: nat, owner: Address, c: Chain)
    requires i < |logs| && logs[i].Some?
    ensures AllLogMoves(logs[..i + 1], owner, c) == AllLogMoves(logs[..i], owner, c) + LogMoves(logs[i].value, owner, c)
  {
    assert logs[..i + 1][..i] == logs[..i];
  }

  method LogEntries(l: Log, owner: Address, c: Chain) returns (moves: seq<Movement>)
    ensures moves == LogMoves(l, owner, c)
  {
    moves := [];
    if |l.data| == 32 {
      var amount := ValueOf(l.data);
      if |l.topics| == 2 && l.event.Transfer? {
        if l.topics[0] >= PADDED || l.topics[1] >= PADDED {
          return;
        }
        if l.topics[0] == owner {
          moves := moves + Entry(Send, Token(l.address), amount, l.topics[1], LogEntry(l.index));
        }
        if l.topics[1] == owner {
          moves := moves + Entry(Receive, Token(l.address), amount, l.topics[0], LogEntry(l.index));
        }
      }
      if WrapsEther(c) && l.address == c.weth && |l.topics| == 1 && l.topics[0] == owner {
        if l.event.Deposit? {
          moves := moves + Entry(Receive, Token(l.address), amount, l.address, LogEntry(l.index));
        }
        if l.event.Withdrawal? {
          moves := moves + Entry(Send, Token(l.address), amount, l.address, LogEntry(l.index));
          moves := moves + Entry(Receive, Eth, amount, l.address, LogEntry(l.index));
        }
      }
    }
  }

  // ---- Balances ----------------------------------------------------------------------------------------------

  function Signed(m: Movement): int {
    if m.kind.Receive? then m.raw else 0 - m.raw
  }

  /** What the movements change of one asset. */
  function Net(moves: seq<Movement>, asset: Asset): int {
    if moves == [] then 0
    else
      var last := moves[|moves| - 1];
      Net(moves[..|moves| - 1], asset) + (if last.asset == asset then Signed(last) else 0)
  }

  lemma {:induction false} NetConcat(a: seq<Movement>, b: seq<Movement>, asset: Asset)
    ensures Net(a + b, asset) == Net(a, asset) + Net(b, asset)
  {
    if b == [] {
      assert a + b == a;
    } else {
      assert (a + b)[..|a + b| - 1] == a + b[..|b| - 1];
      NetConcat(a, b[..|b| - 1], asset);
    }
  }

  lemma NetEntry(kind: Kind, asset: Asset, amount: nat, other: Address, evidence: Evidence, asked: Asset)
    ensures Net(Entry(kind, asset, amount, other, evidence), asked)
      == if asset != asked then 0 else if kind.Receive? then amount else 0 - amount
  {
    if amount > 0 {
      var m := Movement(kind, asset, amount, other, evidence);
      assert [m][..0] == [];
    }
  }

  // ---- Sums over owners ----------------------------------------------------------------------------------------

  function Sum(owners: seq<Address>, f: Address -> int): int {
    if owners == [] then 0 else Sum(owners[..|owners| - 1], f) + f(owners[|owners| - 1])
  }

  ghost predicate Distinct(owners: seq<Address>) {
    forall i, j :: 0 <= i < j < |owners| ==> owners[i] != owners[j]
  }

  lemma {:induction false} SumSplit(owners: seq<Address>, f: Address -> int, g: Address -> int, h: Address -> int)
    requires forall o :: f(o) == g(o) + h(o)
    ensures Sum(owners, f) == Sum(owners, g) + Sum(owners, h)
  {
    if owners != [] {
      SumSplit(owners[..|owners| - 1], f, g, h);
    }
  }

  /** A function that is zero but at one address. */
  lemma {:induction false} SumAt(owners: seq<Address>, a: Address, v: int, f: Address -> int)
    requires Distinct(owners) && forall o :: f(o) == if o == a then v else 0
    ensures Sum(owners, f) == if a in owners then v else 0
  {
    if owners != [] {
      var init, last := owners[..|owners| - 1], owners[|owners| - 1];
      SumAt(init, a, v, f);
      assert owners == init + [last];
      assert last !in init;
    }
  }

  lemma {:induction false} SumZero(owners: seq<Address>, f: Address -> int)
    requires forall o :: f(o) == 0
    ensures Sum(owners, f) == 0
  {
    if owners != [] {
      SumZero(owners[..|owners| - 1], f);
    }
  }

  // ---- Conservation --------------------------------------------------------------------------------------------

  /** What a log adds to all ledgers together: a transfer nothing, wrapping tokens, unwrapping ether for tokens. */
  function LogTotal(l: Log, c: Chain, asset: Asset): int {
    if IsTransfer(l) || !IsWrap(l, c) || l.topics[0] >= PADDED then 0
    else if l.event.Deposit? then (if asset == Token(l.address) then ValueOf(l.data) else 0)
    else if l.event.Withdrawal? then
      (if asset == Token(l.address) then 0 - ValueOf(l.data) else 0) + (if asset == Eth then ValueOf(l.data) else 0)
    else 0
  }

  function LogsTotal(logs: seq<Option<Log>>, c: Chain, asset: Asset): int {
    if logs == [] then 0
    else
      var last := logs[|logs| - 1];
      LogsTotal(logs[..|logs| - 1], c, asset) + (if last.Some? then LogTotal(last.value, c, asset) else 0)
  }

  /** The addresses that a log speaks of. */
  ghost predicate Covers(owners: seq<Address>, l: Log, c: Chain) {
    && (IsTransfer(l) ==> l.topics[0] in owners && l.topics[1] in owners)
    && (IsWrap(l, c) && l.topics[0] < PADDED ==> l.topics[0] in owners)
  }

  lemma LogNet(l: Log, owner: Address, c: Chain, asset: Asset)
    ensures Net(LogMoves(l, owner, c), asset) ==
      if IsTransfer(l) then
        (if l.topics[0] == owner && asset == Token(l.address) then 0 - ValueOf(l.data) else 0)
        + (if l.topics[1] == owner && asset == Token(l.address) then ValueOf(l.data) else 0)
      else if IsWrap(l, c) && l.topics[0] == owner then
        if l.event.Deposit? then (if asset == Token(l.address) then ValueOf(l.data) else 0)
        else if l.event.Withdrawal? then
          (if asset == Token(l.address) then 0 - ValueOf(l.data) else 0) + (if asset == Eth then ValueOf(l.data) else 0)
        else 0
      else 0
  {
    var amount, token := ValueOf(l.data), Token(l.address);
    if IsTransfer(l) {
      var sent := if l.topics[0] == owner then Entry(Send, token, amount, l.topics[1], LogEntry(l.index)) else [];
      var got := if l.topics[1] == owner then Entry(Receive, token, amount, l.topics[0], LogEntry(l.index)) else [];
      NetConcat(sent, got, asset);
      NetEntry(Send, token, amount, l.topics[1], LogEntry(l.index), asset);
      NetEntry(Receive, token, amount, l.topics[0], LogEntry(l.index), asset);
    } else {
      NetConcat(Entry(Send, token, amount, l.address, LogEntry(l.index)),
                Entry(Receive, Eth, amount, l.address, LogEntry(l.index)), asset);
      NetEntry(Send, token, amount, l.address, LogEntry(l.index), asset);
      NetEntry(Receive, token, amount, l.address, LogEntry(l.index), asset);
      NetEntry(Receive, Eth, amount, l.address, LogEntry(l.index), asset);
    }
  }

  lemma LogConserves(owners: seq<Address>, l: Log, c: Chain, asset: Asset, f: Address -> int)
    requires Distinct(owners) && Covers(owners, l, c) && forall o :: f(o) == Net(LogMoves(l, o, c), asset)
    ensures Sum(owners, f) == LogTotal(l, c, asset)
  {
    forall o: Address
      ensures f(o) == Net(LogMoves(l, o, c), asset)
    {
    }
    if IsTransfer(l) {
      var amount := if asset == Token(l.address) then ValueOf(l.data) else 0;
      var out := (o: Address) => if o == l.topics[0] then 0 - amount else 0;
      var into := (o: Address) => if o == l.topics[1] then amount else 0;
      forall o: Address
        ensures f(o) == out(o) + into(o)
      {
        LogNet(l, o, c, asset);
      }
      SumSplit(owners, f, out, into);
      SumAt(owners, l.topics[0], 0 - amount, out);
      SumAt(owners, l.topics[1], amount, into);
    } else if IsWrap(l, c) && l.topics[0] < PADDED {
      var v := Net(LogMoves(l, l.topics[0], c), asset);
      forall o: Address
        ensures f(o) == if o == l.topics[0] then v else 0
      {
        LogNet(l, o, c, asset);
      }
      LogNet(l, l.topics[0], c, asset);
      SumAt(owners, l.topics[0], v, f);
    } else {
      forall o: Address
        ensures f(o) == 0
      {
        LogNet(l, o, c, asset);
      }
      SumZero(owners, f);
    }
  }

  lemma {:induction false} LogsConserve(owners: seq<Address>, logs: seq<Option<Log>>, c: Chain, asset: Asset,
                                        f: Address -> int)
    requires Distinct(owners) && forall i :: 0 <= i < |logs| && logs[i].Some? ==> Covers(owners, logs[i].value, c)
    requires forall o: Address :: f(o) == Net(AllLogMoves(logs, o, c), asset)
    ensures Sum(owners, f) == LogsTotal(logs, c, asset)
  {
    if logs == [] {
      SumZero(owners, f);
    } else {
      var init, last := logs[..|logs| - 1], logs[|logs| - 1];
      var g := (o: Address) => Net(AllLogMoves(init, o, c), asset);
      var h := (o: Address) => if last.Some? then Net(LogMoves(last.value, o, c), asset) else 0;
      LogsConserve(owners, init, c, asset, g);
      forall o: Address
        ensures f(o) == g(o) + h(o)
      {
        NetConcat(AllLogMoves(init, o, c), if last.Some? then LogMoves(last.value, o, c) else [], asset);
      }
      SumSplit(owners, f, g, h);
      if last.Some? {
        LogConserves(owners, last.value, c, asset, h);
      } else {
        SumZero(owners, h);
      }
    }
  }

  // ---- Whole receipts --------------------------------------------------------------------------------------------

  lemma FeeConserves(owners: seq<Address>, r: Receipt, sender: Address, c: Chain, asset: Asset, f: Address -> int)
    requires Distinct(owners) && sender in owners
    requires forall o: Address :: f(o) == Net(FeeMoves(r, sender, o, c), asset)
    ensures Sum(owners, f) == if asset == Native(c) then 0 - r.gasUsed * r.gasPrice else 0
  {
    var v := if asset == Native(c) then 0 - r.gasUsed * r.gasPrice else 0;
    NetEntry(Fee, Native(c), r.gasUsed * r.gasPrice, 0, GasUsed, asset);
    SumAt(owners, sender, v, f);
  }

  lemma ValueNet(tx: Tx, r: Receipt, sender: Address, o: Address, c: Chain, asset: Asset)
    ensures Net(ValueMoves(tx, r, sender, o, c), asset) ==
      (if o == sender && asset == Native(c) then 0 - tx.value else 0)
      + (if tx.to == Some(o) && asset == Native(c) then tx.value else 0)
  {
    var target := if tx.to.Some? then tx.to.value else r.contractAddress;
    var sent := if sender == o then Entry(Send, Native(c), tx.value, target, TransactionValue) else [];
    var got := if tx.to == Some(o) then Entry(Receive, Native(c), tx.value, sender, TransactionValue) else [];
    NetConcat(sent, got, asset);
    NetEntry(Send, Native(c), tx.value, target, TransactionValue, asset);
    NetEntry(Receive, Native(c), tx.value, sender, TransactionValue, asset);
  }

  lemma ValueConserves(owners: seq<Address>, tx: Tx, r: Receipt, sender: Address, c: Chain, asset: Asset,
                       f: Address -> int)
    requires Distinct(owners) && sender in owners && (tx.to.Some? ==> tx.to.value in owners)
    requires forall o: Address :: f(o) == Net(ValueMoves(tx, r, sender, o, c), asset)
    ensures Sum(owners, f) == if asset == Native(c) && tx.to.None? then 0 - tx.value else 0
  {
    var value := if asset == Native(c) then tx.value else 0;
    var out := (o: Address) => if o == sender then 0 - value else 0;
    var into := (o: Address) => if tx.to == Some(o) then value else 0;
    forall o: Address
      ensures f(o) == out(o) + into(o)
    {
      ValueNet(tx, r, sender, o, c, asset);
    }
    SumSplit(owners, f, out, into);
    SumAt(owners, sender, 0 - value, out);
    if tx.to.Some? {
      SumAt(owners, tx.to.value, value, into);
    } else {
      SumZero(owners, into);
    }
  }

  /** Every address that takes part. */
  ghost predicate Everyone(owners: seq<Address>, tx: Tx, r: Receipt, sender: Address, c: Chain) {
    && Distinct(owners) && sender in owners && (tx.to.Some? ==> tx.to.value in owners)
    && forall i :: 0 <= i < |r.logs| && r.logs[i].Some? ==> Covers(owners, r.logs[i].value, c)
  }

  /** All ledgers of one receipt together, asset by asset: the fee is gone, a contract creation takes its value
      along, wrapping adds tokens and unwrapping trades them for ether; everything else cancels out. Which
      logs are accepted depends on the receipt alone. */
  lemma Conservation(owners: seq<Address>, tx: Tx, r: Receipt, sender: Address, c: Chain, asset: Asset,
                     f: Address -> int)
    requires Everyone(owners, tx, r, sender, c) && (r.success ==> Accepted(r))
    requires forall o: Address ::
      Movements(tx, r, sender, o, c).Some? ==> f(o) == Net(Movements(tx, r, sender, o, c).value, asset)
    ensures forall o: Address :: Movements(tx, r, sender, o, c).Some?
    ensures Sum(owners, f) ==
      (if asset == Native(c) then 0 - r.gasUsed * r.gasPrice else 0)
      + (if r.success && asset == Native(c) && tx.to.None? then 0 - tx.value else 0)
      + (if r.success then LogsTotal(r.logs, c, asset) else 0)
  {
    var fee := (o: Address) => Net(FeeMoves(r, sender, o, c), asset);
    FeeConserves(owners, r, sender, c, asset, fee);
    if r.success {
      var value := (o: Address) => Net(ValueMoves(tx, r, sender, o, c), asset);
      var logs := (o: Address) => Net(AllLogMoves(r.logs, o, c), asset);
      var first := (o: Address) => fee(o) + value(o);
      forall o: Address
        ensures f(o) == first(o) + logs(o)
      {
        NetConcat(FeeMoves(r, sender, o, c), ValueMoves(tx, r, sender, o, c), asset);
        NetConcat(FeeMoves(r, sender, o, c) + ValueMoves(tx, r, sender, o, c), AllLogMoves(r.logs, o, c), asset);
      }
      SumSplit(owners, f, first, logs);
      SumSplit(owners, first, fee, value);
      ValueConserves(owners, tx, r, sender, c, asset, value);
      LogsConserve(owners, r.logs, c, asset, logs);
    } else {
      var zero := (o: Address) => 0;
      SumSplit(owners, f, fee, zero);
      SumZero(owners, zero);
    }
  }

  lemma {:induction false} NoWrapsNoTotal(logs: seq<Option<Log>>, c: Chain, asset: Asset)
    requires forall i :: 0 <= i < |logs| && logs[i].Some? ==>
      !(IsWrap(logs[i].value, c) && (logs[i].value.event.Deposit? || logs[i].value.event.Withdrawal?))
    ensures LogsTotal(logs, c, asset) == 0
  {
    if logs != [] {
      NoWrapsNoTotal(logs[..|logs| - 1], c, asset);
    }
  }

  /** Double entry: with a recipient and no wrapping, tokens sum to zero and the native coin to minus the fee. */
  lemma DoubleEntry(owners: seq<Address>, tx: Tx, r: Receipt, sender: Address, c: Chain, asset: Asset,
                    f: Address -> int)
    requires Everyone(owners, tx, r, sender, c) && (r.success ==> Accepted(r)) && tx.to.Some?
    requires forall i :: 0 <= i < |r.logs| && r.logs[i].Some? ==>
      !(IsWrap(r.logs[i].value, c) && (r.logs[i].value.event.Deposit? || r.logs[i].value.event.Withdrawal?))
    requires forall o: Address ::
      Movements(tx, r, sender, o, c).Some? ==> f(o) == Net(Movements(tx, r, sender, o, c).value, asset)
    ensures Sum(owners, f) == if asset == Native(c) then 0 - r.gasUsed * r.gasPrice else 0
  {
    Conservation(owners, tx, r, sender, c, asset, f);
    NoWrapsNoTotal(r.logs, c, asset);
  }

  // ---- Totals ------------------------------------------------------------------------------------------------------

  datatype Activity = Activity(settled: bool, moves: seq<Movement>)

  datatype Total = Total(received: nat, sent: nat, fee: nat)

  function Amount(moves: seq<Movement>, kind: Kind, asset: Asset): nat {
    if moves == [] then 0
    else
      var last := moves[|moves| - 1];
      Amount(moves[..|moves| - 1], kind, asset) + (if last.kind == kind && last.asset == asset then last.raw else 0)
  }

  function TotalOf(moves: seq<Movement>, asset: Asset): Total {
    Total(Amount(moves, Receive, asset), Amount(moves, Send, asset), Amount(moves, Fee, asset))
  }

  /** The movements of the transactions that have a result. */
  function SettledMoves(txs: seq<Activity>): seq<Movement> {
    if txs == [] then []
    else
      var last := txs[|txs| - 1];
      SettledMoves(txs[..|txs| - 1]) + (if last.settled then last.moves else [])
  }

  ghost predicate Tallies(sums: map<Asset, Total>, moves: seq<Movement>) {
    && (forall m <- moves :: m.asset in sums)
    && (forall asset <- sums :: sums[asset] == TotalOf(moves, asset) && exists m <- moves :: m.asset == asset)
  }

  lemma {:induction false} NoMovesNoAmount(moves: seq<Movement>, kind: Kind, asset: Asset)
    requires forall m <- moves :: m.asset != asset
    ensures Amount(moves, kind, asset) == 0
  {
    if moves != [] {
      NoMovesNoAmount(moves[..|moves| - 1], kind, asset);
    }
  }

  /** One movement more. */
  method Add(sums: map<Asset, Total>, m: Movement, ghost moves: seq<Movement>) returns (sums': map<Asset, Total>)
    requires Tallies(sums, moves)
    ensures Tallies(sums', moves + [m])
  {
    var all := moves + [m];
    if m.asset !in sums {
      NoMovesNoAmount(moves, Receive, m.asset);
      NoMovesNoAmount(moves, Send, m.asset);
      NoMovesNoAmount(moves, Fee, m.asset);
    }
    var sum := if m.asset in sums then sums[m.asset] else Total(0, 0, 0);
    match m.kind {
      case Receive => sum := sum.(received := sum.received + m.raw);
      case Send => sum := sum.(sent := sum.sent + m.raw);
      case Fee => sum := sum.(fee := sum.fee + m.raw);
    }
    sums' := sums[m.asset := sum];
    assert all[..|all| - 1] == moves;
    forall asset <- sums'
      ensures sums'[asset] == TotalOf(all, asset) && exists x <- all :: x.asset == asset
    {
      if asset == m.asset {
        assert m in all;
      } else {
        var x :| x in moves && x.asset == asset;
        assert x in all;
      }
    }
  }

  /** The movements of one transaction more. */
  method AddAll(sums: map<Asset, Total>, moves: seq<Movement>, ghost before: seq<Movement>)
    returns (sums': map<Asset, Total>)
    requires Tallies(sums, before)
    ensures Tallies(sums', before + moves)
  {
    sums' := sums;
    var k := 0;
    assert before + moves[..0] == before;
    while k < |moves|
      invariant 0 <= k <= |moves|
      invariant Tallies(sums', before + moves[..k])
    {
      sums' := Add(sums', moves[k], before + moves[..k]);
      assert before + moves[..k] + [moves[k]] == before + moves[..k + 1];
      k := k + 1;
    }
    assert moves[..|moves|] == moves;
  }

  /** The page's totals: one entry for each asset that moved. */
  method Totals(txs: seq<Activity>) returns (sums: map<Asset, Total>, incomplete: bool)
    ensures Tallies(sums, SettledMoves(txs))
    ensures incomplete <==> exists tx <- txs :: !tx.settled
  {
    sums, incomplete := map[], false;
    var i := 0;
    while i < |txs|
      invariant 0 <= i <= |txs|
      invariant Tallies(sums, SettledMoves(txs[..i]))
      invariant incomplete <==> exists k :: 0 <= k < i && !txs[k].settled
    {
      assert txs[..i + 1][..i] == txs[..i] && txs[..i + 1][i] == txs[i];
      if !txs[i].settled {
        assert SettledMoves(txs[..i + 1]) == SettledMoves(txs[..i]);
        incomplete := true;
        i := i + 1;
        continue;
      }
      sums := AddAll(sums, txs[i].moves, SettledMoves(txs[..i]));
      assert SettledMoves(txs[..i + 1]) == SettledMoves(txs[..i]) + txs[i].moves;
      i := i + 1;
    }
    assert txs[..|txs|] == txs;
  }

  /** The net total that is shown is what the movements change. */
  lemma {:induction false} NetIsTotal(moves: seq<Movement>, asset: Asset)
    ensures var t := TotalOf(moves, asset); t.received - t.sent - t.fee == Net(moves, asset)
  {
    if moves != [] {
      NetIsTotal(moves[..|moves| - 1], asset);
    }
  }

  // ---- Movement by movement --------------------------------------------------------------------------------------

  lemma {:induction false} AmountConcat(a: seq<Movement>, b: seq<Movement>, kind: Kind, asset: Asset)
    ensures Amount(a + b, kind, asset) == Amount(a, kind, asset) + Amount(b, kind, asset)
  {
    if b == [] {
      assert a + b == a;
    } else {
      assert (a + b)[..|a + b| - 1] == a + b[..|b| - 1];
      AmountConcat(a, b[..|b| - 1], kind, asset);
    }
  }

  /** What one log says about an owner's movements of one kind. */
  predicate LogSays(l: Log, owner: Address, c: Chain, m: Movement) {
    && |l.data| == 32 && m.raw == ValueOf(l.data) && m.evidence == LogEntry(l.index)
    && ((&& |l.topics| == 2 && l.event.Transfer? && l.topics[0] < PADDED && l.topics[1] < PADDED
         && m.asset == Token(l.address)
         && ((m.kind.Send? && l.topics[0] == owner && m.counterparty == l.topics[1])
             || (m.kind.Receive? && l.topics[1] == owner && m.counterparty == l.topics[0])))
        || (&& |l.topics| == 1 && l.topics[0] == owner && (c.id.None? || c.id == Some(11155111)) && l.address == c.weth
          && m.counterparty == l.address
            && ((l.event.Deposit? && m.kind.Receive? && m.asset == Token(l.address))
                || (l.event.Withdrawal? && m.kind.Send? && m.asset == Token(l.address))
                || (l.event.Withdrawal? && m.kind.Receive? && m.asset == Eth))))
  }

  /** The coin of the chain: POL on chain 80002, and ether elsewhere. */
  predicate IsCoin(c: Chain, asset: Asset) {
    if c.id == Some(80002) then asset.Pol? else asset.Eth?
  }

  /** Every movement that is written down has its evidence: the gas of the owner's own transaction, its value going out
      or coming in, or a log. */
  ghost predicate Evidenced(tx: Tx, r: Receipt, sender: Address, owner: Address, c: Chain, m: Movement) {
    && 0 < m.raw
    && match m.evidence
       case GasUsed =>
         m.kind.Fee? && owner == sender && IsCoin(c, m.asset) && m.raw == r.gasUsed * r.gasPrice
           && m.counterparty == 0
       case TransactionValue =>
         && r.success && IsCoin(c, m.asset) && m.raw == tx.value
         && ((m.kind.Send? && owner == sender
              && m.counterparty == (if tx.to.Some? then tx.to.value else r.contractAddress))
             || (m.kind.Receive? && tx.to == Some(owner) && m.counterparty == sender))
       case LogEntry(_) =>
         r.success && exists i :: 0 <= i < |r.logs| && r.logs[i].Some? && LogSays(r.logs[i].value, owner, c, m)
  }

  lemma LogMovesSay(l: Log, owner: Address, c: Chain, m: Movement)
    ensures m in LogMoves(l, owner, c) <==> 0 < m.raw && LogSays(l, owner, c, m)
  {
  }

  lemma {:induction false} AllLogMovesSay(logs: seq<Option<Log>>, owner: Address, c: Chain, m: Movement)
    ensures m in AllLogMoves(logs, owner, c) <==>
      0 < m.raw && exists i :: 0 <= i < |logs| && logs[i].Some? && LogSays(logs[i].value, owner, c, m)
  {
    if logs != [] {
      var init, last := logs[..|logs| - 1], logs[|logs| - 1];
      AllLogMovesSay(init, owner, c, m);
      if last.Some? {
        LogMovesSay(last.value, owner, c, m);
      }
      assert forall i :: 0 <= i < |init| ==> init[i] == logs[i];
    }
  }

  /** A log that is missing or removed, or that is not of this receipt. */
  predicate Foreign(l: Option<Log>, r: Receipt) {
    || l.None? || l.value.removed || l.value.txHash != r.txHash || l.value.blockHash != r.blockHash
    || l.value.blockNumber != r.blockNumber
  }

  /** A receipt is refused exactly if it succeeded and has a foreign log, or two logs of one index. */
  lemma RefusesExactly(tx: Tx, r: Receipt, sender: Address, owner: Address, c: Chain)
    ensures Movements(tx, r, sender, owner, c).None? <==>
      r.success
      && ((exists i :: 0 <= i < |r.logs| && Foreign(r.logs[i], r))
          || exists i, j :: 0 <= i < j < |r.logs| && r.logs[i].Some? && r.logs[j].Some?
                            && r.logs[i].value.index == r.logs[j].value.index)
  {
    forall i | 0 <= i < |r.logs|
      ensures Foreign(r.logs[i], r) <==> !Belongs(r.logs[i], r)
    {
    }
  }

  /** A movement is in the owner's ledger exactly if it has its evidence. */
  lemma MovementsAreEvidenced(tx: Tx, r: Receipt, sender: Address, owner: Address, c: Chain, m: Movement)
    requires Movements(tx, r, sender, owner, c).Some?
    ensures m in Movements(tx, r, sender, owner, c).value <==> Evidenced(tx, r, sender, owner, c, m)
  {
    AllLogMovesSay(r.logs, owner, c, m);
    if r.success {
      var fee, value, logs := FeeMoves(r, sender, owner, c), ValueMoves(tx, r, sender, owner, c),
        AllLogMoves(r.logs, owner, c);
      assert m in fee + value + logs <==> m in fee || m in value || m in logs;
    }
  }

  lemma {:induction false} LogsHaveNoFee(logs: seq<Option<Log>>, owner: Address, c: Chain, asset: Asset)
    ensures Amount(AllLogMoves(logs, owner, c), Fee, asset) == 0
  {
    forall m <- AllLogMoves(logs, owner, c)
      ensures !m.kind.Fee?
    {
      AllLogMovesSay(logs, owner, c, m);
    }
    NoKindNoAmount(AllLogMoves(logs, owner, c), Fee, asset);
  }

  lemma {:induction false} NoKindNoAmount(moves: seq<Movement>, kind: Kind, asset: Asset)
    requires forall m <- moves :: m.kind != kind
    ensures Amount(moves, kind, asset) == 0
  {
    if moves != [] {
      NoKindNoAmount(moves[..|moves| - 1], kind, asset);
    }
  }

  /** The fee that is shown is the gas fee of the owner's own transaction, whether it succeeded or not, and nothing
      else. */
  lemma FeeShown(tx: Tx, r: Receipt, sender: Address, owner: Address, c: Chain, asset: Asset)
    requires Movements(tx, r, sender, owner, c).Some?
    ensures Amount(Movements(tx, r, sender, owner, c).value, Fee, asset)
      == if owner == sender && asset == Native(c) then r.gasUsed * r.gasPrice else 0
  {
    var fee, value, logs := FeeMoves(r, sender, owner, c), ValueMoves(tx, r, sender, owner, c),
      AllLogMoves(r.logs, owner, c);
    FeeAmount(r, sender, owner, c, asset);
    ValueHasNoFee(tx, r, sender, owner, c, asset);
    LogsHaveNoFee(r.logs, owner, c, asset);
    AmountOfThree(fee, value, logs, Fee, asset);
  }

  lemma AmountOfThree(a: seq<Movement>, b: seq<Movement>, c: seq<Movement>, kind: Kind, asset: Asset)
    ensures Amount(a + b + c, kind, asset) == Amount(a, kind, asset) + Amount(b, kind, asset) + Amount(c, kind, asset)
  {
    AmountConcat(a, b, kind, asset);
    AmountConcat(a + b, c, kind, asset);
  }

  lemma ValueHasNoFee(tx: Tx, r: Receipt, sender: Address, owner: Address, c: Chain, asset: Asset)
    ensures Amount(ValueMoves(tx, r, sender, owner, c), Fee, asset) == 0
  {
    NoKindNoAmount(ValueMoves(tx, r, sender, owner, c), Fee, asset);
  }

  lemma FeeAmount(r: Receipt, sender: Address, owner: Address, c: Chain, asset: Asset)
    ensures Amount(FeeMoves(r, sender, owner, c), Fee, asset)
      == if owner == sender && asset == Native(c) then r.gasUsed * r.gasPrice else 0
  {
    if sender == owner && 0 < r.gasUsed * r.gasPrice {
      var m := Movement(Fee, Native(c), r.gasUsed * r.gasPrice, 0, GasUsed);
      assert [m][..0] == [];
    }
  }
}

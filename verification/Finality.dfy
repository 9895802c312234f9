/**
 Reading finality across reorganisations: the order in which Transaction asks its node for the
 receipt, the canonical header, the head, the finalized head, and the canonical header again.
 */
module Finality {
  import opened Common
  import opened ChainModel

  datatype Receipt = Receipt(number: nat, blockHash: Hash, success: bool)

  /** The receipt a node gives out: the place of the transaction in its canonical chain. */
  function ReceiptFrom(blocks: seq<Block>, hash: Hash, n: nat): Option<Receipt>
    requires n <= |blocks|
    decreases |blocks| - n
  {
    if n == |blocks| then None
    else
      var tx := FindTx(blocks[n].txs, hash);
      if tx.Some? then Some(Receipt(n, blocks[n].hash, tx.value.success))
      else ReceiptFrom(blocks, hash, n + 1)
  }

  function FindTx(txs: seq<Execution>, hash: Hash): Option<Execution> {
    if txs == [] then None
    else if txs[0].hash == hash then Some(txs[0])
    else FindTx(txs[1..], hash)
  }

  function HeaderAt(c: Chain, number: nat): Option<Hash> {
    if number < |c.blocks| then Some(c.blocks[number].hash) else None
  }

  /** When each read happens, and which of them fail. A failed read is none. */
  datatype Reads = Reads(
    receipt: Option<nat>, canonical: Option<nat>, head: Option<nat>,
    finalHead: Option<nat>, recheck: Option<nat>, feeKnown: bool)

  /** What the transaction lookup says when there is no receipt. */
  datatype Lookup = Unknown | LookupFailed | InPool | NoReceiptYet

  datatype TxState = Pending | ReceiptUnavailable | ReorgDetected | Succeeded | Reverted

  datatype Answer =
    | NotFound
    | Unavailable
    | Report(state: TxState, finalized: bool, block: nat, blockHash: Hash, confirmations: nat)

  ghost predicate InRun(read: Option<nat>, run: seq<Chain>) {
    read.Some? ==> read.value < |run|
  }

  ghost predicate Within(at: Reads, run: seq<Chain>) {
    && InRun(at.receipt, run) && InRun(at.canonical, run) && InRun(at.head, run)
    && InRun(at.finalHead, run) && InRun(at.recheck, run)
  }

  predicate Before(a: Option<nat>, b: Option<nat>) {
    a.Some? && b.Some? ==> a.value <= b.value
  }

  /** The reads follow one another. */
  ghost predicate InOrder(at: Reads) {
    && Before(at.receipt, at.canonical) && Before(at.canonical, at.head)
    && Before(at.head, at.finalHead) && Before(at.finalHead, at.recheck)
    && Before(at.canonical, at.recheck) && Before(at.receipt, at.finalHead)
    && Before(at.receipt, at.recheck)
  }

  function Transaction(run: seq<Chain>, hash: Hash, at: Reads, lookup: Lookup): Answer
    requires Within(at, run)
    requires forall c <- run :: |c.blocks| > 0
  {
    if at.receipt.None? then Unavailable
    else
      var receipt := ReceiptFrom(run[at.receipt.value].blocks, hash, 0);
      if receipt.None? then
        (match lookup
         case Unknown => NotFound
         case LookupFailed => Unavailable
         case InPool => Report(Pending, false, 0, "", 0)
         case NoReceiptYet => Report(ReceiptUnavailable, false, 0, "", 0))
      else Confirm(run, receipt.value, at)
  }

  function Confirm(run: seq<Chain>, r: Receipt, at: Reads): Answer
    requires Within(at, run)
    requires forall c <- run :: |c.blocks| > 0
  {
    var canonical := if at.canonical.None? then None else HeaderAt(run[at.canonical.value], r.number);
    if canonical.None? then Unavailable
    else if canonical.value != r.blockHash then Report(ReorgDetected, false, 0, "", 0)
    else if at.head.None? then Unavailable
    else
      var head := |run[at.head.value].blocks| - 1;
      if head < r.number || !at.feeKnown then Unavailable
      else
        var finalized :=
          && at.finalHead.Some? && r.number <= run[at.finalHead.value].final
          && at.recheck.Some? && HeaderAt(run[at.recheck.value], r.number) == Some(r.blockHash);
        Report(if r.success then Succeeded else Reverted, finalized, r.number, r.blockHash, head - r.number + 1)
  }

  // ---- Receipts ------------------------------------------------------------------------------------

  lemma {:induction false} FindTxFinds(txs: seq<Execution>, hash: Hash)
    ensures var found := FindTx(txs, hash);
      if found.Some? then found.value in txs && found.value.hash == hash else forall tx <- txs :: tx.hash != hash
  {
    if txs != [] {
      FindTxFinds(txs[1..], hash);
      assert txs == [txs[0]] + txs[1..];
    }
  }

  lemma {:induction false} ReceiptFinds(blocks: seq<Block>, hash: Hash, n: nat)
    requires n <= |blocks|
    ensures var r := ReceiptFrom(blocks, hash, n);
      if r.Some? then
        && n <= r.value.number < |blocks| && r.value.blockHash == blocks[r.value.number].hash
        && exists tx <- blocks[r.value.number].txs :: tx.hash == hash && tx.success == r.value.success
      else forall m | n <= m < |blocks| :: forall tx <- blocks[m].txs :: tx.hash != hash
    decreases |blocks| - n
  {
    if n < |blocks| {
      FindTxFinds(blocks[n].txs, hash);
      if FindTx(blocks[n].txs, hash).Some? {
        var tx := FindTx(blocks[n].txs, hash).value;
        assert tx in blocks[n].txs && tx.hash == hash;
      } else {
        ReceiptFinds(blocks, hash, n + 1);
      }
    }
  }

  // ---- Every answer ----------------------------------------------------------------------------------

  /** The chain executes this transaction at height n. */
  ghost predicate ExecutedAt(c: Chain, tx: Execution, n: nat) {
    n < |c.blocks| && tx in c.blocks[n].txs
  }

  lemma ReceiptOf(c: Chain, tx: Execution, n: nat)
    requires WellFormed(c) && ExecutedAt(c, tx, n)
    ensures ReceiptFrom(c.blocks, tx.hash, 0) == Some(Receipt(n, c.blocks[n].hash, tx.success))
  {
    ReceiptFinds(c.blocks, tx.hash, 0);
    var r := ReceiptFrom(c.blocks, tx.hash, 0).value;
    var other :| other in c.blocks[r.number].txs && other.hash == tx.hash && other.success == r.success;
  }

  /** A second look at the canonical chain, after a finalized head at or above the block, still finds the block. */
  ghost predicate StaysCanonical(run: seq<Chain>, n: nat, hash: Hash, at: Reads)
    requires Within(at, run)
  {
    && at.finalHead.Some? && n <= run[at.finalHead.value].final
    && at.recheck.Some? && n < |run[at.recheck.value].blocks| && run[at.recheck.value].blocks[n].hash == hash
  }

  /** The chain that gives the receipt has executed this transaction at height n. */
  ghost predicate Found(run: seq<Chain>, hash: Hash, at: Reads, tx: Execution, n: nat)
    requires Within(at, run)
  {
    at.receipt.Some? && ExecutedAt(run[at.receipt.value], tx, n) && tx.hash == hash
  }

  ghost predicate NotFoundAnywhere(run: seq<Chain>, hash: Hash, at: Reads)
    requires Within(at, run)
  {
    forall tx: Execution, n: nat :: !Found(run, hash, at, tx, n)
  }

  /** The whole answer about an execution, by what the chain held at each read. */
  ghost function AnswerOf(run: seq<Chain>, tx: Execution, n: nat, at: Reads): Answer
    requires Within(at, run) && at.receipt.Some? && ExecutedAt(run[at.receipt.value], tx, n)
  {
    var hash := run[at.receipt.value].blocks[n].hash;
    if at.canonical.None? || |run[at.canonical.value].blocks| <= n then Unavailable
    else if run[at.canonical.value].blocks[n].hash != hash then Report(ReorgDetected, false, 0, "", 0)
    else if at.head.None? || |run[at.head.value].blocks| <= n || !at.feeKnown then Unavailable
    else Report(if tx.success then Succeeded else Reverted, StaysCanonical(run, n, hash, at), n, hash,
                |run[at.head.value].blocks| - n)
  }

  lemma AnswerToExecuted(run: seq<Chain>, hash: Hash, at: Reads, lookup: Lookup, tx: Execution, n: nat)
    requires IsHistory(run) && Within(at, run) && forall c <- run :: |c.blocks| > 0
    requires Found(run, hash, at, tx, n)
    ensures Transaction(run, hash, at, lookup) == AnswerOf(run, tx, n, at)
  {
    assert run[at.receipt.value] in run;
    ReceiptOf(run[at.receipt.value], tx, n);
  }

  /** The whole answer about a transaction without an execution. */
  lemma AnswerToUnexecuted(run: seq<Chain>, hash: Hash, at: Reads, lookup: Lookup)
    requires Within(at, run) && (forall c <- run :: |c.blocks| > 0) && NotFoundAnywhere(run, hash, at)
    ensures Transaction(run, hash, at, lookup) ==
      if at.receipt.None? || lookup.LookupFailed? then Unavailable
      else if lookup.Unknown? then NotFound
      else Report(if lookup.InPool? then Pending else ReceiptUnavailable, false, 0, "", 0)
  {
    if at.receipt.Some? && ReceiptFrom(run[at.receipt.value].blocks, hash, 0).Some? {
      ReceiptMeansFound(run, hash, at);
    }
  }

  lemma ReceiptMeansFound(run: seq<Chain>, hash: Hash, at: Reads)
    requires Within(at, run) && at.receipt.Some? && ReceiptFrom(run[at.receipt.value].blocks, hash, 0).Some?
    ensures !NotFoundAnywhere(run, hash, at)
  {
    var c := run[at.receipt.value];
    ReceiptFinds(c.blocks, hash, 0);
    var r := ReceiptFrom(c.blocks, hash, 0).value;
    var tx :| tx in c.blocks[r.number].txs && tx.hash == hash;
    assert Found(run, hash, at, tx, r.number);
  }

  predicate Mined(a: Answer) {
    a.Report? && (a.state == Succeeded || a.state == Reverted)
  }

  /** A mined report, final or not, tells the result, the place and the depth of the execution that the chain of the
      receipt holds; the canonical chain held its block when it was asked. */
  lemma MinedReportIsTrue(run: seq<Chain>, hash: Hash, at: Reads, lookup: Lookup) returns (tx: Execution)
    requires IsHistory(run) && Within(at, run) && forall c <- run :: |c.blocks| > 0
    requires Mined(Transaction(run, hash, at, lookup))
    ensures var a := Transaction(run, hash, at, lookup);
      && Found(run, hash, at, tx, a.block) && (a.state == Succeeded <==> tx.success)
      && run[at.receipt.value].blocks[a.block].hash == a.blockHash
      && at.canonical.Some? && HeaderAt(run[at.canonical.value], a.block) == Some(a.blockHash)
      && at.head.Some? && a.confirmations == |run[at.head.value].blocks| - 1 - a.block + 1
      && (a.finalized <==> StaysCanonical(run, a.block, a.blockHash, at))
  {
    if NotFoundAnywhere(run, hash, at) {
      AnswerToUnexecuted(run, hash, at, lookup);
    } else {
      var x: Execution, n: nat :| Found(run, hash, at, x, n);
      AnswerToExecuted(run, hash, at, lookup, x, n);
      tx := x;
    }
  }

  /** The canonical chain has another block in the place of the execution. */
  ghost predicate Displaced(run: seq<Chain>, at: Reads, n: nat)
    requires Within(at, run) && at.receipt.Some? && n < |run[at.receipt.value].blocks|
  {
    && at.canonical.Some? && n < |run[at.canonical.value].blocks|
    && run[at.canonical.value].blocks[n].hash != run[at.receipt.value].blocks[n].hash
  }

  /** When each of the answers is given. */
  lemma AnswersExactly(run: seq<Chain>, hash: Hash, at: Reads, lookup: Lookup)
    requires IsHistory(run) && Within(at, run) && forall c <- run :: |c.blocks| > 0
    ensures var a, none := Transaction(run, hash, at, lookup), NotFoundAnywhere(run, hash, at);
      && (a.Report? && a.state == ReorgDetected
          <==> exists tx: Execution, n: nat :: Found(run, hash, at, tx, n) && Displaced(run, at, n))
      && (Mined(a) <==> exists tx: Execution, n: nat :: Found(run, hash, at, tx, n) && AnswerOf(run, tx, n, at).Report?
                          && !Displaced(run, at, n))
      && (a.Report? && a.state == Pending <==> at.receipt.Some? && none && lookup.InPool?)
      && (a.Report? && a.state == ReceiptUnavailable <==> at.receipt.Some? && none && lookup.NoReceiptYet?)
      && (a == NotFound <==> at.receipt.Some? && none && lookup.Unknown?)
      && (a == Unavailable
          <==> at.receipt.None? || (none && lookup.LookupFailed?)
               || exists tx: Execution, n: nat :: Found(run, hash, at, tx, n) && AnswerOf(run, tx, n, at).Unavailable?)
      && (a.Report? && !Mined(a) ==> !a.finalized)
  {
    if NotFoundAnywhere(run, hash, at) {
      AnswerToUnexecuted(run, hash, at, lookup);
    } else {
      var tx: Execution, n: nat :| Found(run, hash, at, tx, n);
      forall x: Execution, m: nat | Found(run, hash, at, x, m)
        ensures Transaction(run, hash, at, lookup) == AnswerOf(run, x, m, at)
      {
        AnswerToExecuted(run, hash, at, lookup, x, m);
      }
    }
  }

  // ---- Soundness -----------------------------------------------------------------------------------

  /** The transaction stands in block `n` of every state of the chain from `from` on. */
  ghost predicate ForeverIn(run: seq<Chain>, hash: Hash, n: nat, success: bool, from: nat) {
    forall j | from <= j < |run| ::
      && n < |run[j].blocks| && n <= run[j].final
      && exists tx <- run[j].blocks[n].txs :: tx.hash == hash && tx.success == success
  }

  /** A transaction that is reported finalized executed, with the reported result, in a block that
      is canonical from the moment the finalized head was read and stays so forever. */
  lemma FinalizedIsPermanent(run: seq<Chain>, hash: Hash, at: Reads, lookup: Lookup)
    requires IsHistory(run) && Within(at, run) && InOrder(at)
    requires forall c <- run :: |c.blocks| > 0
    ensures var a := Transaction(run, hash, at, lookup);
      a.Report? && a.finalized ==>
        && (a.state == Succeeded || a.state == Reverted)
        && ForeverIn(run, hash, a.block, a.state == Succeeded, at.finalHead.value)
  {
    var a := Transaction(run, hash, at, lookup);
    if a.Report? && a.finalized {
      var t0, t3, t4 := at.receipt.value, at.finalHead.value, at.recheck.value;
      ReceiptFinds(run[t0].blocks, hash, 0);
      var r := ReceiptFrom(run[t0].blocks, hash, 0).value;
      FinalityLasts(run, t3, t4);
      assert run[t4].blocks[r.number] == run[t0].blocks[r.number];
      forall j | t3 <= j < |run|
        ensures r.number < |run[j].blocks| && r.number <= run[j].final
          && run[j].blocks[r.number] == run[t0].blocks[r.number]
      {
        FinalityLasts(run, t3, j);
      }
    }
  }

  /** Who looks it up later gets its receipt. */
  lemma ForeverHasReceipt(run: seq<Chain>, hash: Hash, n: nat, success: bool, from: nat, j: nat)
    requires IsHistory(run) && ForeverIn(run, hash, n, success, from) && from <= j < |run|
    ensures var receipt := ReceiptFrom(run[j].blocks, hash, 0);
      receipt.Some? && receipt.value.number == n <= run[j].final && receipt.value.success == success
  {
    ReceiptFinds(run[j].blocks, hash, 0);
    var tx :| tx in run[j].blocks[n].txs && tx.hash == hash && tx.success == success;
  }

  /** Conversely a transaction that was already final when the reads began is reported finalized,
      at its height and with its result, unless a read fails. */
  lemma FinalIsReported(run: seq<Chain>, tx: Execution, n: nat, at: Reads, lookup: Lookup)
    requires IsHistory(run) && Within(at, run) && InOrder(at)
    requires forall c <- run :: |c.blocks| > 0
    requires at.receipt.Some? && at.canonical.Some? && at.head.Some? && at.feeKnown
    requires at.finalHead.Some? && at.recheck.Some?
    requires n <= run[at.receipt.value].final && tx in run[at.receipt.value].blocks[n].txs
    ensures var a := Transaction(run, tx.hash, at, lookup);
      a.Report? && a.finalized && a.block == n && a.state == (if tx.success then Succeeded else Reverted)
  {
    var t0 := at.receipt.value;
    assert run[t0] in run;
    ReceiptFinds(run[t0].blocks, tx.hash, 0);
    var r := ReceiptFrom(run[t0].blocks, tx.hash, 0);
    assert r.Some?;
    assert r.value.number == n && r.value.success == tx.success;
    FinalityLasts(run, t0, at.canonical.value);
    FinalityLasts(run, t0, at.head.value);
    FinalityLasts(run, t0, at.finalHead.value);
    FinalityLasts(run, t0, at.recheck.value);
  }

  // ---- Rivals --------------------------------------------------------------------------------------

  /** Every execution of this hash, wherever the run shows one, is by this sender at this nonce. */
  ghost predicate Spends(run: seq<Chain>, hash: Hash, sender: Address, nonce: nat) {
    forall i, n | 0 <= i < |run| && 0 <= n < |run[i].blocks| :: forall tx <- run[i].blocks[n].txs ::
      tx.hash == hash ==> tx.sender == sender && tx.nonce == nonce
  }

  ghost predicate SaysFinalized(run: seq<Chain>, hash: Hash, at: Reads, lookup: Lookup)
    requires Within(at, run)
    requires forall c <- run :: |c.blocks| > 0
  {
    var a := Transaction(run, hash, at, lookup);
    a.Report? && a.finalized
  }

  /** Once a transaction is reported finalized, no rival at its nonce is ever on the chain again: a
      rival that compaction files as replaced can never execute. */
  lemma RivalNeverExecutes(run: seq<Chain>, hash: Hash, rival: Hash, sender: Address, nonce: nat,
                           at: Reads, lookup: Lookup, j: nat)
    requires IsHistory(run) && Within(at, run) && InOrder(at)
    requires forall c <- run :: |c.blocks| > 0
    requires Spends(run, hash, sender, nonce) && Spends(run, rival, sender, nonce) && hash != rival
    requires SaysFinalized(run, hash, at, lookup)
    requires at.finalHead.value <= j < |run|
    ensures ReceiptFrom(run[j].blocks, rival, 0).None?
  {
    FinalizedIsPermanent(run, hash, at, lookup);
    var n := Transaction(run, hash, at, lookup).block;
    ReceiptFinds(run[j].blocks, rival, 0);
    var tx :| tx in run[j].blocks[n].txs && tx.hash == hash;
  }

  /** The transaction that the finalized prefix of the last state holds at a nonce of the sender. */
  ghost predicate FinalAt(run: seq<Chain>, sender: Address, nonce: nat, hash: Hash) {
    run != [] && FinalIn(run[|run| - 1], sender, nonce, hash)
  }

  ghost predicate FinalIn(c: Chain, sender: Address, nonce: nat, hash: Hash) {
    exists n | 0 <= n < |c.blocks| :: n <= c.final && SpendsIn(c.blocks[n], sender, nonce, hash)
  }

  ghost predicate SpendsIn(block: Block, sender: Address, nonce: nat, hash: Hash) {
    exists tx <- block.txs :: tx.sender == sender && tx.nonce == nonce && tx.hash == hash
  }

  /** There is one winner per nonce: whatever is reported finalized, at any time of the run, is the
      transaction that the finalized chain holds at that nonce, and that transaction is unique. */
  lemma OneWinner(run: seq<Chain>, hash: Hash, sender: Address, nonce: nat, at: Reads, lookup: Lookup)
    requires IsHistory(run) && Within(at, run) && InOrder(at)
    requires forall c <- run :: |c.blocks| > 0
    requires Spends(run, hash, sender, nonce) && SaysFinalized(run, hash, at, lookup)
    ensures FinalAt(run, sender, nonce, hash)
    ensures forall other :: FinalAt(run, sender, nonce, other) ==> other == hash
  {
    FinalizedIsPermanent(run, hash, at, lookup);
    var n := Transaction(run, hash, at, lookup).block;
    var last := |run| - 1;
    assert SpendsIn(run[last].blocks[n], sender, nonce, hash);
    forall other | FinalAt(run, sender, nonce, other) ensures other == hash {
      SpentOnce(run[last], sender, nonce, hash, other, n);
    }
  }

  lemma SpentOnce(c: Chain, sender: Address, nonce: nat, hash: Hash, other: Hash, n: nat)
    requires WellFormed(c) && n < |c.blocks| && SpendsIn(c.blocks[n], sender, nonce, hash)
    requires exists m | 0 <= m < |c.blocks| :: SpendsIn(c.blocks[m], sender, nonce, other)
    ensures hash == other
  {
    var m :| 0 <= m < |c.blocks| && SpendsIn(c.blocks[m], sender, nonce, other);
    var tx :| tx in c.blocks[n].txs && tx.sender == sender && tx.nonce == nonce && tx.hash == hash;
    var tx' :| tx' in c.blocks[m].txs && tx'.sender == sender && tx'.nonce == nonce && tx'.hash == other;
  }

  /** The winners of a wallet, as the journal's machine takes them: a map that gives, for every nonce
      with a finalized transaction of the sender, that transaction. */
  ghost predicate AreWinners(winners: map<nat, Hash>, run: seq<Chain>, sender: Address) {
    forall nonce: nat, hash :: FinalAt(run, sender, nonce, hash) ==> nonce in winners && winners[nonce] == hash
  }

  /** So every finalized report agrees with the winners, which is all the journal assumes of it. */
  lemma ReportsAgreeWithWinners(run: seq<Chain>, winners: map<nat, Hash>, hash: Hash, sender: Address, nonce: nat,
                                at: Reads, lookup: Lookup)
    requires IsHistory(run) && Within(at, run) && InOrder(at)
    requires forall c <- run :: |c.blocks| > 0
    requires AreWinners(winners, run, sender)
    requires Spends(run, hash, sender, nonce) && SaysFinalized(run, hash, at, lookup)
    ensures nonce in winners && winners[nonce] == hash
  {
    OneWinner(run, hash, sender, nonce, at, lookup);
  }

  // ---- Why the second look is there ------------------------------------------------------------------

  /** The same decision without the second look at the canonical header. */
  predicate WithoutRecheck(run: seq<Chain>, hash: Hash, canonicalAt: nat, finalAt: nat)
    requires canonicalAt < |run| && finalAt < |run|
  {
    var r := ReceiptFrom(run[canonicalAt].blocks, hash, 0);
    && r.Some? && HeaderAt(run[canonicalAt], r.value.number) == Some(r.value.blockHash)
    && r.value.number <= run[finalAt].final
  }

  /** It would be wrong, for every transaction: here its block is replaced between the header and the finalized head,
      and the transaction is gone from a chain that is final up to its old height. */
  lemma RecheckIsNeeded(tx: Execution) returns (run: seq<Chain>)
    ensures IsHistory(run) && |run| == 2
    ensures WithoutRecheck(run, tx.hash, 0, 1)
    ensures run[1].final == 1 && ReceiptFrom(run[1].blocks, tx.hash, 0).None?
  {
    var genesis := Block("genesis", []);
    var first := Chain([genesis, Block("orphan", [tx])], 0);
    var second := Chain([genesis, Block("canonical", [])], 1);
    run := [first, second];
    assert FindTx([], tx.hash).None?;
    assert ReceiptFrom(first.blocks, tx.hash, 1) == Some(Receipt(1, "orphan", tx.success));
    assert ReceiptFrom(first.blocks, tx.hash, 0) == Some(Receipt(1, "orphan", tx.success));
    assert ReceiptFrom(second.blocks, tx.hash, 2).None?;
    assert ReceiptFrom(second.blocks, tx.hash, 1).None?;
  }
}

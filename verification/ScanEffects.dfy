/**
 What one call of the scanner does, in terms of the files and the answers, and how far a run of passes gets.
 */
module ScanEffects {
  import opened Common
  import opened ScanModel
  import opened ScanSafety
  import ChainModel
  import Ledger

  // ---- Accepting a block --------------------------------------------------------------------------------

  predicate LogFits(l: Option<Log>, hash: Hash, blockHash: Hash, number: nat) {
    l.Some? && !l.value.removed && l.value.blockHash == blockHash && l.value.txHash == hash
      && l.value.blockNumber == number
  }

  /** A receipt that names this transaction, block and height, and whose logs do if it succeeded. */
  predicate ReceiptFits(r: Option<Receipt>, hash: Hash, blockHash: Hash, number: nat) {
    && r.Some? && r.value.txHash == hash && r.value.blockHash == blockHash && r.value.blockNumber == number
    && (r.value.success ==> forall k :: 0 <= k < |r.value.logs| ==> LogFits(r.value.logs[k], hash, blockHash, number))
  }

  /** The answers about a block agree with one another and with the heights. */
  predicate Agreeing(o: BlockReads, number: nat) {
    && o.final.Some? && number <= o.final.value
    && o.block.Some? && o.block.value.hash != "" && o.header == Some(o.block.value.hash)
    && o.receipts.Some? && |o.receipts.value| == |o.block.value.txs|
    && forall i :: 0 <= i < |o.block.value.txs| ==>
         ReceiptFits(o.receipts.value[i], o.block.value.txs[i].hash, o.block.value.hash, number)
  }

  lemma FitsIsBelongs(r: Option<Receipt>, tx: Tx, blockHash: Hash, number: nat)
    ensures ReceiptFits(r, tx.hash, blockHash, number) <==> ReceiptBelongs(r, tx, blockHash, number)
  {
    if r.Some? {
      forall k | 0 <= k < |r.value.logs|
        ensures LogFits(r.value.logs[k], tx.hash, blockHash, number)
          <==> LogBelongs(r.value.logs[k], tx, blockHash, number)
      {
      }
    }
  }

  /** A block is accepted exactly if the answers about it agree. */
  lemma AcceptsExactly(o: BlockReads, number: nat, owner: Address)
    ensures ScanBlock(o, number, owner).Some? <==> Agreeing(o, number)
  {
    if o.block.Some? && o.receipts.Some? && |o.receipts.value| == |o.block.value.txs| {
      forall i | 0 <= i < |o.block.value.txs|
        ensures ReceiptFits(o.receipts.value[i], o.block.value.txs[i].hash, o.block.value.hash, number)
          <==> ReceiptBelongs(o.receipts.value[i], o.block.value.txs[i], o.block.value.hash, number)
      {
        FitsIsBelongs(o.receipts.value[i], o.block.value.txs[i], o.block.value.hash, number);
      }
    }
  }

  // ---- One pass ----------------------------------------------------------------------------------------------

  /** Where the pass stands: at the cursor, or, if that was never set, nineteen blocks below the finalized head. */
  function Stand(p: Progress, final: nat): nat {
    if p.next != 0 then p.next else if final > 19 then final - 19 else final
  }

  predicate CanRead(p: Progress) {
    |p.tokens| <= 200 && forall t <- p.tokens :: t != 0
  }

  /** The pass runs, and there is a block to scan. */
  predicate HasBlock(f: Files, o: PassInput) {
    var p := ProgressOf(f);
    CanRead(p) && p.enabled && o.owner.Some? && o.final.Some? && Stand(p, o.final.value) <= o.final.value
  }

  predicate Accepts(f: Files, o: PassInput)
    requires HasBlock(f, o)
  {
    Agreeing(o.block, Stand(ProgressOf(f), o.final.value))
  }

  /** What the block holds for the owner. */
  function Finds(f: Files, o: PassInput): Scanned
    requires HasBlock(f, o) && Accepts(f, o)
  {
    AcceptsExactly(o.block, Stand(ProgressOf(f), o.final.value), o.owner.value);
    ScanBlock(o.block, Stand(ProgressOf(f), o.final.value), o.owner.value).value
  }

  /** Its hashes come to stand in the index: it can be read, and written if there is anything new. */
  predicate Indexes(f: Files, o: PassInput)
    requires HasBlock(f, o) && Accepts(f, o)
  {
    o.readable && (o.indexWrite.Done? || forall h <- Finds(f, o).hashes :: h in f.index)
  }

  predicate Advances(f: Files, o: PassInput) {
    HasBlock(f, o) && Accepts(f, o) && Indexes(f, o) && 0 !in Finds(f, o).tokens && !o.progressWrite.FailedOld?
  }

  lemma AddNewSame(items: seq<Hash>, item: Hash)
    ensures AddNew(items, item) == items <==> item in items
  {
  }

  lemma {:induction false} MergedSame(index: seq<Hash>, ids: seq<Hash>)
    ensures Merged(index, ids) == index <==> forall h <- ids :: h in index
  {
    if ids != [] {
      var init, last := ids[..|ids| - 1], ids[|ids| - 1];
      assert ids == init + [last];
      MergedSame(index, init);
      MergedHolds(index, init, last);
      AddNewSame(Merged(index, init), last);
      if Merged(index, init) != index {
        assert |Merged(index, init)| > |index|;
      }
    }
  }

  /** The cursor moves, by one, exactly if the block is accepted, its hashes are indexed, no token is the zero address
      and the progress reaches the file. The saved progress then says so. */
  lemma AdvancesExactly(f: Files, o: PassInput)
    requires HasBlock(f, o)
    ensures var p, p' := ProgressOf(f), ProgressOf(Pass(f, o).0);
      && (Advances(f, o) <==> p'.next == Stand(p, o.final.value) + 1)
      && (Advances(f, o) ==>
            && p'.start == (if p.next == 0 then Stand(p, o.final.value) else p.start)
            && p'.finalized == o.final.value && p'.enabled && !p'.failed && p.tokens <= p'.tokens
            && Pass(f, o).0.progress == Some(p')
            && (forall h <- Finds(f, o).hashes :: h in Pass(f, o).0.index))
      && (!Advances(f, o) ==> p' == p || p'.next == Stand(p, o.final.value))
  {
    if Accepts(f, o) {
      AcceptsExactly(o.block, Stand(ProgressOf(f), o.final.value), o.owner.value);
      var found := Finds(f, o);
      MergedSame(f.index, found.hashes);
      AddHashesGrows(f, found.hashes, o.readable, o.indexWrite);
      AddTokensHolds(ProgressOf(f).tokens, found.tokens, 0);
    } else {
      AcceptsExactly(o.block, Stand(ProgressOf(f), o.final.value), o.owner.value);
    }
  }

  /** A pass that has a block to scan answers ok exactly if it advances and the write of its progress is done. */
  lemma OkExactly(f: Files, o: PassInput)
    requires HasBlock(f, o)
    ensures Pass(f, o).1 <==> Advances(f, o) && o.progressWrite.Done?
  {
    AcceptsExactly(o.block, Stand(ProgressOf(f), o.final.value), o.owner.value);
    if Accepts(f, o) {
      MergedSame(f.index, Finds(f, o).hashes);
    }
  }

  /** A pass without a block: it is off or cannot begin, or the cursor is above the finalized head. */
  lemma IdlePass(f: Files, o: PassInput)
    requires !HasBlock(f, o)
    ensures Pass(f, o).0.index == f.index && ProgressOf(Pass(f, o).0).tokens == ProgressOf(f).tokens
    ensures ProgressOf(Pass(f, o).0).next == ProgressOf(f).next && ProgressOf(Pass(f, o).0).start == ProgressOf(f).start
    ensures CanRead(ProgressOf(f)) && !ProgressOf(f).enabled ==> Pass(f, o) == (f, true)
    ensures !CanRead(ProgressOf(f)) ==> Pass(f, o) == (f, false)
  {
  }

  // ---- Runs of passes ------------------------------------------------------------------------------------------

  ghost predicate AdvancesAt(w: World, step: Step) {
    step.PassStep? && Advances(w.files, step.input)
  }

  /** How many passes of a stretch advance. */
  ghost function Advanced(states: seq<World>, steps: seq<Step>, i: nat, j: nat): nat
    requires i <= j <= |steps| && j <= |states|
  {
    if i == j then 0
    else Advanced(states, steps, i, j - 1) + (if AdvancesAt(states[j - 1], steps[j - 1]) then 1 else 0)
  }

  lemma StepAdvances(g: Setting, w: World, step: Step)
    requires Enabled(g, w, step) && !Moves(w, step) && ProgressOf(w.files).next != 0
    ensures ProgressOf(Apply(w, step).files).next
      == ProgressOf(w.files).next + (if AdvancesAt(w, step) then 1 else 0)
  {
    if step.PassStep? {
      if HasBlock(w.files, step.input) {
        AdvancesExactly(w.files, step.input);
      } else {
        IdlePass(w.files, step.input);
      }
    } else if step.ImportStep? {
      AddHashesGrows(w.files, step.ids, step.readable, step.write);
    }
  }

  /** In every stretch of a run without a new start, a set cursor moves by as many blocks as passes advance: n of them
      bring it n further, and nothing else moves it. */
  lemma {:induction false} CursorCounts(g: Setting, states: seq<World>, steps: seq<Step>, i: nat, j: nat)
    requires Lawful(g) && IsRun(g, states, steps) && i <= j < |states|
    requires ProgressOf(states[i].files).next != 0 && forall k | i <= k < j :: !Moves(states[k], steps[k])
    ensures ProgressOf(states[j].files).next == ProgressOf(states[i].files).next + Advanced(states, steps, i, j)
    decreases j - i
  {
    if i < j {
      CursorCounts(g, states, steps, i, j - 1);
      StepAdvances(g, states[j - 1], steps[j - 1]);
    }
  }

  /** The step is a pass that is given a block and answers ok. */
  ghost predicate PassesOk(w: World, step: Step) {
    step.PassStep? && HasBlock(w.files, step.input) && Pass(w.files, step.input).1
  }

  lemma OkAdvances(w: World, step: Step)
    requires PassesOk(w, step)
    ensures !Moves(w, step) && AdvancesAt(w, step)
  {
    OkExactly(w.files, step.input);
  }

  lemma {:induction false} AllAdvance(states: seq<World>, steps: seq<Step>, i: nat, j: nat)
    requires i <= j <= |steps| && j <= |states|
    requires forall k | i <= k < j :: AdvancesAt(states[k], steps[k])
    ensures Advanced(states, steps, i, j) == j - i
    decreases j - i
  {
    if i < j {
      AllAdvance(states, steps, i, j - 1);
    }
  }

  /** So k passes in a row that are given a block and answer ok bring the cursor k further. */
  lemma OkPassesAdvance(g: Setting, states: seq<World>, steps: seq<Step>, i: nat, j: nat)
    requires Lawful(g) && IsRun(g, states, steps) && i <= j < |states| && ProgressOf(states[i].files).next != 0
    requires forall k | i <= k < j :: PassesOk(states[k], steps[k])
    ensures ProgressOf(states[j].files).next == ProgressOf(states[i].files).next + (j - i)
  {
    forall k | i <= k < j
      ensures !Moves(states[k], steps[k]) && AdvancesAt(states[k], steps[k])
    {
      OkAdvances(states[k], steps[k]);
    }
    AllAdvance(states, steps, i, j);
    CursorCounts(g, states, steps, i, j);
  }

  // ---- An honest node --------------------------------------------------------------------------------------------

  /** The answers of a node about a final block that it has in full. */
  ghost predicate Honest(g: Setting, o: BlockReads, number: nat, at: Times)
    requires Lawful(g)
  {
    && at.final <= at.header < |g.run| && o.final == Some(g.run[at.final].final) && number <= g.run[at.final].final
    && number < |g.run[at.header].blocks|
    && var hash := g.run[at.header].blocks[number].hash;
    && hash != "" && o.block == Some(Block(hash, g.body(hash).txs)) && o.header == Some(hash)
    && o.receipts.Some? && |o.receipts.value| == |g.body(hash).receipts|
    && (forall i | 0 <= i < |o.receipts.value| :: o.receipts.value[i] == Some(g.body(hash).receipts[i]))
    && (forall i | 0 <= i < |g.body(hash).txs| ::
          ReceiptFits(Some(g.body(hash).receipts[i]), g.body(hash).txs[i].hash, hash, number))
  }

  /** From such answers, with all writes done, a pass always advances. */
  lemma HonestBlockAdvances(g: Setting, f: Files, o: PassInput, at: Times)
    requires Lawful(g) && HasBlock(f, o) && Honest(g, o.block, Stand(ProgressOf(f), o.final.value), at)
    requires o.readable && o.indexWrite.Done? && o.progressWrite.Done?
    requires Accepts(f, o) ==> 0 !in Finds(f, o).tokens
    ensures Pass(f, o).1 && ProgressOf(Pass(f, o).0).next == Stand(ProgressOf(f), o.final.value) + 1
  {
    AdvancesExactly(f, o);
    OkExactly(f, o);
  }

  // ---- Configuring ----------------------------------------------------------------------------------------------

  /** Configuring sets the switch and, if asked, start and cursor, clears the error and touches nothing else. */
  lemma ConfiguresExactly(f: Files, enabled: bool, start: Option<nat>, w: Write)
    ensures var (f', ok) := Configure(f, enabled, start, w);
      var p, p' := ProgressOf(f), ProgressOf(f');
      && f'.index == f.index && (ok <==> CanRead(p) && w.Done?)
      && (if !CanRead(p) || w.FailedOld? then f' == f
          else
            && f'.progress == Some(p') && p'.enabled == enabled && !p'.failed
            && p'.tokens == p.tokens && p'.finalized == p.finalized
            && p'.start == (if start.Some? then start.value else p.start)
            && p'.next == (if start.Some? then start.value else p.next))
  {
  }

  // ---- What concerns the owner -----------------------------------------------------------------------------------

  predicate TransferOf(l: Option<Log>, owner: Address) {
    && l.Some? && l.value.event.Transfer? && |l.value.topics| == 2 && |l.value.data| == 32 && owner in l.value.topics
  }

  /** A transaction concerns the owner as its sender, as its recipient, or if it succeeded and one of its logs is a
      transfer from or to the owner. */
  lemma ConcernsExactly(tx: Tx, r: Receipt, owner: Address)
    ensures Concerns(tx, r, owner) <==>
      || tx.sender == owner || tx.to == Some(owner)
      || (r.success && exists k :: 0 <= k < |r.logs| && TransferOf(r.logs[k], owner))
  {
    forall k | 0 <= k < |r.logs|
      ensures Touches(r.logs[k], owner) <==> TransferOf(r.logs[k], owner)
    {
    }
  }

  /** The scan looks for no less than the ledger books: a transaction in which the owner sends, receives or pays for
      anything, but for wrapping at the hands of another, concerns the owner. */
  lemma LedgerIsCovered(tx: Tx, value: nat, r: Receipt, owner: Address, c: Ledger.Chain, m: Ledger.Movement)
    requires Ledger.Movements(Ledger.Tx(tx.to, value), r, tx.sender, owner, c).Some?
    requires m in Ledger.Movements(Ledger.Tx(tx.to, value), r, tx.sender, owner, c).value
    requires forall k :: 0 <= k < |r.logs| && r.logs[k].Some? ==>
      !(r.logs[k].value.event.Deposit? || r.logs[k].value.event.Withdrawal?)
    ensures Concerns(tx, r, owner)
  {
    Ledger.MovementsAreEvidenced(Ledger.Tx(tx.to, value), r, tx.sender, owner, c, m);
    if m.evidence.LogEntry? {
      var k :| 0 <= k < |r.logs| && r.logs[k].Some? && Ledger.LogSays(r.logs[k].value, owner, c, m);
      assert Touches(r.logs[k], owner);
    }
  }
}

/**
 The block scanner on values: what one block holds for the owner, and what a pass makes of the two files.
 */
module ScanModel {
  import opened Common
  import Ledger

  type Hash = string
  type Address = Ledger.Address
  type Log = Ledger.Log
  type Receipt = Ledger.Receipt

  datatype Tx = Tx(hash: Hash, sender: Address, to: Option<Address>)

  datatype Block = Block(hash: Hash, txs: seq<Tx>)

  const MAX_TOKENS: nat := 200
  const WINDOW: nat := 19

  // ---- One block -------------------------------------------------------------------------------------------

  /** The node's answers for one block, in order; a failed read is none. */
  datatype BlockReads = BlockReads(
    final: Option<nat>, block: Option<Block>, receipts: Option<seq<Option<Receipt>>>, header: Option<Hash>)

  datatype Scanned = Scanned(hashes: seq<Hash>, tokens: seq<Address>)

  predicate LogBelongs(l: Option<Log>, tx: Tx, blockHash: Hash, number: nat) {
    l.Some? && !l.value.removed && l.value.blockHash == blockHash && l.value.txHash == tx.hash
      && l.value.blockNumber == number
  }

  predicate ReceiptBelongs(r: Option<Receipt>, tx: Tx, blockHash: Hash, number: nat) {
    && r.Some? && r.value.blockHash == blockHash && r.value.txHash == tx.hash && r.value.blockNumber == number
    && (r.value.success ==> forall k :: 0 <= k < |r.value.logs| ==> LogBelongs(r.value.logs[k], tx, blockHash, number))
  }

  /** A transfer from or to the owner. */
  predicate Touches(l: Option<Log>, owner: Address) {
    l.Some? && |l.value.topics| == 2 && l.value.event.Transfer? && |l.value.data| == 32
    && (l.value.topics[0] == owner || l.value.topics[1] == owner)
  }

  predicate AnyTouches(logs: seq<Option<Log>>, owner: Address) {
    exists k :: 0 <= k < |logs| && Touches(logs[k], owner)
  }

  /** Whether a transaction concerns the owner: as sender, as recipient, or by a token transfer. */
  predicate Concerns(tx: Tx, r: Receipt, owner: Address) {
    tx.sender == owner || tx.to == Some(owner) || (r.success && AnyTouches(r.logs, owner))
  }

  function AddNew<T(==)>(items: seq<T>, item: T): seq<T> {
    if item in items then items else items + [item]
  }

  function LogTokens(logs: seq<Option<Log>>, owner: Address, tokens: seq<Address>): seq<Address> {
    if logs == [] then tokens
    else
      var before, last := LogTokens(logs[..|logs| - 1], owner, tokens), logs[|logs| - 1];
      if Touches(last, owner) then AddNew(before, last.value.address) else before
  }

  predicate AllBelong(b: Block, receipts: seq<Option<Receipt>>, number: nat, n: nat)
    requires n <= |b.txs| && n <= |receipts|
  {
    forall i :: 0 <= i < n ==> ReceiptBelongs(receipts[i], b.txs[i], b.hash, number)
  }

  /** What the first n transactions give. */
  function Found(b: Block, receipts: seq<Option<Receipt>>, number: nat, owner: Address, n: nat): Scanned
    requires n <= |b.txs| && n <= |receipts| && AllBelong(b, receipts, number, n)
  {
    if n == 0 then Scanned([], [])
    else
      var before, tx, r := Found(b, receipts, number, owner, n - 1), b.txs[n - 1], receipts[n - 1].value;
      Scanned(if Concerns(tx, r, owner) then AddNew(before.hashes, tx.hash) else before.hashes,
              if r.success then LogTokens(r.logs, owner, before.tokens) else before.tokens)
  }

  function ScanBlock(o: BlockReads, number: nat, owner: Address): Option<Scanned> {
    if o.final.None? || number > o.final.value then None
    else if o.block.None? || o.block.value.hash == "" then None
    else if o.receipts.None? || |o.receipts.value| != |o.block.value.txs| then None
    else if !AllBelong(o.block.value, o.receipts.value, number, |o.block.value.txs|) then None
    else if o.header != Some(o.block.value.hash) then None
    else Some(Found(o.block.value, o.receipts.value, number, owner, |o.block.value.txs|))
  }

  // ---- The two files -----------------------------------------------------------------------------------------

  datatype Progress = Progress(
    enabled: bool, start: nat, next: nat, finalized: nat, tokens: seq<Address>, failed: bool)

  /** The activity index, and the progress if it was ever saved. */
  datatype Files = Files(index: seq<Hash>, progress: Option<Progress>)

  const FRESH: Progress := Progress(false, 0, 0, 0, [], false)

  function ProgressOf(f: Files): Progress {
    if f.progress.Some? then f.progress.value else FRESH
  }

  /** What the loader of the progress file accepts. */
  predicate Readable(p: Progress) {
    |p.tokens| <= MAX_TOKENS && forall t <- p.tokens :: t != 0
  }

  function SaveProgress(f: Files, p: Progress, w: Write): Files {
    if w.FailedOld? then f else f.(progress := Some(p))
  }

  function Merged(index: seq<Hash>, ids: seq<Hash>): seq<Hash> {
    if ids == [] then index else AddNew(Merged(index, ids[..|ids| - 1]), ids[|ids| - 1])
  }

  /** New hashes are written to the index, if there are any. */
  function AddHashes(f: Files, ids: seq<Hash>, readable: bool, w: Write): (Files, bool) {
    var next := Merged(f.index, ids);
    if !readable then (f, false)
    else if next == f.index then (f, true)
    else (if w.FailedOld? then f else f.(index := next), w.Done?)
  }

  function AddTokens(tokens: seq<Address>, found: seq<Address>): seq<Address> {
    if found == [] then tokens
    else
      var before, last := AddTokens(tokens, found[..|found| - 1]), found[|found| - 1];
      if last in before || |before| >= MAX_TOKENS then before else before + [last]
  }

  function Configure(f: Files, enabled: bool, start: Option<nat>, w: Write): (Files, bool) {
    var p := ProgressOf(f);
    if !Readable(p) then (f, false)
    else
      var moved := if start.Some? then p.(start := start.value, next := start.value) else p;
      (SaveProgress(f, moved.(enabled := enabled, failed := false), w), w.Done?)
  }

  /** What one pass is given: the address if there is one, the finalized height, the block's answers, whether
      the index can be read, and how the two writes end. */
  datatype PassInput = PassInput(
    owner: Option<Address>, final: Option<nat>, block: BlockReads, readable: bool, indexWrite: Write,
    progressWrite: Write)

  /** A cursor that was never set starts some blocks back. */
  function Begun(p: Progress, final: nat): Progress {
    var first := if final > WINDOW then final - WINDOW else final;
    var seen := p.(finalized := final);
    if p.next == 0 then seen.(start := first, next := first) else seen
  }

  function Pass(f: Files, o: PassInput): (Files, bool) {
    var p := ProgressOf(f);
    if !Readable(p) then (f, false)
    else if !p.enabled then (f, true)
    else if o.owner.None? then (f, false)
    else if o.final.None? then (SaveProgress(f, p.(failed := true), o.progressWrite), false)
    else
      var begun := Begun(p, o.final.value);
      if begun.next > o.final.value then
        (SaveProgress(f, begun.(failed := false), o.progressWrite), o.progressWrite.Done?)
      else
        match ScanBlock(o.block, begun.next, o.owner.value)
        case None => (SaveProgress(f, begun.(failed := true), o.progressWrite), false)
        case Some(found) =>
          var (indexed, ok) := AddHashes(f, found.hashes, o.readable, o.indexWrite);
          if !ok then (SaveProgress(indexed, begun.(failed := true), o.progressWrite), false)
          else if 0 in found.tokens then (indexed, false)
          else
            var advanced := begun.(tokens := AddTokens(begun.tokens, found.tokens), next := begun.next + 1,
                                   failed := false);
            (SaveProgress(indexed, advanced, o.progressWrite), o.progressWrite.Done?)
  }

  // ---- What the lists hold ---------------------------------------------------------------------------------------

  lemma {:induction false} LogTokensHold(logs: seq<Option<Log>>, owner: Address, tokens: seq<Address>, t: Address)
    ensures t in LogTokens(logs, owner, tokens) <==>
      t in tokens || exists k :: 0 <= k < |logs| && Touches(logs[k], owner) && logs[k].value.address == t
  {
    if logs != [] {
      var init := logs[..|logs| - 1];
      LogTokensHold(init, owner, tokens, t);
      assert forall k :: 0 <= k < |init| ==> init[k] == logs[k];
    }
  }

  predicate HashAt(b: Block, receipts: seq<Option<Receipt>>, owner: Address, i: nat, h: Hash)
    requires i < |b.txs| && i < |receipts| && receipts[i].Some?
  {
    b.txs[i].hash == h && Concerns(b.txs[i], receipts[i].value, owner)
  }

  /** The hashes found are those of the transactions that concern the owner. */
  lemma {:induction false} FoundHolds(b: Block, receipts: seq<Option<Receipt>>, number: nat, owner: Address, n: nat,
                                      h: Hash)
    requires n <= |b.txs| && n <= |receipts| && AllBelong(b, receipts, number, n)
    ensures h in Found(b, receipts, number, owner, n).hashes
      <==> exists i :: 0 <= i < n && HashAt(b, receipts, owner, i, h)
  {
    if n > 0 {
      FoundHolds(b, receipts, number, owner, n - 1, h);
      var before := Found(b, receipts, number, owner, n - 1).hashes;
      assert h in Found(b, receipts, number, owner, n).hashes <==> h in before || HashAt(b, receipts, owner, n - 1, h);
    }
  }

  ghost predicate Once(hashes: seq<Hash>) {
    forall i, j :: 0 <= i < j < |hashes| ==> hashes[i] != hashes[j]
  }

  /** Each of them once. */
  lemma {:induction false} FoundOnce(b: Block, receipts: seq<Option<Receipt>>, number: nat, owner: Address, n: nat)
    requires n <= |b.txs| && n <= |receipts| && AllBelong(b, receipts, number, n)
    ensures Once(Found(b, receipts, number, owner, n).hashes)
  {
    if n > 0 {
      var before, tx := Found(b, receipts, number, owner, n - 1).hashes, b.txs[n - 1];
      FoundOnce(b, receipts, number, owner, n - 1);
      assert Once(AddNew(before, tx.hash));
    }
  }

  /** The tokens found are those whose transfers touch the owner in a successful transaction. */
  lemma {:induction false} FoundTokens(b: Block, receipts: seq<Option<Receipt>>, number: nat, owner: Address, n: nat,
                                       t: Address)
    requires n <= |b.txs| && n <= |receipts| && AllBelong(b, receipts, number, n)
    ensures t in Found(b, receipts, number, owner, n).tokens
      <==> exists i :: 0 <= i < n && TokenIn(receipts[i].value, owner, t)
  {
    if n > 0 {
      FoundTokens(b, receipts, number, owner, n - 1, t);
      var r := receipts[n - 1].value;
      LogTokensHold(r.logs, owner, Found(b, receipts, number, owner, n - 1).tokens, t);
    }
  }

  predicate TokenIn(r: Receipt, owner: Address, t: Address) {
    r.success && exists k :: 0 <= k < |r.logs| && Touches(r.logs[k], owner) && r.logs[k].value.address == t
  }

  lemma {:induction false} MergedHolds(index: seq<Hash>, ids: seq<Hash>, h: Hash)
    ensures h in Merged(index, ids) <==> h in index || h in ids
    ensures index <= Merged(index, ids)
  {
    if ids != [] {
      MergedHolds(index, ids[..|ids| - 1], h);
      assert ids == ids[..|ids| - 1] + [ids[|ids| - 1]];
    }
  }

  /** Tokens are added until the list is full. */
  lemma {:induction false} AddTokensHolds(tokens: seq<Address>, found: seq<Address>, t: Address)
    requires |tokens| <= MAX_TOKENS
    ensures var all := AddTokens(tokens, found);
      && tokens <= all && |all| <= MAX_TOKENS
      && (t in all ==> t in tokens || t in found)
      && (t in tokens || t in found ==> t in all || |all| == MAX_TOKENS)
  {
    if found != [] {
      AddTokensHolds(tokens, found[..|found| - 1], t);
      assert found == found[..|found| - 1] + [found[|found| - 1]];
    }
  }
}

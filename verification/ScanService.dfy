/**
 The scanner as the program runs it: every pass reads the progress file, scans one block and replaces
 the two files, each method proved to do what ScanModel says.
 */
module Scan {
  import opened Common
  import opened ScanModel

  /** Reads one block: one pass over its transactions and their logs, with what was already found. */
  method ScanFinalizedBlock(o: BlockReads, number: nat, owner: Address) returns (result: Option<Scanned>)
    ensures result == ScanBlock(o, number, owner)
  {
    if o.final.None? || number > o.final.value {
      return None;
    }
    if o.block.None? || o.block.value.hash == "" {
      return None;
    }
    var b := o.block.value;
    if o.receipts.None? || |o.receipts.value| != |b.txs| {
      return None;
    }
    var receipts := o.receipts.value;
    var hashes, tokens := [], [];
    var i := 0;
    while i < |b.txs|
      invariant 0 <= i <= |b.txs| && AllBelong(b, receipts, number, i)
      invariant Scanned(hashes, tokens) == Found(b, receipts, number, owner, i)
    {
      var tx := b.txs[i];
      var related, belongs;
      related, tokens, belongs := ScanReceipt(receipts[i], tx, b.hash, number, owner, tokens);
      if !belongs {
        return None;
      }
      if related && tx.hash !in hashes {
        hashes := hashes + [tx.hash];
      }
      i := i + 1;
    }
    if o.header != Some(b.hash) {
      return None;
    }
    result := Some(Scanned(hashes, tokens));
  }

  /** The logs of one receipt. */
  method ScanReceipt(receipt: Option<Receipt>, tx: Tx, blockHash: Hash, number: nat, owner: Address,
                     tokens: seq<Address>)
    returns (related: bool, all: seq<Address>, belongs: bool)
    ensures belongs == ReceiptBelongs(receipt, tx, blockHash, number)
    ensures belongs ==> related == Concerns(tx, receipt.value, owner)
    ensures belongs ==> all == if receipt.value.success then LogTokens(receipt.value.logs, owner, tokens) else tokens
  {
    related, all := tx.sender == owner || tx.to == Some(owner), tokens;
    if receipt.None? || receipt.value.blockHash != blockHash || receipt.value.txHash != tx.hash
      || receipt.value.blockNumber != number {
      return related, all, false;
    }
    var r := receipt.value;
    belongs := true;
    if r.success {
      var k := 0;
      while k < |r.logs|
        invariant 0 <= k <= |r.logs|
        invariant forall m :: 0 <= m < k ==> LogBelongs(r.logs[m], tx, blockHash, number)
        invariant related
          <==> tx.sender == owner || tx.to == Some(owner) || exists m :: 0 <= m < k && Touches(r.logs[m], owner)
        invariant all == LogTokens(r.logs[..k], owner, tokens)
      {
        var l := r.logs[k];
        if !LogBelongs(l, tx, blockHash, number) {
          return related, all, false;
        }
        assert r.logs[..k + 1][..k] == r.logs[..k];
        if Touches(l, owner) {
          related := true;
          if l.value.address !in all {
            all := all + [l.value.address];
          }
        }
        k := k + 1;
      }
      assert r.logs[..|r.logs|] == r.logs;
    }
  }

  class Scanner {
    var index: seq<Hash>
    var progress: Option<Progress>

    constructor ()
      ensures index == [] && progress == None
    {
      index, progress := [], None;
    }

    ghost function Value(): Files
      reads this
    {
      Files(index, progress)
    }

    /** Only public hashes are kept, each once, in the order in which they were found. */
    method AddActivityHashes(ids: seq<Hash>, readable: bool, write: Write) returns (ok: bool)
      modifies `index
      ensures (Value(), ok) == AddHashes(old(Value()), ids, readable, write)
    {
      if !readable {
        return false;
      }
      var all, count, i := index, 0, 0;
      while i < |ids|
        invariant 0 <= i <= |ids| && count == |all| - |index|
        invariant all == Merged(index, ids[..i])
      {
        assert ids[..i + 1][..i] == ids[..i];
        if ids[i] !in all {
          all := all + [ids[i]];
          count := count + 1;
        }
        i := i + 1;
      }
      assert ids[..|ids|] == ids;
      MergedHolds(index, ids, "");
      if count == 0 {
        return true;
      }
      if !write.FailedOld? {
        index := all;
      }
      ok := write.Done?;
    }

    method WriteProgress(p: Progress, write: Write) returns (ok: bool)
      modifies `progress
      ensures Value() == SaveProgress(old(Value()), p, write) && ok == write.Done?
    {
      if !write.FailedOld? {
        progress := Some(p);
      }
      ok := write.Done?;
    }

    method ReadProgress() returns (p: Progress)
      ensures p == ProgressOf(Value())
    {
      p := if progress.Some? then progress.value else FRESH;
    }

    method ConfigureScan(enabled: bool, start: Option<nat>, write: Write) returns (ok: bool)
      modifies `progress
      ensures (Value(), ok) == Configure(old(Value()), enabled, start, write)
    {
      var state := ReadProgress();
      if !Readable(state) {
        return false;
      }
      if start.Some? {
        state := state.(start := start.value, next := start.value);
      }
      state := state.(enabled := enabled, failed := false);
      ok := WriteProgress(state, write);
    }

    method ScanOnce(o: PassInput) returns (ok: bool)
      modifies this
      ensures (Value(), ok) == Pass(old(Value()), o)
    {
      var state := ReadProgress();
      if !Readable(state) {
        return false;
      }
      if !state.enabled {
        return true;
      }
      if o.owner.None? {
        return false;
      }
      var failed := o.final.None?;
      if !failed {
        var final := o.final.value;
        state := state.(finalized := final);
        if state.next == 0 {
          state := state.(next := if final > WINDOW then final - WINDOW else final);
          state := state.(start := state.next);
        }
        if state.next <= final {
          var found := ScanFinalizedBlock(o.block, state.next, o.owner.value);
          failed := found.None?;
          if !failed {
            var added := AddActivityHashes(found.value.hashes, o.readable, o.indexWrite);
            failed := !added;
            if !failed {
              if 0 in found.value.tokens {
                return false;
              }
              var tokens := KeepTokens(state.tokens, found.value.tokens);
              state := state.(tokens := tokens, next := state.next + 1);
            }
          }
        }
      }
      state := state.(failed := failed);
      var saved := WriteProgress(state, o.progressWrite);
      ok := saved && !failed;
    }

    method KeepTokens(tokens: seq<Address>, found: seq<Address>) returns (all: seq<Address>)
      ensures all == AddTokens(tokens, found)
    {
      all := tokens;
      for i := 0 to |found|
        invariant all == AddTokens(tokens, found[..i])
      {
        assert found[..i + 1][..i] == found[..i];
        if found[i] !in all && |all| < MAX_TOKENS {
          all := all + [found[i]];
        }
      }
      assert found[..|found|] == found;
    }
  }
}

/**
 The journal as the program runs it: an object whose methods loop over its two lists and replace its
 files, each method proved to do what JournalModel says.
 */
module Journal {
  import opened Common
  import opened JournalModel

  /** The wallet directory. Each replacement of a file ends as the environment decides. */
  class Directory {
    var journal: seq<Record>
    var archives: map<ArchiveName, seq<Record>>

    constructor ()
      ensures journal == [] && archives == map[]
    {
      journal := [];
      archives := map[];
    }

    ghost function Files(): Disk
      reads this
    {
      Disk(journal, archives)
    }

    method ReplaceJournal(next: seq<Record>, write: Write) returns (ok: bool)
      modifies `journal
      ensures ok == write.Done?
      ensures journal == if write.FailedOld? then old(journal) else next
    {
      if !write.FailedOld? {
        journal := next;
      }
      ok := write.Done?;
    }

    method WriteArchive(name: ArchiveName, batch: seq<Record>, write: Write) returns (ok: bool)
      modifies `archives
      ensures ok == write.Done?
      ensures archives == if write.FailedOld? then old(archives) else old(archives)[name := batch]
    {
      if !write.FailedOld? {
        archives := archives[name := batch];
      }
      ok := write.Done?;
    }
  }

  datatype RefreshItem = RefreshItem(hash: Hash, version: nat, state: State)

  function ItemOf(r: Record): RefreshItem {
    RefreshItem(r.id.hash, r.version, r.state)
  }

  class JournalManager {
    const chainId: int
    const dir: Directory
    var records: seq<Record>
    var archived: seq<Record>

    constructor (dir: Directory, chainId: int)
      ensures this.dir == dir && this.chainId == chainId && records == [] && archived == []
    {
      this.dir := dir;
      this.chainId := chainId;
      records := [];
      archived := [];
    }

    ghost function Memory(): View
      reads this
    {
      View(records, archived)
    }

    ghost function Contents(): Store
      reads this, dir
    {
      Store(Memory(), dir.Files())
    }

    // ---- Loading -----------------------------------------------------------------------------

    /** Reads the journal, then the archives in the order in which the directory lists them. */
    method Load(order: seq<ArchiveName>) returns (ok: bool)
      requires records == [] && archived == []
      requires forall name <- order :: name in dir.archives
      modifies this
      ensures var result := JournalModel.Load(dir.Files(), chainId, order);
        ok == result.Loaded? && (ok ==> Memory() == result.view)
    {
      var stored := dir.journal;
      if |stored| > ACTIVE_LIMIT {
        return false;
      }
      var i, loaded := 0, [];
      while i < |stored|
        invariant 0 <= i <= |stored| && |loaded| == i
        invariant forall k :: 0 <= k < i ==> ValidRecord(stored[k], chainId) && loaded[k] == FromDisk(stored[k])
      {
        if !ValidRecord(stored[i], chainId) {
          assert stored[i] in dir.Files().active;
          return false;
        }
        loaded := loaded + [FromDisk(stored[i])];
        i := i + 1;
      }
      records := loaded;
      assert records == Restored(stored);
      ok := LoadArchives(order);
    }

    /** The archive half of loading: every archive file in turn. */
    method LoadArchives(order: seq<ArchiveName>) returns (ok: bool)
      requires archived == []
      requires forall name <- order :: name in dir.archives
      modifies `archived
      ensures ok == forall name <- order :: LoadableFile(dir.archives[name], chainId)
      ensures ok ==> Memory() == MergeAll(View(records, []), dir.archives, order)
    {
      var i := 0;
      while i < |order|
        invariant 0 <= i <= |order|
        invariant forall k :: 0 <= k < i ==> LoadableFile(dir.archives[order[k]], chainId)
        invariant Memory() == MergeAll(View(records, []), dir.archives, order[..i])
      {
        ok := LoadArchive(dir.archives[order[i]]);
        if !ok {
          assert order[i] in order;
          return;
        }
        assert order[..i + 1][..i] == order[..i];
        i := i + 1;
      }
      assert order[..i] == order;
      ok := true;
    }

    /** Every record of the file that has not been seen before; an unfinalized one is an error. */
    method LoadArchive(file: seq<Record>) returns (ok: bool)
      modifies `archived
      ensures ok == LoadableFile(file, chainId)
      ensures ok ==> Memory() == Merge(old(Memory()), file)
    {
      var j := 0;
      while j < |file|
        invariant 0 <= j <= |file|
        invariant forall k :: 0 <= k < j ==> ValidRecord(file[k], chainId) && file[k].finalized
        invariant Memory() == Merge(old(Memory()), file[..j])
      {
        var r := file[j];
        if !ValidRecord(r, chainId) || !r.finalized {
          assert r in file;
          return false;
        }
        assert file[..j + 1][..j] == file[..j];
        assert All(Memory()) == archived + records;
        if !HasHash(archived + records, r.id.hash) {
          archived := archived + [FromDisk(r)];
        }
        j := j + 1;
      }
      assert file[..j] == file;
      ok := true;
    }

    // ---- Queries -----------------------------------------------------------------------------

    /** True while some nonce of the journal has no mined record. */
    method HasInFlightTx() returns (inFlight: bool)
      ensures inFlight == HasInFlight(Memory())
    {
      var all := archived + records;
      assert all == All(Memory());
      var mined: set<nat> := {};
      for i := 0 to |all|
        invariant mined == set r <- all[..i] | Mined(r.state) :: r.id.nonce
      {
        if Mined(all[i].state) {
          mined := mined + {all[i].id.nonce};
        }
        assert all[..i + 1] == all[..i] + [all[i]];
      }
      assert all[..|all|] == all;
      assert forall n :: n in mined <==> NonceMined(Memory(), n);
      for i := 0 to |all|
        invariant forall k :: 0 <= k < i ==> all[k].id.nonce in mined
      {
        if all[i].id.nonce !in mined {
          assert all[i] in All(Memory());
          return true;
        }
      }
      return false;
    }

    method NonceIsMined(nonce: nat) returns (mined: bool)
      ensures mined == NonceMined(Memory(), nonce)
    {
      var all := archived + records;
      for i := 0 to |all|
        invariant forall k :: 0 <= k < i ==> !(all[k].id.nonce == nonce && Mined(all[k].state))
      {
        if all[i].id.nonce == nonce && Mined(all[i].state) {
          assert all[i] in All(Memory());
          return true;
        }
      }
      return false;
    }

    method RecordsAtNonce(nonce: nat) returns (found: seq<Record>)
      ensures found == NonceRecords(All(Memory()), nonce)
    {
      var all := archived + records;
      found := [];
      for i := 0 to |all|
        invariant found == NonceRecords(all[..i], nonce)
      {
        if all[i].id.nonce == nonce {
          found := found + [all[i]];
        }
        assert all[..i + 1][..i] == all[..i];
      }
      assert all[..|all|] == All(Memory());
    }

    method FindByQuoteId(quoteId: QuoteId) returns (found: Option<Record>)
      ensures found == FindQuote(All(Memory()), quoteId)
    {
      var all := archived + records;
      var i := 0;
      assert all[0..] == All(Memory());
      while i < |all|
        invariant 0 <= i <= |all|
        invariant FindQuote(all[i..], quoteId) == FindQuote(All(Memory()), quoteId)
      {
        if all[i].id.quoteId == quoteId {
          return Some(all[i]);
        }
        assert all[i..][1..] == all[i + 1..];
        i := i + 1;
      }
      return None;
    }

    /** Outstanding records and those that may still be reorganised away, newest first. */
    method RefreshItems() returns (items: seq<RefreshItem>)
      ensures var rs := RefreshRecords(Memory());
        |items| == |rs| && forall k :: 0 <= k < |rs| ==> items[k] == ItemOf(rs[k])
    {
      var final := FinalizedNonces();
      items := [];
      ghost var taken: seq<Record> := [];
      var i := |records|;
      assert records[..i] == records;
      while i > 0
        invariant 0 <= i <= |records|
        invariant RefreshRecords(Memory()) == taken + RefreshOf(Memory(), records[..i])
        invariant |items| == |taken| && forall k :: 0 <= k < |items| ==> items[k] == ItemOf(taken[k])
      {
        i := i - 1;
        var r := records[i];
        assert records[..i + 1][..i] == records[..i];
        if !r.finalized && r.id.nonce !in final {
          items := items + [ItemOf(r)];
          taken := taken + [r];
        }
      }
      assert taken + [] == taken;
    }

    method FinalizedNonces() returns (nonces: set<nat>)
      ensures forall n: nat :: n in nonces <==> NonceFinal(Memory(), n)
    {
      var all := archived + records;
      assert all == All(Memory());
      nonces := {};
      for i := 0 to |all|
        invariant nonces == set r <- all[..i] | FinalMined(r) :: r.id.nonce
      {
        if all[i].finalized && Mined(all[i].state) {
          nonces := nonces + {all[i].id.nonce};
        }
        assert all[..i + 1] == all[..i] + [all[i]];
      }
      assert all[..|all|] == all;
    }

    // ---- Updates -----------------------------------------------------------------------------

    /** Persists a new record before anyone may broadcast it. */
    method AppendAtomic(r: Record, write: Write) returns (result: AppendResult)
      modifies this, dir
      ensures (Contents(), result) == Append(old(Contents()), r, chainId, write)
    {
      if |records| >= ACTIVE_LIMIT {
        return JournalFull;
      }
      if !ValidRecord(r, chainId) {
        return InvalidRecord;
      }
      var next := records + [r.(version := 1)];
      var ok := dir.ReplaceJournal(next, write);
      if !ok {
        return AppendFailed;
      }
      records := next;
      return Appended(1);
    }

    /** Compare-and-set on the version of the record with this hash. */
    method UpdateStateAtomicIfVersion(hash: Hash, expected: nat, o: Observation, write: Write)
      returns (result: UpdateResult)
      modifies this, dir
      ensures (Contents(), result) == Update(old(Contents()), hash, expected, o, write)
    {
      var i, target := 0, |records|;
      while i < |records|
        invariant 0 <= i <= |records|
        invariant LastIndex(records[..i], hash) == if target < i then target else i
        invariant target < i || target == |records|
      {
        assert records[..i + 1][..i] == records[..i];
        if records[i].id.hash == hash {
          target := i;
        }
        i := i + 1;
      }
      assert records[..i] == records;
      if target == |records| {
        return NotFound;
      }
      var r := records[target];
      if r.version != expected {
        return Stale;
      }
      if Unchanged(r, o) {
        return Updated;
      }
      var next := records[target := Observed(r, o)];
      var ok := dir.ReplaceJournal(next, write);
      if !ok {
        return UpdateFailed;
      }
      records := next;
      return Updated;
    }

    /** Moves old finalized records, and the rivals they beat, into an archive file. */
    method ArchiveFinalized(write: Write, secondWrite: Write) returns (result: ArchiveResult)
      modifies this, dir
      ensures (Contents(), result) == Archive(old(Contents()), write, secondWrite)
    {
      if |records| < ARCHIVE_THRESHOLD {
        return Archived(0);
      }
      var final := FinalizedNonces();
      var archive, keep := [], [];
      for i := 0 to |records|
        invariant archive == BatchTo(Memory(), i) && keep == KeptTo(Memory(), i)
      {
        var r := records[i];
        if i < |records| - RECENT_KEPT && (r.finalized || r.id.nonce in final) {
          archive := archive + [Sealed(r)];
        } else {
          keep := keep + [r];
        }
      }
      if archive == [] {
        return Archived(0);
      }
      var ok := dir.WriteArchive(NameOf(archive), archive, write);
      if !ok {
        return ArchiveFailed;
      }
      ok := dir.ReplaceJournal(keep, secondWrite);
      if !ok {
        return ArchiveFailed;
      }
      records := keep;
      archived := archived + archive;
      return Archived(|archive|);
    }
  }
}

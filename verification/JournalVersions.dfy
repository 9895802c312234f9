/**
 What a version tells and what it does not. A record in memory changes without a larger version in
 exactly two ways: compaction seals it as a rival, or a restart finds an older sealed copy of it first.
 */
module JournalVersions {
  import opened Common
  import opened JournalModel
  import opened JournalInvariants
  import opened JournalReload
  import opened JournalCompaction
  import opened JournalStore
  import opened JournalProtocol
  import opened JournalSafety
  import opened JournalTheorems

  // ---- Sealed copies -----------------------------------------------------------------------------

  ghost function FiledRecords(files: Files): set<Record> {
    set name <- files, r <- files[name] :: r
  }

  /** The archived records, in memory and in the archive files. */
  ghost function Copies(v: View, files: Files): set<Record> {
    Members(v.archived) + FiledRecords(files)
  }

  ghost predicate Agree(copies: set<Record>) {
    forall a <- copies, b <- copies :: a.id.hash == b.id.hash && a.version == b.version ==> a == b
  }

  /** No copy is ahead of the active record, and one of the same version is that record, sealed. */
  ghost predicate NotAhead(active: seq<Record>, copies: set<Record>) {
    forall x <- active, c <- copies :: x.id.hash == c.id.hash ==>
      c.version <= x.version && (c.version == x.version ==> c == Sealed(x))
  }

  ghost predicate CopiesInv(v: View, files: Files) {
    Agree(Copies(v, files)) && NotAhead(v.active, Copies(v, files))
  }

  ghost predicate StoreCopies(s: Store) {
    CopiesInv(s.mem, s.disk.archives)
  }

  /** Every copy is of a record that the view knows. */
  lemma CopiesKnown(v: View, files: Files, chainId: int, w: Winners)
    requires Inv(v, files, chainId, w)
    ensures forall c <- Copies(v, files) :: c.id in Ids(v)
  {
    forall c <- Copies(v, files)
      ensures c.id in Ids(v)
    {
      if c !in v.archived {
        var name :| name in files && c in files[name];
        assert GoodFile(name, files[name], DigestOf(v), chainId, w);
        assert GoodArchived(c, DigestOf(v), chainId, w);
      }
    }
  }

  lemma AddActive(active: seq<Record>, r: Record, copies: set<Record>)
    requires NotAhead(active, copies) && forall c <- copies :: c.id.hash != r.id.hash
    ensures NotAhead(active + [r], copies)
  {
  }

  lemma AppendCopies(v: View, r: Record, files: Files, chainId: int, w: Winners)
    requires Inv(v, files, chainId, w) && CopiesInv(v, files) && Fresh(r.id, Ids(v))
    ensures CopiesInv(v.(active := v.active + [r]), files)
  {
    CopiesKnown(v, files, chainId, w);
    AddActive(v.active, r, Copies(v, files));
    assert Copies(v.(active := v.active + [r]), files) == Copies(v, files);
  }

  lemma UpdateCopies(v: View, i: nat, r: Record, files: Files)
    requires CopiesInv(v, files) && i < |v.active| && r.id == v.active[i].id && v.active[i].version < r.version
    ensures CopiesInv(v.(active := v.active[i := r]), files)
  {
    var next := v.active[i := r];
    forall x <- next, c <- Copies(v, files) | x.id.hash == c.id.hash
      ensures c.version <= x.version && (c.version == x.version ==> c == Sealed(x))
    {
      var j :| 0 <= j < |next| && next[j] == x;
      assert v.active[j] in v.active;
    }
  }

  /** Filing the batch seals every record that is due as it is now. */
  lemma FilingCopies(v: View, files: Files, chainId: int, w: Winners)
    requires Inv(v, files, chainId, w) && CopiesInv(v, files) && Batch(v) != []
    ensures CopiesInv(v, files[NameOf(Batch(v)) := Batch(v)])
  {
    var files' := files[NameOf(Batch(v)) := Batch(v)];
    assert Copies(v, files') <= Copies(v, files) + Members(Batch(v));
    SplitMembers(v, |v.active|);
    forall c <- Batch(v)
      ensures exists x <- v.active :: c == Sealed(x)
    {
      var i :| 0 <= i < |v.active| && c == Sealed(v.active[i]) && Archivable(v, i);
      assert v.active[i] in v.active;
    }
    SealedCopies(v.active, Copies(v, files), Members(Batch(v)));
  }

  lemma SealedCopies(active: seq<Record>, copies: set<Record>, batch: set<Record>)
    requires Distinct(active) && Agree(copies) && NotAhead(active, copies)
    requires forall c <- batch :: exists x <- active :: c == Sealed(x)
    ensures Agree(copies + batch) && NotAhead(active, copies + batch)
  {
    forall x <- active, c <- batch | x.id.hash == c.id.hash
      ensures c == Sealed(x)
    {
      var y :| y in active && c == Sealed(y);
      SameInDistinct(active, x, y);
    }
    forall a <- copies + batch, b <- copies + batch | a.id.hash == b.id.hash && a.version == b.version
      ensures a == b
    {
      if a in batch {
        var x :| x in active && a == Sealed(x);
      } else if b in batch {
        var x :| x in active && b == Sealed(x);
      }
    }
  }

  lemma FewerActive(active: seq<Record>, fewer: seq<Record>, copies: set<Record>)
    requires NotAhead(active, copies) && forall x <- fewer :: x in active
    ensures NotAhead(fewer, copies)
  {
  }

  lemma CompactionCopies(v: View, files: Files)
    requires Distinct(v.active) && CopiesInv(v, files)
    requires Batch(v) != [] && NameOf(Batch(v)) in files && files[NameOf(Batch(v))] == Batch(v)
    ensures CopiesInv(Compacted(v), files)
  {
    BatchIsDue(v);
    FewerActive(v.active, Compacted(v).active, Copies(v, files));
    assert Members(v.archived + Batch(v)) == Members(v.archived) + Members(Batch(v));
    assert Members(Batch(v)) <= FiledRecords(files);
    assert Copies(Compacted(v), files) == Copies(v, files);
  }

  lemma ShadowCopies(v: View, files: Files, t: Torn, chainId: int, w: Winners)
    requires Inv(v, files, chainId, w) && TornOk(v, files, t, chainId, w) && CopiesInv(v, files)
    ensures CopiesInv(Shadow(v, t), files)
  {
    match t
    case Clean =>
    case TornAppend(r) => AppendCopies(v, r, files, chainId, w);
    case TornUpdate(i, r) => UpdateCopies(v, i, r, files);
    case TornCompaction => CompactionCopies(v, files);
  }

  /** A restart takes every archived record from a file. */
  lemma LoadCopies(v: View, v': View, files: Files, order: seq<ArchiveName>)
    requires CopiesInv(v, files) && Lists(order, files)
    requires Merged(View(v.active, []), v', Taken(files, order))
    ensures CopiesInv(v', files)
    ensures forall r <- v'.archived :: r in FiledRecords(files)
  {
    assert Taken(files, order) == FiledRecords(files);
    assert Copies(v', files) <= Copies(v, files);
  }

  lemma ReloadCopies(s: Store, t: Torn, order: seq<ArchiveName>, chainId: int, w: Winners)
    requires StoreInv(s, t, chainId, w) && StoreCopies(s) && Lists(order, s.disk.archives)
    ensures Load(s.disk, chainId, order).Loaded?
    ensures CopiesInv(Load(s.disk, chainId, order).view, s.disk.archives)
    ensures forall r <- Load(s.disk, chainId, order).view.archived :: r in FiledRecords(s.disk.archives)
  {
    var v := Shadow(s.mem, t);
    ShadowKeeps(s.mem, s.disk.archives, t, chainId, w);
    ShadowCopies(s.mem, s.disk.archives, t, chainId, w);
    assert s.disk == Disk(v.active, s.disk.archives);
    LoadMerges(v, s.disk.archives, order, chainId, w);
    LoadCopies(v, Load(s.disk, chainId, order).view, s.disk.archives, order);
  }

  lemma UpdateStoreCopies(s: Store, hash: Hash, expected: nat, o: Observation, write: Write)
    requires StoreCopies(s)
    ensures StoreCopies(Update(s, hash, expected, o, write).0)
  {
    var i := LastIndex(s.mem.active, hash);
    if i < |s.mem.active| {
      UpdateCopies(s.mem, i, Observed(s.mem.active[i], o), s.disk.archives);
    }
  }

  lemma ArchiveStoreCopies(s: Store, t: Torn, w1: Write, w2: Write, chainId: int, w: Winners)
    requires StoreInv(s, t, chainId, w) && StoreCopies(s)
    ensures StoreCopies(Archive(s, w1, w2).0)
  {
    if Batch(s.mem) != [] {
      FilingCopies(s.mem, s.disk.archives, chainId, w);
      CompactionCopies(s.mem, s.disk.archives[NameOf(Batch(s.mem)) := Batch(s.mem)]);
    }
  }

  lemma AppendStoreCopies(s: Store, r: Record, write: Write, chainId: int, w: Winners)
    requires Inv(s.mem, s.disk.archives, chainId, w) && StoreCopies(s) && Fresh(r.id, Ids(s.mem))
    ensures StoreCopies(Append(s, r, chainId, write).0)
  {
    AppendCopies(s.mem, r.(version := 1), s.disk.archives, chainId, w);
  }

  /** What each step makes of memory and disk. */
  ghost function NextStore(s: World, step: Step, env: Env): Store
    requires Possible(s, step, env.chainId)
  {
    if step.SendAppend? then Append(s.store, NewRecord(s.send.quote, step.signed), env.chainId, step.write).0
    else if step.Settle? then
      Update(s.store, s.send.record.id.hash, s.send.record.version, s.send.result, step.write).0
    else if step.Refresh? then
      var item := s.history.items[step.index];
      Update(s.store, item.id.hash, item.version, step.seen, step.write).0
    else if step.Demote? then Update(s.store, s.history.item.id.hash, s.history.item.version, DEMOTED, step.write).0
    else if step.Compact? then Archive(s.store, step.write, step.secondWrite).0
    else if step.Crash? && Load(s.store.disk, env.chainId, step.order).Loaded? then
      Store(Load(s.store.disk, env.chainId, step.order).view, s.store.disk)
    else s.store
  }

  lemma NextStoreIs(s: World, step: Step, env: Env)
    requires Possible(s, step, env.chainId)
    ensures Apply(s, step, env).store == NextStore(s, step, env)
  {
  }

  lemma NewIdIsFresh(s: World, t: Torn, step: Step, env: Env)
    requires WorldInv(s, t, env) && Enabled(s, step, env) && step.SendAppend?
    ensures Fresh(NewRecord(s.send.quote, step.signed).id, Ids(s.store.mem))
  {
    NewRecordIsOk(s, t, step.signed, step.write, env);
  }

  lemma AppendStepCopies(s: World, t: Torn, step: Step, env: Env)
    requires WorldInv(s, t, env) && Enabled(s, step, env) && StoreCopies(s.store) && step.SendAppend?
    ensures StoreCopies(Append(s.store, NewRecord(s.send.quote, step.signed), env.chainId, step.write).0)
  {
    NewIdIsFresh(s, t, step, env);
    AppendStoreCopies(s.store, NewRecord(s.send.quote, step.signed), step.write, env.chainId, env.winners);
  }

  lemma OtherStepCopies(s: World, t: Torn, step: Step, env: Env)
    requires StoreInv(s.store, t, env.chainId, env.winners) && Possible(s, step, env.chainId) && StoreCopies(s.store)
    requires !step.SendAppend?
    ensures StoreCopies(NextStore(s, step, env))
  {
    if step.Settle? {
      UpdateStoreCopies(s.store, s.send.record.id.hash, s.send.record.version, s.send.result, step.write);
    } else if step.Refresh? {
      var item := s.history.items[step.index];
      UpdateStoreCopies(s.store, item.id.hash, item.version, step.seen, step.write);
    } else if step.Demote? {
      UpdateStoreCopies(s.store, s.history.item.id.hash, s.history.item.version, DEMOTED, step.write);
    } else if step.Compact? {
      ArchiveStoreCopies(s.store, t, step.write, step.secondWrite, env.chainId, env.winners);
    } else if step.Crash? {
      ReloadCopies(s.store, t, step.order, env.chainId, env.winners);
    }
  }

  lemma StepCopies(s: World, t: Torn, step: Step, env: Env)
    requires WorldInv(s, t, env) && Enabled(s, step, env) && StoreCopies(s.store)
    ensures StoreCopies(NextStore(s, step, env))
  {
    if step.SendAppend? {
      AppendStepCopies(s, t, step, env);
    } else {
      OtherStepCopies(s, t, step, env);
    }
  }

  lemma CopiesAreKept(states: seq<World>, steps: seq<Step>, env: Env, k: nat)
    requires IsRun(states, steps, env) && k < |steps| && StoreCopies(states[k].store)
    ensures StoreCopies(states[k + 1].store)
  {
    var t := RunInv(states, steps, env, k);
    StepCopies(states[k], t, steps[k], env);
    NextStoreIs(states[k], steps[k], env);
  }

  lemma StartCopies()
    ensures StoreCopies(START.store)
  {
  }

  lemma CopiesInRun(states: seq<World>, steps: seq<Step>, env: Env, i: nat)
    requires IsRun(states, steps, env) && i <= |steps|
    ensures StoreCopies(states[i].store)
  {
    var flags := seq(|states|, k requires 0 <= k < |states| => StoreCopies(states[k].store));
    forall k | 0 <= k < i ensures flags[k] ==> flags[k + 1] {
      if flags[k] {
        CopiesAreKept(states, steps, env, k);
      }
    }
    StartCopies();
    Persists(flags, 0, i);
  }

  lemma RunCopies(states: seq<World>, steps: seq<Step>, env: Env, i: nat) returns (t: Torn)
    requires IsRun(states, steps, env) && i <= |steps|
    ensures WorldInv(states[i], t, env) && StoreCopies(states[i].store)
  {
    CopiesInRun(states, steps, env, i);
    t := RunInv(states, steps, env, i);
  }

  // ---- The copy that a restart finds first ----------------------------------------------------------

  /** All filed records in the order in which a restart reads them. */
  function Listed(files: Files, order: seq<ArchiveName>): seq<Record>
    requires forall name <- order :: name in files
  {
    if order == [] then [] else Listed(files, order[..|order| - 1]) + files[order[|order| - 1]]
  }

  lemma {:induction false} FindHashConcat(a: seq<Record>, b: seq<Record>, hash: Hash)
    ensures FindHash(a + b, hash) == if FindHash(a, hash).Some? then FindHash(a, hash) else FindHash(b, hash)
  {
    if a == [] {
      assert a + b == b;
    } else {
      assert (a + b)[0] == a[0] && (a + b)[1..] == a[1..] + b;
      FindHashConcat(a[1..], b, hash);
    }
  }

  lemma HasHashIsFound(rs: seq<Record>, hash: Hash)
    ensures HasHash(rs, hash) <==> FindHash(rs, hash).Some?
  {
    FindHashFinds(rs, hash);
  }

  /** Merging a file adds its first copy of a hash that is not known yet. */
  lemma {:induction false} MergeFinds(v: View, file: seq<Record>, hash: Hash)
    requires !HasHash(v.active, hash) && forall r <- file :: 1 <= r.version
    ensures Merge(v, file).active == v.active
    ensures FindHash(Merge(v, file).archived, hash) == FindHash(v.archived + file, hash)
  {
    if file == [] {
      assert v.archived + file == v.archived;
    } else {
      var rest, last := file[..|file| - 1], file[|file| - 1];
      MergeFinds(v, rest, hash);
      var init := Merge(v, rest);
      assert FromDisk(last) == last;
      assert v.archived + file == (v.archived + rest) + [last];
      FindHashConcat(v.archived + rest, [last], hash);
      FindHashConcat(init.archived, [last], hash);
      HasHashIsFound(init.archived, hash);
      assert HasHash(All(init), hash) <==> HasHash(init.archived, hash);
    }
  }

  lemma {:induction false} MergeAllFinds(v: View, files: Files, order: seq<ArchiveName>, hash: Hash)
    requires !HasHash(v.active, hash) && v.archived == []
    requires forall name <- order :: name in files
    requires forall name <- order, r <- files[name] :: 1 <= r.version
    ensures MergeAll(v, files, order).active == v.active
    ensures FindHash(MergeAll(v, files, order).archived, hash) == FindHash(Listed(files, order), hash)
  {
    if order != [] {
      var rest, last := order[..|order| - 1], order[|order| - 1];
      MergeAllFinds(v, files, rest, hash);
      var init := MergeAll(v, files, rest);
      MergeFinds(init, files[last], hash);
      FindHashConcat(init.archived, files[last], hash);
      FindHashConcat(Listed(files, rest), files[last], hash);
    }
  }

  lemma FoundInDistinct(rs: seq<Record>, r: Record)
    requires Distinct(rs) && r in rs
    ensures FindHash(rs, r.id.hash) == Some(r)
  {
    FindHashFinds(rs, r.id.hash);
    SameInDistinct(rs, r, FindHash(rs, r.id.hash).value);
  }

  /** A restart gives back, for every archived hash, the copy that it reads first. */
  lemma ReloadFindsFirst(s: Store, t: Torn, order: seq<ArchiveName>, r: Record, chainId: int, w: Winners)
    requires StoreInv(s, t, chainId, w) && Lists(order, s.disk.archives)
    requires Load(s.disk, chainId, order).Loaded? && r in Load(s.disk, chainId, order).view.archived
    ensures FindHash(Listed(s.disk.archives, order), r.id.hash) == Some(r)
  {
    var v, files := Shadow(s.mem, t), s.disk.archives;
    var loaded := Load(s.disk, chainId, order).view;
    ShadowKeeps(s.mem, files, t, chainId, w);
    assert s.disk == Disk(v.active, files);
    LoadMerges(v, files, order, chainId, w);
    forall name: ArchiveName, x: Record | name in order && x in files[name]
      ensures 1 <= x.version
    {
      assert x in Taken(files, order);
    }
    MergeAllFinds(View(v.active, []), files, order, r.id.hash);
    FoundInDistinct(loaded.archived, r);
  }

  // ---- One step --------------------------------------------------------------------------------------

  /** Compaction is about to seal this record: it is due, its own result is not final, another of its nonce is. */
  ghost predicate Seals(v: View, step: Step, r: Record) {
    && step.Compact? && step.write.Done? && step.secondWrite.Done? && ARCHIVE_THRESHOLD <= |v.active|
    && !r.finalized && NonceFinal(v, r.id.nonce)
    && exists i | 0 <= i < |v.active| :: v.active[i] == r && Archivable(v, i)
  }

  /** A restart is about to read this record, or an older copy of it, from an archive file: the active file
      has lost it although memory has not, or the first file that lists it holds an older copy. */
  ghost predicate ReloadsOlder(s: Store, step: Step, r: Record) {
    && step.Crash? && Lists(step.order, s.disk.archives)
    && (if r in s.mem.active then !r.finalized && !HasHash(s.disk.active, r.id.hash)
        else
          var first := FindHash(Listed(s.disk.archives, step.order), r.id.hash);
          first.Some? && first.value.version < r.version)
  }

  ghost predicate Drops(s: Store, step: Step, r: Record) {
    Seals(s.mem, step, r) || ReloadsOlder(s, step, r)
  }

  /** The record has changed and its version does not show it. */
  predicate Unshown(r: Record, r': Record) {
    r' != r && r'.version <= r.version
  }

  lemma SameInView(v: View, r: Record, r': Record)
    requires UniqueView(v) && r in All(v) && r' in All(v) && r.id.hash == r'.id.hash
    ensures r' == r
  {
    AllIds(v);
    SameInDistinct(All(v), r, r');
  }

  lemma CompactionUnshown(v: View, r: Record, r': Record, step: Step)
    requires UniqueView(v) && UniqueView(Compacted(v)) && r in All(v) && r' in All(Compacted(v))
      && r.id.hash == r'.id.hash
    requires step.Compact? && step.write.Done? && step.secondWrite.Done? && ARCHIVE_THRESHOLD <= |v.active|
    ensures Unshown(r, r') <==> Seals(v, step, r)
    ensures Unshown(r, r') ==> r' in Compacted(v).archived && r'.state == Replaced
  {
    SplitMembers(v, |v.active|);
    if r in v.active {
      var i :| 0 <= i < |v.active| && v.active[i] == r;
      if Archivable(v, i) {
        SameInView(Compacted(v), Sealed(r), r');
      } else {
        SameInView(Compacted(v), r, r');
      }
    } else {
      SameInView(Compacted(v), r, r');
      assert forall i | 0 <= i < |v.active| :: v.active[i] in v.active;
    }
  }

  /** Memory that compaction leaves alone has nothing that compaction would seal. */
  lemma NothingSealed(s: Store, step: Step, r: Record)
    requires step.Compact? && Archive(s, step.write, step.secondWrite).0.mem == s.mem
    requires Distinct(s.mem.active)
    ensures !Seals(s.mem, step, r)
  {
    SplitMembers(s.mem, |s.mem.active|);
    BatchIsDue(s.mem);
  }

  lemma CompactUnshown(s: World, t: Torn, step: Step, r: Record, r': Record, env: Env)
    requires WorldInv(s, t, env) && step.Compact?
    requires r in All(s.store.mem) && r.id.hash == r'.id.hash
    requires r' in All(Archive(s.store, step.write, step.secondWrite).0.mem)
    ensures Unshown(r, r') <==> Seals(s.store.mem, step, r)
    ensures Unshown(r, r') ==>
      r' in Archive(s.store, step.write, step.secondWrite).0.mem.archived && r'.state == Replaced
  {
    var v, v' := s.store.mem, Archive(s.store, step.write, step.secondWrite).0.mem;
    var t' := ArchiveStore(s.store, t, step.write, step.secondWrite, env.chainId, env.winners);
    if v' == v {
      SameInView(v, r, r');
      NothingSealed(s.store, step, r);
    } else {
      CompactionUnshown(v, r, r', step);
    }
  }

  /** The record of a restart that memory knew as active. */
  lemma ReloadedActive(s: Store, t: Torn, step: Step, r: Record, r': Record, chainId: int, w: Winners)
    requires StoreInv(s, t, chainId, w) && StoreCopies(s) && step.Crash? && Lists(step.order, s.disk.archives)
    requires Load(s.disk, chainId, step.order).Loaded?
    requires r in s.mem.active && r' in All(Load(s.disk, chainId, step.order).view) && r.id.hash == r'.id.hash
    ensures Unshown(r, r') <==> ReloadsOlder(s, step, r)
    ensures Unshown(r, r') ==> r' in Load(s.disk, chainId, step.order).view.archived && r'.state == Replaced
  {
    var loaded := Load(s.disk, chainId, step.order).view;
    ReloadStore(s, t, step.order, chainId, w);
    if HasHash(s.disk.active, r.id.hash) {
      var x :| x in s.disk.active && x.id.hash == r.id.hash;
      SameInView(loaded, x, r');
    } else {
      assert loaded.active == s.disk.active;
      assert r' in loaded.archived;
      if FinalMined(r) {
        SameInView(loaded, r, r');
      } else {
        assert !r.finalized by {
          assert GoodActive(r, chainId, w);
        }
        OlderCopy(s, t, step, r, r', chainId, w);
      }
    }
  }

  lemma OlderCopy(s: Store, t: Torn, step: Step, r: Record, r': Record, chainId: int, w: Winners)
    requires StoreInv(s, t, chainId, w) && StoreCopies(s) && step.Crash? && Lists(step.order, s.disk.archives)
    requires Load(s.disk, chainId, step.order).Loaded?
    requires r in s.mem.active && !r.finalized && !HasHash(s.disk.active, r.id.hash) && r.id.hash == r'.id.hash
    requires r' in Load(s.disk, chainId, step.order).view.archived
    ensures Unshown(r, r') && r'.state == Replaced
  {
    LostToCompaction(s, t, r, chainId, w);
    ReloadCopies(s, t, step.order, chainId, w);
    FiledIsNotAhead(s.mem, s.disk.archives, r, r');
    CompactedOnDisk(s, step.order, chainId, w);
    LostIsRival(s.mem, Load(s.disk, chainId, step.order).view, r, r', chainId, w);
  }

  lemma FiledIsNotAhead(v: View, files: Files, r: Record, c: Record)
    requires CopiesInv(v, files) && r in v.active && c in FiledRecords(files) && r.id.hash == c.id.hash
    ensures c.version <= r.version
  {
    assert c in Copies(v, files);
  }

  lemma CompactedOnDisk(s: Store, order: seq<ArchiveName>, chainId: int, w: Winners)
    requires StoreInv(s, TornCompaction, chainId, w) && Lists(order, s.disk.archives)
    ensures var result := Load(s.disk, chainId, order);
      result.Loaded? && ViewInv(result.view, chainId, w) && SameView(Compacted(s.mem), result.view)
  {
    ReloadStore(s, TornCompaction, order, chainId, w);
  }

  lemma LostIsRival(v: View, loaded: View, r: Record, r': Record, chainId: int, w: Winners)
    requires ViewInv(v, chainId, w) && ViewInv(loaded, chainId, w) && SameView(Compacted(v), loaded)
    requires r in v.active && !r.finalized && r' in loaded.archived && r.id.hash == r'.id.hash
    ensures r'.finalized && r'.state == Replaced
  {
    assert GoodArchived(r', DigestOf(loaded), chainId, w);
    BatchGood(v, chainId, w);
    if Mined(r'.state) {
      SameInView(v, r, r');
    }
  }

  /** Only a compaction whose second write failed late takes a record from the active file and not from memory. */
  lemma LostToCompaction(s: Store, t: Torn, r: Record, chainId: int, w: Winners)
    requires StoreInv(s, t, chainId, w) && r in s.mem.active
    ensures t == TornCompaction || HasHash(s.disk.active, r.id.hash)
  {
    var v := s.mem;
    if t.TornUpdate? {
      var i :| 0 <= i < |v.active| && v.active[i] == r;
      assert s.disk.active[i] in s.disk.active && s.disk.active[i].id == r.id;
    } else if !t.TornCompaction? {
      assert r in s.disk.active;
    }
  }

  /** The record of a restart that memory knew as archived. */
  lemma ReloadedArchived(s: Store, t: Torn, step: Step, r: Record, r': Record, chainId: int, w: Winners)
    requires StoreInv(s, t, chainId, w) && StoreCopies(s) && step.Crash? && Lists(step.order, s.disk.archives)
    requires Load(s.disk, chainId, step.order).Loaded?
    requires r in s.mem.archived && r' in All(Load(s.disk, chainId, step.order).view) && r.id.hash == r'.id.hash
    ensures Unshown(r, r') <==> ReloadsOlder(s, step, r)
    ensures FindHash(Listed(s.disk.archives, step.order), r.id.hash) == Some(r')
    ensures r'.version == r.version ==> r' == r
    ensures r' in Load(s.disk, chainId, step.order).view.archived
    ensures r' != r ==> r.state == r'.state == Replaced
  {
    var v, loaded := s.mem, Load(s.disk, chainId, step.order).view;
    StaysArchived(s, t, step.order, r, r', chainId, w);
    ReloadFindsFirst(s, t, step.order, r', chainId, w);
    ReloadCopies(s, t, step.order, chainId, w);
    assert r in Copies(v, s.disk.archives) && r' in Copies(v, s.disk.archives);
    assert r !in v.active;
  }

  lemma StaysArchived(s: Store, t: Torn, order: seq<ArchiveName>, r: Record, r': Record, chainId: int, w: Winners)
    requires StoreInv(s, t, chainId, w) && Lists(order, s.disk.archives) && Load(s.disk, chainId, order).Loaded?
    requires r in s.mem.archived && r' in All(Load(s.disk, chainId, order).view) && r.id.hash == r'.id.hash
    ensures r' in Load(s.disk, chainId, order).view.archived && r' !in s.mem.active
    ensures r' != r ==> r.state == r'.state == Replaced
  {
    var v, loaded := s.mem, Load(s.disk, chainId, order).view;
    ReloadStore(s, t, order, chainId, w);
    assert r.id in IdsOf(Shadow(v, t).archived);
    assert r.id in IdsOf(loaded.archived);
    var x :| x in loaded.archived && x.id == r.id;
    SameInView(loaded, x, r');
    ArchivedRivals(v, loaded, r, r', chainId, w);
  }

  lemma ArchivedRivals(v: View, v': View, r: Record, r': Record, chainId: int, w: Winners)
    requires ViewInv(v, chainId, w) && ViewInv(v', chainId, w) && Follows(v, v')
    requires r in v.archived && r' in v'.archived && r.id == r'.id
    ensures r' != r ==> r.state == r'.state == Replaced
  {
    assert GoodArchived(r, DigestOf(v), chainId, w) && GoodArchived(r', DigestOf(v'), chainId, w);
    if Mined(r.state) {
      assert r in All(v');
      SameInView(v', r, r');
    }
  }

  lemma CrashUnshown(s: World, t: Torn, step: Step, r: Record, r': Record, env: Env)
    requires WorldInv(s, t, env) && StoreCopies(s.store) && step.Crash? && Lists(step.order, s.store.disk.archives)
    requires Load(s.store.disk, env.chainId, step.order).Loaded?
    requires r in All(s.store.mem) && r' in All(Load(s.store.disk, env.chainId, step.order).view)
    requires r.id.hash == r'.id.hash
    ensures Unshown(r, r') <==> ReloadsOlder(s.store, step, r)
    ensures Unshown(r, r') ==>
      r' in Load(s.store.disk, env.chainId, step.order).view.archived && r'.state == Replaced
  {
    if r in s.store.mem.active {
      ReloadedActive(s.store, t, step, r, r', env.chainId, env.winners);
    } else {
      ReloadedArchived(s.store, t, step, r, r', env.chainId, env.winners);
    }
  }

  /** Any other step leaves a record as it is or gives it a larger version. */
  lemma OtherUnshown(v: View, v': View, r: Record, r': Record)
    requires UniqueView(v) && UniqueView(v') && Follows(v, v') && v'.archived == v.archived
    requires r in All(v) && r' in All(v') && r.id.hash == r'.id.hash
    ensures !Unshown(r, r')
  {
    AllIds(v);
    AllIds(v');
    assert r.id in Ids(v') && r'.id in Ids(v');
    SameIdentity(v', r.id, r'.id);
    if r' in v'.archived {
      SameInView(v, r, r');
    } else if r in v.archived {
      SameInView(v', r, r');
    }
  }

  lemma OtherArchive(s: World, step: Step, env: Env)
    requires Possible(s, step, env.chainId) && !step.Compact? && !step.Crash?
    ensures NextStore(s, step, env).mem.archived == s.store.mem.archived
  {
  }

  lemma OtherStep(s: World, t: Torn, step: Step, env: Env)
    requires WorldInv(s, t, env) && Enabled(s, step, env) && !step.Compact? && !step.Crash?
    ensures var v, v' := s.store.mem, NextStore(s, step, env).mem;
      UniqueView(v) && UniqueView(v') && Follows(v, v') && v'.archived == v.archived
  {
    NextStoreIs(s, step, env);
    StepFollows(s, t, step, env);
    var t' := StepKeeps(s, t, step, env);
    WorldUnique(s, t, env);
    WorldUnique(Apply(s, step, env), t', env);
    OtherArchive(s, step, env);
  }

  /** What every kind of step says about one record. */
  ghost predicate Told(s: Store, step: Step, v': View, r: Record, r': Record) {
    && (Unshown(r, r') <==> Drops(s, step, r))
    && (Unshown(r, r') ==> r' in v'.archived && r'.state == Replaced)
  }

  lemma CompactTold(s: World, t: Torn, step: Step, r: Record, r': Record, env: Env)
    requires WorldInv(s, t, env) && Enabled(s, step, env) && step.Compact?
    requires r in All(s.store.mem) && r' in All(NextStore(s, step, env).mem) && r.id.hash == r'.id.hash
    ensures Told(s.store, step, NextStore(s, step, env).mem, r, r')
  {
    assert NextStore(s, step, env) == Archive(s.store, step.write, step.secondWrite).0;
    CompactUnshown(s, t, step, r, r', env);
  }

  lemma CrashTold(s: World, t: Torn, step: Step, r: Record, r': Record, env: Env)
    requires WorldInv(s, t, env) && StoreCopies(s.store) && Enabled(s, step, env) && step.Crash?
    requires r in All(s.store.mem) && r' in All(NextStore(s, step, env).mem) && r.id.hash == r'.id.hash
    ensures Told(s.store, step, NextStore(s, step, env).mem, r, r')
  {
    CrashStore(s, t, step, env);
    NextStoreIs(s, step, env);
    CrashUnshown(s, t, step, r, r', env);
  }

  lemma OtherTold(s: World, t: Torn, step: Step, r: Record, r': Record, env: Env)
    requires WorldInv(s, t, env) && Enabled(s, step, env) && !step.Compact? && !step.Crash?
    requires r in All(s.store.mem) && r' in All(NextStore(s, step, env).mem) && r.id.hash == r'.id.hash
    ensures Told(s.store, step, NextStore(s, step, env).mem, r, r')
  {
    OtherStep(s, t, step, env);
    OtherUnshown(s.store.mem, NextStore(s, step, env).mem, r, r');
  }

  /** One step of any run: a record changes without a larger version exactly when compaction seals it or a restart
      reads it from an archive although memory had a newer one; both show before the step. */
  lemma StepUnshown(s: World, t: Torn, step: Step, r: Record, r': Record, env: Env)
    requires WorldInv(s, t, env) && StoreCopies(s.store) && Enabled(s, step, env)
    requires r in All(s.store.mem) && r' in All(NextStore(s, step, env).mem) && r.id.hash == r'.id.hash
    ensures Told(s.store, step, NextStore(s, step, env).mem, r, r')
  {
    if step.Compact? {
      CompactTold(s, t, step, r, r', env);
    } else if step.Crash? {
      CrashTold(s, t, step, r, r', env);
    } else {
      OtherTold(s, t, step, r, r', env);
    }
  }

  // ---- Whole runs --------------------------------------------------------------------------------------

  ghost predicate Shown(v: View, v': View, hash: Hash) {
    forall r <- All(v), r' <- All(v') :: r.id.hash == hash && r'.id.hash == hash ==> !Unshown(r, r')
  }

  ghost predicate DropsNow(s: World, step: Step, hash: Hash) {
    exists r <- All(s.store.mem) :: r.id.hash == hash && Drops(s.store, step, r)
  }

  lemma StillThere(v: View, v': View, r: Record) returns (r': Record)
    requires UniqueView(v') && Ids(v) <= Ids(v') && r in All(v)
    ensures r' in All(v') && r'.id == r.id
  {
    AllIds(v);
    AllIds(v');
    assert r.id in IdsOf(All(v'));
    r' :| r' in All(v') && r'.id == r.id;
  }

  /** One step of a run. */
  lemma RunStepShown(states: seq<World>, steps: seq<Step>, env: Env, k: nat, hash: Hash)
    requires IsRun(states, steps, env) && k < |steps|
    ensures Shown(states[k].store.mem, states[k + 1].store.mem, hash) <==> !DropsNow(states[k], steps[k], hash)
  {
    var s, step := states[k], steps[k];
    var v, v' := s.store.mem, states[k + 1].store.mem;
    var t := RunCopies(states, steps, env, k);
    NextStoreIs(s, step, env);
    forall r <- All(v), r' <- All(v') | r.id.hash == hash && r'.id.hash == hash
      ensures Unshown(r, r') <==> Drops(s.store, step, r)
    {
      StepUnshown(s, t, step, r, r', env);
    }
    if DropsNow(s, step, hash) {
      var r :| r in All(v) && r.id.hash == hash && Drops(s.store, step, r);
      RunStep(states, steps, env, k);
      var r' := StillThere(v, v', r);
      assert Unshown(r, r');
    }
  }

  lemma ShownTransitive(a: View, b: View, c: View, hash: Hash)
    requires Shown(a, b, hash) && Shown(b, c, hash) && UniqueView(b) && Ids(a) <= Ids(b)
    ensures Shown(a, c, hash)
  {
    forall r <- All(a), r'' <- All(c) | r.id.hash == hash && r''.id.hash == hash
      ensures !Unshown(r, r'')
    {
      var r' := StillThere(a, b, r);
      assert !Unshown(r, r') && !Unshown(r', r'');
    }
  }

  lemma ShownItself(v: View, hash: Hash)
    requires UniqueView(v)
    ensures Shown(v, v, hash)
  {
    forall r <- All(v), r' <- All(v) | r.id.hash == hash && r'.id.hash == hash
      ensures r == r'
    {
      SameInView(v, r, r');
    }
  }

  lemma {:induction false} ViewsShown(views: seq<View>, i: nat, j: nat, hash: Hash)
    requires i <= j < |views| && forall k | i <= k <= j :: UniqueView(views[k]) && Ids(views[i]) <= Ids(views[k])
    requires forall k | i <= k < j :: Shown(views[k], views[k + 1], hash)
    ensures Shown(views[i], views[j], hash)
    decreases j - i
  {
    if i < j {
      ViewsShown(views, i, j - 1, hash);
      ShownTransitive(views[i], views[j - 1], views[j - 1 + 1], hash);
    } else {
      ShownItself(views[i], hash);
    }
  }

  lemma StretchShown(states: seq<World>, steps: seq<Step>, env: Env, i: nat, j: nat, hash: Hash)
    requires IsRun(states, steps, env) && i <= j <= |steps|
    requires forall k | i <= k < j :: !DropsNow(states[k], steps[k], hash)
    ensures Shown(states[i].store.mem, states[j].store.mem, hash)
  {
    var views := seq(|states|, k requires 0 <= k < |states| => states[k].store.mem);
    forall k | i <= k <= j
      ensures UniqueView(views[k]) && Ids(views[i]) <= Ids(views[k])
    {
      RunUnique(states, steps, env, k);
      RunFollows(states, steps, env, i, k);
    }
    forall k | i <= k < j
      ensures Shown(views[k], views[k + 1], hash)
    {
      RunStepShown(states, steps, env, k, hash);
    }
    ViewsShown(views, i, j, hash);
  }

  /** The versions of a hash show all of its changes, between any two states of a stretch of any run, if and only if
      no step of the stretch seals it as a rival or reloads an older copy of it. */
  lemma VersionsShowChanges(states: seq<World>, steps: seq<Step>, env: Env, a: nat, b: nat, hash: Hash)
    requires IsRun(states, steps, env) && a <= b <= |steps|
    ensures (forall i, j | a <= i <= j <= b :: Shown(states[i].store.mem, states[j].store.mem, hash))
      <==> (forall k | a <= k < b :: !DropsNow(states[k], steps[k], hash))
  {
    if forall k | a <= k < b :: !DropsNow(states[k], steps[k], hash) {
      forall i, j | a <= i <= j <= b
        ensures Shown(states[i].store.mem, states[j].store.mem, hash)
      {
        StretchShown(states, steps, env, i, j, hash);
      }
    } else {
      var k :| a <= k < b && DropsNow(states[k], steps[k], hash);
      RunStepShown(states, steps, env, k, hash);
    }
  }

  /** Whatever changes without a larger version is a rival: it was not final, it ends in the archive as replaced, and
      another record of its nonce is final there. */
  lemma OnlyRivalsChangeUnshown(states: seq<World>, steps: seq<Step>, env: Env, i: nat, j: nat, r: Record, r': Record)
    requires IsRun(states, steps, env) && i <= j <= |steps|
    requires r in All(states[i].store.mem) && r' in All(states[j].store.mem) && r.id.hash == r'.id.hash
    requires Unshown(r, r')
    ensures !FinalMined(r) && r' in states[j].store.mem.archived && r'.state == Replaced
    ensures exists x <- All(states[j].store.mem) ::
      FinalMined(x) && x.id.nonce == r'.id.nonce && x.id.hash != r'.id.hash
  {
    var v, v' := states[i].store.mem, states[j].store.mem;
    RunUnique(states, steps, env, j);
    RunFollows(states, steps, env, i, j);
    if FinalMined(r) {
      SameInView(v', r, r');
    } else {
      VersionsShowChanges(states, steps, env, i, j, r.id.hash);
      assert !Shown(v, v', r.id.hash);
      var k :| i <= k < j && DropsNow(states[k], steps[k], r.id.hash);
      var sealed := DroppedRecord(states, steps, env, k, r.id.hash);
      StaysRival(states, steps, env, k + 1, j, sealed, r');
    }
  }

  /** The record that a drop leaves behind. */
  lemma DroppedRecord(states: seq<World>, steps: seq<Step>, env: Env, k: nat, hash: Hash) returns (r': Record)
    requires IsRun(states, steps, env) && k < |steps| && DropsNow(states[k], steps[k], hash)
    ensures r'.id.hash == hash && r' in states[k + 1].store.mem.archived && r'.state == Replaced
  {
    var s := states[k];
    var r :| r in All(s.store.mem) && r.id.hash == hash && Drops(s.store, steps[k], r);
    var t := RunCopies(states, steps, env, k);
    NextStoreIs(s, steps[k], env);
    RunStep(states, steps, env, k);
    r' := StillThere(s.store.mem, states[k + 1].store.mem, r);
    StepUnshown(s, t, steps[k], r, r', env);
  }

  lemma StaysRival(states: seq<World>, steps: seq<Step>, env: Env, i: nat, j: nat, r: Record, r': Record)
    requires IsRun(states, steps, env) && i <= j <= |steps|
    requires r in states[i].store.mem.archived && r.state == Replaced
    requires r' in All(states[j].store.mem) && r.id.hash == r'.id.hash
    ensures r' in states[j].store.mem.archived && r'.state == Replaced
    ensures exists x <- All(states[j].store.mem) ::
      FinalMined(x) && x.id.nonce == r'.id.nonce && x.id.hash != r'.id.hash
  {
    var t := RunInv(states, steps, env, i);
    var t' := RunInv(states, steps, env, j);
    RunFollows(states, steps, env, i, j);
    StaysRivalView(states[i].store.mem, states[j].store.mem, r, r', env.chainId, env.winners);
  }

  lemma StaysRivalView(v: View, v': View, r: Record, r': Record, chainId: int, w: Winners)
    requires ViewInv(v, chainId, w) && ViewInv(v', chainId, w) && Follows(v, v')
    requires r in v.archived && r.state == Replaced && r' in All(v') && r.id.hash == r'.id.hash
    ensures r' in v'.archived && r'.state == Replaced
    ensures exists x <- All(v') :: FinalMined(x) && x.id.nonce == r'.id.nonce && x.id.hash != r'.id.hash
  {
    assert GoodArchived(r, DigestOf(v), chainId, w);
    AllIds(v');
    assert r.id in Ids(v') && r'.id in Ids(v');
    SameIdentity(v', r.id, r'.id);
    assert r.id !in IdsOf(v.active);
    assert r' !in v'.active;
    assert GoodArchived(r', DigestOf(v'), chainId, w);
    assert r'.id.nonce in DigestOf(v').finalNonces;
    var x :| x in All(v') && FinalMined(x) && x.id.nonce == r'.id.nonce;
    assert Won(w, x.id);
  }

  /** The two copies of an archived record, before and after a restart. */
  ghost predicate Restarted(s: Store, order: seq<ArchiveName>, r: Record, r': Record)
    requires Lists(order, s.disk.archives)
  {
    var first := FindHash(Listed(s.disk.archives, order), r.id.hash);
    && first == Some(r') && (r' == r <==> first.value.version == r.version)
    && (r' != r ==>
          && r.state == Replaced
          && r' == r.(confirmations := r'.confirmations, feeEth := r'.feeEth, error := r'.error, version := r'.version))
  }

  lemma RestartRival(s: Store, t: Torn, step: Step, r: Record, r': Record, chainId: int, w: Winners)
    requires StoreInv(s, t, chainId, w) && StoreCopies(s) && step.Crash? && Lists(step.order, s.disk.archives)
    requires Load(s.disk, chainId, step.order).Loaded?
    requires r in s.mem.archived && r' in All(Load(s.disk, chainId, step.order).view) && r.id.hash == r'.id.hash
    ensures Restarted(s, step.order, r, r') && r' in Load(s.disk, chainId, step.order).view.archived
  {
    ReloadedArchived(s, t, step, r, r', chainId, w);
    ReloadStore(s, t, step.order, chainId, w);
    SameFields(s.mem, Load(s.disk, chainId, step.order).view, r, r', chainId, w);
  }

  lemma SameFields(v: View, v': View, r: Record, r': Record, chainId: int, w: Winners)
    requires ViewInv(v, chainId, w) && ViewInv(v', chainId, w) && Ids(v) <= Ids(v')
    requires r in v.archived && r' in v'.archived && r.id.hash == r'.id.hash
    ensures r'.id == r.id && r'.finalized == r.finalized
  {
    AllIds(v');
    assert GoodArchived(r, DigestOf(v), chainId, w) && GoodArchived(r', DigestOf(v'), chainId, w);
    SameIdentity(v', r.id, r'.id);
  }

  lemma CrashApplies(s: World, step: Step, env: Env)
    requires Possible(s, step, env.chainId) && step.Crash? && Lists(step.order, s.store.disk.archives)
    requires Load(s.store.disk, env.chainId, step.order).Loaded?
    ensures Apply(s, step, env).store.mem == Load(s.store.disk, env.chainId, step.order).view
  {
  }

  lemma CrashLists(s: World, step: Step, env: Env)
    requires Enabled(s, step, env) && step.Crash?
    ensures Lists(step.order, s.store.disk.archives)
  {
  }

  lemma CrashStore(s: World, t: Torn, step: Step, env: Env)
    requires StoreInv(s.store, t, env.chainId, env.winners) && StoreCopies(s.store) && Enabled(s, step, env)
      && step.Crash?
    ensures Lists(step.order, s.store.disk.archives) && Load(s.store.disk, env.chainId, step.order).Loaded?
    ensures Apply(s, step, env).store.mem == Load(s.store.disk, env.chainId, step.order).view
  {
    CrashLists(s, step, env);
    ReloadCopies(s.store, t, step.order, env.chainId, env.winners);
    CrashApplies(s, step, env);
  }

  /** What a restart may do to an archived record: it comes back as the copy that the listing shows first. That is
      the record itself exactly when the versions are equal; otherwise both are rivals, and only the notes of the
      last lookup differ. */
  lemma ReloadedRival(states: seq<World>, steps: seq<Step>, env: Env, k: nat, r: Record, r': Record)
    requires IsRun(states, steps, env) && k < |steps| && steps[k].Crash?
    requires r in states[k].store.mem.archived && r' in All(states[k + 1].store.mem) && r.id.hash == r'.id.hash
    ensures Lists(steps[k].order, states[k].store.disk.archives)
    ensures Restarted(states[k].store, steps[k].order, r, r') && r' in states[k + 1].store.mem.archived
  {
    var t := RunCopies(states, steps, env, k);
    CrashStore(states[k], t, steps[k], env);
    RestartRival(states[k].store, t, steps[k], r, r', env.chainId, env.winners);
  }
}

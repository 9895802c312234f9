/**
 Memory and disk together. A failed write leaves memory alone, so the active file on disk is always
 the records in memory, or what exactly one failed write wanted them to become.
 */
module JournalStore {
  import opened Common
  import opened JournalModel
  import opened JournalInvariants
  import opened JournalReload

  /** What the last failed write of the active file left on disk, if anything. */
  datatype Torn = Clean | TornAppend(record: Record) | TornUpdate(index: nat, record: Record) | TornCompaction

  ghost predicate Fresh(id: Identity, ids: set<Identity>) {
    forall x <- ids :: x.hash != id.hash && x.quoteId != id.quoteId
  }

  ghost predicate TornOk(v: View, files: Files, t: Torn, chainId: int, w: Winners) {
    match t
    case Clean => true
    case TornAppend(r) =>
      |v.active| < ACTIVE_LIMIT && GoodActive(r, chainId, w) && !r.finalized && !Mined(r.state) && Fresh(r.id, Ids(v))
    case TornUpdate(i, r) =>
      && i < |v.active| && !v.active[i].finalized
      && r.id == v.active[i].id && v.active[i].version < r.version && GoodActive(r, chainId, w)
    case TornCompaction =>
      Batch(v) != [] && NameOf(Batch(v)) in files && files[NameOf(Batch(v))] == Batch(v)
  }

  /** The view that a crash now would bring back. */
  ghost function Shadow(v: View, t: Torn): View {
    match t
    case Clean => v
    case TornAppend(r) => v.(active := v.active + [r])
    case TornUpdate(i, r) => if i < |v.active| then v.(active := v.active[i := r]) else v
    case TornCompaction => Compacted(v)
  }

  ghost function TornIds(t: Torn): set<Identity> {
    if t.TornAppend? then {t.record.id} else {}
  }

  ghost predicate StoreInv(s: Store, t: Torn, chainId: int, w: Winners) {
    && Inv(s.mem, s.disk.archives, chainId, w)
    && TornOk(s.mem, s.disk.archives, t, chainId, w)
    && s.disk.active == Shadow(s.mem, t).active
  }

  lemma FollowsItself(v: View)
    requires Distinct(v.active)
    ensures Follows(v, v)
  {
    forall x <- v.active, y <- v.active | x.id.hash == y.id.hash ensures x == y {
      SameInDistinct(v.active, x, y);
    }
  }

  lemma ShadowKeeps(v: View, files: Files, t: Torn, chainId: int, w: Winners)
    requires Inv(v, files, chainId, w) && TornOk(v, files, t, chainId, w)
    ensures var v' := Shadow(v, t);
      Inv(v', files, chainId, w) && Follows(v, v') && Ids(v') == Ids(v) + TornIds(t)
  {
    match t
    case Clean => FollowsItself(v);
    case TornAppend(r) => AppendKeeps(v, r, files, chainId, w);
    case TornUpdate(i, r) => UpdateKeeps(v, i, r, files, chainId, w);
    case TornCompaction => CompactionKeeps(v, files, chainId, w);
  }

  // ---- No gap --------------------------------------------------------------------------------

  ghost predicate OnDisk(id: Identity, disk: Disk) {
    id in IdsOf(disk.active) || exists name <- disk.archives :: id in IdsOf(disk.archives[name])
  }

  lemma NothingMissing(s: Store, t: Torn, chainId: int, w: Winners)
    requires StoreInv(s, t, chainId, w)
    ensures forall id <- Ids(s.mem) :: OnDisk(id, s.disk)
  {
    var v := Shadow(s.mem, t);
    ShadowKeeps(s.mem, s.disk.archives, t, chainId, w);
    var d := DigestOf(v);
    forall id <- Ids(s.mem) ensures OnDisk(id, s.disk) {
      assert id in Ids(v);
      if id !in IdsOf(v.active) {
        assert id in d.archived;
        assert Filed(id, d, s.disk.archives);
      }
    }
  }

  // ---- Each operation ------------------------------------------------------------------------

  /** The memory that follows when the change `t'` of the active file was written as `write` says. */
  ghost function AfterWrite(v: View, t': Torn, write: Write): View {
    if write.Done? then Shadow(v, t') else v
  }

  ghost function TornBy(t: Torn, t': Torn, write: Write): Torn {
    match write
    case Done => Clean
    case FailedOld => t
    case FailedNew => t'
  }

  /** One write of the active file keeps the invariant, however it ends. */
  lemma WriteKeeps(s: Store, t: Torn, t': Torn, write: Write, chainId: int, w: Winners)
    requires StoreInv(s, t, chainId, w) && TornOk(s.mem, s.disk.archives, t', chainId, w)
    ensures var s' := Store(AfterWrite(s.mem, t', write), Save(s, Shadow(s.mem, t').active, write).disk);
      && StoreInv(s', TornBy(t, t', write), chainId, w)
      && Follows(s.mem, s'.mem)
      && Ids(s'.mem) == Ids(s.mem) + (if write.Done? then TornIds(t') else {})
  {
    ShadowKeeps(s.mem, s.disk.archives, t', chainId, w);
    FollowsItself(s.mem);
  }

  lemma AppendStore(s: Store, t: Torn, r: Record, write: Write, chainId: int, w: Winners) returns (t': Torn)
    requires StoreInv(s, t, chainId, w)
    requires GoodActive(r.(version := 1), chainId, w) && !r.finalized && !Mined(r.state) && Fresh(r.id, Ids(s.mem))
    ensures var (s', result) := Append(s, r, chainId, write);
      && StoreInv(s', t', chainId, w) && Follows(s.mem, s'.mem)
      && Ids(s'.mem) == Ids(s.mem) + (if result.Appended? then {r.id} else {})
      && (t' == t || t' == Clean || (t' == TornAppend(r.(version := 1)) && result == AppendFailed))
      && (if result.Appended? then t' == Clean && s'.mem == s.mem.(active := s.mem.active + [r.(version := 1)])
          else s'.mem == s.mem)
  {
    var change := TornAppend(r.(version := 1));
    if |s.mem.active| < ACTIVE_LIMIT {
      t' := TornBy(t, change, write);
      WriteKeeps(s, t, change, write, chainId, w);
    } else {
      t' := t;
      FollowsItself(s.mem);
    }
  }

  /** A version that still matches stands for a record that is not final yet. */
  ghost predicate OpenAt(v: View, id: Identity, version: nat) {
    forall r <- v.active :: r.id.hash == id.hash && r.version == version ==> !r.finalized
  }

  ghost predicate LegalObservation(o: Observation, id: Identity, w: Winners) {
    o.finalized ==> Mined(o.state) && Won(w, id)
  }

  lemma UpdateStore(s: Store, t: Torn, id: Identity, expected: nat, o: Observation, write: Write, chainId: int,
                    w: Winners)
    returns (t': Torn)
    requires StoreInv(s, t, chainId, w)
    requires id in Ids(s.mem) && OpenAt(s.mem, id, expected) && LegalObservation(o, id, w)
    ensures var (s', result) := Update(s, id.hash, expected, o, write);
      && StoreInv(s', t', chainId, w) && Follows(s.mem, s'.mem) && Ids(s'.mem) == Ids(s.mem)
      && (t' == t || t' == Clean || (t'.TornUpdate? && t'.record.id == id && t'.record.state == o.state))
  {
    t' := t;
    var i := LastIndex(s.mem.active, id.hash);
    if i < |s.mem.active| && s.mem.active[i].version == expected && !Unchanged(s.mem.active[i], o) {
      var change := UpdateChange(s.mem, s.disk.archives, i, id, expected, o, chainId, w);
      t' := TornBy(t, change, write);
      UpdateWritten(s, t, i, Observed(s.mem.active[i], o), write, chainId, w);
    } else {
      FollowsItself(s.mem);
    }
  }

  lemma UpdateWritten(s: Store, t: Torn, i: nat, r: Record, write: Write, chainId: int, w: Winners)
    requires StoreInv(s, t, chainId, w) && TornOk(s.mem, s.disk.archives, TornUpdate(i, r), chainId, w)
    ensures var s' := Save(s, s.mem.active[i := r], write);
      && StoreInv(s', TornBy(t, TornUpdate(i, r), write), chainId, w)
      && Follows(s.mem, s'.mem) && Ids(s'.mem) == Ids(s.mem)
  {
    WriteKeeps(s, t, TornUpdate(i, r), write, chainId, w);
  }

  /** An update rewrites the addressed record only. */
  lemma UpdateMembers(s: Store, hash: Hash, expected: nat, o: Observation, write: Write)
    ensures var s' := Update(s, hash, expected, o, write).0;
      && s'.mem.archived == s.mem.archived
      && (forall r <- s'.mem.active :: r in s.mem.active || (r.id.hash == hash && r.state == o.state))
  {
    var i := LastIndex(s.mem.active, hash);
    if i < |s.mem.active| {
      var next := s.mem.active[i := Observed(s.mem.active[i], o)];
      forall r <- next ensures r in s.mem.active || r == next[i] {
        var j :| 0 <= j < |next| && next[j] == r;
      }
    }
  }

  lemma UpdateChange(v: View, files: Files, i: nat, id: Identity, expected: nat, o: Observation, chainId: int,
                     w: Winners)
    returns (change: Torn)
    requires ViewInv(v, chainId, w) && i < |v.active|
    requires v.active[i].id.hash == id.hash && v.active[i].version == expected
    requires id in Ids(v) && OpenAt(v, id, expected) && LegalObservation(o, id, w)
    ensures change == TornUpdate(i, Observed(v.active[i], o)) && v.active[i].id == id
    ensures TornOk(v, files, change, chainId, w)
  {
    var r := v.active[i];
    assert r in v.active && r.id in Ids(v);
    SameIdentity(v, r.id, id);
    change := TornUpdate(i, Observed(r, o));
  }

  /** What compaction leaves torn. */
  ghost function ArchiveTorn(s: Store, t: Torn, w1: Write, w2: Write): Torn {
    if |s.mem.active| < ARCHIVE_THRESHOLD || Batch(s.mem) == [] || !w1.Done? then t else TornBy(t, TornCompaction, w2)
  }

  lemma ArchiveStore(s: Store, t: Torn, w1: Write, w2: Write, chainId: int, w: Winners) returns (t': Torn)
    requires StoreInv(s, t, chainId, w)
    ensures var (s', result) := Archive(s, w1, w2);
      && StoreInv(s', t', chainId, w) && Follows(s.mem, s'.mem) && Ids(s'.mem) == Ids(s.mem)
      && t' == ArchiveTorn(s, t, w1, w2)
      && (forall r :: r in All(s'.mem) && Mined(r.state) ==> r in All(s.mem))
  {
    t' := t;
    var batch := Batch(s.mem);
    if ARCHIVE_THRESHOLD <= |s.mem.active| && batch != [] && !w1.FailedOld? {
      FilingKeeps(s.mem, s.disk.archives, chainId, w);
      var filed := Store(s.mem, s.disk.(archives := s.disk.archives[NameOf(batch) := batch]));
      assert StoreInv(filed, t, chainId, w);
      FollowsItself(s.mem);
      if w1.Done? {
        t' := TornBy(t, TornCompaction, w2);
        WriteKeeps(filed, t, TornCompaction, w2, chainId, w);
        if w2.Done? {
          CompactionMined(s.mem, chainId, w);
        }
      }
    } else {
      FollowsItself(s.mem);
    }
  }

  lemma CompactionMined(v: View, chainId: int, w: Winners)
    requires ViewInv(v, chainId, w)
    ensures forall r :: r in All(Compacted(v)) && Mined(r.state) ==> r in All(v)
  {
    BatchIsDue(v);
    BatchGood(v, chainId, w);
    forall r | r in All(Compacted(v)) && Mined(r.state) ensures r in All(v) {
      if r in Batch(v) {
        assert FinalMined(r) && r in All(Compacted(v));
      }
    }
  }

  lemma ReloadShadow(s: Store, t: Torn, order: seq<ArchiveName>, chainId: int, w: Winners)
    requires StoreInv(s, t, chainId, w) && Lists(order, s.disk.archives)
    ensures var v, result := Shadow(s.mem, t), Load(s.disk, chainId, order);
      && Follows(s.mem, v) && Ids(v) == Ids(s.mem) + TornIds(t)
      && result.Loaded? && SameView(v, result.view) && Inv(result.view, s.disk.archives, chainId, w)
      && Follows(v, result.view) && Ids(result.view) == Ids(v)
  {
    var v := Shadow(s.mem, t);
    ShadowKeeps(s.mem, s.disk.archives, t, chainId, w);
    assert s.disk == Disk(v.active, s.disk.archives);
    LoadKeeps(v, s.disk.archives, order, chainId, w);
  }

  lemma ReloadStore(s: Store, t: Torn, order: seq<ArchiveName>, chainId: int, w: Winners)
    requires StoreInv(s, t, chainId, w) && Lists(order, s.disk.archives)
    ensures var result := Load(s.disk, chainId, order);
      && result.Loaded?
      && StoreInv(Store(result.view, s.disk), Clean, chainId, w)
      && SameView(Shadow(s.mem, t), result.view)
      && Follows(s.mem, result.view)
      && Ids(result.view) == Ids(s.mem) + TornIds(t)
  {
    ReloadShadow(s, t, order, chainId, w);
    FollowsTransitive(s.mem, Shadow(s.mem, t), Load(s.disk, chainId, order).view);
  }
}

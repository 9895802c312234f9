/**
 What every journal operation keeps: one record per hash and per quote, archive files that can be
 overwritten without loss, finalized results that never change, and versions that grow.
 `Winners` maps a nonce to the one transaction that the chain can ever finalize at it (Finality.dfy
 proves that there is at most one).
 */
module JournalInvariants {
  import opened JournalModel

  type Winners = map<nat, Hash>
  type Files = map<ArchiveName, seq<Record>>

  predicate Won(w: Winners, id: Identity) {
    id.nonce in w && w[id.nonce] == id.hash
  }

  ghost predicate Distinct(rs: seq<Record>) {
    forall i, j :: 0 <= i < j < |rs| ==>
      rs[i].id.hash != rs[j].id.hash && rs[i].id.quoteId != rs[j].id.quoteId
  }

  ghost predicate Apart(a: seq<Record>, b: seq<Record>) {
    forall r <- a, r' <- b :: r.id.hash != r'.id.hash && r.id.quoteId != r'.id.quoteId
  }

  predicate GoodRecord(r: Record, chainId: int) {
    ValidRecord(r, chainId) && 1 <= r.version && r.id.signed.nonce == r.id.nonce
  }

  predicate GoodActive(r: Record, chainId: int, w: Winners) {
    GoodRecord(r, chainId) && (r.finalized ==> Mined(r.state) && Won(w, r.id))
  }

  /** What the archive files need to know about a view: the identities it holds and has archived,
      those due for the next compaction, and its finalized results. */
  datatype Digest = Digest(
    ids: set<Identity>, archived: set<Identity>, due: set<Identity>, final: set<Record>, finalNonces: set<nat>)

  ghost function DigestOf(v: View): Digest {
    Digest(
      Ids(v),
      IdsOf(v.archived),
      set i | 0 <= i < |v.active| && Archivable(v, i) :: v.active[i].id,
      set r <- All(v) | FinalMined(r),
      set r <- All(v) | FinalMined(r) :: r.id.nonce)
  }

  /** A record in an archive: the winner of its nonce, or a rival sealed as replaced. */
  ghost predicate GoodArchived(r: Record, d: Digest, chainId: int, w: Winners) {
    && GoodRecord(r, chainId)
    && r.finalized
    && (if Mined(r.state) then Won(w, r.id) && r in d.final
        else r.state == Replaced && !Won(w, r.id) && r.id.nonce in d.finalNonces && r.id in d.ids)
  }

  ghost predicate ViewInv(v: View, chainId: int, w: Winners) {
    && |v.active| <= ACTIVE_LIMIT
    && Distinct(v.active) && Distinct(v.archived) && Apart(v.archived, v.active)
    && (forall r <- v.active :: GoodActive(r, chainId, w))
    && (forall r <- v.archived :: GoodArchived(r, DigestOf(v), chainId, w))
  }

  /** A file is either waiting (all of it is still active and due) or settled (all of it archived). */
  ghost predicate GoodFile(name: ArchiveName, file: seq<Record>, d: Digest, chainId: int, w: Winners) {
    && file != [] && NameOf(file) == name
    && (forall r <- file :: GoodArchived(r, d, chainId, w))
    && (IdsOf(file) <= d.due || IdsOf(file) <= d.archived)
  }

  ghost predicate Filed(id: Identity, d: Digest, files: Files) {
    exists name <- files :: IdsOf(files[name]) <= d.archived && id in IdsOf(files[name])
  }

  ghost predicate FilesInv(d: Digest, files: Files, chainId: int, w: Winners) {
    && (forall name <- files :: GoodFile(name, files[name], d, chainId, w))
    && (forall id <- d.archived :: Filed(id, d, files))
  }

  ghost predicate Inv(v: View, files: Files, chainId: int, w: Winners) {
    ViewInv(v, chainId, w) && FilesInv(DigestOf(v), files, chainId, w)
  }

  ghost predicate VersionsFollow(a: seq<Record>, b: seq<Record>) {
    forall r <- a, r' <- b :: r.id.hash == r'.id.hash ==>
      r.version <= r'.version && (r.version == r'.version ==> r == r')
  }

  /** What a later view owes an earlier one: it forgets nothing, it keeps finalized results as they
      are, versions grow with every change, and no archived record becomes active again. */
  ghost predicate Follows(v: View, v': View) {
    && Ids(v) <= Ids(v')
    && (forall r <- All(v) :: FinalMined(r) ==> r in All(v'))
    && VersionsFollow(v.active, v'.active)
    && IdsOf(v'.active) * Ids(v) <= IdsOf(v.active)
  }

  // ---- Identities ------------------------------------------------------------------------

  lemma SameInDistinct(rs: seq<Record>, r: Record, r': Record)
    requires Distinct(rs) && r in rs && r' in rs
    requires r.id.hash == r'.id.hash || r.id.quoteId == r'.id.quoteId
    ensures r == r'
  {
    var i :| 0 <= i < |rs| && rs[i] == r;
    var j :| 0 <= j < |rs| && rs[j] == r';
    if i < j { } else if j < i { }
  }

  lemma SameIdentity(v: View, a: Identity, b: Identity)
    requires Distinct(v.active) && Distinct(v.archived) && Apart(v.archived, v.active)
    requires a in Ids(v) && b in Ids(v)
    requires a.hash == b.hash || a.quoteId == b.quoteId
    ensures a == b
  {
    var r :| (r in v.active || r in v.archived) && r.id == a;
    var r' :| (r' in v.active || r' in v.archived) && r'.id == b;
    if r in v.active && r' in v.active {
      SameInDistinct(v.active, r, r');
    } else if r in v.archived && r' in v.archived {
      SameInDistinct(v.archived, r, r');
    }
  }

  lemma DistinctConcat(a: seq<Record>, b: seq<Record>)
    requires Distinct(a) && Distinct(b) && Apart(a, b)
    ensures Distinct(a + b)
  {
    var c := a + b;
    forall i, j | 0 <= i < j < |c|
      ensures c[i].id.hash != c[j].id.hash && c[i].id.quoteId != c[j].id.quoteId
    {
      if i < |a| <= j {
        assert a[i] in a && b[j - |a|] in b;
      }
    }
  }

  lemma FollowsTransitive(a: View, b: View, c: View)
    requires Follows(a, b) && Follows(b, c)
    requires Distinct(c.active) && Distinct(c.archived) && Apart(c.archived, c.active)
    ensures Follows(a, c)
  {
    forall r <- a.active, r'' <- c.active | r.id.hash == r''.id.hash
      ensures r.version <= r''.version && (r.version == r''.version ==> r == r'')
    {
      assert r.id in Ids(b) && r''.id in Ids(c);
      SameIdentity(c, r.id, r''.id);
      assert r''.id in IdsOf(b.active);
      var r' :| r' in b.active && r'.id == r''.id;
    }
    forall id | id in IdsOf(c.active) * Ids(a) ensures id in IdsOf(a.active) {
      assert id in IdsOf(b.active);
    }
  }

  // ---- Files -----------------------------------------------------------------------------

  /** Files stay good while the archive is the same and everything else only grows. */
  lemma FilesGrow(d: Digest, d': Digest, files: Files, chainId: int, w: Winners)
    requires FilesInv(d, files, chainId, w)
    requires d'.archived == d.archived && d.ids <= d'.ids && d.due <= d'.due
    requires d.final <= d'.final && d.finalNonces <= d'.finalNonces
    ensures FilesInv(d', files, chainId, w)
  {
    forall name <- files ensures GoodFile(name, files[name], d', chainId, w) {
      assert GoodFile(name, files[name], d, chainId, w);
    }
    forall id <- d'.archived ensures Filed(id, d', files) {
      assert Filed(id, d, files);
    }
  }

  /** When everything due is archived, all files settle. */
  lemma FilesSettle(d: Digest, d': Digest, files: Files, batch: seq<Record>, chainId: int, w: Winners)
    requires FilesInv(d, files, chainId, w)
    requires batch != [] && NameOf(batch) in files && files[NameOf(batch)] == batch
    requires IdsOf(batch) == d.due
    requires d'.archived == d.archived + d.due && d'.ids == d.ids
    requires d'.final == d.final && d'.finalNonces == d.finalNonces
    ensures FilesInv(d', files, chainId, w)
    ensures forall name <- files :: IdsOf(files[name]) <= d'.archived
  {
    forall name <- files ensures GoodFile(name, files[name], d', chainId, w) && IdsOf(files[name]) <= d'.archived {
      assert GoodFile(name, files[name], d, chainId, w);
    }
    forall id <- d'.archived ensures Filed(id, d', files) {
      if id in d.archived {
        assert Filed(id, d, files);
      } else {
        assert id in IdsOf(files[NameOf(batch)]);
      }
    }
  }

  /** A file that the batch overwrites is still waiting, so the batch holds every record of it. */
  lemma FilesOverwrite(d: Digest, files: Files, batch: seq<Record>, chainId: int, w: Winners)
    requires FilesInv(d, files, chainId, w)
    requires batch != [] && IdsOf(batch) == d.due
    requires forall r <- batch :: GoodArchived(r, d, chainId, w)
    requires forall a <- d.archived :: a.hash != batch[0].id.hash
    ensures FilesInv(d, files[NameOf(batch) := batch], chainId, w)
    ensures NameOf(batch) in files ==> IdsOf(files[NameOf(batch)]) <= IdsOf(batch)
  {
    var name := NameOf(batch);
    var files' := files[name := batch];
    if name in files {
      assert GoodFile(name, files[name], d, chainId, w);
      assert files[name][0].id in IdsOf(files[name]);
    }
    assert GoodFile(name, batch, d, chainId, w);
    forall n <- files' ensures GoodFile(n, files'[n], d, chainId, w) {
      if n != name {
        assert GoodFile(n, files[n], d, chainId, w);
      }
    }
    forall id <- d.archived ensures Filed(id, d, files') {
      assert Filed(id, d, files);
      var n :| n in files && IdsOf(files[n]) <= d.archived && id in IdsOf(files[n]);
      assert n != name;
      assert n in files' && files'[n] == files[n];
    }
  }

  // ---- Growing the view ------------------------------------------------------------------

  /** A change that keeps the archive, the identity at every place and every finalized record. */
  ghost predicate Extends(v: View, v': View) {
    && v'.archived == v.archived
    && |v.active| <= |v'.active|
    && (forall i | 0 <= i < |v.active| :: v'.active[i].id == v.active[i].id)
    && (forall i | 0 <= i < |v.active| :: v.active[i].finalized ==> v'.active[i] == v.active[i])
  }

  lemma ExtendsDigest(v: View, v': View)
    requires Extends(v, v')
    ensures var d, d' := DigestOf(v), DigestOf(v');
      d'.archived == d.archived && d.ids <= d'.ids && d.due <= d'.due
      && d.final <= d'.final && d.finalNonces <= d'.finalNonces
  {
    forall i | 0 <= i < |v.active| ensures v.active[i].id in IdsOf(v'.active) {
      assert v'.active[i] in v'.active;
    }
    assert IdsOf(v.active) <= IdsOf(v'.active);
    forall r | r in All(v) && FinalMined(r) ensures r in All(v') {
      if r in v.active {
        var i :| 0 <= i < |v.active| && v.active[i] == r;
        assert v'.active[i] in v'.active;
      }
    }
    forall i | 0 <= i < |v.active| && Archivable(v, i) ensures v'.active[i].id in DigestOf(v').due {
      if NonceFinal(v, v.active[i].id.nonce) {
        var r :| r in All(v) && r.id.nonce == v.active[i].id.nonce && FinalMined(r);
        assert r in All(v');
      }
      assert Archivable(v', i);
    }
  }

  lemma ExtendsKeeps(v: View, v': View, files: Files, chainId: int, w: Winners)
    requires Inv(v, files, chainId, w) && Extends(v, v')
    requires |v'.active| <= ACTIVE_LIMIT && Distinct(v'.active) && Apart(v'.archived, v'.active)
    requires forall r <- v'.active :: GoodActive(r, chainId, w)
    ensures Inv(v', files, chainId, w)
    ensures Ids(v) <= Ids(v')
    ensures forall r <- All(v) :: FinalMined(r) ==> r in All(v')
  {
    ExtendsDigest(v, v');
    var d, d' := DigestOf(v), DigestOf(v');
    FilesGrow(d, d', files, chainId, w);
    forall r <- v'.archived ensures GoodArchived(r, d', chainId, w) {
      assert GoodArchived(r, d, chainId, w);
    }
    forall r <- All(v) | FinalMined(r) ensures r in All(v') {
      assert r in d.final;
    }
  }

  lemma AppendKeeps(v: View, r: Record, files: Files, chainId: int, w: Winners)
    requires Inv(v, files, chainId, w)
    requires |v.active| < ACTIVE_LIMIT
    requires GoodActive(r, chainId, w)
    requires forall id <- Ids(v) :: id.hash != r.id.hash && id.quoteId != r.id.quoteId
    ensures var v' := v.(active := v.active + [r]);
      Inv(v', files, chainId, w) && Follows(v, v') && Ids(v') == Ids(v) + {r.id}
  {
    var v' := v.(active := v.active + [r]);
    assert forall x | x in v.active || x in v.archived :: x.id in Ids(v);
    DistinctConcat(v.active, [r]);
    ExtendsKeeps(v, v', files, chainId, w);
    assert IdsOf(v'.active) == IdsOf(v.active) + {r.id};
    forall x <- v.active, y <- v'.active | x.id.hash == y.id.hash ensures x == y {
      if y in v.active {
        SameInDistinct(v.active, x, y);
      }
    }
  }

  lemma UpdateIds(rs: seq<Record>, i: nat, r: Record)
    requires i < |rs| && r.id == rs[i].id
    ensures IdsOf(rs[i := r]) == IdsOf(rs)
  {
    var next := rs[i := r];
    forall j | 0 <= j < |next| ensures next[j].id in IdsOf(rs) && rs[j].id in IdsOf(next) {
      assert rs[j] in rs && next[j] in next;
    }
  }

  lemma UpdateVersions(rs: seq<Record>, i: nat, r: Record)
    requires Distinct(rs)
    requires i < |rs| && r.id == rs[i].id && rs[i].version < r.version
    ensures VersionsFollow(rs, rs[i := r]) && Distinct(rs[i := r])
  {
    var next := rs[i := r];
    forall x <- rs, y <- next | x.id.hash == y.id.hash
      ensures x.version <= y.version && (x.version == y.version ==> x == y)
    {
      var j :| 0 <= j < |next| && next[j] == y;
      SameInDistinct(rs, x, rs[j]);
    }
  }

  lemma UpdateKeeps(v: View, i: nat, r: Record, files: Files, chainId: int, w: Winners)
    requires Inv(v, files, chainId, w)
    requires i < |v.active| && !v.active[i].finalized
    requires r.id == v.active[i].id && v.active[i].version < r.version
    requires GoodActive(r, chainId, w)
    ensures var v' := v.(active := v.active[i := r]);
      Inv(v', files, chainId, w) && Follows(v, v') && Ids(v') == Ids(v)
  {
    var v' := v.(active := v.active[i := r]);
    UpdateIds(v.active, i, r);
    UpdateVersions(v.active, i, r);
    assert Apart(v'.archived, v'.active) by {
      forall a <- v'.archived, b <- v'.active ensures a.id.hash != b.id.hash && a.id.quoteId != b.id.quoteId {
        assert b.id in IdsOf(v.active);
        var b' :| b' in v.active && b'.id == b.id;
      }
    }
    ExtendsKeeps(v, v', files, chainId, w);
  }

  // ---- Compaction ------------------------------------------------------------------------

  /** Where the records of a partial batch and of a partial remainder come from. */
  lemma {:induction false} SplitMembers(v: View, n: nat)
    requires n <= |v.active|
    ensures forall r <- BatchTo(v, n) :: exists i | 0 <= i < n :: r == Sealed(v.active[i]) && Archivable(v, i)
    ensures forall i | 0 <= i < n && Archivable(v, i) :: Sealed(v.active[i]) in BatchTo(v, n)
    ensures forall r <- KeptTo(v, n) :: exists i | 0 <= i < n :: r == v.active[i] && !Archivable(v, i)
    ensures forall i | 0 <= i < n && !Archivable(v, i) :: v.active[i] in KeptTo(v, n)
  {
    if n > 0 {
      SplitMembers(v, n - 1);
      forall r <- BatchTo(v, n) ensures exists i | 0 <= i < n :: r == Sealed(v.active[i]) && Archivable(v, i) {
        if r in BatchTo(v, n - 1) {
          var i :| 0 <= i < n - 1 && r == Sealed(v.active[i]) && Archivable(v, i);
        } else {
          assert r == Sealed(v.active[n - 1]);
        }
      }
      forall r <- KeptTo(v, n) ensures exists i | 0 <= i < n :: r == v.active[i] && !Archivable(v, i) {
        if r in KeptTo(v, n - 1) {
          var i :| 0 <= i < n - 1 && r == v.active[i] && !Archivable(v, i);
        } else {
          assert r == v.active[n - 1];
        }
      }
    }
  }

  lemma {:induction false} SplitDistinct(v: View, n: nat)
    requires n <= |v.active| && Distinct(v.active)
    ensures Distinct(BatchTo(v, n)) && Distinct(KeptTo(v, n)) && Apart(BatchTo(v, n), KeptTo(v, n))
    ensures |BatchTo(v, n)| + |KeptTo(v, n)| == n
  {
    if n > 0 {
      SplitDistinct(v, n - 1);
      SplitMembers(v, n - 1);
      var last := v.active[n - 1];
      forall r | r in BatchTo(v, n - 1) || r in KeptTo(v, n - 1)
        ensures r.id.hash != last.id.hash && r.id.quoteId != last.id.quoteId
      {
        if r in BatchTo(v, n - 1) {
          var i :| 0 <= i < n - 1 && r == Sealed(v.active[i]);
        }
      }
      if Archivable(v, n - 1) {
        DistinctConcat(BatchTo(v, n - 1), [Sealed(last)]);
      } else {
        DistinctConcat(KeptTo(v, n - 1), [last]);
      }
    }
  }

  /** The batch takes exactly what is due, and the rest stays as it was. */
  lemma BatchIsDue(v: View)
    requires Distinct(v.active)
    ensures IdsOf(Batch(v)) == DigestOf(v).due <= IdsOf(v.active)
    ensures forall r :: r in Compacted(v).active <==> r in v.active && r.id !in IdsOf(Batch(v))
    ensures Distinct(Batch(v)) && Distinct(Compacted(v).active) && |Compacted(v).active| + |Batch(v)| == |v.active|
  {
    SplitMembers(v, |v.active|);
    SplitDistinct(v, |v.active|);
    forall id <- IdsOf(Batch(v)) ensures id in DigestOf(v).due && id in IdsOf(v.active) {
      var r :| r in Batch(v) && r.id == id;
      var i :| 0 <= i < |v.active| && r == Sealed(v.active[i]) && Archivable(v, i);
      assert v.active[i] in v.active;
    }
    forall id <- DigestOf(v).due ensures id in IdsOf(Batch(v)) {
      var i :| 0 <= i < |v.active| && Archivable(v, i) && v.active[i].id == id;
      assert Sealed(v.active[i]) in Batch(v);
    }
    forall r <- v.active | r.id !in IdsOf(Batch(v)) ensures r in Compacted(v).active {
      var i :| 0 <= i < |v.active| && v.active[i] == r;
      assert Archivable(v, i) ==> Sealed(r) in Batch(v);
    }
  }

  /** Sealing a record that is due for compaction gives a good archive record. */
  lemma SealGood(v: View, i: nat, chainId: int, w: Winners)
    requires ViewInv(v, chainId, w)
    requires i < |v.active| && Archivable(v, i)
    ensures GoodArchived(Sealed(v.active[i]), DigestOf(v), chainId, w)
    ensures FinalMined(Sealed(v.active[i])) ==> Sealed(v.active[i]) == v.active[i]
  {
    var r := v.active[i];
    assert r in v.active;
    if !r.finalized {
      var win :| win in All(v) && win.id.nonce == r.id.nonce && FinalMined(win);
      assert Won(w, win.id);
      if Won(w, r.id) {
        assert win !in v.archived;
        SameInDistinct(v.active, win, r);
        assert false;
      }
    }
  }

  lemma BatchGood(v: View, chainId: int, w: Winners)
    requires ViewInv(v, chainId, w)
    ensures forall r <- Batch(v) :: GoodArchived(r, DigestOf(v), chainId, w)
    ensures forall r :: r in All(Compacted(v)) && FinalMined(r) <==> r in All(v) && FinalMined(r)
  {
    SplitMembers(v, |v.active|);
    forall r <- Batch(v) ensures GoodArchived(r, DigestOf(v), chainId, w) && (FinalMined(r) ==> r in v.active) {
      var i :| 0 <= i < |v.active| && r == Sealed(v.active[i]) && Archivable(v, i);
      SealGood(v, i, chainId, w);
    }
    forall r <- v.active | FinalMined(r) ensures r in All(Compacted(v)) {
      var i :| 0 <= i < |v.active| && v.active[i] == r;
      if Archivable(v, i) {
        assert Sealed(r) == r;
      }
    }
  }

  /** Writing the batch keeps the invariant and loses no record of a file it overwrites. */
  lemma FilingKeeps(v: View, files: Files, chainId: int, w: Winners)
    requires Inv(v, files, chainId, w)
    requires Batch(v) != []
    ensures Inv(v, files[NameOf(Batch(v)) := Batch(v)], chainId, w)
    ensures NameOf(Batch(v)) in files ==> IdsOf(files[NameOf(Batch(v))]) <= IdsOf(Batch(v))
  {
    BatchIsDue(v);
    BatchGood(v, chainId, w);
    var first := Batch(v)[0].id;
    assert first in IdsOf(Batch(v));
    forall a <- DigestOf(v).archived ensures a.hash != first.hash {
      var r :| r in v.archived && r.id == a;
      var r' :| r' in v.active && r'.id == first;
    }
    FilesOverwrite(DigestOf(v), files, Batch(v), chainId, w);
  }

  lemma CompactionDigest(v: View, chainId: int, w: Winners)
    requires ViewInv(v, chainId, w)
    ensures var d, d' := DigestOf(v), DigestOf(Compacted(v));
      d'.archived == d.archived + d.due && d'.ids == d.ids && d'.final == d.final && d'.finalNonces == d.finalNonces
    ensures IdsOf(v.active) == IdsOf(Compacted(v).active) + IdsOf(Batch(v))
  {
    var c := Compacted(v);
    BatchIsDue(v);
    BatchGood(v, chainId, w);
    assert IdsOf(c.archived) == IdsOf(v.archived) + IdsOf(Batch(v));
    assert IdsOf(v.active) == IdsOf(c.active) + IdsOf(Batch(v));
    assert DigestOf(c).final == DigestOf(v).final;
    forall n ensures n in DigestOf(c).finalNonces <==> n in DigestOf(v).finalNonces {
    }
  }

  lemma CompactionApart(v: View)
    requires Distinct(v.active) && Distinct(v.archived) && Apart(v.archived, v.active)
    ensures var c := Compacted(v); Distinct(c.archived) && Apart(c.archived, c.active)
  {
    BatchIsDue(v);
    var batch := Batch(v);
    forall a <- batch, b | b in v.archived || b in Compacted(v).active
      ensures a.id.hash != b.id.hash && a.id.quoteId != b.id.quoteId
    {
      assert a.id in IdsOf(batch);
      var a' :| a' in v.active && a'.id == a.id;
      if b in v.active && (a'.id.hash == b.id.hash || a'.id.quoteId == b.id.quoteId) {
        SameInDistinct(v.active, a', b);
      }
    }
    DistinctConcat(v.archived, batch);
  }

  lemma CompactionKeeps(v: View, files: Files, chainId: int, w: Winners)
    requires Inv(v, files, chainId, w)
    requires Batch(v) != [] && NameOf(Batch(v)) in files && files[NameOf(Batch(v))] == Batch(v)
    ensures var c := Compacted(v);
      Inv(c, files, chainId, w) && Follows(v, c) && Ids(c) == Ids(v)
  {
    var c := Compacted(v);
    var d, d' := DigestOf(v), DigestOf(c);
    CompactionDigest(v, chainId, w);
    BatchIsDue(v);
    FilesSettle(d, d', files, Batch(v), chainId, w);
    CompactionApart(v);
    BatchGood(v, chainId, w);
    forall r <- c.archived ensures GoodArchived(r, d', chainId, w) {
      assert GoodArchived(r, d, chainId, w);
    }
    forall x <- v.active, y <- c.active | x.id.hash == y.id.hash ensures x == y {
      SameInDistinct(v.active, x, y);
    }
  }
}

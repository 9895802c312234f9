/**
 Reloading: whatever a crash leaves on disk loads again, and the view it gives forgets nothing.
 */
module JournalReload {
  import opened JournalModel
  import opened JournalInvariants

  /** Every two identities of the set that share a hash or a quote are the same. */
  ghost predicate Unique(u: set<Identity>) {
    forall a <- u, b <- u :: a.hash == b.hash || a.quoteId == b.quoteId ==> a == b
  }

  /** What merging one or several files may do to a view. */
  ghost predicate Merged(v: View, v': View, taken: set<Record>) {
    && v'.active == v.active
    && Distinct(v'.archived) && Apart(v'.archived, v'.active)
    && (forall r <- v'.archived :: r in v.archived || r in taken)
    && (forall r <- v.archived :: r in v'.archived)
    && (forall r <- taken :: r.id in Ids(v'))
  }

  ghost function Members(rs: seq<Record>): set<Record> {
    set r <- rs
  }

  lemma {:induction false} MergeOne(v: View, file: seq<Record>, u: set<Identity>)
    requires Distinct(v.archived) && Apart(v.archived, v.active)
    requires Unique(u) && Ids(v) <= u && IdsOf(file) <= u
    requires forall r <- file :: 1 <= r.version
    ensures Merged(v, Merge(v, file), Members(file)) && Ids(Merge(v, file)) <= u
  {
    if file != [] {
      var rest := file[..|file| - 1];
      var r := file[|file| - 1];
      assert IdsOf(rest) <= IdsOf(file) && r.id in IdsOf(file);
      MergeOne(v, rest, u);
      var init := Merge(v, rest);
      assert FromDisk(r) == r;
      assert Members(file) == Members(rest) + {r};
      if HasHash(All(init), r.id.hash) {
        var x :| x in All(init) && x.id.hash == r.id.hash;
        assert x.id in Ids(init);
      } else {
        forall x | x in init.archived || x in init.active
          ensures x.id.hash != r.id.hash && x.id.quoteId != r.id.quoteId
        {
          assert x in All(init) && x.id in Ids(init);
        }
        DistinctConcat(init.archived, [r]);
        var done := init.(archived := init.archived + [r]);
        assert IdsOf(done.archived) == IdsOf(init.archived) + {r.id};
      }
    }
  }

  ghost function Taken(files: Files, order: seq<ArchiveName>): set<Record>
    requires forall name <- order :: name in files
  {
    set name <- order, r <- files[name] :: r
  }

  lemma {:induction false} MergeMany(v: View, files: Files, order: seq<ArchiveName>, u: set<Identity>)
    requires Distinct(v.archived) && Apart(v.archived, v.active)
    requires Unique(u) && Ids(v) <= u
    requires forall name <- order :: name in files
    requires forall name <- order :: IdsOf(files[name]) <= u
    requires forall name <- order, r <- files[name] :: 1 <= r.version
    ensures Merged(v, MergeAll(v, files, order), Taken(files, order)) && Ids(MergeAll(v, files, order)) <= u
  {
    if order != [] {
      var rest, last := order[..|order| - 1], order[|order| - 1];
      MergeMany(v, files, rest, u);
      var init := MergeAll(v, files, rest);
      MergeOne(init, files[last], u);
      assert Taken(files, order) == Taken(files, rest) + Members(files[last]);
      var done := Merge(init, files[last]);
      assert IdsOf(init.archived) <= IdsOf(done.archived);
    }
  }

  /** The two views answer alike: same active records, same archived identities, same final results. */
  ghost predicate SameView(v: View, v': View) {
    && v'.active == v.active
    && IdsOf(v'.archived) == IdsOf(v.archived)
    && (forall r :: r in All(v') && FinalMined(r) <==> r in All(v) && FinalMined(r))
  }

  lemma SameViewSameDigest(v: View, v': View)
    requires SameView(v, v')
    ensures DigestOf(v') == DigestOf(v)
    ensures forall n :: NonceFinal(v', n) <==> NonceFinal(v, n)
  {
    forall n ensures NonceFinal(v', n) <==> NonceFinal(v, n) {
      if NonceFinal(v', n) {
        var r :| r in All(v') && r.id.nonce == n && FinalMined(r);
        assert r in All(v);
      }
      if NonceFinal(v, n) {
        var r :| r in All(v) && r.id.nonce == n && FinalMined(r);
        assert r in All(v');
      }
    }
    assert DigestOf(v').final == DigestOf(v).final;
    assert DigestOf(v').finalNonces == DigestOf(v).finalNonces;
    forall i | 0 <= i < |v.active| ensures Archivable(v', i) <==> Archivable(v, i) { }
    assert DigestOf(v').due == DigestOf(v).due;
  }

  /** The record with this identity in a good file is the finalized one, if there is one. */
  lemma FiledCopy(v: View, r: Record, copy: Record, chainId: int, w: Winners)
    requires ViewInv(v, chainId, w)
    requires r in v.archived && Mined(r.state) && copy.id == r.id
    requires GoodArchived(copy, DigestOf(v), chainId, w)
    ensures copy == r
  {
    assert Won(w, r.id);
    assert copy in All(v);
    if copy in v.active {
      assert false;
    }
    SameInDistinct(v.archived, copy, r);
  }

  ghost predicate Lists(order: seq<ArchiveName>, files: Files) {
    (forall name <- order :: name in files) && (forall name <- files :: name in order)
  }

  lemma LoadMerges(v: View, files: Files, order: seq<ArchiveName>, chainId: int, w: Winners)
    requires Inv(v, files, chainId, w) && Lists(order, files)
    ensures Load(Disk(v.active, files), chainId, order) == Loaded(MergeAll(View(v.active, []), files, order))
    ensures Merged(View(v.active, []), MergeAll(View(v.active, []), files, order), Taken(files, order))
    ensures forall r <- Taken(files, order) :: GoodArchived(r, DigestOf(v), chainId, w)
  {
    var d := DigestOf(v);
    forall name <- order, r <- files[name] ensures GoodArchived(r, d, chainId, w) && r.id in d.ids {
      assert GoodFile(name, files[name], d, chainId, w);
    }
    forall name <- order ensures LoadableFile(files[name], chainId) { }
    forall a <- Ids(v), b <- Ids(v) | a.hash == b.hash || a.quoteId == b.quoteId ensures a == b {
      SameIdentity(v, a, b);
    }
    MergeMany(View(v.active, []), files, order, Ids(v));
    forall i | 0 <= i < |v.active| ensures Restored(v.active)[i] == v.active[i] {
      assert v.active[i] in v.active;
    }
    assert Restored(v.active) == v.active;
  }

  lemma LoadArchivedIds(v: View, v': View, files: Files, order: seq<ArchiveName>, chainId: int, w: Winners)
    requires Inv(v, files, chainId, w) && Lists(order, files)
    requires Merged(View(v.active, []), v', Taken(files, order))
    ensures IdsOf(v'.archived) == IdsOf(v.archived)
  {
    var d := DigestOf(v);
    BatchIsDue(v);
    forall r <- v'.archived ensures r.id in d.archived {
      var name :| name in order && r in files[name];
      assert GoodFile(name, files[name], d, chainId, w);
      assert r.id in IdsOf(files[name]);
      if IdsOf(files[name]) <= d.due {
        assert false;
      }
    }
    forall id <- d.archived ensures id in IdsOf(v'.archived) {
      assert Filed(id, d, files);
      var name :| name in files && IdsOf(files[name]) <= d.archived && id in IdsOf(files[name]);
      var r :| r in files[name] && r.id == id;
      assert r in Taken(files, order);
      var x :| x in v.archived && x.id == id;
      assert id !in IdsOf(v.active);
    }
  }

  lemma LoadSameView(v: View, v': View, files: Files, order: seq<ArchiveName>, chainId: int, w: Winners)
    requires Inv(v, files, chainId, w) && Lists(order, files)
    requires Merged(View(v.active, []), v', Taken(files, order))
    requires forall r <- Taken(files, order) :: GoodArchived(r, DigestOf(v), chainId, w)
    ensures SameView(v, v')
  {
    LoadArchivedIds(v, v', files, order, chainId, w);
    forall r | r in All(v) && FinalMined(r) ensures r in All(v') {
      if r in v.archived {
        assert r.id in IdsOf(v'.archived);
        var copy :| copy in v'.archived && copy.id == r.id;
        FiledCopy(v, r, copy, chainId, w);
      }
    }
    forall r | r in All(v') && FinalMined(r) ensures r in All(v) {
      if r in v'.archived {
        assert r in DigestOf(v).final;
      }
    }
  }

  /** Reload: no error, every identity and finalized result is back, and the invariant holds. */
  lemma LoadKeeps(v: View, files: Files, order: seq<ArchiveName>, chainId: int, w: Winners)
    requires Inv(v, files, chainId, w) && Lists(order, files)
    ensures var result := Load(Disk(v.active, files), chainId, order);
      result.Loaded? && SameView(v, result.view) && Inv(result.view, files, chainId, w)
      && Follows(v, result.view) && Ids(result.view) == Ids(v)
  {
    LoadMerges(v, files, order, chainId, w);
    var v' := MergeAll(View(v.active, []), files, order);
    LoadSameView(v, v', files, order, chainId, w);
    SameViewSameDigest(v, v');
    assert VersionsFollow(v.active, v'.active) by {
      forall x <- v.active, y <- v.active | x.id.hash == y.id.hash ensures x == y {
        SameInDistinct(v.active, x, y);
      }
    }
  }
}

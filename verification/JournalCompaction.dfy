/**
 Compaction is invisible: neither moving finalized records to an archive nor a crash and reload at
 any point of it changes what the journal answers.
 */
module JournalCompaction {
  import opened Common
  import opened JournalModel
  import opened JournalInvariants
  import opened JournalReload

  function IdentityOf(r: Option<Record>): Option<Identity> {
    if r.Some? then Some(r.value.id) else None
  }

  /** Every question that Send, Retry and History ask gets the same answer from both views. */
  ghost predicate SameAnswers(v: View, v': View) {
    && HasInFlight(v) == HasInFlight(v')
    && (forall n :: NonceMined(v, n) == NonceMined(v', n))
    && RefreshRecords(v) == RefreshRecords(v')
    && (forall n :: |NonceRecords(All(v), n)| == |NonceRecords(All(v'), n)|)
    && (forall q :: IdentityOf(FindQuote(All(v), q)) == IdentityOf(FindQuote(All(v'), q)))
    && (forall h :: IdentityOf(FindHash(All(v), h)) == IdentityOf(FindHash(All(v'), h)))
  }

  // ---- What the answers depend on ----------------------------------------------------------

  ghost function AtNonce(ids: set<Identity>, nonce: nat): set<Identity> {
    set id <- ids | id.nonce == nonce
  }

  lemma AtNonceSnoc(ids: set<Identity>, id: Identity, nonce: nat)
    requires id !in ids
    ensures |AtNonce(ids + {id}, nonce)| == |AtNonce(ids, nonce)| + (if id.nonce == nonce then 1 else 0)
  {
    if id.nonce == nonce {
      assert AtNonce(ids + {id}, nonce) == AtNonce(ids, nonce) + {id};
    } else {
      assert AtNonce(ids + {id}, nonce) == AtNonce(ids, nonce);
    }
  }

  lemma IdsOfSnoc(init: seq<Record>, last: Record)
    requires Distinct(init + [last])
    ensures IdsOf(init + [last]) == IdsOf(init) + {last.id} && last.id !in IdsOf(init) && Distinct(init)
  {
    var rs := init + [last];
    assert forall i | 0 <= i < |init| :: init[i] == rs[i];
    assert rs[|init|] == last;
    assert last in rs;
  }

  lemma {:induction false} NonceRecordsCount(rs: seq<Record>, nonce: nat)
    requires Distinct(rs)
    ensures |NonceRecords(rs, nonce)| == |AtNonce(IdsOf(rs), nonce)|
  {
    if rs != [] {
      var init, last := rs[..|rs| - 1], rs[|rs| - 1];
      assert rs == init + [last];
      IdsOfSnoc(init, last);
      NonceRecordsCount(init, nonce);
      AtNonceSnoc(IdsOf(init), last.id, nonce);
    }
  }

  lemma {:induction false} FindQuoteFinds(rs: seq<Record>, quoteId: QuoteId)
    ensures var found := FindQuote(rs, quoteId);
      if found.Some? then found.value in rs && found.value.id.quoteId == quoteId
      else forall r <- rs :: r.id.quoteId != quoteId
  {
    if rs != [] {
      FindQuoteFinds(rs[1..], quoteId);
      assert rs == [rs[0]] + rs[1..];
    }
  }

  lemma {:induction false} FindHashFinds(rs: seq<Record>, hash: Hash)
    ensures var found := FindHash(rs, hash);
      if found.Some? then found.value in rs && found.value.id.hash == hash
      else forall r <- rs :: r.id.hash != hash
  {
    if rs != [] {
      FindHashFinds(rs[1..], hash);
      assert rs == [rs[0]] + rs[1..];
    }
  }

  ghost predicate UniqueView(v: View) {
    Distinct(v.active) && Distinct(v.archived) && Apart(v.archived, v.active)
  }

  lemma LookupsByIdentity(v: View, v': View, quoteId: QuoteId, hash: Hash)
    requires UniqueView(v) && UniqueView(v') && Ids(v) == Ids(v')
    ensures IdentityOf(FindQuote(All(v), quoteId)) == IdentityOf(FindQuote(All(v'), quoteId))
    ensures IdentityOf(FindHash(All(v), hash)) == IdentityOf(FindHash(All(v'), hash))
  {
    LookupIds(v, quoteId, hash);
    LookupIds(v', quoteId, hash);
  }

  /** A lookup finds the one identity of the view with that quote or hash. */
  lemma LookupIds(v: View, quoteId: QuoteId, hash: Hash)
    requires UniqueView(v)
    ensures var found := IdentityOf(FindQuote(All(v), quoteId));
      forall id <- Ids(v) :: id.quoteId == quoteId ==> found == Some(id)
    ensures FindQuote(All(v), quoteId).Some? ==>
      var id := FindQuote(All(v), quoteId).value.id; id in Ids(v) && id.quoteId == quoteId
    ensures var found := IdentityOf(FindHash(All(v), hash));
      forall id <- Ids(v) :: id.hash == hash ==> found == Some(id)
    ensures FindHash(All(v), hash).Some? ==>
      var id := FindHash(All(v), hash).value.id; id in Ids(v) && id.hash == hash
  {
    FindQuoteFinds(All(v), quoteId);
    FindHashFinds(All(v), hash);
    AllIds(v);
    forall id <- Ids(v) ensures (id.quoteId == quoteId ==> IdentityOf(FindQuote(All(v), quoteId)) == Some(id))
      && (id.hash == hash ==> IdentityOf(FindHash(All(v), hash)) == Some(id))
    {
      var r :| r in All(v) && r.id == id;
      if id.quoteId == quoteId {
        SameIdentity(v, id, FindQuote(All(v), quoteId).value.id);
      }
      if id.hash == hash {
        SameIdentity(v, id, FindHash(All(v), hash).value.id);
      }
    }
  }

  lemma AllIds(v: View)
    ensures IdsOf(All(v)) == Ids(v)
    ensures UniqueView(v) ==> Distinct(All(v))
  {
    if UniqueView(v) {
      DistinctConcat(v.archived, v.active);
    }
  }

  // ---- Views that differ only by what has been compacted away -------------------------------

  ghost predicate Shrinks(v: View, v': View) {
    && Ids(v') == Ids(v)
    && (forall r :: r in All(v') && FinalMined(r) <==> r in All(v) && FinalMined(r))
    && (forall r <- v'.active :: r in v.active)
    && (forall r <- v.active :: r in v'.active || NonceFinal(v, r.id.nonce))
  }

  lemma ShrinksSameNonces(v: View, v': View, nonce: nat, chainId: int, w: Winners)
    requires ViewInv(v, chainId, w) && ViewInv(v', chainId, w) && Shrinks(v, v')
    ensures NonceFinal(v, nonce) == NonceFinal(v', nonce)
    ensures NonceMined(v, nonce) == NonceMined(v', nonce)
  {
    if NonceFinal(v, nonce) {
      var r :| r in All(v) && r.id.nonce == nonce && FinalMined(r);
      assert r in All(v');
    }
    if NonceFinal(v', nonce) {
      var r :| r in All(v') && r.id.nonce == nonce && FinalMined(r);
      assert r in All(v);
    }
    if NonceMined(v, nonce) {
      var r :| r in All(v) && r.id.nonce == nonce && Mined(r.state);
      if r in v.archived {
        assert r in All(v');
      } else if r !in v'.active {
        assert NonceFinal(v', nonce);
      }
    }
    if NonceMined(v', nonce) {
      var r :| r in All(v') && r.id.nonce == nonce && Mined(r.state);
      assert r in All(v);
    }
  }

  lemma FlightByIds(v: View, v': View)
    requires Ids(v) == Ids(v') && (forall n :: NonceMined(v, n) == NonceMined(v', n))
    requires HasInFlight(v)
    ensures HasInFlight(v')
  {
    var r :| r in All(v) && !NonceMined(v, r.id.nonce);
    AllIds(v); AllIds(v');
    assert r.id in IdsOf(All(v'));
    var r' :| r' in All(v') && r'.id == r.id;
  }

  lemma ShrinksSameAnswers(v: View, v': View, chainId: int, w: Winners)
    requires ViewInv(v, chainId, w) && ViewInv(v', chainId, w)
    requires Shrinks(v, v') && RefreshRecords(v) == RefreshRecords(v')
    ensures SameAnswers(v, v')
  {
    forall n ensures NonceMined(v, n) == NonceMined(v', n) && NonceFinal(v, n) == NonceFinal(v', n) {
      ShrinksSameNonces(v, v', n, chainId, w);
    }
    if HasInFlight(v) {
      FlightByIds(v, v');
    }
    if HasInFlight(v') {
      FlightByIds(v', v);
    }
    AllIds(v); AllIds(v');
    forall n ensures |NonceRecords(All(v), n)| == |NonceRecords(All(v'), n)| {
      NonceRecordsCount(All(v), n);
      NonceRecordsCount(All(v'), n);
    }
    forall q: QuoteId ensures IdentityOf(FindQuote(All(v), q)) == IdentityOf(FindQuote(All(v'), q)) {
      LookupsByIdentity(v, v', q, "");
    }
    forall h: Hash ensures IdentityOf(FindHash(All(v), h)) == IdentityOf(FindHash(All(v'), h)) {
      LookupsByIdentity(v, v', "", h);
    }
  }

  // ---- Compaction and reload ----------------------------------------------------------------

  lemma RefreshSnoc(v: View, rs: seq<Record>, r: Record)
    ensures RefreshOf(v, rs + [r]) == (if NeedsRefresh(v, r) then [r] else []) + RefreshOf(v, rs)
  {
    assert (rs + [r])[..|rs|] == rs;
  }

  lemma {:induction false} RefreshSkipsArchivable(v: View, n: nat)
    requires n <= |v.active|
    ensures RefreshOf(v, KeptTo(v, n)) == RefreshOf(v, v.active[..n])
  {
    if n > 0 {
      RefreshSkipsArchivable(v, n - 1);
      assert v.active[..n] == v.active[..n - 1] + [v.active[n - 1]];
      RefreshSnoc(v, v.active[..n - 1], v.active[n - 1]);
      if Archivable(v, n - 1) {
        assert KeptTo(v, n) == KeptTo(v, n - 1);
      } else {
        RefreshSnoc(v, KeptTo(v, n - 1), v.active[n - 1]);
      }
    }
  }

  lemma {:induction false} RefreshByNonces(v: View, v': View, rs: seq<Record>)
    requires forall n :: NonceFinal(v, n) == NonceFinal(v', n)
    ensures RefreshOf(v, rs) == RefreshOf(v', rs)
  {
    if rs != [] {
      RefreshByNonces(v, v', rs[..|rs| - 1]);
    }
  }

  lemma CompactionShrinks(v: View, files: Files, chainId: int, w: Winners)
    requires Inv(v, files, chainId, w) && Batch(v) != []
    requires ViewInv(Compacted(v), chainId, w)
    ensures Shrinks(v, Compacted(v))
  {
    BatchIsDue(v);
    BatchGood(v, chainId, w);
    forall r <- v.active | r !in Compacted(v).active ensures NonceFinal(v, r.id.nonce) {
      assert r.id in DigestOf(v).due;
      var i :| 0 <= i < |v.active| && Archivable(v, i) && v.active[i].id == r.id;
      assert v.active[i] in v.active;
      SameInDistinct(v.active, v.active[i], r);
      assert r in All(v);
    }
  }

  lemma CompactionRefresh(v: View, c: View)
    requires c == Compacted(v) && (forall n :: NonceFinal(v, n) == NonceFinal(c, n))
    ensures RefreshRecords(v) == RefreshRecords(c)
  {
    RefreshSkipsArchivable(v, |v.active|);
    assert v.active[..|v.active|] == v.active;
    RefreshByNonces(v, c, c.active);
  }

  lemma CompactionSameAnswers(v: View, files: Files, chainId: int, w: Winners)
    requires Inv(v, files, chainId, w)
    requires Batch(v) != [] && NameOf(Batch(v)) in files && files[NameOf(Batch(v))] == Batch(v)
    ensures SameAnswers(v, Compacted(v))
  {
    var c := Compacted(v);
    CompactionKeeps(v, files, chainId, w);
    CompactionShrinks(v, files, chainId, w);
    forall n ensures NonceFinal(v, n) == NonceFinal(c, n) {
      ShrinksSameNonces(v, c, n, chainId, w);
    }
    CompactionRefresh(v, c);
    ShrinksSameAnswers(v, c, chainId, w);
  }

  lemma ReloadSameAnswers(v: View, v': View, chainId: int, w: Winners)
    requires ViewInv(v, chainId, w) && ViewInv(v', chainId, w) && SameView(v, v')
    ensures SameAnswers(v, v')
  {
    SameViewSameDigest(v, v');
    RefreshByNonces(v, v', v.active);
    ShrinksSameAnswers(v, v', chainId, w);
  }

  lemma SameAnswersTransitive(a: View, b: View, c: View)
    requires SameAnswers(a, b) && SameAnswers(b, c)
    ensures SameAnswers(a, c)
  {
  }

  lemma SameAnswersSymmetric(a: View, b: View)
    requires SameAnswers(a, b)
    ensures SameAnswers(b, a)
  {
  }
}

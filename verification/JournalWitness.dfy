/**
 Runs from the empty directory in which a promise that one might expect of the journal fails: a record that
 changes without a new version, a version that a restart lowers, a quote that is signed twice.
 */
module JournalWitness {
  import opened Common
  import opened JournalModel
  import opened JournalInvariants
  import opened JournalReload
  import opened JournalCompaction
  import opened Replacement
  import opened JournalProtocol
  import opened JournalTheorems
  import opened JournalVersions
  import opened JournalSigning

  // ---- Reaching a state ------------------------------------------------------------------------------

  ghost predicate EndsIn(states: seq<World>, steps: seq<Step>, s: World, env: Env) {
    IsRun(states, steps, env) && states[|steps|] == s
  }

  ghost predicate Reachable(s: World, env: Env) {
    exists states: seq<World>, steps: seq<Step> :: EndsIn(states, steps, s, env)
  }

  lemma Starts(env: Env)
    ensures Reachable(START, env)
  {
    assert EndsIn([START], [], START, env);
  }

  lemma Reach(s: World, step: Step, s': World, env: Env)
    requires Reachable(s, env) && Takes(s, step, s', env)
    ensures Reachable(s', env)
  {
    var states: seq<World>, steps: seq<Step> :| EndsIn(states, steps, s, env);
    RunGoesOn(states, steps, [s, s'], [step], env);
    assert EndsIn(states + [s, s'][1..], steps + [step], s', env);
  }

  // ---- Single steps ----------------------------------------------------------------------------------

  /** Memory and disk hold the same active records. */
  function With(s: World, active: seq<Record>): World {
    s.(store := Store(s.store.mem.(active := active), s.store.disk.(active := active)))
  }

  lemma NewQuote(s: World, q: Quote, env: Env)
    requires s.send.Idle? && !s.fault && WellFormedQuote(q) && q.original.None?
    ensures Takes(s, QuoteNew(q), s.(quotes := s.quotes[q.id := q]), env)
  {
  }

  lemma AppendRecord(s: World, q: Quote, signed: SignedTx, env: Env)
    requires s.send == Ready(q) && WellFormedQuote(q) && Fits(s.store.mem, q, signed, env.chainId)
    requires |s.store.mem.active| < ACTIVE_LIMIT
    ensures var r := NewRecord(q, signed).(version := 1);
      Takes(s, SendAppend(signed, Done),
            With(s, s.store.mem.active + [r]).(send := Durable(r), entered := s.entered + [r.id]), env)
  {
  }

  lemma NotDelivered(s: World, r: Record, env: Env)
    requires s.send == Durable(r)
    ensures Takes(s, SendBroadcast(false, ""), s.(send := Sent(r, BroadcastResult(""), true)), env)
  {
  }

  lemma {:induction false} LastIndexIs(rs: seq<Record>, p: nat)
    requires p < |rs| && forall j | 0 <= j < |rs| && j != p :: rs[j].id.hash != rs[p].id.hash
    ensures LastIndex(rs, rs[p].id.hash) == p
  {
    if p < |rs| - 1 {
      LastIndexIs(rs[..|rs| - 1], p);
    }
  }

  lemma Settles(s: World, p: nat, o: Observation, signedNow: bool, env: Env)
    requires p < |s.store.mem.active| && s.store.disk.active == s.store.mem.active
    requires LastIndex(s.store.mem.active, s.store.mem.active[p].id.hash) == p
    requires s.send == Sent(s.store.mem.active[p], o, signedNow) && !Unchanged(s.store.mem.active[p], o)
    ensures var r := s.store.mem.active[p];
      Takes(s, Settle(Done), With(s, s.store.mem.active[p := Observed(r, o)]).(
              send := Idle, quotes := if signedNow then s.quotes - {r.id.quoteId} else s.quotes), env)
  {
  }

  lemma BeginsHistory(s: World, env: Env)
    requires s.history.Resting?
    ensures Takes(s, HistoryBegin, s.(history := Refreshing(RefreshRecords(s.store.mem))), env)
  {
  }

  lemma {:induction false} RefreshLists(v: View, rs: seq<Record>, p: nat) returns (i: nat)
    requires p < |rs| && NeedsRefresh(v, rs[p])
    ensures i < |RefreshOf(v, rs)| && RefreshOf(v, rs)[i] == rs[p]
  {
    var last := rs[|rs| - 1];
    if p == |rs| - 1 {
      i := 0;
    } else {
      i := RefreshLists(v, rs[..|rs| - 1], p);
      if NeedsRefresh(v, last) {
        i := i + 1;
      }
    }
  }

  lemma Refreshes(s: World, i: nat, p: nat, seen: Observation, env: Env)
    requires s.history.Refreshing? && i < |s.history.items| && p < |s.store.mem.active|
    requires s.history.items[i] == s.store.mem.active[p] && s.store.disk.active == s.store.mem.active
    requires LastIndex(s.store.mem.active, s.store.mem.active[p].id.hash) == p
    requires ChainAnswer(seen, s.store.mem.active[p].id, env) && !Unchanged(s.store.mem.active[p], seen)
    ensures var r := s.store.mem.active[p];
      Takes(s, Refresh(i, seen, Done), With(s, s.store.mem.active[p := Observed(r, seen)]).(
              everMined := s.everMined + (if Mined(seen.state) then {r.id.nonce} else {})), env)
  {
  }

  lemma CompactsNothing(s: World, env: Env)
    requires s.history.Refreshing? && (|s.store.mem.active| < ARCHIVE_THRESHOLD || Batch(s.store.mem) == [])
    ensures Takes(s, Compact(Done, Done), s.(history := Resting), env)
  {
  }

  // ---- Whole calls ---------------------------------------------------------------------------------------

  /** A world at rest: all records active, on disk as in memory. */
  function AtRest(active: seq<Record>, send: SendPc, everMined: set<nat>, entered: seq<Identity>): World {
    World(Store(View(active, []), Disk(active, map[])), false, map[], send, Resting, {}, everMined, entered)
  }

  ghost predicate UniqueHashes(active: seq<Record>) {
    forall i, j | 0 <= i < |active| && 0 <= j < |active| && i != j :: active[i].id.hash != active[j].id.hash
  }

  /** From a chosen quote to the end of Send: the record is stored, and the node answers without an error. */
  lemma SendsReady(s: World, q: Quote, signed: SignedTx, env: Env)
    requires Reachable(s, env) && s.send == Ready(q) && WellFormedQuote(q) && s.store.disk.active == s.store.mem.active
    requires Fits(s.store.mem, q, signed, env.chainId) && s.store.mem.archived == []
    requires |s.store.mem.active| < ACTIVE_LIMIT
    ensures var r := NewRecord(q, signed).(version := 1);
      Reachable(With(s, s.store.mem.active + [Observed(r, BroadcastResult(""))]).(
                  send := Idle, entered := s.entered + [r.id], quotes := s.quotes - {q.id}), env)
  {
    var active := s.store.mem.active;
    var r := NewRecord(q, signed).(version := 1);
    var s1 := With(s, active + [r]).(send := Durable(r), entered := s.entered + [r.id]);
    AppendRecord(s, q, signed, env);
    Reach(s, SendAppend(signed, Done), s1, env);
    var s2 := s1.(send := Sent(r, BroadcastResult(""), true));
    NotDelivered(s1, r, env);
    Reach(s1, SendBroadcast(false, ""), s2, env);
    var next := active + [r];
    forall j | 0 <= j < |active|
      ensures next[j].id.hash != r.id.hash
    {
      assert active[j] in All(s.store.mem);
    }
    LastIndexIs(next, |active|);
    Settles(s2, |active|, BroadcastResult(""), true, env);
    assert next[|active| := Observed(r, BroadcastResult(""))] == active + [Observed(r, BroadcastResult(""))];
    Reach(s2, Settle(Done),
          With(s2, active + [Observed(r, BroadcastResult(""))]).(send := Idle, quotes := s2.quotes - {q.id}), env);
  }

  /** A plain transaction from its quote to its signing. */
  lemma QuotesAndPasses(s: World, q: Quote, env: Env)
    requires Reachable(s, env) && s.send.Idle? && !s.fault && WellFormedQuote(q) && q.original.None?
    requires FindQuote(All(s.store.mem), q.id).None? && Passes(s.store.mem, q)
    ensures Reachable(s.(quotes := s.quotes[q.id := q], send := Ready(q)), env)
  {
    var s1 := s.(quotes := s.quotes[q.id := q]);
    NewQuote(s, q, env);
    Reach(s, QuoteNew(q), s1, env);
    BeginAgain(s1, q, env);
    Reach(s1, SendBegin(q.id), s1.(send := Checking(q)), env);
    PassAgain(s1, q, env);
    Reach(s1.(send := Checking(q)), SendInFlight, s1.(send := Ready(q)), env);
  }

  /** Quote and Send of a plain transaction. */
  lemma SendsNew(active: seq<Record>, everMined: set<nat>, entered: seq<Identity>, q: Quote, signed: SignedTx, env: Env)
    requires Reachable(AtRest(active, Idle, everMined, entered), env) && |active| < ACTIVE_LIMIT
    requires WellFormedQuote(q) && q.original.None? && FindQuote(active, q.id).None?
    requires !HasInFlight(View(active, [])) && Fits(View(active, []), q, signed, env.chainId)
    ensures var r := NewRecord(q, signed).(version := 1);
      Reachable(AtRest(active + [Observed(r, BroadcastResult(""))], Idle, everMined, entered + [r.id]), env)
  {
    var s := AtRest(active, Idle, everMined, entered);
    assert All(View(active, [])) == active;
    QuotesAndPasses(s, q, env);
    var s1 := s.(quotes := s.quotes[q.id := q], send := Ready(q));
    SendsReady(s1, q, signed, env);
    assert s1.quotes - {q.id} == map[];
  }

  /** History that looks up one record and compacts nothing. */
  lemma LooksUp(active: seq<Record>, send: SendPc, everMined: set<nat>, entered: seq<Identity>, p: nat,
                seen: Observation, env: Env)
    requires Reachable(AtRest(active, send, everMined, entered), env)
    requires UniqueHashes(active) && p < |active| && NeedsRefresh(View(active, []), active[p])
    requires ChainAnswer(seen, active[p].id, env) && !Unchanged(active[p], seen)
    requires |active| < ARCHIVE_THRESHOLD || Batch(View(active[p := Observed(active[p], seen)], [])) == []
    ensures Reachable(AtRest(active[p := Observed(active[p], seen)], send,
                             everMined + (if Mined(seen.state) then {active[p].id.nonce} else {}), entered), env)
  {
    var s := AtRest(active, send, everMined, entered);
    var items := RefreshRecords(s.store.mem);
    BeginsHistory(s, env);
    Reach(s, HistoryBegin, s.(history := Refreshing(items)), env);
    var i := RefreshLists(s.store.mem, active, p);
    LastIndexIs(active, p);
    var s2 := With(s, active[p := Observed(active[p], seen)]).(history := Refreshing(items),
      everMined := everMined + (if Mined(seen.state) then {active[p].id.nonce} else {}));
    Refreshes(s.(history := Refreshing(items)), i, p, seen, env);
    Reach(s.(history := Refreshing(items)), Refresh(i, seen, Done), s2, env);
    CompactsNothing(s2, env);
    Reach(s2, Compact(Done, Done), s2.(history := Resting), env);
  }

  // ---- A journal of any size ---------------------------------------------------------------------------

  /** Hashes and quote IDs of the example. */
  function Name(k: nat): (name: string)
    requires k < 2000
    ensures |name| == 1 && name[0] as int == k
  {
    [k as char]
  }

  /** The nonces that the example's chain finalizes: 0 by record 0, 1 by record 2. */
  const EXAMPLE: Env := Env(1, map[0 := Name(0), 1 := Name(2)])

  function PlainQuote(k: nat, nonce: nat): Quote
    requires k < 2000
  {
    Quote(Name(k), Action.Eth, nonce, 1, 1, None, 0)
  }

  function PlainTx(k: nat, nonce: nat): SignedTx
    requires k < 2000
  {
    SignedTx(Name(k), 1, nonce, 1, 1, "")
  }

  /** Record 1 replaces record 0 at its nonce, at the price that two gwei of base fee and tip give. */
  const RIVAL_QUOTE: Quote := Quote(Name(1), Speedup, 0, 2, 4, Some(Name(0)), 1)
  const RIVAL_TX: SignedTx := SignedTx(Name(1), 1, 0, 2, 4, "")

  function NonceOf(k: nat): nat {
    if k == 0 then 0 else k - 1
  }

  const SEEN: Observation := Observation(Succeeded, false, "", "", "")
  const FINAL: Observation := Observation(Succeeded, true, "", "", "")
  const REORGED: Observation := Observation(ReorgDetected, false, "", "", "")

  function Stored(q: Quote, signed: SignedTx): Record {
    Observed(NewRecord(q, signed).(version := 1), BroadcastResult(""))
  }

  /** Record 0, its rival, and one plain record for each further nonce; all nonces mined, none final. */
  function Entry(k: nat): (r: Record)
    requires k < 2000
    ensures r.id.hash == Name(k) && r.id.quoteId == Name(k) && r.id.nonce == NonceOf(k) && !r.finalized
    ensures k != 1 ==> r.state == Succeeded && r.version == 3
    ensures k == 1 ==> r.state == Submitted && r.version == 2 && r.error == ""
  {
    if k == 1 then Stored(RIVAL_QUOTE, RIVAL_TX)
    else Observed(Stored(PlainQuote(k, NonceOf(k)), PlainTx(k, NonceOf(k))), SEEN)
  }

  function Entries(n: nat): (rs: seq<Record>)
    requires n <= 2000
    ensures |rs| == n && forall k :: 0 <= k < n ==> rs[k] == Entry(k)
  {
    seq(n, k requires 0 <= k < n => Entry(k))
  }

  lemma EntriesUnique(n: nat)
    requires n <= 2000
    ensures UniqueHashes(Entries(n))
  {
  }

  ghost predicate Filled(n: nat)
    requires n <= 2000
  {
    exists everMined: set<nat>, entered: seq<Identity> ::
      Reachable(AtRest(Entries(n), Idle, everMined, entered), EXAMPLE)
  }

  lemma {:induction false} NothingDue(v: View, n: nat)
    requires n <= |v.active| && forall i | 0 <= i < n :: !Archivable(v, i)
    ensures BatchTo(v, n) == []
  {
    if n > 0 {
      NothingDue(v, n - 1);
    }
  }

  lemma NoFinals(active: seq<Record>)
    requires forall r <- active :: !r.finalized
    ensures Batch(View(active, [])) == [] && forall n :: !NonceFinal(View(active, []), n)
  {
    var v := View(active, []);
    forall i | 0 <= i < |active|
      ensures !Archivable(v, i)
    {
      assert active[i] in active;
    }
    NothingDue(v, |active|);
  }

  lemma AllMined(n: nat, k: nat)
    requires 2 <= n <= 2000 && k < n
    ensures NonceMined(View(Entries(n), []), NonceOf(k))
  {
    var v, miner := View(Entries(n), []), if k == 1 then 0 else k;
    assert v.active[miner] in All(v);
  }

  lemma NothingInFlight(n: nat)
    requires 2 <= n <= 2000
    ensures !HasInFlight(View(Entries(n), []))
  {
    var v := View(Entries(n), []);
    forall r <- All(v)
      ensures NonceMined(v, r.id.nonce)
    {
      var k :| 0 <= k < n && Entries(n)[k] == r;
      AllMined(n, k);
    }
  }

  lemma NewName(n: nat)
    requires n < 2000
    ensures FindQuote(Entries(n), Name(n)).None? && forall r <- Entries(n) :: r.id.hash != Name(n)
  {
    FindQuoteFinds(Entries(n), Name(n));
  }

  /** The record of a further nonce, as Send leaves it. */
  function Fresh(k: nat): (r: Record)
    requires 2 <= k < 2000
    ensures r.id.hash == Name(k) && r.id.nonce == NonceOf(k) && !r.finalized && Entry(k) == Observed(r, SEEN)
    ensures r.state == Submitted
  {
    Stored(PlainQuote(k, NonceOf(k)), PlainTx(k, NonceOf(k)))
  }

  /** One nonce more: quoted and sent... */
  lemma SendsOne(n: nat, everMined: set<nat>, entered: seq<Identity>)
    requires 2 <= n < ACTIVE_LIMIT && Reachable(AtRest(Entries(n), Idle, everMined, entered), EXAMPLE)
    ensures Reachable(AtRest(Entries(n) + [Fresh(n)], Idle, everMined, entered + [Fresh(n).id]), EXAMPLE)
  {
    var q, signed := PlainQuote(n, NonceOf(n)), PlainTx(n, NonceOf(n));
    NothingInFlight(n);
    NewName(n);
    assert All(View(Entries(n), [])) == Entries(n);
    SendsNew(Entries(n), everMined, entered, q, signed, EXAMPLE);
  }

  /** ... and seen mined. */
  lemma MinesOne(n: nat, everMined: set<nat>, entered: seq<Identity>)
    requires 2 <= n < ACTIVE_LIMIT && Reachable(AtRest(Entries(n) + [Fresh(n)], Idle, everMined, entered), EXAMPLE)
    ensures Filled(n + 1)
  {
    var active := Entries(n) + [Fresh(n)];
    var mined := active[n := Entry(n)];
    assert mined == Entries(n + 1);
    NoFinals(active);
    NoFinals(mined);
    LooksUp(active, Idle, everMined, entered, n, SEEN, EXAMPLE);
    assert Reachable(AtRest(Entries(n + 1), Idle, everMined + {active[n].id.nonce}, entered), EXAMPLE);
  }

  lemma FillsOne(n: nat)
    requires 2 <= n < ACTIVE_LIMIT && Filled(n)
    ensures Filled(n + 1)
  {
    var everMined: set<nat>, entered: seq<Identity> :| Reachable(AtRest(Entries(n), Idle, everMined, entered), EXAMPLE);
    SendsOne(n, everMined, entered);
    MinesOne(n, everMined, entered + [Fresh(n).id]);
  }

  // ---- Record 0 and its rival -----------------------------------------------------------------------------

  /** The quote for replacing record 0, from its lookup... */
  lemma RivalFound(s: World, w: Record, env: Env)
    requires Reachable(s, env) && s.send.Idle? && !s.fault
    requires s.store.mem == View([w], []) && w.id.hash == Name(0) && w.id.nonce == 0 && !Mined(w.state)
    ensures Reachable(s.(send := Pricing(w)), env)
  {
    var v := s.store.mem;
    assert All(v) == [w];
    assert [w][1..] == [];
    Reach(s, QuoteFind(Name(0)), s.(send := Quoting(w)), env);
    Reach(s.(send := Quoting(w)), QuoteUnmined, s.(send := Pricing(w)), env);
  }

  /** ... to the store of quotes. */
  lemma RivalQuoted(s: World, w: Record, env: Env)
    requires Reachable(s.(send := Pricing(w)), env) && s.send.Idle? && s.quotes == map[]
    requires s.store.mem == View([w], []) && w.id.hash == Name(0) && w.id.nonce == 0 && w.id.signed == PlainTx(0, 0)
    ensures Reachable(s.(quotes := map[Name(1) := RIVAL_QUOTE]), env)
  {
    assert All(s.store.mem) == [w];
    RivalPrice(w);
    var priced := RIVAL_QUOTE.(count := 0);
    Reach(s.(send := Pricing(w)), QuotePrice(Name(1), Speedup, 1, 1), s.(send := Priced(priced)), env);
    assert s.quotes[Name(1) := RIVAL_QUOTE] == map[Name(1) := RIVAL_QUOTE];
    Reach(s.(send := Priced(priced)), QuoteCount, s.(quotes := map[Name(1) := RIVAL_QUOTE]), env);
  }

  lemma RivalPrice(w: Record)
    requires w.id.nonce == 0 && w.id.signed == PlainTx(0, 0)
    ensures NonceRecords([w], 0) == [w] && PriceOf([w], 1, 1) == Price(2, 4)
  {
    assert [w][..0] == [];
    assert NonceRecords([w], 0) == [w];
    assert Bids([], 1) == (1, 0);
    assert BumpTip(1) == 2 && BumpFee(1) == 2;
  }

  lemma RivalSent(w: Record, everMined: set<nat>, entered: seq<Identity>)
    requires Reachable(AtRest([w], Idle, everMined, entered), EXAMPLE)
    requires w.id.hash == Name(0) && w.id.quoteId == Name(0) && w.id.nonce == 0 && !Mined(w.state)
    requires w.id.signed == PlainTx(0, 0)
    ensures Reachable(AtRest([w, Entry(1)], Idle, everMined, entered + [Entry(1).id]), EXAMPLE)
  {
    var s := AtRest([w], Idle, everMined, entered);
    RivalFound(s, w, EXAMPLE);
    RivalQuoted(s, w, EXAMPLE);
    var s1, q := s.(quotes := map[Name(1) := RIVAL_QUOTE]), RIVAL_QUOTE;
    assert All(s.store.mem) == [w];
    FindQuoteFinds([w], q.id);
    RivalPrice(w);
    BeginAgain(s1, q, EXAMPLE);
    Reach(s1, SendBegin(q.id), s1.(send := Checking(q)), EXAMPLE);
    PassAgain(s1, q, EXAMPLE);
    Reach(s1.(send := Checking(q)), SendCount, s1.(send := Counted(q)), EXAMPLE);
    Reach(s1.(send := Counted(q)), SendUnmined, s1.(send := Ready(q)), EXAMPLE);
    SendsReady(s1.(send := Ready(q)), q, RIVAL_TX, EXAMPLE);
    assert [w] + [Entry(1)] == [w, Entry(1)];
    assert map[q.id := q] - {q.id} == map[];
  }

  /** Record 0 is sent and replaced... */
  lemma SendsTwo(w: Record)
    requires w == Stored(PlainQuote(0, 0), PlainTx(0, 0))
    ensures Reachable(AtRest([w, Entry(1)], Idle, {}, [w.id] + [Entry(1).id]), EXAMPLE)
  {
    Starts(EXAMPLE);
    SendsNew([], {}, [], PlainQuote(0, 0), PlainTx(0, 0), EXAMPLE);
    assert [] + [w] == [w] && [] + [w.id] == [w.id];
    RivalSent(w, {}, [w.id]);
  }

  /** ... and then seen mined. */
  lemma FillsTwo()
    ensures Filled(2)
  {
    var w := Stored(PlainQuote(0, 0), PlainTx(0, 0));
    SendsTwo(w);
    var active, entered := [w, Entry(1)], [w.id] + [Entry(1).id];
    assert Observed(w, SEEN) == Entry(0);
    assert active[0 := Entry(0)] == Entries(2);
    NoFinals(active);
    LooksUp(active, Idle, {}, entered, 0, SEEN, EXAMPLE);
    assert Reachable(AtRest(Entries(2), Idle, {} + {w.id.nonce}, entered), EXAMPLE);
  }

  lemma {:induction false} Fills(n: nat)
    requires 2 <= n <= ACTIVE_LIMIT
    ensures Filled(n)
  {
    if n == 2 {
      FillsTwo();
    } else {
      Fills(n - 1);
      FillsOne(n - 1);
    }
  }

  // ---- A quote that is signed twice ---------------------------------------------------------------------------

  /** With a thousand active records, none of them final, Send is about to sign. */
  lemma FullAndReady(q: Quote) returns (s: World)
    requires q == PlainQuote(ACTIVE_LIMIT, 999)
    ensures Reachable(s, EXAMPLE) && s.send == Ready(q) && !s.fault && s.store.mem == View(Entries(ACTIVE_LIMIT), [])
  {
    Fills(ACTIVE_LIMIT);
    var everMined: set<nat>, entered: seq<Identity> :|
      Reachable(AtRest(Entries(ACTIVE_LIMIT), Idle, everMined, entered), EXAMPLE);
    var s0 := AtRest(Entries(ACTIVE_LIMIT), Idle, everMined, entered);
    NothingInFlight(ACTIVE_LIMIT);
    NewName(ACTIVE_LIMIT);
    assert All(s0.store.mem) == Entries(ACTIVE_LIMIT);
    QuotesAndPasses(s0, q, EXAMPLE);
    s := s0.(quotes := s0.quotes[q.id := q], send := Ready(q));
  }

  /** So one quote is signed twice. */
  lemma SomeQuoteIsSignedTwice() returns (states: seq<World>, steps: seq<Step>, i: nat, id: QuoteId)
    ensures IsRun(states, steps, EXAMPLE) && i + 1 < |steps| && NoCrash(steps, i, |steps|)
    ensures Signs(states, steps, i, id) && Signs(states, steps, |steps| - 1, id)
  {
    var q, signed := PlainQuote(ACTIVE_LIMIT, 999), PlainTx(ACTIVE_LIMIT, 999);
    var s := FullAndReady(q);
    NothingInFlight(ACTIVE_LIMIT);
    NewName(ACTIVE_LIMIT);
    assert All(s.store.mem) == Entries(ACTIVE_LIMIT);
    states, steps, i := SignsTwice(s, q, signed, EXAMPLE);
    id := q.id;
  }

  lemma SignsTwice(s: World, q: Quote, signed: SignedTx, env: Env)
    returns (states: seq<World>, steps: seq<Step>, i: nat)
    requires Reachable(s, env) && s.send == Ready(q) && !s.fault && MetFull(s)
    requires Passes(s.store.mem, q) && Fits(s.store.mem, q, signed, env.chainId)
    ensures IsRun(states, steps, env) && i + 1 < |steps| && NoCrash(steps, i, |steps|)
    ensures Signs(states, steps, i, q.id) && Signs(states, steps, |steps| - 1, q.id)
  {
    var before: seq<World>, done: seq<Step> :| EndsIn(before, done, s, env);
    var append := SendAppend(signed, Done);
    var full := s.(send := Idle);
    assert Takes(s, append, full, env);
    RunGoesOn(before, done, [s, full], [append], env);
    i := |done|;
    var run, taken := before + [s, full][1..], done + [append];
    assert run[i] == s && taken[i] == append && run[|taken|] == full;
    var path := FullJournalSignsAgain(run, taken, env, q, signed, Done);
    states, steps := run + path[1..], taken + SendSteps(q, signed, Done);
    assert states[i] == s && steps[i] == append;
  }

  // ---- A rival that a retry updates while compaction files it --------------------------------------------------

  const SIZE: nat := ARCHIVE_THRESHOLD

  function LostWinner(): Record {
    Observed(Entry(0), REORGED)
  }

  function FinalWinner(): Record {
    Observed(LostWinner(), FINAL)
  }

  const TIMEOUT: Observation := BroadcastResult("timeout")

  function RetriedRival(): (r: Record)
    ensures r.id == Entry(1).id && r.version == 3 && r.error == "timeout" && !r.finalized
  {
    Observed(Entry(1), TIMEOUT)
  }

  function NextFinal(): (r: Record)
    ensures r.id == Entry(2).id && r.finalized && r.state == Succeeded
  {
    Observed(Entry(2), FINAL)
  }

  /** The active records: the winner, its rival, and then the plain ones. */
  function Active(winner: Record, rival: Record): seq<Record> {
    Entries(SIZE)[0 := winner][1 := rival]
  }

  lemma ActiveUnique(winner: Record, rival: Record)
    requires winner.id == Entry(0).id && rival.id == Entry(1).id
    ensures UniqueHashes(Active(winner, rival))
    ensures UniqueHashes(Active(winner, rival)[2 := NextFinal()])
  {
  }

  /** History sees record 0 leave the chain... */
  lemma LosesWinner(everMined: set<nat>, entered: seq<Identity>)
    requires Reachable(AtRest(Entries(SIZE), Idle, everMined, entered), EXAMPLE)
    ensures Reachable(AtRest(Active(LostWinner(), Entry(1)), Idle, everMined + {}, entered), EXAMPLE)
  {
    var active := Entries(SIZE);
    assert active[0 := LostWinner()] == Active(LostWinner(), Entry(1));
    EntriesUnique(SIZE);
    NoFinals(active);
    NoFinals(active[0 := LostWinner()]);
    LooksUp(active, Idle, everMined, entered, 0, REORGED, EXAMPLE);
  }

  /** ... and a retry of the rival passes its check. */
  lemma RetryPasses() returns (everMined: set<nat>, entered: seq<Identity>)
    ensures Reachable(AtRest(Active(LostWinner(), Entry(1)), Resending(Entry(1)), everMined, entered), EXAMPLE)
  {
    Fills(SIZE);
    var everMined': set<nat>, entered': seq<Identity> :|
      Reachable(AtRest(Entries(SIZE), Idle, everMined', entered'), EXAMPLE);
    LosesWinner(everMined', entered');
    everMined, entered := everMined' + {}, entered';
    RetriesRival(Active(LostWinner(), Entry(1)), everMined, entered);
  }

  lemma RetriesRival(lost: seq<Record>, everMined: set<nat>, entered: seq<Identity>)
    requires lost == Active(LostWinner(), Entry(1)) && Reachable(AtRest(lost, Idle, everMined, entered), EXAMPLE)
    ensures Reachable(AtRest(lost, Resending(Entry(1)), everMined, entered), EXAMPLE)
  {
    var s := AtRest(lost, Idle, everMined, entered);
    assert All(s.store.mem) == lost;
    ActiveUnique(LostWinner(), Entry(1));
    FindHashFinds(lost, Name(1));
    assert lost[1] in lost;
    assert !NonceMined(s.store.mem, 0);
    Reach(s, RetryBegin(Name(1)), s.(send := Retrying(Entry(1))), EXAMPLE);
    Reach(s.(send := Retrying(Entry(1))), RetryUnmined, s.(send := Resending(Entry(1))), EXAMPLE);
  }

  lemma LostNeedsRefresh()
    ensures NeedsRefresh(View(Active(LostWinner(), Entry(1)), []), LostWinner())
  {
    NoFinals(Active(LostWinner(), Entry(1)));
  }

  /** History, in the middle of its pass, sees record 0 final. */
  lemma WinnerIsFinal() returns (s: World)
    ensures Reachable(s, EXAMPLE) && s.history.Refreshing? && s.send == Resending(Entry(1)) && !s.fault
    ensures s.store == Store(View(Active(FinalWinner(), Entry(1)), []), Disk(Active(FinalWinner(), Entry(1)), map[]))
  {
    var everMined, entered := RetryPasses();
    var active := Active(LostWinner(), Entry(1));
    LostNeedsRefresh();
    ActiveUnique(LostWinner(), Entry(1));
    assert active[0 := FinalWinner()] == Active(FinalWinner(), Entry(1));
    s := SeesFinal(AtRest(active, Resending(Entry(1)), everMined, entered), 0, FINAL, EXAMPLE);
  }

  /** The first half of a pass of History: it begins and refreshes one record. */
  lemma SeesFinal(s: World, p: nat, seen: Observation, env: Env) returns (s': World)
    requires Reachable(s, env) && s.history.Resting? && s.store.disk.active == s.store.mem.active
    requires UniqueHashes(s.store.mem.active) && p < |s.store.mem.active|
    requires NeedsRefresh(s.store.mem, s.store.mem.active[p])
    requires ChainAnswer(seen, s.store.mem.active[p].id, env) && !Unchanged(s.store.mem.active[p], seen)
    ensures Reachable(s', env) && s'.history.Refreshing? && s'.send == s.send && s'.fault == s.fault
    ensures s'.store == With(s, s.store.mem.active[p := Observed(s.store.mem.active[p], seen)]).store
  {
    var active, items := s.store.mem.active, RefreshRecords(s.store.mem);
    BeginsHistory(s, env);
    Reach(s, HistoryBegin, s.(history := Refreshing(items)), env);
    var i := RefreshLists(s.store.mem, active, p);
    LastIndexIs(active, p);
    s' := With(s, active[p := Observed(active[p], seen)]).(history := Refreshing(items),
      everMined := s.everMined + (if Mined(seen.state) then {active[p].id.nonce} else {}));
    Refreshes(s.(history := Refreshing(items)), i, p, seen, env);
    Reach(s.(history := Refreshing(items)), Refresh(i, seen, Done), s', env);
  }

  // ---- What is due -----------------------------------------------------------------------------------------------

  lemma {:induction false} NothingMoreDue(v: View, m: nat, n: nat)
    requires m <= n <= |v.active| && forall i | m <= i < n :: !Archivable(v, i)
    ensures BatchTo(v, n) == BatchTo(v, m)
    decreases n
  {
    if m < n {
      NothingMoreDue(v, m, n - 1);
    }
  }

  /** Only the winner's nonce is final, so the winner and its rival are due and nothing else is. */
  lemma FirstBatch(v: View)
    requires v == View(Active(FinalWinner(), Entry(1)), [])
    ensures Batch(v) == [FinalWinner(), Sealed(Entry(1))] && Archivable(v, 1) && NonceFinal(v, 0)
  {
    var active := v.active;
    assert active[0] in All(v);
    forall i | 2 <= i < |active|
      ensures !Archivable(v, i)
    {
    }
    NothingMoreDue(v, 2, |active|);
    assert BatchTo(v, 1) == [] + [FinalWinner()];
    assert BatchTo(v, 2) == [FinalWinner()] + [Sealed(Entry(1))];
  }

  /** After the retry and one more final record, the rival is due in its new version, and the batch ends elsewhere. */
  lemma SecondBatch(v: View)
    requires v == View(Active(FinalWinner(), RetriedRival())[2 := NextFinal()], [])
    ensures Batch(v) == [FinalWinner(), Sealed(RetriedRival()), NextFinal()]
  {
    var active := v.active;
    assert active[0] in All(v) && active[2] in All(v);
    forall i | 3 <= i < |active|
      ensures !Archivable(v, i)
    {
    }
    NothingMoreDue(v, 3, |active|);
    assert BatchTo(v, 1) == [] + [FinalWinner()];
    assert BatchTo(v, 2) == [FinalWinner()] + [Sealed(RetriedRival())];
    assert BatchTo(v, 3) == [FinalWinner(), Sealed(RetriedRival())] + [NextFinal()];
  }

  // ---- A change without a version, and a version that falls -----------------------------------------------------

  lemma CompactsBatch(s: World, env: Env) returns (s': World)
    requires s.history.Refreshing? && ARCHIVE_THRESHOLD <= |s.store.mem.active| && Batch(s.store.mem) != []
    ensures Takes(s, Compact(Done, Done), s', env) && s'.store.mem == Compacted(s.store.mem)
    ensures s'.store.disk.archives == s.store.disk.archives[NameOf(Batch(s.store.mem)) := Batch(s.store.mem)]
  {
    s' := Apply(s, Compact(Done, Done), env);
  }

  lemma FilesBatch(s: World, env: Env)
    requires s.history.Refreshing? && ARCHIVE_THRESHOLD <= |s.store.mem.active| && Batch(s.store.mem) != []
    ensures var archives := s.store.disk.archives[NameOf(Batch(s.store.mem)) := Batch(s.store.mem)];
      Takes(s, Compact(Done, FailedOld),
            s.(store := s.store.(disk := s.store.disk.(archives := archives)), history := HistoryFailing), env)
  {
  }

  lemma Flags(s: World, env: Env)
    requires s.history.HistoryFailing?
    ensures Takes(s, HistoryFlag, s.(fault := true, history := Resting), env)
  {
  }

  /** Compaction seals a rival: the record changes and its version stays. */
  lemma SealingKeepsTheVersion() returns (s: World, s': World, r: Record, r': Record)
    ensures Reachable(s, EXAMPLE) && Takes(s, Compact(Done, Done), s', EXAMPLE)
    ensures r in All(s.store.mem) && r' in All(s'.store.mem) && r.id.hash == r'.id.hash
    ensures r != r' && r'.version == r.version
  {
    s := WinnerIsFinal();
    FirstBatch(s.store.mem);
    s' := CompactsBatch(s, EXAMPLE);
    r, r' := Entry(1), Sealed(Entry(1));
    assert s.store.mem.active[1] == r;
    assert r' in Batch(s.store.mem);
  }

  const FIRST: ArchiveName := (Name(0), Name(1))
  const SECOND: ArchiveName := (Name(0), Name(2))

  function FirstFile(): seq<Record> {
    [FinalWinner(), Sealed(Entry(1))]
  }

  function SecondFile(): seq<Record> {
    [FinalWinner(), Sealed(RetriedRival()), NextFinal()]
  }

  /** The archive file is written and the journal file is not; then the retry ends. */
  lemma FilesFirst() returns (s: World)
    ensures Reachable(s, EXAMPLE) && s.history.Resting?
    ensures s.store == Store(View(Active(FinalWinner(), RetriedRival()), []),
                             Disk(Active(FinalWinner(), RetriedRival()), map[FIRST := FirstFile()]))
  {
    var s0 := WinnerIsFinal();
    FirstBatch(s0.store.mem);
    assert NameOf(FirstFile()) == FIRST;
    var filed := s0.store.(disk := s0.store.disk.(archives := s0.store.disk.archives[FIRST := FirstFile()]));
    var s1 := s0.(store := filed, history := HistoryFailing);
    FilesBatch(s0, EXAMPLE);
    Reach(s0, Compact(Done, FailedOld), s1, EXAMPLE);
    Flags(s1, EXAMPLE);
    Reach(s1, HistoryFlag, s1.(fault := true, history := Resting), EXAMPLE);
    assert map[][FIRST := FirstFile()] == map[FIRST := FirstFile()];
    s := RetryEnds(s1.(fault := true, history := Resting));
  }

  lemma RetryEnds(s: World) returns (s': World)
    requires Reachable(s, EXAMPLE) && s.history.Resting? && s.send == Resending(Entry(1))
    requires s.store.mem == View(Active(FinalWinner(), Entry(1)), []) && s.store.disk.active == s.store.mem.active
    ensures Reachable(s', EXAMPLE) && s'.history.Resting?
      && s'.store == With(s, Active(FinalWinner(), RetriedRival())).store
  {
    var active := s.store.mem.active;
    var s1 := s.(send := Sent(Entry(1), TIMEOUT, false));
    assert s.broadcast + {} == s.broadcast;
    assert Takes(s, RetryBroadcast(false, "timeout"), s1, EXAMPLE);
    Reach(s, RetryBroadcast(false, "timeout"), s1, EXAMPLE);
    ActiveUnique(FinalWinner(), Entry(1));
    LastIndexIs(active, 1);
    Settles(s1, 1, TIMEOUT, false, EXAMPLE);
    assert active[1 := RetriedRival()] == Active(FinalWinner(), RetriedRival());
    s' := With(s1, active[1 := RetriedRival()]).(send := Idle);
    Reach(s1, Settle(Done), s', EXAMPLE);
  }

  /** The next pass of History finds one more record final and files the rival a second time, under another name. */
  lemma FilesSecond() returns (s: World)
    ensures Reachable(s, EXAMPLE)
    ensures s.store.mem.archived == SecondFile()
    ensures s.store.disk.archives == map[FIRST := FirstFile(), SECOND := SecondFile()]
  {
    var s0 := FilesFirst();
    var v := s0.store.mem;
    ActiveUnique(FinalWinner(), RetriedRival());
    assert forall r <- All(v) :: FinalMined(r) ==> r.id.nonce == 0;
    var s1 := SeesFinal(s0, 2, FINAL, EXAMPLE);
    SecondBatch(s1.store.mem);
    assert NameOf(SecondFile()) == SECOND;
    s := CompactsBatch(s1, EXAMPLE);
    Reach(s1, Compact(Done, Done), s, EXAMPLE);
    assert s.store.disk.archives == map[FIRST := FirstFile()][SECOND := SecondFile()];
  }

  /** A restart that lists the older file first brings the rival back in its older version, without the error that
      the retry recorded. */
  lemma RestartLowersTheVersion() returns (s: World, s': World, r: Record, r': Record)
    ensures Reachable(s, EXAMPLE) && Takes(s, Crash([FIRST, SECOND]), s', EXAMPLE)
    ensures r in All(s.store.mem) && r' in All(s'.store.mem) && r.id.hash == r'.id.hash
    ensures r'.version < r.version && r.error == "timeout" && r'.error == ""
  {
    s := FilesSecond();
    var states: seq<World>, steps: seq<Step> :| EndsIn(states, steps, s, EXAMPLE);
    var crash := Crash([FIRST, SECOND]);
    s' := Apply(s, crash, EXAMPLE);
    RunGoesOn(states, steps, [s, s'], [crash], EXAMPLE);
    var all, taken, k := states + [s, s'][1..], steps + [crash], |steps|;
    assert all[k] == s && all[k + 1] == s' && taken[k] == crash;
    r := Sealed(RetriedRival());
    assert r in s.store.mem.archived;
    RunStep(all, taken, EXAMPLE, k);
    r' := StillThere(s.store.mem, s'.store.mem, r);
    ReloadedRival(all, taken, EXAMPLE, k, r, r');
    FoundInFirst(s.store.disk.archives);
  }

  lemma FoundInFirst(files: Files)
    requires files == map[FIRST := FirstFile(), SECOND := SecondFile()]
    ensures FindHash(Listed(files, [FIRST, SECOND]), Name(1)) == Some(Sealed(Entry(1)))
  {
    assert [FIRST, SECOND][..1] == [FIRST] && [FIRST][..0] == [];
    assert Listed(files, [FIRST]) == [] + FirstFile();
    assert Listed(files, [FIRST, SECOND]) == FirstFile() + SecondFile();
    FindHashConcat(FirstFile(), SecondFile(), Name(1));
    assert FirstFile()[1..] == [Sealed(Entry(1))];
  }
}

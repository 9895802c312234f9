/**
 No block is skipped: what every run of the scanner keeps, with crashes between its two writes and a
 head that reorganises while the finalized prefix grows.
 */
module ScanSafety {
  import opened Common
  import opened ScanModel
  import ChainModel

  /** What a block's hash stands for. */
  datatype Body = Body(txs: seq<Tx>, receipts: seq<Receipt>)

  /** The owner, the chain over time, and the content of every block. */
  datatype Setting = Setting(owner: Address, run: seq<ChainModel.Chain>, body: Hash -> Body)

  ghost predicate Lawful(g: Setting) {
    && ChainModel.IsHistory(g.run)
    && (forall h :: |g.body(h).receipts| == |g.body(h).txs|)
  }

  /** When the four reads of a block happen. */
  datatype Times = Times(final: nat, header: nat)

  /** The node may answer from any fork and any height, but a hash binds the content: a block with this hash has
      its transactions, and a receipt that names the block and the transaction is the one. The finalized
      height and the canonical header are those of the moment. */
  ghost predicate Truthful(g: Setting, o: BlockReads, number: nat, at: Times) {
    && at.final <= at.header < |g.run|
    && (o.final.Some? ==> o.final.value <= g.run[at.final].final)
    && (o.block.Some? ==> o.block.value.txs == g.body(o.block.value.hash).txs)
    && (o.receipts.Some? ==> forall r <- o.receipts.value :: r.Some? ==> TrueReceipt(g, r.value))
    && (o.header.Some? ==> number < |g.run[at.header].blocks| && g.run[at.header].blocks[number].hash == o.header.value)
  }

  ghost predicate TrueReceipt(g: Setting, r: Receipt) {
    var body := g.body(r.blockHash);
    forall i | 0 <= i < |body.txs| && i < |body.receipts| && body.txs[i].hash == r.txHash :: body.receipts[i] == r
  }

  /** Height n is finalized, and everything in its block that concerns the owner is in the index. */
  ghost predicate Covered(g: Setting, n: nat, t: nat, index: seq<Hash>)
    requires Lawful(g)
  {
    && t < |g.run| && n <= g.run[t].final && n < |g.run[t].blocks|
    && var body := g.body(g.run[t].blocks[n].hash);
    forall i | 0 <= i < |body.txs| :: Concerns(body.txs[i], body.receipts[i], g.owner) ==> body.txs[i].hash in index
  }

  /** And every token that moved there is known, unless the list is full. */
  ghost predicate TokensKnown(g: Setting, n: nat, t: nat, tokens: seq<Address>)
    requires Lawful(g)
  {
    && t < |g.run| && n < |g.run[t].blocks|
    && (|tokens| < MAX_TOKENS ==>
          var body := g.body(g.run[t].blocks[n].hash);
          forall i, a | 0 <= i < |body.receipts| && TokenIn(body.receipts[i], g.owner, a) :: a in tokens)
  }

  lemma CoveredLater(g: Setting, n: nat, t: nat, u: nat, index: seq<Hash>, index': seq<Hash>)
    requires Lawful(g) && Covered(g, n, t, index) && t <= u < |g.run| && index <= index'
    ensures Covered(g, n, u, index') && g.run[u].blocks[n] == g.run[t].blocks[n]
  {
    ChainModel.FinalityLasts(g.run, t, u);
  }

  /** One scanned block: below the finalized height, and canonical when its header was read again. */
  lemma ScanCovers(g: Setting, o: BlockReads, number: nat, at: Times, index: seq<Hash>)
    requires Lawful(g) && Truthful(g, o, number, at) && ScanBlock(o, number, g.owner).Some?
    requires forall h <- ScanBlock(o, number, g.owner).value.hashes :: h in index
    ensures Covered(g, number, at.header, index)
  {
    var b, receipts := o.block.value, o.receipts.value;
    ChainModel.FinalityLasts(g.run, at.final, at.header);
    var body := g.body(b.hash);
    forall i | 0 <= i < |body.txs| && Concerns(body.txs[i], body.receipts[i], g.owner)
      ensures body.txs[i].hash in index
    {
      ReceiptIsTrue(g, b, receipts, number, i);
      FoundHolds(b, receipts, number, g.owner, |b.txs|, body.txs[i].hash);
      assert HashAt(b, receipts, g.owner, i, body.txs[i].hash);
    }
  }

  lemma ReceiptIsTrue(g: Setting, b: Block, receipts: seq<Option<Receipt>>, number: nat, i: nat)
    requires Lawful(g) && b.txs == g.body(b.hash).txs && i < |b.txs| == |receipts|
      && AllBelong(b, receipts, number, |b.txs|)
    requires forall r <- receipts :: r.Some? ==> TrueReceipt(g, r.value)
    ensures receipts[i] == Some(g.body(b.hash).receipts[i])
  {
    assert ReceiptBelongs(receipts[i], b.txs[i], b.hash, number);
    assert receipts[i] in receipts;
  }

  lemma ScanTokens(g: Setting, o: BlockReads, number: nat, at: Times, tokens: seq<Address>)
    requires Lawful(g) && Truthful(g, o, number, at) && ScanBlock(o, number, g.owner).Some? && |tokens| <= MAX_TOKENS
    ensures TokensKnown(g, number, at.header, AddTokens(tokens, ScanBlock(o, number, g.owner).value.tokens))
  {
    var b, receipts := o.block.value, o.receipts.value;
    var found := ScanBlock(o, number, g.owner).value.tokens;
    var body := g.body(b.hash);
    forall i, a | 0 <= i < |body.receipts| && TokenIn(body.receipts[i], g.owner, a)
      ensures a in AddTokens(tokens, found) || |AddTokens(tokens, found)| == MAX_TOKENS
    {
      ReceiptIsTrue(g, b, receipts, number, i);
      FoundTokens(b, receipts, number, g.owner, |b.txs|, a);
      AddTokensHolds(tokens, found, a);
    }
    AddTokensHolds(tokens, found, 0);
  }

  // ---- Runs ------------------------------------------------------------------------------------------------

  datatype World = World(files: Files, now: nat)

  const START: World := World(Files([], None), 0)

  datatype Step =
    | ConfigureStep(enabled: bool, start: Option<nat>, write: Write)
    | PassStep(input: PassInput, at: Times)
    | ImportStep(ids: seq<Hash>, readable: bool, write: Write)

  /** The pass reads the finalized height, and then the four answers about the block it is at. A crash in the
      middle of a pass is a pass whose remaining writes fail with the old content. */
  ghost predicate Enabled(g: Setting, w: World, step: Step) {
    match step
    case PassStep(o, at) =>
      && (o.owner.Some? ==> o.owner.value == g.owner) && w.now <= at.final
      && at.final <= at.header < |g.run|
      && (o.final.Some? ==> Truthful(g, o.block, Begun(ProgressOf(w.files), o.final.value).next, at))
    case _ => true
  }

  function Apply(w: World, step: Step): World {
    match step
    case ConfigureStep(enabled, start, write) => w.(files := Configure(w.files, enabled, start, write).0)
    case PassStep(o, at) => World(Pass(w.files, o).0, at.header)
    case ImportStep(ids, readable, write) => w.(files := AddHashes(w.files, ids, readable, write).0)
  }

  ghost predicate ProgressInv(g: Setting, p: Progress, t: nat, index: seq<Hash>)
    requires Lawful(g)
  {
    && Readable(p) && p.start <= p.next
    && (forall n | p.start <= n < p.next :: Covered(g, n, t, index) && TokensKnown(g, n, t, p.tokens))
  }

  ghost predicate Inv(g: Setting, w: World)
    requires Lawful(g)
  {
    w.now < |g.run| && ProgressInv(g, ProgressOf(w.files), w.now, w.files.index)
  }

  lemma ProgressLater(g: Setting, p: Progress, t: nat, u: nat, index: seq<Hash>, index': seq<Hash>)
    requires Lawful(g) && ProgressInv(g, p, t, index) && t <= u < |g.run| && index <= index'
    ensures ProgressInv(g, p, u, index')
  {
    forall n | p.start <= n < p.next
      ensures Covered(g, n, u, index') && TokensKnown(g, n, u, p.tokens)
    {
      CoveredLater(g, n, t, u, index, index');
    }
  }

  lemma AddHashesGrows(f: Files, ids: seq<Hash>, readable: bool, write: Write)
    ensures var (f', ok) := AddHashes(f, ids, readable, write);
      && f.index <= f'.index && f'.progress == f.progress
      && (ok ==> forall h <- ids :: h in f'.index)
  {
    forall h
      ensures h in Merged(f.index, ids) <==> h in f.index || h in ids
    {
      MergedHolds(f.index, ids, h);
    }
    MergedHolds(f.index, ids, "");
  }

  /** Where the cursor begins or is, before the block is read. */
  lemma BegunKeeps(g: Setting, p: Progress, final: nat, t: nat, index: seq<Hash>)
    requires Lawful(g) && ProgressInv(g, p, t, index)
    ensures ProgressInv(g, Begun(p, final), t, index)
  {
  }

  lemma MoreTokens(p: Progress, found: seq<Address>)
    requires Readable(p) && 0 !in found
    ensures var tokens := AddTokens(p.tokens, found);
      Readable(p.(tokens := tokens)) && p.tokens <= tokens
  {
    forall t: Address
      ensures t in AddTokens(p.tokens, found) ==> t in p.tokens || t in found
    {
      AddTokensHolds(p.tokens, found, t);
    }
    AddTokensHolds(p.tokens, found, 0);
  }

  lemma TokensStayKnown(g: Setting, n: nat, t: nat, tokens: seq<Address>, tokens': seq<Address>)
    requires Lawful(g) && TokensKnown(g, n, t, tokens) && tokens <= tokens'
    ensures TokensKnown(g, n, t, tokens')
  {
    assert forall a <- tokens :: a in tokens';
  }

  lemma AdvanceKeeps(g: Setting, p: Progress, o: BlockReads, at: Times, index: seq<Hash>)
    requires Lawful(g) && ProgressInv(g, p, at.header, index) && Truthful(g, o, p.next, at)
    requires var found := ScanBlock(o, p.next, g.owner);
      found.Some? && 0 !in found.value.tokens && forall h <- found.value.hashes :: h in index
    ensures var found := ScanBlock(o, p.next, g.owner).value;
      ProgressInv(g, p.(tokens := AddTokens(p.tokens, found.tokens), next := p.next + 1, failed := false), at.header,
                  index)
  {
    var found := ScanBlock(o, p.next, g.owner).value;
    ScanCovers(g, o, p.next, at, index);
    ScanTokens(g, o, p.next, at, p.tokens);
    MoreTokens(p, found.tokens);
    OneMore(g, p, AddTokens(p.tokens, found.tokens), at.header, index);
  }

  lemma OneMore(g: Setting, p: Progress, tokens: seq<Address>, t: nat, index: seq<Hash>)
    requires Lawful(g) && ProgressInv(g, p, t, index) && p.tokens <= tokens && Readable(p.(tokens := tokens))
    requires Covered(g, p.next, t, index) && TokensKnown(g, p.next, t, tokens)
    ensures ProgressInv(g, p.(tokens := tokens, next := p.next + 1, failed := false), t, index)
  {
    forall n | p.start <= n < p.next
      ensures Covered(g, n, t, index) && TokensKnown(g, n, t, tokens)
    {
      TokensStayKnown(g, n, t, p.tokens, tokens);
    }
  }

  lemma PassKeeps(g: Setting, w: World, o: PassInput, at: Times)
    requires Lawful(g) && Inv(g, w) && Enabled(g, w, PassStep(o, at))
    ensures Inv(g, World(Pass(w.files, o).0, at.header)) && w.files.index <= Pass(w.files, o).0.index
  {
    var p, index := ProgressOf(w.files), w.files.index;
    ProgressLater(g, p, w.now, at.header, index, index);
    if p.enabled && o.owner.Some? && o.final.Some? {
      var begun := Begun(p, o.final.value);
      BegunKeeps(g, p, o.final.value, at.header, index);
      var found := ScanBlock(o.block, begun.next, g.owner);
      if begun.next <= o.final.value && found.Some? {
        var (indexed, ok) := AddHashes(w.files, found.value.hashes, o.readable, o.indexWrite);
        AddHashesGrows(w.files, found.value.hashes, o.readable, o.indexWrite);
        ProgressLater(g, p, at.header, at.header, index, indexed.index);
        ProgressLater(g, begun, at.header, at.header, index, indexed.index);
        if ok && 0 !in found.value.tokens {
          AdvanceKeeps(g, begun, o.block, at, indexed.index);
        }
      }
    }
  }

  lemma StepKeeps(g: Setting, w: World, step: Step)
    requires Lawful(g) && Inv(g, w) && Enabled(g, w, step)
    ensures Inv(g, Apply(w, step)) && w.files.index <= Apply(w, step).files.index && w.now <= Apply(w, step).now
  {
    match step
    case ConfigureStep(enabled, start, write) =>
    case PassStep(o, at) => PassKeeps(g, w, o, at);
    case ImportStep(ids, readable, write) =>
      AddHashesGrows(w.files, ids, readable, write);
      ProgressLater(g, ProgressOf(w.files), w.now, w.now, w.files.index,
                    AddHashes(w.files, ids, readable, write).0.index);
  }

  ghost predicate IsRun(g: Setting, states: seq<World>, steps: seq<Step>) {
    && |states| == |steps| + 1 && states[0] == START && 0 < |g.run|
    && forall i | 0 <= i < |steps| :: Enabled(g, states[i], steps[i]) && states[i + 1] == Apply(states[i], steps[i])
  }

  lemma {:induction false} RunKeeps(g: Setting, states: seq<World>, steps: seq<Step>, i: nat)
    requires Lawful(g) && IsRun(g, states, steps) && i < |states|
    ensures Inv(g, states[i])
  {
    if i > 0 {
      RunKeeps(g, states, steps, i - 1);
      StepKeeps(g, states[i - 1], steps[i - 1]);
    }
  }

  lemma {:induction false} IndexGrows(g: Setting, states: seq<World>, steps: seq<Step>, i: nat, j: nat)
    requires Lawful(g) && IsRun(g, states, steps) && i <= j < |states|
    ensures states[i].files.index <= states[j].files.index && states[i].now <= states[j].now
    decreases j - i
  {
    if i < j {
      IndexGrows(g, states, steps, i, j - 1);
      RunKeeps(g, states, steps, j - 1);
      StepKeeps(g, states[j - 1], steps[j - 1]);
    }
  }

  // ---- What the scanner promises -------------------------------------------------------------------------------

  /** Whatever the saved cursor has passed since its start is finalized for good, and every transaction in it that
      concerns the owner is in the index then and ever after, at all later times of the chain. */
  lemma ScanIsComplete(g: Setting, states: seq<World>, steps: seq<Step>, i: nat, j: nat, n: nat, u: nat)
    requires Lawful(g) && IsRun(g, states, steps) && i <= j < |states| && states[i].now <= u < |g.run|
    requires var p := ProgressOf(states[i].files); p.start <= n < p.next
    ensures Covered(g, n, states[i].now, states[j].files.index) && Covered(g, n, u, states[j].files.index)
    ensures g.run[u].blocks[n] == g.run[states[i].now].blocks[n]
  {
    RunKeeps(g, states, steps, i);
    IndexGrows(g, states, steps, i, j);
    CoveredLater(g, n, states[i].now, u, states[i].files.index, states[j].files.index);
    CoveredLater(g, n, states[i].now, states[i].now, states[i].files.index, states[j].files.index);
  }

  /** Every token that moved for the owner below the cursor is known, unless the list is full. */
  lemma TokensAreComplete(g: Setting, states: seq<World>, steps: seq<Step>, i: nat, n: nat)
    requires Lawful(g) && IsRun(g, states, steps) && i < |states|
    requires var p := ProgressOf(states[i].files); p.start <= n < p.next
    ensures TokensKnown(g, n, states[i].now, ProgressOf(states[i].files).tokens)
    ensures Readable(ProgressOf(states[i].files))
  {
    RunKeeps(g, states, steps, i);
  }

  /** A pass moves a set cursor by one block or not at all, and an unset one to its first block or one further;
      it moves only after the block it was at has been scanned. */
  lemma CursorMovesByOne(f: Files, o: PassInput)
    ensures var p, p' := ProgressOf(f), ProgressOf(Pass(f, o).0);
      && (p.next != 0 ==> p'.start == p.start && p.next <= p'.next <= p.next + 1)
      && (p.next == 0 && p' != p && o.final.Some? ==>
            p'.start == Begun(p, o.final.value).next && p'.start <= p'.next <= p'.start + 1)
      && (o.final.Some? && o.owner.Some? && p'.next > Begun(p, o.final.value).next ==>
            ScanBlock(o.block, Begun(p, o.final.value).next, o.owner.value).Some?)
  {
    if o.final.Some? && o.owner.Some? {
      var found := ScanBlock(o.block, Begun(ProgressOf(f), o.final.value).next, o.owner.value);
      if found.Some? {
        AddHashesGrows(f, found.value.hashes, o.readable, o.indexWrite);
      }
    }
  }

  /** What one step does to the cursor, when it does not move the start by request. */
  ghost predicate Moves(w: World, step: Step) {
    step.ConfigureStep? && step.start.Some? && !step.write.FailedOld?
  }

  /** The block at this height was read, accepted and indexed by this step. */
  predicate Scans(g: Setting, w: World, step: Step, n: nat) {
    && step.PassStep? && step.input.final.Some? && Begun(ProgressOf(w.files), step.input.final.value).next == n
    && ScanBlock(step.input.block, n, g.owner).Some?
  }

  lemma StepMoves(g: Setting, w: World, step: Step)
    requires Enabled(g, w, step) && !Moves(w, step) && ProgressOf(w.files).next != 0
    ensures var p, p' := ProgressOf(w.files), ProgressOf(Apply(w, step).files);
      && p'.start == p.start && p.next <= p'.next <= p.next + 1
      && (p'.next != p.next ==> Scans(g, w, step, p.next))
  {
    match step
    case ConfigureStep(_, _, _) =>
    case PassStep(o, at) => CursorMovesByOne(w.files, o);
    case ImportStep(ids, readable, write) => AddHashesGrows(w.files, ids, readable, write);
  }

  /** In every stretch of a run without a new start, a set cursor only goes on, and every height that it has passed
      was read, accepted and indexed by a step of the stretch that stood at it. */
  lemma {:induction false} CursorScansAll(g: Setting, states: seq<World>, steps: seq<Step>, i: nat, j: nat, n: nat)
    requires Lawful(g) && IsRun(g, states, steps) && i <= j < |states|
    requires ProgressOf(states[i].files).next != 0 && forall k | i <= k < j :: !Moves(states[k], steps[k])
    ensures var p, p' := ProgressOf(states[i].files), ProgressOf(states[j].files);
      && p'.start == p.start && p.next <= p'.next
      && (p.next <= n < p'.next ==> exists k | i <= k < j :: Scans(g, states[k], steps[k], n))
    decreases j - i
  {
    if i < j {
      CursorScansAll(g, states, steps, i, j - 1, n);
      StepMoves(g, states[j - 1], steps[j - 1]);
    }
  }

  // ---- A requested start -----------------------------------------------------------------------------------------

  /** A pass that finds no cursor, with a finalized head above the genesis block, and saves where it begins. */
  ghost predicate Restarts(w: World, step: Step) {
    && step.PassStep? && ProgressOf(w.files).next == 0
    && step.input.final.Some? && step.input.final.value != 0
    && ProgressOf(Apply(w, step).files) != ProgressOf(w.files)
  }

  lemma StepStart(g: Setting, w: World, step: Step)
    requires Enabled(g, w, step) && !Moves(w, step)
    ensures var p, p' := ProgressOf(w.files), ProgressOf(Apply(w, step).files);
      && (Restarts(w, step) ==> p'.start != 0 && p'.next != 0)
      && (!Restarts(w, step) && (p.start == 0 || p.next != 0) ==> p'.start == p.start && p.next <= p'.next)
  {
    match step
    case ConfigureStep(_, _, _) =>
    case PassStep(o, at) => CursorMovesByOne(w.files, o);
    case ImportStep(ids, readable, write) => AddHashesGrows(w.files, ids, readable, write);
  }

  /** What has become of a requested start. */
  predicate StartIs(p: Progress, start: nat, lost: bool) {
    if start != 0 then p.start == start && p.next != 0
    else if lost then p.start != 0 && p.next != 0
    else p.start == 0
  }

  lemma StartGoesOn(g: Setting, w: World, step: Step, start: nat, lost: bool)
    requires Enabled(g, w, step) && !Moves(w, step) && StartIs(ProgressOf(w.files), start, lost)
    ensures StartIs(ProgressOf(Apply(w, step).files), start, lost || Restarts(w, step))
  {
    StepStart(g, w, step);
  }

  ghost predicate Lost(states: seq<World>, steps: seq<Step>, i: nat, j: nat)
    requires j <= |steps| && j <= |states|
  {
    exists k | i < k < j :: Restarts(states[k], steps[k])
  }

  lemma {:induction false} StartFollows(g: Setting, states: seq<World>, steps: seq<Step>, i: nat, j: nat)
    requires Lawful(g) && IsRun(g, states, steps) && i < j < |states|
    requires Moves(states[i], steps[i]) && forall k | i < k < j :: !Moves(states[k], steps[k])
    ensures StartIs(ProgressOf(states[j].files), steps[i].start.value, Lost(states, steps, i, j))
    decreases j - i
  {
    if i + 1 < j {
      StartFollows(g, states, steps, i, j - 1);
      StartGoesOn(g, states[j - 1], steps[j - 1], steps[i].start.value, Lost(states, steps, i, j - 1));
      assert Lost(states, steps, i, j) <==> Lost(states, steps, i, j - 1) || Restarts(states[j - 1], steps[j - 1]);
    } else {
      RunKeeps(g, states, steps, i);
      SavesStart(g, states[i], steps[i]);
    }
  }

  /** A requested start that was saved is kept, up to the next request, if and only if it is not block 0 or no pass
      since then has taken the zero cursor for one that was never set. */
  lemma RequestedStartIsKept(g: Setting, states: seq<World>, steps: seq<Step>, i: nat, j: nat)
    requires Lawful(g) && IsRun(g, states, steps) && i < j < |states|
    requires Moves(states[i], steps[i]) && forall k | i < k < j :: !Moves(states[k], steps[k])
    ensures ProgressOf(states[j].files).start == steps[i].start.value
      <==> steps[i].start.value != 0 || forall k | i < k < j :: !Restarts(states[k], steps[k])
  {
    StartFollows(g, states, steps, i, j);
  }

  lemma SavesStart(g: Setting, w: World, step: Step)
    requires Lawful(g) && Inv(g, w) && Moves(w, step)
    ensures ProgressOf(Apply(w, step).files).start == ProgressOf(Apply(w, step).files).next == step.start.value
  {
  }

  /** Block 0 is not kept: with a finalized head at height 100, a scan that is asked to start there starts at 81. */
  lemma StartZeroIsLost(g: Setting) returns (states: seq<World>, steps: seq<Step>)
    requires Lawful(g) && 0 < |g.run| && g.run[0].final >= 100
    ensures IsRun(g, states, steps) && |steps| == 2
    ensures Moves(states[0], steps[0]) && steps[0].start == Some(0) && ProgressOf(states[1].files).start == 0
    ensures ProgressOf(states[2].files).start == 81
  {
    var configure := ConfigureStep(true, Some(0), Done);
    var pass := PassStep(PassInput(Some(g.owner), Some(100), BlockReads(None, None, None, None), true, Done, Done),
                         Times(0, 0));
    var configured := Apply(START, configure);
    states, steps := [START, configured, Apply(configured, pass)], [configure, pass];
    assert Enabled(g, states[0], steps[0]) && Enabled(g, states[1], steps[1]);
  }
}

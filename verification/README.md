# Verified model of the testnet wallet's core

The wallet signs test-network transactions, keeps them in a journal on disk, and shows what they did. This project
models the parts that must be right when a disk write fails, the process dies, a node lies low or the chain
reorganises, and proves what they promise:

* **The EVM journal and its send protocol.** `Journal` is the journal object itself: two lists, one journal file and
  archive files, every method proved against the functions of `JournalModel`. `JournalProtocol` runs Quote, Send, Retry
  and History over it as threads that interleave at every journal call, with failing writes and crashes anywhere. The
  invariant is in `JournalInvariants`, `JournalStore` and `JournalSafety`; what a reader wants to know is in
  `JournalTheorems`, `JournalVersions`, `JournalSigning`, `JournalCompaction` and `JournalReload`. `JournalWitness` runs
  the machine to the states in which a promise fails, and `JournalChain` runs it over a reorganising chain. `Replacement`
  is the fee ladder. `JournalEffects` says what each operation writes, lists, files and refuses.
* **The TRON service.** `Tron` is the service object, proved against `TronModel`; `TronSafety` and `TronTheorems` prove
  whole runs safe over a reorganising `TronChain`; `TronEffects` says exactly when a record is signed, confirmed, failed
  or expired; `TronWire` is the hand-written encoder against a standard Protocol Buffers decoder; `TronQuote` is the
  64-bit reserve arithmetic.
* **The failover transport** (`Failover`), any number of requests over shared atomics, one atomic access at a time.
* **Finality reads** (`Finality`, over `ChainModel`).
* **Exact encodings**: `Decimal` amounts, and ERC-4337 packing and hashing (`UserOp`, `UserOpHash`).
* **The activity ledger and the block scanner**: `Ledger`, `Scan`, `ScanModel`, `ScanSafety`, and `ScanEffects`, which
  says exactly when the cursor moves.

## Conventions

A file is replaced whole. A replacement ends as `Done` (new content), `FailedOld` or `FailedNew` (an error, with the old
or the new content left behind). A crash in the middle of a call is that call with its remaining writes failed, followed
by a restart from the files. Times are positions in a sequence of chain states; two reads may see different states, and
only the finalized (or solidified) prefix is certain to stay. Hashing, signature recovery, address parsing, clocks and
node answers are parameters, constrained only where the text of a lemma says so.

## What the model found

* **TRON refuses what it should, to the unit.** Under the guards of Quote no 64-bit step can wrap, because a signed part
  is at most 225 bytes long. `TronQuote.PriceIsExact` gives acceptance as an if-and-only-if in unbounded integers.
* **The order of the two TRON reads matters.** `TronChain.ExpiryIsFinal` needs the solidified head before the receipt;
  `TronChain.ReceiptFirstIsUnsound` builds, for every transaction, a chain on which the other order is wrong.
* **The second canonical-header read matters.** `Finality.RecheckIsNeeded` is a reorganisation that fools the lookup
  without it.
* **Unpack accepts more than ToPacked gives back.** `UserOp.ToPackedUndoesUnpack` states exactly which packed operations
  survive the way back: those with tip at most fee cap and no truncated paymaster field.
* **A scan from block 0 does not stay at block 0.** A zero cursor reads as one that was never set
  (internal/wallet/scanner.go:153-158). `ScanSafety.StartZeroIsLost` is such a run, and
  `ScanSafety.RequestedStartIsKept` gives the exact condition over runs.
* **A version does not count every change, and it can fall.** A rival that compaction files away turns `replaced` under
  its old version (internal/wallet/journal.go:542-549). If a Retry passed its check before, it may update the rival after
  an archive file already holds it; the next compaction files it again under another name, and a restart that lists the
  older file first brings the older version back (internal/wallet/journal.go:502-523). `JournalWitness` runs both cases
  from the empty directory. `JournalVersions.VersionsShowChanges` says exactly when versions show every change, by what
  can be seen before each step, and `JournalVersions.ReloadedRival` what a restart may change.
* **A quote can be signed twice.** If the journal is full the append is refused after signing, and Send may sign again.
  `JournalWitness.SomeQuoteIsSignedTwice` is such a run; `JournalSigning.SignsAgainExactly` gives the exact condition,
  and nothing is stored or broadcast by any signing but the last. A restart forgets every quote
  (`JournalSigning.RestartForgetsQuotes`).

## Model

| member | source | states |
|---|---|---|
| Journal.JournalManager.Load | internal/wallet/journal.go:170-196 | reading the journal file and then the archives accepts exactly the loadable files and gives the merged view |
| Journal.JournalManager.LoadArchives | internal/wallet/journal.go:493-526 | all archive files in listing order; a single bad one fails the load |
| Journal.JournalManager.LoadArchive | internal/wallet/journal.go:506-523 | one archive merges into memory; the archived copy of a record that is active, or already archived, is dropped, never both lists |
| Journal.JournalManager.HasInFlightTx | internal/wallet/journal.go:212-231 | true exactly when some record, active or archived, is at a nonce with no mined record |
| Journal.JournalManager.NonceIsMined | internal/wallet/journal.go:478-490 | true exactly when some record of the nonce is in a mined state |
| Journal.JournalManager.RecordsAtNonce | internal/wallet/journal.go:465-476 | every record of the nonce, archived first, in order |
| Journal.JournalManager.FindByQuoteId | internal/wallet/journal.go:234-251 | the first record of the quote, or none when there is none |
| Journal.JournalManager.RefreshItems | internal/wallet/journal.go:377-400 | hash, version and state of the records that still need a chain lookup, newest first |
| Journal.JournalManager.FinalizedNonces | internal/wallet/journal.go:534-541 | exactly the nonces with a finalized mined record |
| Journal.JournalManager.AppendAtomic | internal/wallet/journal.go:275-296 | a valid record becomes durable before memory knows it; on failure memory is as before and the file old or new; full and invalid are refused |
| Journal.JournalManager.UpdateStateAtomicIfVersion | internal/wallet/journal.go:404-451 | compare-and-set on hash and version, written before memory changes, version up by one only on a change |
| Journal.JournalManager.ArchiveFinalized | internal/wallet/journal.go:528-575 | archive file first, journal second, memory last, with the batch named by its first and last hash |
| JournalEffects.UpdateWrites | internal/wallet/journal.go:404-451 | an update that finds its version and is written leaves the whole observation in the one record of that hash and nothing else changed, in memory and in the file |
| JournalEffects.UpdateRefuses | internal/wallet/journal.go:404-432 | another version or a hash that is not active is reported, exactly then, and changes nothing |
| JournalEffects.UpdateFailsExactly | internal/wallet/journal.go:434-451 | an update fails exactly if it has something to write and cannot |
| JournalEffects.CompactionFiles | internal/wallet/journal.go:528-575 | which records leave the active list from 900 on: all that are resolved and not among the last hundred, each to the archive, final as it was or else as replaced; the rest stay |
| JournalEffects.LoadRefusesExactly | internal/wallet/journal.go:170-196 | exactly which files keep the journal from starting |
| JournalEffects.MergeAdds | internal/wallet/journal.go:506-523 | one archive file adds its records whose hashes are new, and only those |
| JournalEffects.LoadedExactly | internal/wallet/journal.go:170-196 | what loads is the journal file as active and, archived, what the archives hold: every hash once, none twice or active, a missing version as the first |
| JournalEffects.RefreshNewestFirst | internal/wallet/journal.go:377-400 | a later record is looked up before an earlier one |
| JournalInvariants.AppendKeeps | internal/wallet/journal.go:275-296 | appending a fresh record keeps lists disjoint, hashes and quotes unique, and archives coherent |
| JournalInvariants.UpdateKeeps | internal/wallet/journal.go:404-451 | updating an open record keeps the invariant, and the new view follows the old one |
| JournalInvariants.FilingKeeps | internal/wallet/journal.go:553-566 | writing the batch over a same-named archive loses nothing |
| JournalInvariants.CompactionKeeps | internal/wallet/journal.go:528-575 | compaction keeps every record once, active and archived disjoint, finals unchanged |
| JournalInvariants.SplitMembers | internal/wallet/journal.go:542-552 | the batch and what stays are together exactly the active records |
| JournalReload.LoadKeeps | internal/wallet/journal.go:493-526 | whatever the invariant allows on disk loads without error, in any listing order of the archives, to an equivalent view |
| JournalCompaction.CompactionSameAnswers | internal/wallet/journal.go:528-575 | compaction leaves in-flight, mined, refresh, record count, quote and hash lookups unchanged |
| JournalCompaction.ReloadSameAnswers | internal/wallet/journal.go:493-526 | so does a reload |
| JournalTheorems.CompactionInvisible | internal/wallet/journal.go:528-575 | so does compaction with any failure of its two writes, also on files torn by earlier failures; a crash and reload at any point inside it answers as memory if the journal file was rewritten, and else as a reload before it |
| JournalTheorems.RunCompactionInvisible | internal/wallet/service.go:646-649 | the same for every compaction of every run |
| JournalStore.NothingMissing | internal/wallet/journal.go:453-463 | every record of memory is in the journal file or in an archive, also after torn writes |
| JournalStore.AppendStore | internal/wallet/journal.go:275-296 | the relation of memory and disk survives an append however its write ends |
| JournalStore.UpdateStore | internal/wallet/journal.go:404-451 | and a compare-and-set |
| JournalStore.ArchiveStore | internal/wallet/journal.go:553-575 | and a compaction with its two writes |
| JournalStore.ReloadStore | internal/wallet/journal.go:170-196 | and a restart, which always loads |
| JournalSafety.AppendKeepsWorld | internal/wallet/service.go:504-519 | Send's append keeps the machine's invariant although History may have demoted records since the in-flight check |
| JournalSafety.BroadcastKeeps | internal/wallet/service.go:520-532 | only the bytes of a durable record are handed to the network |
| JournalSafety.UpdateKeepsWorld | internal/wallet/service.go:521-532 | settling, refreshing and demoting keep the invariant for all three threads |
| JournalSafety.CompactKeeps | internal/wallet/service.go:646-649 | compaction in the middle of a Send or Retry keeps it |
| JournalSafety.CrashKeeps | internal/wallet/service.go:42-94 | a restart at any point loads and keeps it |
| JournalSafety.StepKeeps | internal/wallet/service.go:306-655 | every step of Quote, Send, Retry, History, and every crash, keeps it |
| JournalEffects.RefreshIsRecorded | internal/wallet/service.go:623-627 | in every run, a refresh that finds its version and is written leaves the whole answer in the record; a final success or revert is final from then on |
| JournalEffects.DemotionIsRecorded | internal/wallet/service.go:628-636 | and a demotion leaves an unknown broadcast |
| JournalEffects.DemotionIsOfMined | internal/wallet/service.go:628-630 | only a record whose hash was shown as mined, in the same call, is demoted |
| JournalEffects.HistoryLooksUpAll | internal/wallet/service.go:599-607 | History sets out to look up exactly the active records whose result may still change |
| JournalEffects.HistoryCompacts | internal/wallet/service.go:646-649 | in every run, a History whose two writes succeed has filed exactly what was due |
| JournalEffects.BroadcastIsRecorded | internal/wallet/service.go:512-533 | in every run, what Send or Retry got from the network is what the record says when the call is done: submitted exactly without a failure, else unknown with its text |
| JournalEffects.AppendIsRecorded | internal/wallet/service.go:484-510 | what Send stores: a pending record of the quote and of the signed transaction, last in memory and in the file |
| JournalEffects.SigningIsChecked | internal/wallet/service.go:323-356 | what is signed has seen every nonce of the journal mined or, as a replacement, its own nonce not mined and holding as many records as when it was priced |
| JournalEffects.RetryIsOfUnmined | internal/wallet/service.go:544-576 | what Retry broadcasts has seen its nonce not mined in the same call |
| JournalEffects.PricingIsOfUnmined | internal/wallet/replacement.go:19-26 | and what is priced as a replacement too |
| JournalEffects.QuotesChangeExactly | internal/wallet/quote.go:67-110 | which step stores or drops which quote |
| JournalEffects.FaultStopsCalls | internal/wallet/service.go:310-313 | in every run, after a fault no Quote, Send or Retry begins until a restart |
| JournalEffects.FailedAppendFlags | internal/wallet/service.go:502-510 | an append below the limit ends in the fault exactly if its write fails |
| JournalEffects.FailedSettleFlags | internal/wallet/service.go:521-525 | so does the update after a broadcast, if there is something to write or the record is gone |
| JournalEffects.FailedRefreshFlags | internal/wallet/service.go:623-627 | and the update of a refresh |
| JournalEffects.FailedDemotionFlags | internal/wallet/service.go:628-636 | and that of a demotion |
| JournalEffects.FailedCompactionFlags | internal/wallet/service.go:646-649 | and a compaction with something to file |
| JournalTheorems.NothingBroadcastIsLost | internal/wallet/journal.go:488-492 | in every run, all bytes ever broadcast are on disk at every moment and are found again by hash after a restart: duplicates, never a gap |
| JournalTheorems.FinalizedForever | internal/wallet/journal.go:404-451 | a finalized mined record never changes again, across all interleavings and restarts |
| JournalTheorems.OneWinnerPerNonce | internal/wallet/journal.go:534-551 | at most one record of a nonce is ever finalized mined |
| JournalTheorems.VersionsGrow | internal/wallet/journal.go:434-446 | while a record stays active its version strictly grows with each change |
| JournalVersions.StepUnshown | internal/wallet/journal.go:542-549 | one step changes a record without a larger version exactly when compaction seals it as a rival or a restart reads an older copy of it; both show before the step |
| JournalVersions.VersionsShowChanges | internal/wallet/journal.go:404-575 | over any stretch of any run the versions of a hash show all its changes if and only if no step of the stretch does one of the two |
| JournalVersions.OnlyRivalsChangeUnshown | internal/wallet/journal.go:534-551 | what changes without a larger version was not final, ends archived as replaced, and another record of its nonce is final |
| JournalVersions.ReloadedRival | internal/wallet/journal.go:502-523 | a restart brings an archived record back as the copy listed first: the same record exactly for equal versions, else a rival whose notes differ |
| JournalWitness.SealingKeepsTheVersion | internal/wallet/journal.go:542-549 | a run from the empty directory in which compaction changes a record and keeps its version |
| JournalWitness.RestartLowersTheVersion | internal/wallet/journal.go:502-523 | a run from the empty directory after which a restart lowers a version and drops an error text |
| JournalTheorems.PassingCheckMeansUnchanged | internal/wallet/journal.go:404-432 | a version check that passes means the record is exactly the caller's copy |
| JournalTheorems.OneRecordPerQuote | internal/wallet/service.go:310-321 | at most one record, and one broadcast transaction, carries a quote ID |
| JournalTheorems.SpentQuoteStaysSpent | internal/wallet/service.go:310-321 | once a quote has its record every later Send finds it and does not sign |
| JournalSigning.SignsAgainExactly | internal/wallet/service.go:502-510 | after a signing and without a restart, Send can begin to sign the quote again if and only if every signing so far met a full journal |
| JournalSigning.SignedTwiceMetFull | internal/wallet/service.go:502-510 | of two signings of a quote without a restart in between, the earlier met a full journal and changed nothing |
| JournalSigning.FullJournalSignsAgain | internal/wallet/service.go:306-510 | any run that ends with such a signing goes on to sign again, if no fault is set and the checks still pass |
| JournalSigning.RestartForgetsQuotes | internal/wallet/quote.go:53-105 | what is signed after a restart was quoted again after it, under an ID that no record carries |
| JournalWitness.SomeQuoteIsSignedTwice | internal/wallet/journal.go:275-281 | a run from the empty directory in which one quote is signed twice |
| JournalTheorems.OneUnminedNonce | internal/wallet/service.go:323-325 | at most one nonce of the journal was never recorded as mined, in every reachable state |
| JournalTheorems.EverMinedExactly | internal/wallet/journal.go:478-490 | the nonces that count as mined are exactly those that memory has shown as mined at some time |
| JournalTheorems.CountUsedOnce | internal/wallet/service.go:346-355 | a pair of nonce and record count is used by at most one append |
| JournalTheorems.LadderClimbs | internal/wallet/replacement.go:62-85 | in every run k replacements of a nonce multiply tip and fee cap by at least (6/5)^k, and each outbids all earlier ones |
| Replacement.PriceReplacement | internal/wallet/replacement.go:62-85 | the loop over the nonce's records computes the specified price |
| Replacement.BidsAreMaxima | internal/wallet/replacement.go:62-81 | the bids are the least prices that cover the suggestion and every bump |
| Replacement.PriceOutbids | internal/wallet/replacement.go:62-85 | tip at most fee cap (EIP-1559, "Specification"), and both strictly above every earlier record |
| Replacement.PriceIsLeast | internal/wallet/replacement.go:62-85 | the price covers the suggested tip, twice the base fee and the tip, and a fifth more than every earlier price, and is the least that does |
| JournalEffects.PricesExactly | internal/wallet/replacement.go:62-143 | a replacement quote names its original, is for its nonce and carries such a price |
| Replacement.PriceIgnoresOrder | internal/wallet/replacement.go:62-85 | the price depends on the set of transactions at the nonce, not on their order |
| Replacement.LadderGrows | internal/wallet/replacement.go:67-71 | 5^k times the k-th fee is at least 6^k times the first |
| Finality.FinalizedIsPermanent | internal/chain/chain.go:192-221 | a finalized report is of a transaction whose block stays canonical and final forever, with the reported result |
| Finality.FinalIsReported | internal/chain/chain.go:166-237 | conversely what was final when the reads began is reported finalized |
| Finality.AnswersExactly | internal/chain/chain.go:166-237 | each of the answers is given exactly under its reads: mined, displaced by a reorganisation, pending, without receipt, not found, unavailable |
| Finality.MinedReportIsTrue | internal/chain/chain.go:192-221 | every report of a success or a revert, final or not, tells the result, place and depth of the execution that the chain held, and is final exactly if a second look, after a finalized head at or above the block, found the block |
| Finality.AnswerToExecuted | internal/chain/chain.go:192-237 | the whole answer about an execution, by what the chain held at each read |
| Finality.AnswerToUnexecuted | internal/chain/chain.go:166-191 | and about a transaction without one |
| Finality.RivalNeverExecutes | internal/wallet/journal.go:534-551 | a rival of a transaction reported finalized never executes |
| Finality.OneWinner | internal/chain/chain.go:192-221 | all finalized reports of a nonce, at any time, name one transaction |
| Finality.ReportsAgreeWithWinners | internal/chain/chain.go:192-221 | which is all that the journal's machine assumes of them |
| Finality.RecheckIsNeeded | internal/chain/chain.go:212-221 | without the second header read, every transaction could be called final and be gone |
| JournalChain.WinnersExist | internal/chain/chain.go:192-221 | every chain has a map of winners, one per nonce |
| JournalChain.ChainRunIsRun | internal/wallet/service.go:613-626 | a run whose answers come from Transaction over the chain is a run of the machine, so all its theorems hold with no winner assumed |
| JournalChain.ReplacedNeverExecutes | internal/wallet/journal.go:534-551 | in every such run, a record archived as replaced, in memory or in a file, has no receipt on any later state of the chain |
| JournalChain.FinalizedExecuted | internal/wallet/service.go:619-626 | and a finalized mined record has a final receipt with its result on every later state |
| JournalChain.RefreshRecordsTheChain | internal/wallet/service.go:611-627 | from the chain to the disk: a refreshed record that says succeeded or reverted says what the chain executed, and is final exactly if the block stayed canonical |
| Failover.HealthyMeansAnswered | internal/chain/fallback.go:127-177 | for any number of requests, while healthy is true the active endpoint has answered with the right chain ID |
| Failover.OnlyAnsweredEndpointsGetPayloads | internal/chain/fallback.go:89-177 | no payload goes to an endpoint that never did |
| Failover.SlowLoopVisitsEachOnce | internal/chain/fallback.go:149-180 | in every run, whatever became of a request, its slow loop has probed no endpoint twice, and one that gave up has probed all |
| Failover.VisitsEachOnce | internal/chain/fallback.go:150-152 | the offsets of the loop are a permutation of the endpoints, wherever it starts |
| Failover.StepKeeps | internal/chain/fallback.go:114-180 | every atomic access of every request keeps the shared invariant |
| Failover.ServedByReply | internal/chain/fallback.go:127-177 | in every run, a request has its response, or is on its way to it, exactly if the last reply that it got was good |
| Failover.FailedSendFailsOver | internal/chain/fallback.go:137-152 | a failed fast send next clears healthy, and the request then tries the endpoint after the active one |
| Failover.FailedSendEnds | internal/chain/fallback.go:137-180 | and it ends only by its caller, by a good reply in its slow loop, or after all endpoints |
| Failover.NeverFastAgain | internal/chain/fallback.go:127-152 | a request that left the fast path does not come back to it |
| Failover.HealthyChangesExactly | internal/chain/fallback.go:147-176 | healthy is cleared by a failed fast send only and set by a served request only |
| Failover.ActiveChangesExactly | internal/chain/fallback.go:164-175 | active moves to the endpoint that served, unless another moved it since the loop began, and a move that fails over is counted once |
| Failover.FastExactly | internal/chain/fallback.go:127-160 | which path a request takes and which endpoint it asks |
| TronWire.UvarintRoundTrip | internal/wallet/tron_rpc.go:212-223 | a standard decoder reads a varint back, and leaves what follows |
| TronWire.ParseEmitAll | internal/wallet/tron_rpc.go:212-223 | the standard decoder gives back exactly the fields written, in order |
| TronWire.AppendBytes | internal/wallet/tron_rpc.go:212-216 | the byte writer appends one length-delimited field |
| TronWire.AppendInt | internal/wallet/tron_rpc.go:217-223 | the integer writer appends one varint field, or nothing for zero |
| TronWire.TronRawRoundTrip | internal/wallet/tron_rpc.go:224-256 | the decoder recovers every field of the signed part for both contract kinds, omitted zeros as defaults |
| TronWire.TransferCallReads | internal/wallet/tron_rpc.go:236-243 | the token call data holds the selector, the recipient and the full amount at their places |
| TronWire.TronRawLength | internal/wallet/tron_rpc.go:224-256 | the signed part is at most 225 bytes long |
| TronWire.LoaderAcceptsFrames | internal/wallet/tron.go:131-144 | the loader's length, slice and re-encoding checks accept exactly the frames with a 65-byte signature |
| TronWire.FrameReads | internal/wallet/tron.go:446-453 | a standard decoder reads signed part and signature back from the stored frame |
| TronWire.FrameInjective | internal/wallet/tron.go:446-453 | two transactions never share a frame |
| TronQuote.PriceIsExact | internal/wallet/tron.go:264-366 | a quote exists exactly when the guards hold and the exact need is within the balance; the stored requirement is that need, with no 64-bit wrap |
| TronQuote.PricedSaysWhatWasOffered | internal/wallet/tron.go:356-366 | the bytes to sign decode to what was quoted, and any signature has the size that was charged |
| TronQuote.AffordIsExact | internal/wallet/tron.go:361-366 | the balance comparison in wrapped arithmetic is the exact one |
| Tron.TronService.Load | internal/wallet/tron.go:111-146 | the constructor accepts exactly the files whose records all pass, and starts from them |
| Tron.TronService.Pending | internal/wallet/tron.go:193-200 | true exactly when some record is neither final nor expired |
| Tron.TronService.SaveRecords | internal/wallet/tron.go:201-219 | memory follows the file only on success; a failure latches the fault |
| Tron.TronService.MakeQuote | internal/wallet/tron.go:220-379 | the refusals of Quote in order, the price, and the bounded quote store |
| Tron.TronService.Send | internal/wallet/tron.go:380-458 | existing record, refusals in order, then durable record, then broadcast |
| Tron.TronService.Transmit | internal/wallet/tron.go:459-486 | network and deadline checks, the attempt with bytes that the file holds at that moment, and its saved result |
| Tron.TronService.Deliver | internal/wallet/tron.go:467-472 | only a record that is in the file is handed to the network |
| Tron.TronService.Retry | internal/wallet/tron.go:487-507 | fault, lookup, closed records given back, and otherwise the same bytes again |
| Tron.TronService.History | internal/wallet/tron.go:508-596 | record by record head then receipt; any bad answer abandons the whole pass unsaved |
| TronEffects.RefreshExactly | internal/wallet/tron.go:515-590 | an open record expires, fails or succeeds exactly when its reads show it, with the checked block and time, or the fee and the result; otherwise it stays |
| TronEffects.AbandonsExactly | internal/wallet/tron.go:520-582 | exactly when a record makes History give up |
| TronEffects.PassExactly | internal/wallet/tron.go:508-592 | a pass changes all records as their reads show, in memory and in the file, or none |
| TronEffects.PassAnswers | internal/wallet/tron.go:588-597 | exactly when a pass answers, and with which records |
| TronEffects.PassFrees | internal/wallet/tron.go:226-228 | after a saved pass that shows each pending record expired, failed or succeeded nothing is pending and Quote is not refused as in flight |
| TronEffects.QuotesExactly | internal/wallet/tron.go:220-379 | exactly when Quote gives a quote, what it stores and which quotes it drops |
| TronQuote.RefusalIsTrue | internal/wallet/tron.go:250-365 | an acceptable offer is refused only for funds, any other for a reason that is true of it |
| TronEffects.SendSigns | internal/wallet/tron.go:446-486 | what Send does when its conditions hold: one record of the quote in memory and file, the quote spent, and the bytes out exactly if network and deadline allow |
| TronEffects.SendRefuses | internal/wallet/tron.go:387-450 | and when they do not: nothing changes and nothing goes out |
| TronEffects.RefusalIsTrue | internal/wallet/tron.go:387-450 | every reason that Send gives is true |
| TronEffects.SendFails | internal/wallet/tron.go:452-455 | a failed save sets the fault and sends nothing |
| TronEffects.SendAnswers | internal/wallet/tron.go:457-486 | what Send answers when it signs |
| TronEffects.RetrySends | internal/wallet/tron.go:487-507 | Retry sends the first record of the hash, and changes only its state |
| TronEffects.RetryRefuses | internal/wallet/tron.go:493-506 | with a fault, without an open record of the hash, it does nothing |
| TronEffects.StartsExactly | internal/wallet/tron.go:111-146 | the service starts exactly from at most a thousand records whose hash is that of their bytes and whose frame is signed by their sender |
| TronChain.ExpiryIsFinal | internal/wallet/tron.go:523-558 | head past the deadline, then no receipt: the transaction is on no fork from then on |
| TronChain.ReceiptIsFinal | internal/wallet/tron.go:545-590 | a solidified receipt stays |
| TronChain.ReceiptFirstIsUnsound | internal/wallet/tron.go:523-558 | in the other order the conclusion is false, for every transaction |
| TronSafety.SendKeeps | internal/wallet/tron.go:380-486 | Send keeps the service's invariant however its two saves and its broadcast end |
| TronSafety.RetryKeeps | internal/wallet/tron.go:487-507 | so does Retry |
| TronSafety.HistoryKeeps | internal/wallet/tron.go:508-596 | so does History, with all its reads from a reorganising chain |
| TronSafety.RefreshKeeps | internal/wallet/tron.go:513-590 | what a refreshed record says of the chain is true; nothing closed opens again |
| TronSafety.SuccessIsEarned | internal/wallet/tron.go:545-590 | a record becomes successful exactly by its own receipt that did not fail and, for a token, whose call returned true |
| TronSafety.StepKeeps | internal/wallet/tron.go:220-596 | every call and every restart keeps it |
| TronTheorems.NeverTwoPending | internal/wallet/tron.go:193-219 | never two pending records, in memory and in the file, and the file always loads |
| TronTheorems.ClosedForever | internal/wallet/tron.go:508-596 | final records never change and are on the chain for good; expired ones never wait again and are on no later fork |
| TronTheorems.ExpiredStaysExpired | internal/wallet/tron.go:545-558 | an expired record stays expired unless two transactions share a digest |
| TronTheorems.BroadcastIsDurable | internal/wallet/tron.go:446-475 | whatever reached the network is in memory and file ever after, and its stored bytes decode to it and a valid signature |
| TronTheorems.SendingAgainDoesNothing | internal/wallet/tron.go:387-392 | repeating a Send gives its record back and signs, sends and writes nothing |
| TronTheorems.FaultStopsSpending | internal/wallet/tron.go:201-219 | in every run after a failed save, only a restart lets anything be quoted, signed or broadcast |
| TronTheorems.SuccessWasEarned | internal/wallet/tron.go:545-590 | in every run a record counts as successful, in memory or file, only if History read a good receipt of its own |
| Decimal.ParseExactly | internal/wallet/decimal.go:45-74 | the parser accepts exactly the well-formed numbers with few enough decimals and a value in range, with their value; the other inputs get the right error |
| Decimal.ParseWritten | internal/wallet/decimal.go:45-74 | the outcome on each written number, with the two range errors apart |
| Decimal.MatchIsWritten | internal/wallet/decimal.go:13-13 | the regular expression matches only digits, or digits, a point and digits |
| Decimal.WrittenMatches | internal/wallet/decimal.go:52-56 | and all of those, which split into their two parts |
| Decimal.FormatIsCanonical | internal/wallet/decimal.go:77-95 | what is printed has no superfluous zero and stands for the number |
| Decimal.CanonicalIsFormat | internal/wallet/decimal.go:77-95 | and is the only such string |
| Decimal.ParseOfFormat | internal/wallet/decimal.go:45-95 | parsing what was printed gives the number back, for all 256-bit numbers and 0 to 36 decimals |
| Decimal.FormatOfParse | internal/wallet/decimal.go:45-95 | a canonical string is the printed form of a parsed one exactly when it parses to the same number |
| Decimal.FormatETHIsFormatUnits | internal/chain/chain.go:156-164 | the two printers agree at 18 decimals |
| UserOp.ValidateAccepts | internal/wallet/erc4337/types.go:144-167 | an operation is valid exactly when all six numbers are 256-bit, the tip is at most the fee cap and the sender is not zero |
| UserOp.ValidateErrors | internal/wallet/erc4337/types.go:144-167 | which error an invalid operation gets |
| UserOp.ToPackedAccepts | internal/wallet/erc4337/types.go:191-228 | exactly which operations have a packed form |
| UserOp.ToPackedErrors | internal/wallet/erc4337/types.go:191-228 | which error keeps a valid one from being packed |
| UserOp.PackUint128Pair | internal/wallet/erc4337/encoding.go:72-90 | the in-place copies give two right-aligned 128-bit halves, or the error of the first bad number |
| UserOp.PairRoundTrip | internal/wallet/erc4337/encoding.go:72-97 | unpacking undoes packing on every pair |
| UserOp.WordRoundTrip | internal/wallet/erc4337/encoding.go:72-97 | packing undoes unpacking on every word |
| UserOp.UnpackUndoesToPacked | internal/wallet/erc4337/types.go:191-253 | Unpack undoes ToPacked on everything it accepts |
| UserOp.ToPackedUndoesUnpack | internal/wallet/erc4337/types.go:191-253 | ToPacked undoes Unpack whenever it succeeds, and when that is |
| UserOp.UnpackAcceptsMore | internal/wallet/erc4337/types.go:231-253 | for every tip above a fee cap, a packed operation that Unpack accepts and ToPacked does not give back |
| UserOp.PackedLayout | internal/wallet/erc4337/types.go:191-228 | verification gas sits above call gas and the tip above the fee cap (ERC-4337, "EntryPoint definition"); all other fields are as they were |
| UserOpHash.InnerV06Reads | internal/wallet/erc4337/hash.go:23-67 | what stands at each offset of the 320 bytes |
| UserOpHash.InnerV07Reads | internal/wallet/erc4337/hash.go:70-105 | what stands at each offset of the 256 bytes |
| UserOpHash.OuterReads | internal/wallet/erc4337/hash.go:126-149 | and of the 96 bytes around the inner hash |
| UserOp.WordAt | internal/wallet/erc4337/encoding.go:18-49 | the k-th value fills the k-th word |
| UserOp.EncodeInjective | internal/wallet/erc4337/encoding.go:18-49 | static values of given ABI types are determined by their words |
| UserOp.PackUserOp | internal/wallet/erc4337/hash.go:23-67 | the buffer filled by offsets is the ABI encoding of the ten fields of version 0.6 |
| UserOp.PackPackedUserOp | internal/wallet/erc4337/hash.go:70-105 | and of the eight fields of version 0.7 |
| UserOp.PackUserOpHashData | internal/wallet/erc4337/hash.go:126-149 | and of inner hash, entry point and chain ID, with the errors in order |
| UserOpHash.InnerV06Determines | internal/wallet/erc4337/hash.go:23-67 | equal bytes exactly for equal numbers and equal inner hashes |
| UserOpHash.InnerV07Determines | internal/wallet/erc4337/hash.go:70-105 | the same for version 0.7 |
| UserOpHash.HashExists | internal/wallet/erc4337/hash.go:154-204 | exactly when there is a hash, by entry point |
| UserOpHash.HashErrors | internal/wallet/erc4337/hash.go:154-204 | and which error there is instead |
| UserOpHash.HashBinds | internal/wallet/erc4337/hash.go:154-204 | without a collision among the hashed strings, equal hashes mean the same entry point, chain and operation but for the signature |
| UserOpHash.SignatureIsFree | internal/wallet/erc4337/hash.go:154-204 | the signature is not hashed |
| Ledger.ReceiptMovements | internal/chain/activity.go:140-206 | the pass over the logs gives exactly the owner's movements, or refuses the receipt |
| Ledger.ReadLogs | internal/chain/activity.go:169-204 | logs are refused exactly when one is missing, removed, foreign or repeats an index |
| Ledger.LogEntries | internal/chain/activity.go:181-203 | the movements of one log |
| Ledger.LogNet | internal/chain/activity.go:181-203 | a log lowers the sender's balance and raises the recipient's by the amount, and by whom wrapping and unwrapping are felt |
| Ledger.ValueNet | internal/chain/activity.go:158-167 | the value leaves the sender and reaches the recipient, also when they are one |
| Ledger.Conservation | internal/chain/activity.go:140-206 | over all owners each asset sums to the exact total of fee, creation value, wraps and unwraps; a reverted receipt to the fee; acceptance does not depend on the owner |
| Ledger.DoubleEntry | internal/chain/activity.go:140-206 | with a recipient and no wrapping, tokens sum to zero and the native coin to minus the fee |
| Ledger.Totals | internal/wallet/activity.go:200-226 | received, sent and fee of each asset over the settled transactions of a page |
| Ledger.NetIsTotal | internal/wallet/activity.go:227-231 | the net that is shown is what the movements change |
| Ledger.MovementsAreEvidenced | internal/chain/activity.go:140-206 | a movement is in the ledger exactly if it has its evidence: the gas of the own transaction as a fee, its value, or a log of the receipt, with kind, asset and counterparty |
| Ledger.RefusesExactly | internal/chain/activity.go:169-178 | a receipt is refused exactly if it succeeded and has a log that is missing, removed or foreign, or two logs of one index |
| Ledger.FeeShown | internal/wallet/activity.go:200-226 | the fee that is shown is the gas fee of the own transaction and nothing else |
| Scan.ScanFinalizedBlock | internal/chain/scanner.go:22-85 | the loops give exactly the related hashes and tokens of a block, or refuse it |
| Scan.ScanReceipt | internal/chain/scanner.go:55-79 | one receipt: whether it belongs, whether it concerns the owner, which tokens it adds |
| Scan.Scanner.AddActivityHashes | internal/wallet/activity.go:62-92 | the index grows by the new hashes, in order, and is written only when it grows |
| Scan.Scanner.ConfigureScan | internal/wallet/scanner.go:116-137 | a new start moves start and cursor together |
| Scan.Scanner.ScanOnce | internal/wallet/scanner.go:139-198 | one pass: begin, scan, index, advance, each failure keeping the cursor |
| ScanEffects.AdvancesExactly | internal/wallet/scanner.go:153-184 | the cursor moves, by one, if and only if the block is accepted, its hashes are indexed, no token is the zero address and the progress reaches the file |
| ScanEffects.OkExactly | internal/wallet/scanner.go:160-198 | a pass with a block to scan answers ok exactly if it advances and its write is done |
| ScanEffects.AcceptsExactly | internal/chain/scanner.go:22-60 | a block is accepted exactly if the answers about it agree with one another and with the heights |
| ScanEffects.IdlePass | internal/wallet/scanner.go:139-165 | a pass without a block moves nothing |
| ScanEffects.CursorCounts | internal/wallet/scanner.go:153-184 | in every run, a set cursor moves by exactly as many blocks as passes advance |
| ScanEffects.OkPassesAdvance | internal/wallet/scanner.go:153-184 | in every run, k passes that are given a block and answer ok bring the cursor k further |
| ScanEffects.HonestBlockAdvances | internal/chain/scanner.go:22-85 | with a node that has the final block in full and all writes done, a pass advances |
| ScanEffects.ConfiguresExactly | internal/wallet/scanner.go:116-137 | what configuring changes, and that it touches nothing else |
| ScanEffects.ConcernsExactly | internal/chain/scanner.go:55-79 | a transaction concerns the owner as sender, as recipient, or if it succeeded with a transfer from or to the owner |
| ScanEffects.LedgerIsCovered | internal/chain/activity.go:140-206 | without wrapping, whatever the ledger books for the owner, the scan finds |
| ScanModel.FoundHolds | internal/chain/scanner.go:55-79 | a hash is found exactly when its transaction concerns the owner |
| ScanModel.FoundOnce | internal/chain/scanner.go:76-79 | and only once |
| ScanModel.FoundTokens | internal/chain/scanner.go:62-74 | a token is found exactly when a successful transfer of it touches the owner |
| ScanSafety.ScanCovers | internal/chain/scanner.go:22-85 | a scanned block is final, canonical, and all in it that concerns the owner was found, whichever fork the block answer came from |
| ScanSafety.ScanIsComplete | internal/wallet/scanner.go:139-198 | in every run all that concerns the owner in the blocks from start to cursor is in the index, forever, and those blocks are canonical forever |
| ScanSafety.TokensAreComplete | internal/wallet/scanner.go:166-181 | and its tokens are known, unless the list holds 200 |
| ScanSafety.CursorMovesByOne | internal/wallet/scanner.go:153-184 | the cursor moves by one block at most, and only past a block that was scanned |
| ScanSafety.CursorScansAll | internal/wallet/scanner.go:153-184 | in every run without a new start the cursor only goes on, and each height it passed was read and accepted by a step that stood at it |
| ScanSafety.RequestedStartIsKept | internal/wallet/scanner.go:123-158 | in every run a requested start is kept, up to the next request, if and only if it is not block 0 or no pass took it for an unset cursor |
| ScanSafety.StartZeroIsLost | internal/wallet/scanner.go:153-158 | a run in which a scan asked to start at block 0 starts at block 81 |

## Left out

- Journal.JournalManager.AppendAtomic: does not check that the hash is new, as in the source; the machine assumes that a freshly signed transaction has a hash of its own.
- Journal.JournalManager.UpdateStateAtomicIfVersion: versions are unbounded, so the wrap of a 64-bit counter is not modelled.
- JournalTheorems.FinalizedForever: takes one winner per nonce from its setting; `JournalChain.ChainRunIsRun` removes that for every run whose answers come from Transaction, given that a transaction of the wallet executes only from its account and at its nonce.
- JournalTheorems.OneUnminedNonce: speaks of nonces never recorded as mined; a mined record may be demoted while Send runs, so "at most one unmined nonce" is not claimed.
- JournalTheorems.SpentQuoteStaysSpent: speaks of quotes that have a record; what else can be signed again is `JournalSigning.SignsAgainExactly`. Expiry of a quote only takes quotes away and is not a step of its own.
- JournalSafety.StepKeeps: does not claim that every update finds its record; Retry can race with archiving, and then the fault is set.
- TronTheorems.BroadcastIsDurable: calls are whole steps under the service's one lock, so the durable save and the transmission of one call are not separate states of a run; inside the call, `Tron.TronService.Transmit` requires the record in the file.
- ScanSafety.ScanIsComplete: the cursor is unbounded, so the wrap of a 64-bit block number is not modelled.
- Ledger.Conservation: addresses are numbers, and logs carry their event by name rather than by its Keccak hash.
- Service.Send, Service.Retry and Service.History are one step machine over values, because what matters about them is how they interleave; the journal they call is an object. The in-flight check at quoting time is left out, as Send repeats it.
- The failover transport is a step machine over values for the same reason; its latency and failure counters are left out.
- The display fields of records (times, recipient, amount, symbol) and ListHistory's presentation.
- The vault's internal withdrawals and the rollup fee that Activity puts in after receiptMovements, and page selection.
- JSON, hexadecimal, base58 and RLP encodings, and cryptography: parameters with the laws that are used.
- The Solana service, the exchange, the vault, the faucet, pools, accounts, HTTP handlers and the user interface.
- The TRON network check and the freshness of the block at quoting are answers of the environment: each is a refusal with no effect.

/**
 The EVM transaction journal as values: what a record holds, and what each journal operation
 answers and leaves in memory and on disk. The class in JournalManager.dfy is proved against
 these functions; JournalProtocol.dfy runs them as interleaved steps.
 */
module JournalModel {
  import opened Common

  type Hash = string
  type QuoteId = string

  datatype Action =
    | Eth | Transfer | Approve | Wrap | Unwrap | Swap
    | Speedup | Cancel | VaultDeposit | VaultWithdraw

  datatype State =
    | Pending | Submitted | BroadcastUnknown | ReceiptUnavailable
    | Succeeded | Reverted | ReorgDetected | Replaced

  /** A signed transaction as its stored bytes decode: its own hash and the fields the wallet reads. */
  datatype SignedTx = SignedTx(hash: Hash, chainId: int, nonce: nat, tip: nat, feeCap: nat, body: string)

  /** The part of a record that no operation ever changes. */
  datatype Identity = Identity(hash: Hash, quoteId: QuoteId, action: Action, nonce: nat, signed: SignedTx)

  datatype Record = Record(
    id: Identity,
    state: State,
    finalized: bool,
    confirmations: string,
    feeEth: string,
    error: string,
    version: nat)

  /** What a refresh writes back: the answer of one chain lookup or of one broadcast. */
  datatype Observation = Observation(
    state: State, finalized: bool, confirmations: string, feeEth: string, error: string)

  predicate Mined(state: State) {
    state == Succeeded || state == Reverted
  }

  predicate FinalMined(r: Record) {
    r.finalized && Mined(r.state)
  }

  predicate IsReplacement(id: Identity) {
    id.action == Speedup || id.action == Cancel
  }

  /** The checks made before a record is stored and again when it is loaded. */
  predicate ValidRecord(r: Record, chainId: int) {
    && 0 < |r.id.quoteId| <= 128
    && r.id.signed.hash == r.id.hash
    && r.id.signed.chainId == chainId
  }

  // ---- Memory and disk -------------------------------------------------------------------

  const ACTIVE_LIMIT: nat := 1000
  const ARCHIVE_THRESHOLD: nat := 900
  const RECENT_KEPT: nat := 100

  datatype View = View(active: seq<Record>, archived: seq<Record>)

  /** An archive file is named by the hashes of its first and last record. */
  type ArchiveName = (Hash, Hash)

  datatype Disk = Disk(active: seq<Record>, archives: map<ArchiveName, seq<Record>>)

  datatype Store = Store(mem: View, disk: Disk)

  function All(v: View): seq<Record> {
    v.archived + v.active
  }

  ghost function IdsOf(rs: seq<Record>): set<Identity> {
    set r <- rs :: r.id
  }

  ghost function Ids(v: View): set<Identity> {
    IdsOf(v.archived) + IdsOf(v.active)
  }

  // ---- Queries ---------------------------------------------------------------------------

  predicate NonceMined(v: View, nonce: nat) {
    exists r <- All(v) :: r.id.nonce == nonce && Mined(r.state)
  }

  predicate NonceFinal(v: View, nonce: nat) {
    exists r <- All(v) :: r.id.nonce == nonce && FinalMined(r)
  }

  predicate HasInFlight(v: View) {
    exists r <- All(v) :: !NonceMined(v, r.id.nonce)
  }

  /** Archived records come first, so the first match wins. */
  function FindHash(rs: seq<Record>, hash: Hash): Option<Record> {
    if rs == [] then None
    else if rs[0].id.hash == hash then Some(rs[0])
    else FindHash(rs[1..], hash)
  }

  function FindQuote(rs: seq<Record>, quoteId: QuoteId): Option<Record> {
    if rs == [] then None
    else if rs[0].id.quoteId == quoteId then Some(rs[0])
    else FindQuote(rs[1..], quoteId)
  }

  function NonceRecords(rs: seq<Record>, nonce: nat): seq<Record> {
    if rs == [] then []
    else
      var init := NonceRecords(rs[..|rs| - 1], nonce);
      if rs[|rs| - 1].id.nonce == nonce then init + [rs[|rs| - 1]] else init
  }

  predicate NeedsRefresh(v: View, r: Record) {
    !r.finalized && !NonceFinal(v, r.id.nonce)
  }

  /** The records of `rs` that still need a chain lookup, newest first. */
  function RefreshOf(v: View, rs: seq<Record>): seq<Record> {
    if rs == [] then []
    else
      var last := rs[|rs| - 1];
      (if NeedsRefresh(v, last) then [last] else []) + RefreshOf(v, rs[..|rs| - 1])
  }

  function RefreshRecords(v: View): seq<Record> {
    RefreshOf(v, v.active)
  }

  // ---- Updates ---------------------------------------------------------------------------

  /** Replaces the active file and, only on success, the records in memory. */
  function Save(s: Store, next: seq<Record>, w: Write): Store {
    Store(
      if w.Done? then s.mem.(active := next) else s.mem,
      if w.FailedOld? then s.disk else s.disk.(active := next))
  }

  datatype AppendResult = Appended(version: nat) | JournalFull | InvalidRecord | AppendFailed

  function Append(s: Store, r: Record, chainId: int, w: Write): (Store, AppendResult) {
    if |s.mem.active| >= ACTIVE_LIMIT then (s, JournalFull)
    else if !ValidRecord(r, chainId) then (s, InvalidRecord)
    else (Save(s, s.mem.active + [r.(version := 1)], w),
          if w.Done? then Appended(1) else AppendFailed)
  }

  /** The index of the last record with this hash, or the length when there is none. */
  function LastIndex(rs: seq<Record>, hash: Hash): (i: nat)
    ensures i <= |rs|
    ensures i < |rs| ==> rs[i].id.hash == hash
  {
    if rs == [] then 0
    else if rs[|rs| - 1].id.hash == hash then |rs| - 1
    else
      var i := LastIndex(rs[..|rs| - 1], hash);
      if i < |rs| - 1 then i else |rs|
  }

  predicate Unchanged(r: Record, o: Observation) {
    r.finalized == o.finalized && r.state == o.state && r.confirmations == o.confirmations
    && r.feeEth == o.feeEth && r.error == o.error
  }

  function Observed(r: Record, o: Observation): Record {
    Record(r.id, o.state, o.finalized, o.confirmations, o.feeEth, o.error, r.version + 1)
  }

  datatype UpdateResult = Updated | Stale | NotFound | UpdateFailed

  /** Compare-and-set on the record's version. */
  function Update(s: Store, hash: Hash, expected: nat, o: Observation, w: Write): (Store, UpdateResult) {
    var i := LastIndex(s.mem.active, hash);
    if i == |s.mem.active| then (s, NotFound)
    else
      var r := s.mem.active[i];
      if r.version != expected then (s, Stale)
      else if Unchanged(r, o) then (s, Updated)
      else (Save(s, s.mem.active[i := Observed(r, o)], w),
            if w.Done? then Updated else UpdateFailed)
  }

  predicate Archivable(v: View, i: nat)
    requires i < |v.active|
  {
    i < |v.active| - RECENT_KEPT && (v.active[i].finalized || NonceFinal(v, v.active[i].id.nonce))
  }

  /** A rival of a finalized record goes to the archive as replaced. */
  function Sealed(r: Record): Record {
    if r.finalized then r else r.(finalized := true, state := Replaced)
  }

  function BatchTo(v: View, n: nat): seq<Record>
    requires n <= |v.active|
  {
    if n == 0 then []
    else BatchTo(v, n - 1) + (if Archivable(v, n - 1) then [Sealed(v.active[n - 1])] else [])
  }

  function KeptTo(v: View, n: nat): seq<Record>
    requires n <= |v.active|
  {
    if n == 0 then []
    else KeptTo(v, n - 1) + (if Archivable(v, n - 1) then [] else [v.active[n - 1]])
  }

  function Batch(v: View): seq<Record> {
    BatchTo(v, |v.active|)
  }

  function Compacted(v: View): View {
    View(KeptTo(v, |v.active|), v.archived + Batch(v))
  }

  function NameOf(rs: seq<Record>): ArchiveName
    requires rs != []
  {
    (rs[0].id.hash, rs[|rs| - 1].id.hash)
  }

  datatype ArchiveResult = Archived(count: nat) | ArchiveFailed

  /** Two writes: the archive file first, then the shortened active file. */
  function Archive(s: Store, w1: Write, w2: Write): (Store, ArchiveResult) {
    if |s.mem.active| < ARCHIVE_THRESHOLD || Batch(s.mem) == [] then (s, Archived(0))
    else
      var batch := Batch(s.mem);
      var filed := s.disk.(archives := s.disk.archives[NameOf(batch) := batch]);
      if w1.FailedOld? then (s, ArchiveFailed)
      else if w1.FailedNew? then (s.(disk := filed), ArchiveFailed)
      else
        var saved := Save(Store(s.mem, filed), KeptTo(s.mem, |s.mem.active|), w2);
        if w2.Done? then (saved.(mem := Compacted(s.mem)), Archived(|batch|))
        else (saved, ArchiveFailed)
  }

  // ---- Loading ---------------------------------------------------------------------------

  datatype LoadResult = Loaded(view: View) | LoadFailed

  /** Early files carry no version; they count as version 1. */
  function FromDisk(r: Record): Record {
    if r.version == 0 then r.(version := 1) else r
  }

  function Restored(rs: seq<Record>): (loaded: seq<Record>)
    ensures |loaded| == |rs| && forall i :: 0 <= i < |rs| ==> loaded[i] == FromDisk(rs[i])
  {
    seq(|rs|, i requires 0 <= i < |rs| => FromDisk(rs[i]))
  }

  predicate HasHash(rs: seq<Record>, hash: Hash) {
    exists r <- rs :: r.id.hash == hash
  }

  /** Adds the records of one archive file that have not been seen yet. */
  function Merge(v: View, file: seq<Record>): View
    decreases |file|
  {
    if file == [] then v
    else
      var init := Merge(v, file[..|file| - 1]);
      var r := FromDisk(file[|file| - 1]);
      if HasHash(All(init), r.id.hash) then init else init.(archived := init.archived + [r])
  }

  predicate LoadableFile(file: seq<Record>, chainId: int) {
    forall r <- file :: ValidRecord(r, chainId) && r.finalized
  }

  /** `order` is the order in which the directory listing returns the archive files. */
  function MergeAll(v: View, archives: map<ArchiveName, seq<Record>>, order: seq<ArchiveName>): View
    requires forall name <- order :: name in archives
  {
    if order == [] then v
    else Merge(MergeAll(v, archives, order[..|order| - 1]), archives[order[|order| - 1]])
  }

  function Load(disk: Disk, chainId: int, order: seq<ArchiveName>): LoadResult
    requires forall name <- order :: name in disk.archives
  {
    if |disk.active| > ACTIVE_LIMIT || exists r <- disk.active :: !ValidRecord(r, chainId) then LoadFailed
    else if exists name <- order :: !LoadableFile(disk.archives[name], chainId) then LoadFailed
    else
      Loaded(MergeAll(View(Restored(disk.active), []), disk.archives, order))
  }
}

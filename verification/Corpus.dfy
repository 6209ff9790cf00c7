/**
 The corpus tables of one workspace and the transactions over them: sources, revisions, extraction
 jobs with leases, chunks, index documents and the cache epoch. Each transaction is one atomic step.
 */
module Corpus {
  import opened Prelude

  datatype Status = Pending | Extracting | Indexed | Failed | Deleted | Superseded

  datatype Source = Source(status: Status, current: Option<string>, restricted: bool, principals: set<string>)

  datatype Revision = Revision(source: string, hash: string, status: Status)

  datatype Job = Job(
    source: string, revision: string, status: Status, attempt: nat, maxAttempts: nat,
    owner: Option<string>, leaseUntil: Option<int>, retryAt: Option<int>)

  /** Chunks are unique by revision and ordinal, index documents by chunk and embedding version. */
  datatype Chunk = Chunk(id: string, source: string, content: string)

  datatype Document = Document(id: string, source: string, revision: string, status: Status)

  datatype State = State(
    sources: map<string, Source>, revisions: map<string, Revision>, jobs: map<string, Job>,
    chunks: map<(string, nat), Chunk>, documents: map<(string, string), Document>, epoch: Option<nat>)

  const EMPTY := State(map[], map[], map[], map[], map[], None)

  datatype Error = SourceNotFound | JobNotFound | JobLeaseRequired | UniqueViolation | CheckViolation

  datatype Outcome = Done(state: State) | Rejected(error: Error) {
    function Failure(): Option<Error> { if Done? then None else Some(error) }
  }

  datatype ChunkWrite = ChunkWrite(id: string, source: string, revision: string, ordinal: nat, content: string)

  datatype DocumentWrite = DocumentWrite(
    id: string, chunk: string, source: string, revision: string, version: string, status: Status)

  // ---------------------------------------------------------------------------------------------
  // Epoch

  function EpochValue(s: State): nat {
    if s.epoch.Some? then s.epoch.value else 0
  }

  function Bump(s: State): State {
    s.(epoch := Some(if s.epoch.Some? then s.epoch.value + 1 else 1))
  }

  /** Reading creates the row when it is missing. */
  function ReadEpoch(s: State): (State, nat) {
    if s.epoch.Some? then (s, s.epoch.value) else (s.(epoch := Some(1)), 1)
  }

  // ---------------------------------------------------------------------------------------------
  // Row updates

  function SetSource(s: State, id: string, status: Status): State {
    if id in s.sources then s.(sources := s.sources[id := s.sources[id].(status := status)]) else s
  }

  function SetRevision(s: State, id: string, status: Status): State {
    if id in s.revisions then s.(revisions := s.revisions[id := s.revisions[id].(status := status)]) else s
  }

  function DropRevisionIndex(s: State, revision: string): State {
    s.(documents := map k | k in s.documents && s.documents[k].revision != revision :: s.documents[k],
       chunks := map k | k in s.chunks && k.0 != revision :: s.chunks[k])
  }

  predicate HashTaken(s: State, hash: string) {
    exists r :: r in s.revisions && s.revisions[r].hash == hash
  }

  predicate HashTakenBy(s: State, source: string, hash: string) {
    exists r :: r in s.revisions && s.revisions[r].source == source && s.revisions[r].hash == hash
  }

  function NewJob(source: string, revision: string, maxAttempts: nat): Job {
    Job(source, revision, Pending, 1, maxAttempts, None, None, None)
  }

  // ---------------------------------------------------------------------------------------------
  // Transactions

  function RegisterSource(s: State, source: string, revision: string, hash: string, job: string, maxAttempts: nat): Outcome {
    if HashTaken(s, hash) then Done(s)
    else if source in s.sources || revision in s.revisions || job in s.jobs then Rejected(UniqueViolation)
    else if maxAttempts == 0 then Rejected(CheckViolation)
    else Done(Bump(s.(
      sources := s.sources[source := Source(Pending, Some(revision), false, {})],
      revisions := s.revisions[revision := Revision(source, hash, Pending)],
      jobs := s.jobs[job := NewJob(source, revision, maxAttempts)])))
  }

  function Supersede(s: State, current: Option<string>): State {
    if current.None? then s else SetRevision(DropRevisionIndex(s, current.value), current.value, Superseded)
  }

  function RegisterRevision(s: State, source: string, revision: string, hash: string, job: string, maxAttempts: nat): Outcome {
    if source !in s.sources || s.sources[source].status == Deleted then Rejected(SourceNotFound)
    else if HashTakenBy(s, source, hash) then Done(s)
    else if HashTaken(s, hash) || revision in s.revisions || job in s.jobs then Rejected(UniqueViolation)
    else if maxAttempts == 0 then Rejected(CheckViolation)
    else
      var s1 := Supersede(s, s.sources[source].current);
      Done(Bump(s1.(
        revisions := s1.revisions[revision := Revision(source, hash, Pending)],
        jobs := s1.jobs[job := NewJob(source, revision, maxAttempts)],
        sources := s1.sources[source := s1.sources[source].(status := Pending, current := Some(revision))])))
  }

  predicate Claimable(j: Job, now: int) {
    && (j.status == Pending || (j.status == Extracting && j.leaseUntil.Some? && j.leaseUntil.value <= now))
    && (j.retryAt.None? || j.retryAt.value <= now)
  }

  /** Row locks are skipped, so any claimable job may be the one returned; nothing claimable returns null. */
  function ClaimNext(s: State, job: string, worker: string, leaseMs: nat, now: int): Outcome {
    if job !in s.jobs || !Claimable(s.jobs[job], now) then Done(s)
    else
      var j := s.jobs[job];
      Done(SetRevision(SetSource(s.(
        jobs := s.jobs[job := j.(status := Extracting, owner := Some(worker), leaseUntil := Some(now + leaseMs))]),
        j.source, Extracting), j.revision, Extracting))
  }

  predicate ChunkIdTaken(chunks: map<(string, nat), Chunk>, id: string) {
    exists k :: k in chunks && chunks[k].id == id
  }

  predicate DocumentIdTaken(documents: map<(string, string), Document>, id: string) {
    exists k :: k in documents && documents[k].id == id
  }

  function PutChunk(s: State, w: ChunkWrite): Option<State> {
    var key := (w.revision, w.ordinal);
    if w.revision !in s.revisions || s.revisions[w.revision].source != w.source then None
    else if key in s.chunks then Some(s.(chunks := s.chunks[key := s.chunks[key].(content := w.content)]))
    else if ChunkIdTaken(s.chunks, w.id) then None
    else Some(s.(chunks := s.chunks[key := Chunk(w.id, w.source, w.content)]))
  }

  function PutChunks(s: State, writes: seq<ChunkWrite>): Option<State>
    decreases |writes|
  {
    if writes == [] then Some(s)
    else match PutChunk(s, writes[0]) case None => None case Some(s1) => PutChunks(s1, writes[1..])
  }

  function PutDocument(s: State, w: DocumentWrite): Option<State> {
    var key := (w.chunk, w.version);
    if !ChunkIdTaken(s.chunks, w.chunk) then None
    else if key in s.documents then Some(s.(documents := s.documents[key := s.documents[key].(status := w.status)]))
    else if DocumentIdTaken(s.documents, w.id) then None
    else Some(s.(documents := s.documents[key := Document(w.id, w.source, w.revision, w.status)]))
  }

  function PutDocuments(s: State, writes: seq<DocumentWrite>): Option<State>
    decreases |writes|
  {
    if writes == [] then Some(s)
    else match PutDocument(s, writes[0]) case None => None case Some(s1) => PutDocuments(s1, writes[1..])
  }

  predicate HoldsLease(j: Job, worker: string, now: int) {
    j.status == Extracting && j.owner == Some(worker) && j.leaseUntil.Some? && j.leaseUntil.value > now
  }

  function FinishJob(s: State, job: string): State
    requires job in s.jobs
  {
    var j := s.jobs[job];
    Bump(SetRevision(SetSource(s.(
      jobs := s.jobs[job := j.(status := Indexed, owner := None, leaseUntil := None, retryAt := None)]),
      j.source, Indexed), j.revision, Indexed))
  }

  function CompleteJob(
    s: State, job: string, worker: string, chunks: seq<ChunkWrite>, documents: seq<DocumentWrite>, now: int): Outcome
  {
    if job !in s.jobs then Rejected(JobNotFound)
    else if s.jobs[job].status == Indexed then Done(s)
    else if !HoldsLease(s.jobs[job], worker, now) then Rejected(JobLeaseRequired)
    else
      match PutChunks(DropRevisionIndex(s, s.jobs[job].revision), chunks)
      case None => Rejected(UniqueViolation)
      case Some(s1) =>
        match PutDocuments(s1, documents)
        case None => Rejected(UniqueViolation)
        case Some(s2) =>
          PutsKeepRows(DropRevisionIndex(s, s.jobs[job].revision), chunks, documents);
          Done(FinishJob(s2, job))
  }

  ghost predicate SameRows(a: State, b: State) {
    a.sources == b.sources && a.revisions == b.revisions && a.jobs == b.jobs && a.epoch == b.epoch
  }

  lemma {:induction false} PutChunksKeepRows(s: State, chunks: seq<ChunkWrite>)
    ensures PutChunks(s, chunks).Some? ==> SameRows(PutChunks(s, chunks).value, s)
    decreases |chunks|
  {
    if chunks != [] && PutChunk(s, chunks[0]).Some? {
      PutChunksKeepRows(PutChunk(s, chunks[0]).value, chunks[1..]);
    }
  }

  lemma {:induction false} PutDocumentsKeepRows(s: State, documents: seq<DocumentWrite>)
    ensures PutDocuments(s, documents).Some? ==> SameRows(PutDocuments(s, documents).value, s)
    ensures PutDocuments(s, documents).Some? ==> PutDocuments(s, documents).value.chunks == s.chunks
    decreases |documents|
  {
    if documents != [] && PutDocument(s, documents[0]).Some? {
      PutDocumentsKeepRows(PutDocument(s, documents[0]).value, documents[1..]);
    }
  }

  lemma PutsKeepRows(s: State, chunks: seq<ChunkWrite>, documents: seq<DocumentWrite>)
    ensures PutChunks(s, chunks).Some? ==> SameRows(PutChunks(s, chunks).value, s)
    ensures PutChunks(s, chunks).Some? && PutDocuments(PutChunks(s, chunks).value, documents).Some? ==>
      SameRows(PutDocuments(PutChunks(s, chunks).value, documents).value, s)
  {
    PutChunksKeepRows(s, chunks);
    if PutChunks(s, chunks).Some? { PutDocumentsKeepRows(PutChunks(s, chunks).value, documents); }
  }

  function FailJob(s: State, job: string, worker: string, now: int): Outcome {
    if job !in s.jobs then Rejected(JobNotFound)
    else
      var j := s.jobs[job];
      if j.status != Extracting || j.owner != Some(worker) then Rejected(JobLeaseRequired)
      else
        var terminal := j.attempt >= j.maxAttempts;
        var status := if terminal then Failed else Pending;
        Done(SetRevision(SetSource(s.(
          jobs := s.jobs[job := j.(
            status := status, attempt := if terminal then j.attempt else j.attempt + 1,
            owner := None, leaseUntil := None, retryAt := if terminal then None else Some(now))]),
          j.source, status), j.revision, status))
  }

  function DropSourceIndex(s: State, source: string): State {
    s.(documents := map k | k in s.documents && s.documents[k].source != source :: s.documents[k],
       chunks := map k | k in s.chunks && s.chunks[k].source != source :: s.chunks[k])
  }

  /** What a deletion makes of a job. */
  function Buried(j: Job): Job { j.(status := Deleted, owner := None, leaseUntil := None) }

  function BuryRows(s: State, source: string): State {
    s.(jobs := map k | k in s.jobs :: if s.jobs[k].source == source then Buried(s.jobs[k]) else s.jobs[k],
       revisions := map k | k in s.revisions :: if s.revisions[k].source == source
         then s.revisions[k].(status := Deleted) else s.revisions[k])
  }

  function DeleteSource(s: State, source: string): Outcome {
    if source !in s.sources then Rejected(SourceNotFound)
    else Done(Bump(SetSource(BuryRows(DropSourceIndex(s, source), source), source, Deleted)))
  }

  predicate Active(j: Job) { j.status == Pending || j.status == Extracting }

  predicate HasActiveJob(s: State, revision: string) {
    exists k :: k in s.jobs && s.jobs[k].revision == revision && Active(s.jobs[k])
  }

  function ReindexSource(s: State, source: string, job: string, maxAttempts: nat): Outcome {
    if source !in s.sources || s.sources[source].status == Deleted then Rejected(SourceNotFound)
    else if s.sources[source].current.None? then Rejected(CheckViolation)
    else
      var revision := s.sources[source].current.value;
      if HasActiveJob(s, revision) then Done(s)
      else if job in s.jobs then Rejected(UniqueViolation)
      else if maxAttempts == 0 then Rejected(CheckViolation)
      else Done(SetRevision(SetSource(s.(
        jobs := s.jobs[job := NewJob(source, revision, maxAttempts)]), source, Pending), revision, Pending))
  }

  function SetSourceAcl(s: State, source: string, restricted: bool, principals: set<string>): Outcome {
    if source !in s.sources || s.sources[source].status == Deleted then Rejected(SourceNotFound)
    else Done(Bump(s.(sources := s.sources[source := s.sources[source].(restricted := restricted, principals := principals)])))
  }

  // ---------------------------------------------------------------------------------------------
  // Steps and runs

  datatype Tx =
    | TxRegisterSource(source: string, revision: string, hash: string, job: string, maxAttempts: nat)
    | TxRegisterRevision(source: string, revision: string, hash: string, job: string, maxAttempts: nat)
    | TxClaim(job: string, worker: string, leaseMs: nat, now: int)
    | TxComplete(job: string, worker: string, chunks: seq<ChunkWrite>, documents: seq<DocumentWrite>, now: int)
    | TxFail(job: string, worker: string, now: int)
    | TxDelete(source: string)
    | TxReindex(source: string, job: string, maxAttempts: nat)
    | TxSetAcl(source: string, restricted: bool, principals: set<string>)

  function Execute(s: State, tx: Tx): Outcome {
    match tx
    case TxRegisterSource(a, r, h, j, m) => RegisterSource(s, a, r, h, j, m)
    case TxRegisterRevision(a, r, h, j, m) => RegisterRevision(s, a, r, h, j, m)
    case TxClaim(j, w, l, now) => ClaimNext(s, j, w, l, now)
    case TxComplete(j, w, c, d, now) => CompleteJob(s, j, w, c, d, now)
    case TxFail(j, w, now) => FailJob(s, j, w, now)
    case TxDelete(a) => DeleteSource(s, a)
    case TxReindex(a, j, m) => ReindexSource(s, a, j, m)
    case TxSetAcl(a, r, p) => SetSourceAcl(s, a, r, p)
  }

  function Step(s: State, tx: Tx): State {
    match Execute(s, tx) case Done(s') => s' case Rejected(_) => s
  }

  function Run(s: State, txs: seq<Tx>): State
    decreases |txs|
  {
    if txs == [] then s else Run(Step(s, txs[0]), txs[1..])
  }

  // ---------------------------------------------------------------------------------------------
  // What retrieval may return

  datatype Hit = Hit(chunk: string, source: string, revision: string, ordinal: nat, content: string)

  predicate Visible(s: Source, principal: string) {
    !s.restricted || principal in s.principals
  }

  predicate HasIndexedDocument(s: State, chunk: string) {
    exists k :: k in s.documents && k.0 == chunk && s.documents[k].status == Indexed
  }

  /** The filters of the retrieval queries. */
  predicate Retrievable(s: State, principal: string, h: Hit) {
    && (h.revision, h.ordinal) in s.chunks
    && s.chunks[(h.revision, h.ordinal)] == Chunk(h.chunk, h.source, h.content)
    && h.source in s.sources && h.revision in s.revisions
    && s.sources[h.source].status == Indexed
    && s.revisions[h.revision].source == h.source && s.revisions[h.revision].status == Indexed
    && HasIndexedDocument(s, h.chunk)
    && s.sources[h.source].current == Some(h.revision)
    && Visible(s.sources[h.source], principal)
  }
}

/** The corpus repository as an object: each method runs its statements in order and refines its transaction. */
module CorpusStore {
  import opened Prelude
  import opened Corpus

  class Store {
    var sources: map<string, Source>
    var revisions: map<string, Revision>
    var jobs: map<string, Job>
    var chunks: map<(string, nat), Chunk>
    var documents: map<(string, string), Document>
    var epoch: Option<nat>

    ghost function Rows(): State
      reads this
    {
      State(sources, revisions, jobs, chunks, documents, epoch)
    }

    constructor ()
      ensures Rows() == EMPTY
    {
      sources, revisions, jobs, chunks, documents, epoch := map[], map[], map[], map[], map[], None;
    }

    method BumpCacheEpoch()
      modifies this`epoch
      ensures Rows() == Bump(old(Rows()))
    {
      epoch := Some(if epoch.Some? then epoch.value + 1 else 1);
    }

    method CorpusCacheEpoch() returns (value: nat)
      modifies this`epoch
      ensures (Rows(), value) == ReadEpoch(old(Rows()))
    {
      if epoch.None? {
        epoch := Some(1);
      }
      value := epoch.value;
    }

    method SetSourceStatus(id: string, status: Status)
      modifies this`sources
      ensures Rows() == SetSource(old(Rows()), id, status)
    {
      if id in sources {
        sources := sources[id := sources[id].(status := status)];
      }
    }

    method SetRevisionStatus(id: string, status: Status)
      modifies this`revisions
      ensures Rows() == SetRevision(old(Rows()), id, status)
    {
      if id in revisions {
        revisions := revisions[id := revisions[id].(status := status)];
      }
    }

    method DropIndex(revision: string)
      modifies this`documents, this`chunks
      ensures Rows() == DropRevisionIndex(old(Rows()), revision)
    {
      documents := map k | k in documents && documents[k].revision != revision :: documents[k];
      chunks := map k | k in chunks && k.0 != revision :: chunks[k];
    }

    method RegisterSource(source: string, revision: string, hash: string, job: string, maxAttempts: nat)
      returns (error: Option<Error>)
      modifies this
      ensures Rows() == Step(old(Rows()), TxRegisterSource(source, revision, hash, job, maxAttempts))
      ensures error == Execute(old(Rows()), TxRegisterSource(source, revision, hash, job, maxAttempts)).Failure()
    {
      if exists r :: r in revisions && revisions[r].hash == hash {
        return None;
      }
      if source in sources || revision in revisions || job in jobs {
        return Some(UniqueViolation);
      }
      if maxAttempts == 0 {
        return Some(CheckViolation);
      }
      sources := sources[source := Source(Pending, Some(revision), false, {})];
      revisions := revisions[revision := Revision(source, hash, Pending)];
      jobs := jobs[job := NewJob(source, revision, maxAttempts)];
      BumpCacheEpoch();
      error := None;
    }

    method RegisterRevision(source: string, revision: string, hash: string, job: string, maxAttempts: nat)
      returns (error: Option<Error>)
      modifies this
      ensures Rows() == Step(old(Rows()), TxRegisterRevision(source, revision, hash, job, maxAttempts))
      ensures error == Execute(old(Rows()), TxRegisterRevision(source, revision, hash, job, maxAttempts)).Failure()
    {
      if source !in sources || sources[source].status == Deleted {
        return Some(SourceNotFound);
      }
      if exists r :: r in revisions && revisions[r].source == source && revisions[r].hash == hash {
        return None;
      }
      if (exists r :: r in revisions && revisions[r].hash == hash) || revision in revisions || job in jobs {
        return Some(UniqueViolation);
      }
      if maxAttempts == 0 {
        return Some(CheckViolation);
      }
      var current := sources[source].current;
      if current.Some? {
        DropIndex(current.value);
        SetRevisionStatus(current.value, Superseded);
      }
      revisions := revisions[revision := Revision(source, hash, Pending)];
      jobs := jobs[job := NewJob(source, revision, maxAttempts)];
      sources := sources[source := sources[source].(status := Pending, current := Some(revision))];
      BumpCacheEpoch();
      error := None;
    }

    method ClaimNext(job: string, worker: string, leaseMs: nat, now: int) returns (claimed: bool)
      modifies this
      ensures Rows() == Step(old(Rows()), TxClaim(job, worker, leaseMs, now))
      ensures claimed <==> job in old(jobs) && Claimable(old(jobs)[job], now)
    {
      if job !in jobs || !Claimable(jobs[job], now) {
        return false;
      }
      var j := jobs[job];
      jobs := jobs[job := j.(status := Extracting, owner := Some(worker), leaseUntil := Some(now + leaseMs))];
      SetSourceStatus(j.source, Extracting);
      SetRevisionStatus(j.revision, Extracting);
      claimed := true;
    }

    /** The two insert loops of a completion, on rows read before anything is committed. */
    static method InsertRows(s: State, chunks: seq<ChunkWrite>, documents: seq<DocumentWrite>) returns (r: Option<State>)
      ensures r == match PutChunks(s, chunks) case None => None case Some(s1) => PutDocuments(s1, documents)
    {
      var rows := s;
      var n := 0;
      while n < |chunks|
        invariant 0 <= n <= |chunks| && PutChunks(s, chunks) == PutChunks(rows, chunks[n..])
      {
        var put := PutChunk(rows, chunks[n]);
        if put.None? {
          return None;
        }
        assert chunks[n..][1..] == chunks[n + 1..];
        rows := put.value;
        n := n + 1;
      }
      ghost var s1 := rows;
      n := 0;
      while n < |documents|
        invariant 0 <= n <= |documents| && PutDocuments(s1, documents) == PutDocuments(rows, documents[n..])
      {
        var put := PutDocument(rows, documents[n]);
        if put.None? {
          return None;
        }
        assert documents[n..][1..] == documents[n + 1..];
        rows := put.value;
        n := n + 1;
      }
      r := Some(rows);
    }

    method CompleteJob(job: string, worker: string, writes: seq<ChunkWrite>, docs: seq<DocumentWrite>, now: int)
      returns (error: Option<Error>)
      modifies this
      ensures Rows() == Step(old(Rows()), TxComplete(job, worker, writes, docs, now))
      ensures error == Execute(old(Rows()), TxComplete(job, worker, writes, docs, now)).Failure()
    {
      if job !in jobs {
        return Some(JobNotFound);
      }
      var j := jobs[job];
      if j.status == Indexed {
        return None;
      }
      if !HoldsLease(j, worker, now) {
        return Some(JobLeaseRequired);
      }
      var dropped := DropRevisionIndex(State(sources, revisions, jobs, chunks, documents, epoch), j.revision);
      var inserted := InsertRows(dropped, writes, docs);
      if inserted.None? {
        return Some(UniqueViolation);
      }
      PutsKeepRows(dropped, writes, docs);
      chunks, documents := inserted.value.chunks, inserted.value.documents;
      jobs := jobs[job := j.(status := Indexed, owner := None, leaseUntil := None, retryAt := None)];
      SetSourceStatus(j.source, Indexed);
      SetRevisionStatus(j.revision, Indexed);
      BumpCacheEpoch();
      error := None;
    }

    method FailJob(job: string, worker: string, now: int) returns (error: Option<Error>)
      modifies this
      ensures Rows() == Step(old(Rows()), TxFail(job, worker, now))
      ensures error == Execute(old(Rows()), TxFail(job, worker, now)).Failure()
    {
      if job !in jobs {
        return Some(JobNotFound);
      }
      var j := jobs[job];
      if j.status != Extracting || j.owner != Some(worker) {
        return Some(JobLeaseRequired);
      }
      var terminal := j.attempt >= j.maxAttempts;
      var status := if terminal then Failed else Pending;
      jobs := jobs[job := j.(
        status := status, attempt := if terminal then j.attempt else j.attempt + 1,
        owner := None, leaseUntil := None, retryAt := if terminal then None else Some(now))];
      SetSourceStatus(j.source, status);
      SetRevisionStatus(j.revision, status);
      error := None;
    }

    method DeleteSource(source: string) returns (error: Option<Error>)
      modifies this
      ensures Rows() == Step(old(Rows()), TxDelete(source))
      ensures error == Execute(old(Rows()), TxDelete(source)).Failure()
    {
      if source !in sources {
        return Some(SourceNotFound);
      }
      DropAllIndex(source);
      BuryAll(source);
      SetSourceStatus(source, Deleted);
      BumpCacheEpoch();
      error := None;
    }

    method DropAllIndex(source: string)
      modifies this`documents, this`chunks
      ensures Rows() == DropSourceIndex(old(Rows()), source)
    {
      documents := map k | k in documents && documents[k].source != source :: documents[k];
      chunks := map k | k in chunks && chunks[k].source != source :: chunks[k];
    }

    method BuryAll(source: string)
      modifies this`jobs, this`revisions
      ensures Rows() == BuryRows(old(Rows()), source)
    {
      jobs := map k | k in jobs :: if jobs[k].source == source then Buried(jobs[k]) else jobs[k];
      revisions := map k | k in revisions :: if revisions[k].source == source
        then revisions[k].(status := Deleted) else revisions[k];
    }

    method ReindexSource(source: string, job: string, maxAttempts: nat) returns (error: Option<Error>)
      modifies this
      ensures Rows() == Step(old(Rows()), TxReindex(source, job, maxAttempts))
      ensures error == Execute(old(Rows()), TxReindex(source, job, maxAttempts)).Failure()
    {
      if source !in sources || sources[source].status == Deleted {
        return Some(SourceNotFound);
      }
      if sources[source].current.None? {
        return Some(CheckViolation);
      }
      var revision := sources[source].current.value;
      if exists k :: k in jobs && jobs[k].revision == revision && Active(jobs[k]) {
        return None;
      }
      if job in jobs {
        return Some(UniqueViolation);
      }
      if maxAttempts == 0 {
        return Some(CheckViolation);
      }
      jobs := jobs[job := NewJob(source, revision, maxAttempts)];
      SetSourceStatus(source, Pending);
      SetRevisionStatus(revision, Pending);
      error := None;
    }

    method SetSourceAcl(source: string, restricted: bool, principals: set<string>) returns (error: Option<Error>)
      modifies this
      ensures Rows() == Step(old(Rows()), TxSetAcl(source, restricted, principals))
      ensures error == Execute(old(Rows()), TxSetAcl(source, restricted, principals)).Failure()
    {
      if source !in sources || sources[source].status == Deleted {
        return Some(SourceNotFound);
      }
      sources := sources[source := sources[source].(restricted := restricted, principals := principals)];
      BumpCacheEpoch();
      error := None;
    }
  }
}

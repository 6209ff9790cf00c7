/** What every run of the corpus transactions keeps: leases, attempts, deletion and supersession. */
module CorpusJobs {
  import opened Prelude
  import opened Corpus

  // ---------------------------------------------------------------------------------------------
  // Invariant

  predicate JobOk(s: State, j: Job) {
    && j.source in s.sources && j.revision in s.revisions && s.revisions[j.revision].source == j.source
    && 1 <= j.attempt <= j.maxAttempts
    && (j.status == Extracting <==> j.owner.Some? && j.leaseUntil.Some?)
    && (s.sources[j.source].status == Deleted ==> j.status == Deleted)
  }

  ghost predicate JobsOk(s: State) {
    forall k :: k in s.jobs ==> JobOk(s, s.jobs[k])
  }

  ghost predicate OneActiveJob(s: State) {
    forall j, k :: j in s.jobs && k in s.jobs && j != k && Active(s.jobs[j]) && Active(s.jobs[k]) ==>
      s.jobs[j].revision != s.jobs[k].revision
  }

  ghost predicate SourcesOk(s: State) {
    forall k :: k in s.sources && s.sources[k].current.Some? ==>
      s.sources[k].current.value in s.revisions && s.revisions[s.sources[k].current.value].source == k
  }

  ghost predicate Inv(s: State) {
    JobsOk(s) && OneActiveJob(s) && SourcesOk(s)
  }

  lemma RegisterSourceKeeps(s: State, source: string, revision: string, hash: string, job: string, maxAttempts: nat)
    requires Inv(s)
    ensures Inv(Step(s, TxRegisterSource(source, revision, hash, job, maxAttempts)))
  {
    var s' := Step(s, TxRegisterSource(source, revision, hash, job, maxAttempts));
    if s' != s {
      forall k | k in s'.jobs ensures JobOk(s', s'.jobs[k]) {
        if k != job { assert JobOk(s, s.jobs[k]); }
      }
      forall k | k in s.jobs ensures s.jobs[k].revision != revision { assert JobOk(s, s.jobs[k]); }
    }
  }

  /** A source that is not deleted gets a new current revision with a job of its own. */
  lemma NewRevisionKeeps(s: State, source: string, revision: string, row: Revision, job: string, maxAttempts: nat, s': State)
    requires Inv(s) && source in s.sources && revision !in s.revisions && job !in s.jobs && maxAttempts >= 1
    requires row.source == source && s'.revisions == s.revisions[revision := row]
    requires s'.jobs == s.jobs[job := NewJob(source, revision, maxAttempts)]
    requires s'.sources == s.sources[source := s.sources[source].(status := Pending, current := Some(revision))]
    ensures Inv(s')
  {
    forall k | k in s'.jobs ensures JobOk(s', s'.jobs[k]) {
      if k != job { assert JobOk(s, s.jobs[k]); }
    }
    forall k | k in s.jobs ensures s.jobs[k].revision != revision { assert JobOk(s, s.jobs[k]); }
  }

  lemma RegisterRevisionKeeps(s: State, source: string, revision: string, hash: string, job: string, maxAttempts: nat)
    requires Inv(s)
    ensures Inv(Step(s, TxRegisterRevision(source, revision, hash, job, maxAttempts)))
  {
    var s' := Step(s, TxRegisterRevision(source, revision, hash, job, maxAttempts));
    if RegisterRevision(s, source, revision, hash, job, maxAttempts).Done? && !HashTakenBy(s, source, hash) {
      var current := s.sources[source].current;
      NewRevisionKeeps(Supersede(s, current), source, revision, Revision(source, hash, Pending), job, maxAttempts, s');
    }
  }

  /** Statuses of the other tables never disturb jobs, as long as no source leaves or enters deletion. */
  lemma UpdatedJobKeeps(s: State, job: string, j: Job, s': State)
    requires Inv(s) && job in s.jobs && s'.jobs == s.jobs[job := j]
    requires j.source == s.jobs[job].source && j.revision == s.jobs[job].revision
    requires 1 <= j.attempt <= j.maxAttempts && (j.status == Extracting <==> j.owner.Some? && j.leaseUntil.Some?)
    requires Active(j) ==> Active(s.jobs[job])
    requires s'.sources.Keys == s.sources.Keys && s'.revisions.Keys == s.revisions.Keys
    requires forall k :: k in s.sources ==>
      s'.sources[k].current == s.sources[k].current && (s'.sources[k].status == Deleted <==> s.sources[k].status == Deleted)
    requires forall k :: k in s.revisions ==> s'.revisions[k].source == s.revisions[k].source
    requires s.sources[s.jobs[job].source].status != Deleted
    ensures Inv(s')
  {
    forall k | k in s'.jobs ensures JobOk(s', s'.jobs[k]) { assert JobOk(s, s.jobs[k]); }
  }

  /** The rows of a claim or a failure: the job, and its status on its source and revision. */
  function Marked(s: State, job: string, j: Job): State {
    SetRevision(SetSource(s.(jobs := s.jobs[job := j]), j.source, j.status), j.revision, j.status)
  }

  lemma MarkingKeeps(s: State, job: string, j: Job)
    requires Inv(s) && job in s.jobs && s.jobs[job].status != Deleted && j.status != Deleted
    requires j.source == s.jobs[job].source && j.revision == s.jobs[job].revision
    requires 1 <= j.attempt <= j.maxAttempts && (j.status == Extracting <==> j.owner.Some? && j.leaseUntil.Some?)
    requires Active(j) ==> Active(s.jobs[job])
    ensures Inv(Marked(s, job, j))
  {
    assert JobOk(s, s.jobs[job]);
    UpdatedJobKeeps(s, job, j, Marked(s, job, j));
  }

  lemma ClaimKeeps(s: State, job: string, worker: string, leaseMs: nat, now: int)
    requires Inv(s)
    ensures Inv(Step(s, TxClaim(job, worker, leaseMs, now)))
  {
    if job in s.jobs && Claimable(s.jobs[job], now) {
      assert JobOk(s, s.jobs[job]);
      MarkingKeeps(s, job, s.jobs[job].(status := Extracting, owner := Some(worker), leaseUntil := Some(now + leaseMs)));
    }
  }

  lemma CompleteKeeps(s: State, tx: Tx)
    requires Inv(s) && tx.TxComplete?
    ensures Inv(Step(s, tx))
  {
    var s' := Step(s, tx);
    if CompleteJob(s, tx.job, tx.worker, tx.chunks, tx.documents, tx.now).Done? && s.jobs[tx.job].status != Indexed {
      assert JobOk(s, s.jobs[tx.job]);
      var s0 := DropRevisionIndex(s, s.jobs[tx.job].revision);
      PutsKeepRows(s0, tx.chunks, tx.documents);
      UpdatedJobKeeps(s, tx.job, s'.jobs[tx.job], s');
    }
  }

  function FailedRow(j: Job, now: int): Job {
    if j.attempt >= j.maxAttempts then j.(status := Failed, owner := None, leaseUntil := None, retryAt := None)
    else j.(status := Pending, attempt := j.attempt + 1, owner := None, leaseUntil := None, retryAt := Some(now))
  }

  lemma FailMarks(s: State, job: string, worker: string, now: int)
    requires FailJob(s, job, worker, now).Done?
    ensures Step(s, TxFail(job, worker, now)) == Marked(s, job, FailedRow(s.jobs[job], now))
  {
  }

  lemma FailKeeps(s: State, job: string, worker: string, now: int)
    requires Inv(s)
    ensures Inv(Step(s, TxFail(job, worker, now)))
  {
    if FailJob(s, job, worker, now).Done? {
      FailMarks(s, job, worker, now);
      assert JobOk(s, s.jobs[job]);
      MarkingKeeps(s, job, FailedRow(s.jobs[job], now));
    }
  }

  /** Burying the jobs and revisions of a source together with it. */
  lemma BuryingKeeps(s: State, source: string, s': State)
    requires Inv(s) && source in s.sources && s'.jobs == BuryRows(s, source).jobs && s'.revisions == BuryRows(s, source).revisions
    requires s'.sources == s.sources[source := s.sources[source].(status := Deleted)]
    ensures Inv(s')
  {
    forall k | k in s'.jobs ensures JobOk(s', s'.jobs[k]) { assert JobOk(s, s.jobs[k]); }
    assert forall k :: k in s'.jobs && Active(s'.jobs[k]) ==> s'.jobs[k] == s.jobs[k];
  }

  lemma DeleteKeeps(s: State, source: string)
    requires Inv(s)
    ensures Inv(Step(s, TxDelete(source)))
  {
    if source in s.sources {
      var s' := Step(s, TxDelete(source));
      var s0 := DropSourceIndex(s, source);
      assert s0 == s.(chunks := s0.chunks, documents := s0.documents);
      BuryingKeeps(s, source, s');
    }
  }

  lemma ReindexKeeps(s: State, source: string, job: string, maxAttempts: nat)
    requires Inv(s)
    ensures Inv(Step(s, TxReindex(source, job, maxAttempts)))
  {
    var s' := Step(s, TxReindex(source, job, maxAttempts));
    if s' != s {
      forall k | k in s'.jobs ensures JobOk(s', s'.jobs[k]) {
        if k != job { assert JobOk(s, s.jobs[k]); }
      }
    }
  }

  /** Nor does a change to a source that keeps its status and its current revision. */
  lemma SourceChangeKeeps(s: State, source: string, row: Source, s': State)
    requires Inv(s) && source in s.sources && s'.jobs == s.jobs && s'.revisions == s.revisions
    requires s'.sources == s.sources[source := row]
    requires row.current == s.sources[source].current && row.status == s.sources[source].status
    ensures Inv(s')
  {
    forall k | k in s'.jobs ensures JobOk(s', s'.jobs[k]) { assert JobOk(s, s.jobs[k]); }
  }

  lemma SetAclKeeps(s: State, source: string, restricted: bool, principals: set<string>)
    requires Inv(s)
    ensures Inv(Step(s, TxSetAcl(source, restricted, principals)))
  {
    var s' := Step(s, TxSetAcl(source, restricted, principals));
    if SetSourceAcl(s, source, restricted, principals).Done? {
      SourceChangeKeeps(s, source, s'.sources[source], s');
    }
  }

  lemma StepKeeps(s: State, tx: Tx)
    requires Inv(s)
    ensures Inv(Step(s, tx))
  {
    match tx
    case TxRegisterSource(a, r, h, j, m) => RegisterSourceKeeps(s, a, r, h, j, m);
    case TxRegisterRevision(a, r, h, j, m) => RegisterRevisionKeeps(s, a, r, h, j, m);
    case TxComplete(j, w, c, d, now) => CompleteKeeps(s, tx);
    case TxFail(j, w, now) => FailKeeps(s, j, w, now);
    case TxDelete(a) => DeleteKeeps(s, a);
    case TxReindex(a, j, m) => ReindexKeeps(s, a, j, m);
    case TxClaim(j, w, l, now) => ClaimKeeps(s, j, w, l, now);
    case TxSetAcl(a, r, p) => SetAclKeeps(s, a, r, p);
  }

  /**
   Every run from the empty tables, or from any state with the invariant: attempts stay within bounds,
   a job is extracting exactly while leased, one active job per revision.
   */
  lemma {:induction false} RunKeeps(s: State, txs: seq<Tx>)
    requires Inv(s)
    ensures Inv(EMPTY) && Inv(Run(s, txs))
    decreases |txs|
  {
    if txs != [] {
      StepKeeps(s, txs[0]);
      RunKeeps(Step(s, txs[0]), txs[1..]);
    }
  }

  // ---------------------------------------------------------------------------------------------
  // Deletion is for good

  ghost predicate SourceDeleted(s: State, source: string) {
    && source in s.sources && s.sources[source].status == Deleted
    && forall k :: k in s.jobs && s.jobs[k].source == source ==> s.jobs[k].status == Deleted
  }

  lemma JobStepKeepsSource(s: State, tx: Tx, source: string)
    requires Inv(s) && source in s.sources && s.sources[source].status == Deleted
    requires tx.TxClaim? || tx.TxFail? || tx.TxComplete?
    ensures source in Step(s, tx).sources && Step(s, tx).sources[source].status == Deleted
  {
    if tx.job in s.jobs {
      assert JobOk(s, s.jobs[tx.job]);
      if tx.TxComplete? {
        PutsKeepRows(DropRevisionIndex(s, s.jobs[tx.job].revision), tx.chunks, tx.documents);
      }
    }
  }

  lemma StepKeepsDeleted(s: State, tx: Tx, source: string)
    requires Inv(s) && SourceDeleted(s, source)
    ensures SourceDeleted(Step(s, tx), source)
  {
    var s' := Step(s, tx);
    assert JobsOk(s') by { StepKeeps(s, tx); }
    if tx.TxClaim? || tx.TxFail? || tx.TxComplete? { JobStepKeepsSource(s, tx, source); }
    assert source in s'.sources && s'.sources[source].status == Deleted;
    forall k | k in s'.jobs && s'.jobs[k].source == source ensures s'.jobs[k].status == Deleted {
      assert JobOk(s', s'.jobs[k]);
    }
  }

  /** After a deletion no run revives the source or any of its jobs. */
  lemma {:induction false} DeletedForever(s: State, source: string, txs: seq<Tx>)
    requires Inv(s) && source in s.sources
    ensures SourceDeleted(Run(Step(s, TxDelete(source)), txs), source)
  {
    StepKeeps(s, TxDelete(source));
    DeletedStays(Step(s, TxDelete(source)), source, txs);
  }

  lemma {:induction false} DeletedStays(s: State, source: string, txs: seq<Tx>)
    requires Inv(s) && SourceDeleted(s, source)
    ensures SourceDeleted(Run(s, txs), source)
    decreases |txs|
  {
    if txs != [] {
      StepKeepsDeleted(s, txs[0], source);
      StepKeeps(s, txs[0]);
      DeletedStays(Step(s, txs[0]), source, txs[1..]);
    }
  }

  // ---------------------------------------------------------------------------------------------
  // Supersession is for good

  /** A revision that is recorded but is not the current one of its source. */
  ghost predicate Retired(s: State, revision: string) {
    && revision in s.revisions
    && (s.revisions[revision].source in s.sources ==> s.sources[s.revisions[revision].source].current != Some(revision))
  }

  lemma StepKeepsRevision(s: State, tx: Tx, revision: string)
    requires revision in s.revisions
    ensures revision in Step(s, tx).revisions
    ensures Step(s, tx).revisions[revision].source == s.revisions[revision].source
    ensures Step(s, tx).revisions[revision].hash == s.revisions[revision].hash
  {
    if tx.TxComplete? && tx.job in s.jobs {
      PutsKeepRows(DropRevisionIndex(s, s.jobs[tx.job].revision), tx.chunks, tx.documents);
    }
  }

  lemma StepKeepsRetired(s: State, tx: Tx, revision: string)
    requires Inv(s) && Retired(s, revision)
    ensures Retired(Step(s, tx), revision)
  {
    StepKeepsRevision(s, tx, revision);
    if tx.TxComplete? && tx.job in s.jobs {
      PutsKeepRows(DropRevisionIndex(s, s.jobs[tx.job].revision), tx.chunks, tx.documents);
    }
  }

  // ---------------------------------------------------------------------------------------------
  // Jobs under completion, failure and re-claim

  predicate Finished(j: Job) { j.status == Indexed || j.status == Failed || j.status == Deleted }

  lemma CompletionOnFinished(s: State, tx: Tx, job: string)
    requires tx.TxComplete? && job in s.jobs && Finished(s.jobs[job])
    ensures job in Step(s, tx).jobs && Step(s, tx).jobs[job] == s.jobs[job]
  {
    if tx.job in s.jobs {
      PutsKeepRows(DropRevisionIndex(s, s.jobs[tx.job].revision), tx.chunks, tx.documents);
    }
  }

  /** No completion, failure or claim touches a finished job. */
  lemma StepOnFinished(s: State, tx: Tx, job: string)
    requires job in s.jobs && Finished(s.jobs[job])
    ensures job in Step(s, tx).jobs
    ensures Step(s, tx).jobs[job] ==
            if tx.TxDelete? && tx.source in s.sources && s.jobs[job].source == tx.source then Buried(s.jobs[job]) else s.jobs[job]
  {
    if tx.TxComplete? { CompletionOnFinished(s, tx, job); }
  }

  ghost predicate DeletesSource(txs: seq<Tx>, source: string) {
    exists i :: 0 <= i < |txs| && txs[i] == TxDelete(source)
  }

  /** Over every run an indexed, failed or deleted job stays as it is, until at most its source is deleted. */
  lemma {:induction false} FinishedIsFinal(s: State, txs: seq<Tx>, job: string)
    requires Inv(s) && job in s.jobs && Finished(s.jobs[job])
    ensures job in Run(s, txs).jobs
    ensures Run(s, txs).jobs[job] == if DeletesSource(txs, s.jobs[job].source) then Buried(s.jobs[job]) else s.jobs[job]
    decreases |txs|
  {
    if txs != [] {
      var source := s.jobs[job].source;
      StepOnFinished(s, txs[0], job);
      StepKeeps(s, txs[0]);
      FinishedIsFinal(Step(s, txs[0]), txs[1..], job);
      assert JobOk(s, s.jobs[job]);
    }
  }

  ghost predicate NotLeasedTo(s: State, job: string, worker: string) {
    job in s.jobs && s.jobs[job].owner != Some(worker)
  }

  lemma StepKeepsNotLeased(s: State, tx: Tx, job: string, worker: string)
    requires NotLeasedTo(s, job, worker) && !(tx.TxClaim? && tx.job == job && tx.worker == worker)
    ensures NotLeasedTo(Step(s, tx), job, worker)
  {
    if tx.TxComplete? && tx.job in s.jobs {
      PutsKeepRows(DropRevisionIndex(s, s.jobs[tx.job].revision), tx.chunks, tx.documents);
    }
  }

  ghost predicate NoClaim(txs: seq<Tx>, job: string, worker: string) {
    forall i :: 0 <= i < |txs| ==> !(txs[i].TxClaim? && txs[i].job == job && txs[i].worker == worker)
  }

  lemma {:induction false} RunKeepsNotLeased(s: State, txs: seq<Tx>, job: string, worker: string)
    requires NotLeasedTo(s, job, worker) && NoClaim(txs, job, worker)
    ensures NotLeasedTo(Run(s, txs), job, worker)
    decreases |txs|
  {
    if txs != [] {
      StepKeepsNotLeased(s, txs[0], job, worker);
      RunKeepsNotLeased(Step(s, txs[0]), txs[1..], job, worker);
    }
  }

  /**
   Fencing: once another worker has claimed the job, the first worker's completions and failures
   change nothing, in every run in which it does not claim the job again.
   */
  lemma {:induction false} ReclaimedWorkerIsFenced(s: State, job: string, other: string, worker: string, leaseMs: nat, now: int, txs: seq<Tx>, late: Tx)
    requires other != worker && job in s.jobs && Claimable(s.jobs[job], now)
    requires NoClaim(txs, job, worker)
    requires (late.TxComplete? || late.TxFail?) && late.job == job && late.worker == worker
    ensures
      var after := Run(Step(s, TxClaim(job, other, leaseMs, now)), txs);
      Step(after, late) == after
  {
    var claimed := Step(s, TxClaim(job, other, leaseMs, now));
    RunKeepsNotLeased(claimed, txs, job, worker);
  }

  // ---------------------------------------------------------------------------------------------
  // Retries

  function ClaimAndFail(s: State, job: string, worker: string, leaseMs: nat, now: int): State {
    Step(Step(s, TxClaim(job, worker, leaseMs, now)), TxFail(job, worker, now))
  }

  function ClaimAndFailAll(s: State, job: string, worker: string, leaseMs: nat, times: seq<int>): State
    decreases |times|
  {
    if times == [] then s
    else ClaimAndFailAll(ClaimAndFail(s, job, worker, leaseMs, times[0]), job, worker, leaseMs, times[1..])
  }

  predicate DueBy(j: Job, now: int) { j.retryAt.None? || j.retryAt.value <= now }

  ghost predicate Ascending(times: seq<int>) {
    forall i, j :: 0 <= i < j < |times| ==> times[i] <= times[j]
  }

  lemma FailedJob(s: State, job: string, worker: string, now: int)
    requires job in s.jobs && s.jobs[job].status == Extracting && s.jobs[job].owner == Some(worker)
    ensures
      var j, after := s.jobs[job], Step(s, TxFail(job, worker, now));
      && job in after.jobs && after.jobs[job].maxAttempts == j.maxAttempts
      && (j.attempt < j.maxAttempts ==>
            after.jobs[job].status == Pending && after.jobs[job].attempt == j.attempt + 1 && after.jobs[job].retryAt == Some(now))
      && (j.attempt >= j.maxAttempts ==> after.jobs[job].status == Failed && after.jobs[job].attempt == j.attempt)
  {
  }

  lemma {:induction false} FailedStaysFailed(s: State, job: string, worker: string, leaseMs: nat, times: seq<int>)
    requires job in s.jobs && s.jobs[job].status == Failed
    ensures
      var end := ClaimAndFailAll(s, job, worker, leaseMs, times);
      job in end.jobs && end.jobs[job] == s.jobs[job]
    decreases |times|
  {
    if times != [] {
      StepOnFinished(s, TxClaim(job, worker, leaseMs, times[0]), job);
      StepOnFinished(Step(s, TxClaim(job, worker, leaseMs, times[0])), TxFail(job, worker, times[0]), job);
      FailedStaysFailed(ClaimAndFail(s, job, worker, leaseMs, times[0]), job, worker, leaseMs, times[1..]);
    }
  }

  /** A job that fails every time it is claimed is pending again until its attempts are used up, then failed for good. */
  lemma {:induction false} FailsAfterLastAttempt(s: State, job: string, worker: string, leaseMs: nat, times: seq<int>)
    requires job in s.jobs && s.jobs[job].status == Pending && s.jobs[job].attempt <= s.jobs[job].maxAttempts
    requires Ascending(times) && (times != [] ==> DueBy(s.jobs[job], times[0]))
    ensures
      var j, end := s.jobs[job], ClaimAndFailAll(s, job, worker, leaseMs, times);
      && job in end.jobs
      && end.jobs[job].attempt == Min(j.attempt + |times|, j.maxAttempts)
      && end.jobs[job].status == if j.attempt + |times| <= j.maxAttempts then Pending else Failed
    decreases |times|
  {
    if times != [] {
      var next := ClaimAndFail(s, job, worker, leaseMs, times[0]);
      FailedJob(Step(s, TxClaim(job, worker, leaseMs, times[0])), job, worker, times[0]);
      if s.jobs[job].attempt < s.jobs[job].maxAttempts {
        FailsAfterLastAttempt(next, job, worker, leaseMs, times[1..]);
      } else {
        FailedStaysFailed(next, job, worker, leaseMs, times[1..]);
      }
    }
  }

  // ---------------------------------------------------------------------------------------------
  // Content of a deleted source

  lemma StepKeepsHash(s: State, tx: Tx, hash: string)
    requires HashTaken(s, hash)
    ensures HashTaken(Step(s, tx), hash)
  {
    var r :| r in s.revisions && s.revisions[r].hash == hash;
    StepKeepsRevision(s, tx, r);
  }

  /** Content that was ever registered is never registered as a new source again, not even after its deletion. */
  lemma {:induction false} ContentRegistersOnce(s: State, txs: seq<Tx>, hash: string, again: Tx)
    requires HashTaken(s, hash) && again.TxRegisterSource? && again.hash == hash
    ensures Step(Run(s, txs), again) == Run(s, txs)
    decreases |txs|
  {
    if txs != [] {
      StepKeepsHash(s, txs[0], hash);
      ContentRegistersOnce(Step(s, txs[0]), txs[1..], hash, again);
    }
  }
}

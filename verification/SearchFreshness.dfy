/**
 Searches interleaved with corpus transactions.

 A search is four separate steps (read the epoch, look in the cache, fetch candidates, store and
 answer), and any transaction or any step of another search may fall between two of them.
 */
module SearchFreshness {
  import opened Prelude
  import opened Corpus
  import opened SearchPages
  import opened SearchCache
  import Jobs = CorpusJobs

  datatype Phase =
    | Started
    | KnowsEpoch(epoch: nat)
    | Missed(epoch: nat, offset: nat)
    | Fetched(epoch: nat, offset: nat, ranked: seq<Ranked>)
    | Answered(epoch: nat, results: seq<Hit>)
    | BadCursor

  datatype Search = Search(fingerprint: Fingerprint, cursor: Option<Cursor>, phase: Phase)

  datatype System = System(corpus: State, cache: seq<Entry>, searches: seq<Search>)

  datatype Step =
    | Commit(tx: Tx)
    | Start(fingerprint: Fingerprint, cursor: Option<Cursor>)
    | ReadsEpoch(search: nat)
    | LooksUp(search: nat, now: int)
    | Fetches(search: nat, ranked: seq<Ranked>)
    | Stores(search: nat, size: nat, now: int)

  function Principal(s: Search): string { s.fingerprint.principal }

  /** Candidates come out of one transaction, so each passed the filters in the state of that instant. */
  predicate AllRetrievable(corpus: State, principal: string, ranked: seq<Ranked>) {
    forall i :: 0 <= i < |ranked| ==> Retrievable(corpus, principal, ranked[i].hit)
  }

  function At(s: System, i: nat, phase: Phase): System
    requires i < |s.searches|
  {
    s.(searches := s.searches[i := s.searches[i].(phase := phase)])
  }

  function LookUp(s: System, i: nat, now: int): System
    requires i < |s.searches| && s.searches[i].phase.KnowsEpoch?
  {
    var search := s.searches[i];
    var epoch := search.phase.epoch;
    match DecodeCursor(search.cursor, search.fingerprint, epoch)
    case None => At(s, i, BadCursor)
    case Some(offset) =>
      var (cache, found) := Get(s.cache, Key(search.fingerprint, epoch, offset), now);
      At(s.(cache := cache), i,
         if found.Some? then Answered(epoch, found.value.results) else Missed(epoch, offset))
  }

  function Store(s: System, i: nat, size: nat, now: int, limits: Limits): System
    requires i < |s.searches| && s.searches[i].phase.Fetched?
  {
    var Search(fingerprint, _, Fetched(epoch, offset, ranked)) := s.searches[i];
    var page := PageAt(ranked, offset, fingerprint, epoch);
    At(s.(cache := Set(s.cache, Key(fingerprint, epoch, offset), page, size, now, limits)), i, Answered(epoch, page.results))
  }

  /** A step that is not enabled leaves the system as it is. */
  function Next(s: System, step: Step, limits: Limits): System {
    match step
    case Commit(tx) => s.(corpus := Corpus.Step(s.corpus, tx))
    case Start(fingerprint, cursor) => s.(searches := s.searches + [Search(fingerprint, cursor, Started)])
    case ReadsEpoch(i) =>
      if i < |s.searches| && s.searches[i].phase.Started?
      then var (corpus, epoch) := ReadEpoch(s.corpus); At(s.(corpus := corpus), i, KnowsEpoch(epoch)) else s
    case LooksUp(i, now) =>
      if i < |s.searches| && s.searches[i].phase.KnowsEpoch? then LookUp(s, i, now) else s
    case Fetches(i, ranked) =>
      if i < |s.searches| && s.searches[i].phase.Missed? && AllRetrievable(s.corpus, Principal(s.searches[i]), ranked)
      then At(s, i, Fetched(s.searches[i].phase.epoch, s.searches[i].phase.offset, ranked)) else s
    case Stores(i, size, now) =>
      if i < |s.searches| && s.searches[i].phase.Fetched? then Store(s, i, size, now, limits) else s
  }

  function Run(s: System, steps: seq<Step>, limits: Limits): System
    decreases |steps|
  {
    if steps == [] then s else Run(Next(s, steps[0], limits), steps[1..], limits)
  }

  // ---------------------------------------------------------------------------------------------
  // Epochs never run ahead, and a bump is strict

  predicate PhaseWithin(p: Phase, bound: nat) {
    p.Started? || p.BadCursor? || p.epoch <= bound
  }

  /** No search and no cache entry carries an epoch beyond the current one. */
  ghost predicate EpochsWithin(s: System) {
    && (forall i :: 0 <= i < |s.searches| ==> PhaseWithin(s.searches[i].phase, EpochValue(s.corpus)))
    && (forall i :: 0 <= i < |s.cache| ==> s.cache[i].key.epoch <= EpochValue(s.corpus))
    && DistinctKeys(s.cache)
  }

  lemma EpochNeverFalls(s: State, tx: Tx)
    ensures EpochValue(Corpus.Step(s, tx)) >= EpochValue(s)
  {
    if tx.TxComplete? && tx.job in s.jobs {
      PutsKeepRows(DropRevisionIndex(s, s.jobs[tx.job].revision), tx.chunks, tx.documents);
    }
  }

  lemma CacheAfterLookUp(s: System, i: nat, now: int)
    requires i < |s.searches| && s.searches[i].phase.KnowsEpoch? && DistinctKeys(s.cache)
    ensures
      var s' := LookUp(s, i, now);
      DistinctKeys(s'.cache) && forall k :: 0 <= k < |s'.cache| ==> s'.cache[k] in s.cache
  {
    var search := s.searches[i];
    var offset := DecodeCursor(search.cursor, search.fingerprint, search.phase.epoch);
    if offset.Some? { GetKeeps(s.cache, Key(search.fingerprint, search.phase.epoch, offset.value), now); }
  }

  lemma CacheAfterStore(s: System, i: nat, size: nat, now: int, limits: Limits)
    requires i < |s.searches| && s.searches[i].phase.Fetched? && DistinctKeys(s.cache)
    ensures
      var Search(fingerprint, _, Fetched(epoch, offset, ranked)) := s.searches[i];
      var s' := Store(s, i, size, now, limits);
      && DistinctKeys(s'.cache)
      && forall k :: 0 <= k < |s'.cache| && s'.cache[k] !in s.cache ==>
           s'.cache[k].key == Key(fingerprint, epoch, offset) && s'.cache[k].value == PageAt(ranked, offset, fingerprint, epoch)
  {
    var Search(fingerprint, _, Fetched(epoch, offset, ranked)) := s.searches[i];
    var page := PageAt(ranked, offset, fingerprint, epoch);
    SetKeeps(s.cache, Key(fingerprint, epoch, offset), page, size, now, limits);
    var s' := Store(s, i, size, now, limits);
    forall k | 0 <= k < |s'.cache|
      ensures s'.cache[k] in s.cache || (s'.cache[k].key == Key(fingerprint, epoch, offset) && s'.cache[k].value == page)
    {
      assert s'.cache[k] in s'.cache;
    }
  }

  lemma NextKeepsEpochs(s: System, step: Step, limits: Limits)
    requires EpochsWithin(s)
    ensures EpochsWithin(Next(s, step, limits))
    ensures EpochValue(Next(s, step, limits).corpus) >= EpochValue(s.corpus)
  {
    match step
    case Commit(tx) => EpochNeverFalls(s.corpus, tx);
    case LooksUp(i, now) =>
      if i < |s.searches| && s.searches[i].phase.KnowsEpoch? { CacheAfterLookUp(s, i, now); }
    case Stores(i, size, now) =>
      if i < |s.searches| && s.searches[i].phase.Fetched? { CacheAfterStore(s, i, size, now, limits); }
    case _ =>
  }

  /** Whoever has a source has an epoch row: the first registration creates it. */
  predicate EpochRow(s: State) {
    s.sources != map[] ==> s.epoch.Some?
  }

  ghost predicate Inv(s: System) {
    EpochsWithin(s) && Jobs.Inv(s.corpus) && EpochRow(s.corpus)
  }

  lemma StepKeepsEpochRow(s: State, tx: Tx)
    requires EpochRow(s)
    ensures EpochRow(Corpus.Step(s, tx))
  {
    if tx.TxComplete? && tx.job in s.jobs {
      PutsKeepRows(DropRevisionIndex(s, s.jobs[tx.job].revision), tx.chunks, tx.documents);
    }
  }

  lemma ReadEpochKeepsJobs(s: State)
    requires Jobs.Inv(s)
    ensures Jobs.Inv(ReadEpoch(s).0)
    ensures ReadEpoch(s).0 == s.(epoch := ReadEpoch(s).0.epoch)
  {
    var s' := ReadEpoch(s).0;
    forall k | k in s'.jobs ensures Jobs.JobOk(s', s'.jobs[k]) { assert Jobs.JobOk(s, s.jobs[k]); }
  }

  lemma NextKeepsJobs(s: System, step: Step, limits: Limits)
    requires Jobs.Inv(s.corpus)
    ensures Jobs.Inv(Next(s, step, limits).corpus)
  {
    match step
    case Commit(tx) => Jobs.StepKeeps(s.corpus, tx);
    case ReadsEpoch(i) => ReadEpochKeepsJobs(s.corpus);
    case _ =>
  }

  lemma NextKeepsEpochRow(s: System, step: Step, limits: Limits)
    requires EpochRow(s.corpus)
    ensures EpochRow(Next(s, step, limits).corpus)
  {
    if step.Commit? { StepKeepsEpochRow(s.corpus, step.tx); }
  }

  /** Every interleaving keeps the invariant; the empty system has it. */
  lemma {:induction false} RunKeeps(s: System, steps: seq<Step>, limits: Limits)
    requires Inv(s)
    ensures Inv(Run(s, steps, limits))
    ensures Inv(System(EMPTY, [], []))
    decreases |steps|
  {
    if steps != [] {
      NextKeepsEpochs(s, steps[0], limits);
      NextKeepsJobs(s, steps[0], limits);
      NextKeepsEpochRow(s, steps[0], limits);
      RunKeeps(Next(s, steps[0], limits), steps[1..], limits);
    }
  }

  // ---------------------------------------------------------------------------------------------
  // Freshness

  predicate PhaseClean(p: Phase, h: Hit, floor: nat) {
    match p
    case Fetched(epoch, _, ranked) => epoch >= floor ==> forall i :: 0 <= i < |ranked| ==> ranked[i].hit != h
    case Answered(epoch, results) => epoch >= floor ==> h !in results
    case _ => true
  }

  predicate EntryClean(e: Entry, principal: string, h: Hit, floor: nat) {
    e.key.fingerprint.principal == principal && e.key.epoch >= floor ==> h !in e.value.results
  }

  /** From `floor` on, nothing held for the principal mentions the hit. */
  ghost predicate Clean(s: System, principal: string, h: Hit, floor: nat) {
    && (forall i :: 0 <= i < |s.searches| && Principal(s.searches[i]) == principal ==> PhaseClean(s.searches[i].phase, h, floor))
    && (forall i :: 0 <= i < |s.cache| ==> EntryClean(s.cache[i], principal, h, floor))
    && DistinctKeys(s.cache)
  }

  lemma LookUpKeepsClean(s: System, i: nat, now: int, principal: string, h: Hit, floor: nat)
    requires Clean(s, principal, h, floor) && i < |s.searches| && s.searches[i].phase.KnowsEpoch?
    ensures Clean(LookUp(s, i, now), principal, h, floor)
  {
    var s' := LookUp(s, i, now);
    CacheAfterLookUp(s, i, now);
    forall k | 0 <= k < |s'.cache| ensures EntryClean(s'.cache[k], principal, h, floor) {
      var n :| 0 <= n < |s.cache| && s.cache[n] == s'.cache[k];
    }
    var search := s.searches[i];
    var offset := DecodeCursor(search.cursor, search.fingerprint, search.phase.epoch);
    if Principal(search) == principal && offset.Some? {
      var key := Key(search.fingerprint, search.phase.epoch, offset.value);
      GetKeeps(s.cache, key, now);
      var found := Get(s.cache, key, now).1;
      if found.Some? {
        var e :| e in s.cache && e.key == key && found == Some(e.value);
        var n :| 0 <= n < |s.cache| && s.cache[n] == e;
        assert EntryClean(s.cache[n], principal, h, floor);
      }
    }
  }

  lemma StoreKeepsClean(s: System, i: nat, size: nat, now: int, limits: Limits, principal: string, h: Hit, floor: nat)
    requires Clean(s, principal, h, floor) && i < |s.searches| && s.searches[i].phase.Fetched?
    ensures Clean(Store(s, i, size, now, limits), principal, h, floor)
  {
    var Search(fingerprint, _, Fetched(epoch, offset, ranked)) := s.searches[i];
    var s' := Store(s, i, size, now, limits);
    var page := PageAt(ranked, offset, fingerprint, epoch);
    if fingerprint.principal == principal && epoch >= floor {
      assert PhaseClean(s.searches[i].phase, h, floor);
      assert h !in page.results;
    }
    CacheAfterStore(s, i, size, now, limits);
    forall k | 0 <= k < |s'.cache| ensures EntryClean(s'.cache[k], principal, h, floor) {
      if s'.cache[k] in s.cache {
        var n :| 0 <= n < |s.cache| && s.cache[n] == s'.cache[k];
      }
    }
  }

  /** While the hit is not retrievable no step brings it back at an epoch from the floor on. */
  lemma NextKeepsClean(s: System, step: Step, limits: Limits, principal: string, h: Hit, floor: nat)
    requires Clean(s, principal, h, floor) && !Retrievable(s.corpus, principal, h)
    ensures Clean(Next(s, step, limits), principal, h, floor)
  {
    match step
    case LooksUp(i, now) =>
      if i < |s.searches| && s.searches[i].phase.KnowsEpoch? { LookUpKeepsClean(s, i, now, principal, h, floor); }
    case Stores(i, size, now) =>
      if i < |s.searches| && s.searches[i].phase.Fetched? { StoreKeepsClean(s, i, size, now, limits, principal, h, floor); }
    case _ =>
  }

  /** The search is still to start, or still to read its epoch, or has read one from the floor on. */
  ghost predicate ReadsFrom(s: System, i: nat, floor: nat) {
    && EpochValue(s.corpus) >= floor
    && (i < |s.searches| ==>
          s.searches[i].phase.Started? || s.searches[i].phase.BadCursor? || s.searches[i].phase.epoch >= floor)
  }

  lemma NextKeepsReading(s: System, step: Step, limits: Limits, i: nat, floor: nat)
    requires ReadsFrom(s, i, floor)
    ensures ReadsFrom(Next(s, step, limits), i, floor)
  {
    if step.Commit? { EpochNeverFalls(s.corpus, step.tx); }
  }

  /** The search at i, if it answered, answered the principal without the hit. */
  predicate AnswersWithout(s: System, i: nat, principal: string, h: Hit) {
    i < |s.searches| && Principal(s.searches[i]) == principal && s.searches[i].phase.Answered? ==>
      h !in s.searches[i].phase.results
  }

  /** The hit is out of the principal's reach in every state of the run. */
  ghost predicate OutOfReach(s: System, steps: seq<Step>, limits: Limits, principal: string, h: Hit)
    decreases |steps|
  {
    !Retrievable(s.corpus, principal, h) &&
    (steps != [] ==> OutOfReach(Next(s, steps[0], limits), steps[1..], limits, principal, h))
  }

  lemma {:induction false} RunStaysClean(s: System, steps: seq<Step>, limits: Limits, principal: string, h: Hit, floor: nat, i: nat)
    requires Clean(s, principal, h, floor) && OutOfReach(s, steps, limits, principal, h) && ReadsFrom(s, i, floor)
    ensures AnswersWithout(Run(s, steps, limits), i, principal, h)
    decreases |steps|
  {
    if steps != [] {
      NextKeepsClean(s, steps[0], limits, principal, h, floor);
      NextKeepsReading(s, steps[0], limits, i, floor);
      RunStaysClean(Next(s, steps[0], limits), steps[1..], limits, principal, h, floor, i);
    }
  }

  /** A transaction that goes through with a change it must not hide raises the epoch. */
  predicate Bumps(s: State, tx: Tx) {
    EpochValue(Corpus.Step(s, tx)) > EpochValue(s)
  }

  /** The search starts after this state, or has started and not yet read its epoch. */
  predicate EpochUnread(s: System, i: nat) {
    i < |s.searches| ==> s.searches[i].phase.Started?
  }

  /**
   Freshness. A transaction bumps the epoch; from then on a hit stays out of a principal's reach.
   Then no search of that principal that reads its epoch after the commit answers with the hit, from
   the cache or fresh, whatever is interleaved: other searches, other transactions, evictions.
   */
  lemma FreshAfterBump(before: System, tx: Tx, steps: seq<Step>, limits: Limits, principal: string, h: Hit, i: nat)
    requires EpochsWithin(before) && Bumps(before.corpus, tx) && EpochUnread(before, i)
    requires OutOfReach(Next(before, Commit(tx), limits), steps, limits, principal, h)
    ensures AnswersWithout(Run(Next(before, Commit(tx), limits), steps, limits), i, principal, h)
  {
    var after := Next(before, Commit(tx), limits);
    var floor := EpochValue(after.corpus);
    assert Clean(after, principal, h, floor) by {
      forall k | 0 <= k < |after.searches| ensures PhaseClean(after.searches[k].phase, h, floor) {
        assert PhaseWithin(before.searches[k].phase, EpochValue(before.corpus));
      }
    }
    RunStaysClean(after, steps, limits, principal, h, floor, i);
  }

  // ---------------------------------------------------------------------------------------------
  // Deletion, supersession and access changes

  lemma {:induction false} DeletedOutOfReach(s: System, steps: seq<Step>, limits: Limits, principal: string, h: Hit)
    requires Jobs.Inv(s.corpus) && Jobs.SourceDeleted(s.corpus, h.source)
    ensures OutOfReach(s, steps, limits, principal, h)
    decreases |steps|
  {
    if steps != [] {
      var next := Next(s, steps[0], limits);
      if steps[0].Commit? { Jobs.StepKeepsDeleted(s.corpus, steps[0].tx, h.source); }
      NextKeepsJobs(s, steps[0], limits);
      DeletedOutOfReach(next, steps[1..], limits, principal, h);
    }
  }

  lemma {:induction false} RetiredOutOfReach(s: System, steps: seq<Step>, limits: Limits, principal: string, h: Hit)
    requires Jobs.Inv(s.corpus) && Jobs.Retired(s.corpus, h.revision)
    ensures OutOfReach(s, steps, limits, principal, h)
    decreases |steps|
  {
    if steps != [] {
      var next := Next(s, steps[0], limits);
      if steps[0].Commit? { Jobs.StepKeepsRetired(s.corpus, steps[0].tx, h.revision); }
      NextKeepsJobs(s, steps[0], limits);
      RetiredOutOfReach(next, steps[1..], limits, principal, h);
    }
  }

  /** After a source is deleted, no search that reads its epoch later returns any chunk of it, to anyone. */
  lemma DeletedSourceIsNeverReturned(before: System, source: string, steps: seq<Step>, limits: Limits, i: nat, principal: string, h: Hit)
    requires Inv(before) && source in before.corpus.sources && EpochUnread(before, i) && h.source == source
    ensures AnswersWithout(Run(Next(before, Commit(TxDelete(source)), limits), steps, limits), i, principal, h)
  {
    var tx := TxDelete(source);
    Jobs.StepKeeps(before.corpus, tx);
    DeletedOutOfReach(Next(before, Commit(tx), limits), steps, limits, principal, h);
    FreshAfterBump(before, tx, steps, limits, principal, h, i);
  }

  /** After a revision is superseded, no search that reads its epoch later returns any chunk of it, to anyone. */
  lemma SupersededRevisionIsNeverReturned(before: System, tx: Tx, steps: seq<Step>, limits: Limits, i: nat, principal: string, h: Hit)
    requires Inv(before) && EpochUnread(before, i)
    requires tx.TxRegisterRevision? && Announces(before.corpus, tx)
    requires before.corpus.sources[tx.source].current == Some(h.revision)
    ensures AnswersWithout(Run(Next(before, Commit(tx), limits), steps, limits), i, principal, h)
  {
    Jobs.StepKeeps(before.corpus, tx);
    var after := Next(before, Commit(tx), limits);
    assert Jobs.Retired(after.corpus, h.revision);
    RetiredOutOfReach(after, steps, limits, principal, h);
    FreshAfterBump(before, tx, steps, limits, principal, h, i);
  }

  ghost predicate Hidden(s: State, source: string, principal: string) {
    source in s.sources && !Visible(s.sources[source], principal)
  }

  ghost predicate NoAclChange(steps: seq<Step>, source: string) {
    forall k :: 0 <= k < |steps| ==> !(steps[k].Commit? && steps[k].tx.TxSetAcl? && steps[k].tx.source == source)
  }

  lemma CompletionKeepsSources(s: State, tx: Tx, source: string)
    requires tx.TxComplete? && source in s.sources
    ensures source in Corpus.Step(s, tx).sources
    ensures Corpus.Step(s, tx).sources[source].(status := Indexed) == s.sources[source].(status := Indexed)
  {
    if tx.job in s.jobs {
      PutsKeepRows(DropRevisionIndex(s, s.jobs[tx.job].revision), tx.chunks, tx.documents);
    }
  }

  lemma StepKeepsHidden(s: State, tx: Tx, source: string, principal: string)
    requires Hidden(s, source, principal) && !(tx.TxSetAcl? && tx.source == source)
    ensures Hidden(Corpus.Step(s, tx), source, principal)
  {
    if tx.TxComplete? { CompletionKeepsSources(s, tx, source); }
  }

  lemma {:induction false} HiddenOutOfReach(s: System, steps: seq<Step>, limits: Limits, principal: string, h: Hit)
    requires Hidden(s.corpus, h.source, principal) && NoAclChange(steps, h.source)
    ensures OutOfReach(s, steps, limits, principal, h)
    decreases |steps|
  {
    if steps != [] {
      if steps[0].Commit? { StepKeepsHidden(s.corpus, steps[0].tx, h.source, principal); }
      HiddenOutOfReach(Next(s, steps[0], limits), steps[1..], limits, principal, h);
    }
  }

  /** After access is withdrawn, and until it is set again, the principal's searches do not return the source. */
  lemma WithdrawnSourceIsNotReturned(
    before: System, source: string, principals: set<string>, steps: seq<Step>, limits: Limits, i: nat, principal: string, h: Hit)
    requires EpochsWithin(before) && source in before.corpus.sources && before.corpus.sources[source].status != Deleted
    requires EpochUnread(before, i) && principal !in principals && h.source == source && NoAclChange(steps, source)
    ensures AnswersWithout(Run(Next(before, Commit(TxSetAcl(source, true, principals)), limits), steps, limits), i, principal, h)
  {
    var tx := TxSetAcl(source, true, principals);
    HiddenOutOfReach(Next(before, Commit(tx), limits), steps, limits, principal, h);
    FreshAfterBump(before, tx, steps, limits, principal, h, i);
  }

  // ---------------------------------------------------------------------------------------------
  // Which transactions bump, by their guards

  predicate PutsSucceed(s: State, chunks: seq<ChunkWrite>, documents: seq<DocumentWrite>) {
    PutChunks(s, chunks).Some? && PutDocuments(PutChunks(s, chunks).value, documents).Some?
  }

  /** Registrations of new content, completions under a live lease, deletions and access changes. */
  predicate Announces(s: State, tx: Tx) {
    match tx
    case TxRegisterSource(a, r, h, j, m) =>
      !HashTaken(s, h) && a !in s.sources && r !in s.revisions && j !in s.jobs && m > 0
    case TxRegisterRevision(a, r, h, j, m) =>
      a in s.sources && s.sources[a].status != Deleted && !HashTaken(s, h) && r !in s.revisions && j !in s.jobs && m > 0
    case TxComplete(j, w, c, d, now) =>
      j in s.jobs && HoldsLease(s.jobs[j], w, now) && PutsSucceed(DropRevisionIndex(s, s.jobs[j].revision), c, d)
    case TxDelete(a) => a in s.sources
    case TxSetAcl(a, _, _) => a in s.sources && s.sources[a].status != Deleted
    case _ => false
  }

  /** Claims of a claimable job, failures by the lease owner, and reindexing with no active job. */
  predicate Silent(s: State, tx: Tx) {
    match tx
    case TxClaim(j, _, _, now) => j in s.jobs && Claimable(s.jobs[j], now)
    case TxFail(j, w, _) => j in s.jobs && s.jobs[j].status == Extracting && s.jobs[j].owner == Some(w)
    case TxReindex(a, j, m) =>
      a in s.sources && s.sources[a].status != Deleted && s.sources[a].current.Some? &&
      !HasActiveJob(s, s.sources[a].current.value) && j !in s.jobs && m > 0
    case _ => false
  }

  lemma OwnHashIsTaken(s: State, source: string, hash: string)
    requires HashTakenBy(s, source, hash)
    ensures HashTaken(s, hash)
  {
  }

  /** A transaction raises the epoch if and only if it is one that announces itself. */
  lemma BumpsExactly(s: State, tx: Tx)
    ensures Bumps(s, tx) <==> Announces(s, tx)
  {
    if tx.TxComplete? && tx.job in s.jobs {
      PutsKeepRows(DropRevisionIndex(s, s.jobs[tx.job].revision), tx.chunks, tx.documents);
    }
    if tx.TxRegisterRevision? && HashTakenBy(s, tx.source, tx.hash) { OwnHashIsTaken(s, tx.source, tx.hash); }
  }

  /** Everything else changes nothing. */
  lemma OtherwiseUnchanged(s: State, tx: Tx)
    requires !Announces(s, tx) && !Silent(s, tx)
    ensures Corpus.Step(s, tx) == s
  {
  }

  /** Nothing is added, and no row becomes indexed, current or visible. */
  ghost predicate OnlyShrinks(s: State, s': State) {
    && s'.chunks == s.chunks && s'.documents == s.documents
    && s'.sources.Keys == s.sources.Keys && s'.revisions.Keys == s.revisions.Keys
    && (forall k :: k in s.sources ==> s'.sources[k].status != Indexed || s'.sources[k] == s.sources[k])
    && (forall k :: k in s.revisions ==> s'.revisions[k].status != Indexed || s'.revisions[k] == s.revisions[k])
  }

  lemma StatusChangeShrinks(s: State, s0: State, source: string, revision: string, status: Status)
    requires s0 == s.(jobs := s0.jobs) && status != Indexed
    ensures OnlyShrinks(s, SetRevision(SetSource(s0, source, status), revision, status))
  {
  }

  /** A silent transaction writes one job and the status of its source and revision. */
  lemma SilentStep(s: State, tx: Tx) returns (j: Job)
    requires Silent(s, tx)
    ensures j.status != Indexed && j.source == (if tx.TxReindex? then tx.source else s.jobs[tx.job].source)
    ensures Corpus.Step(s, tx) ==
            SetRevision(SetSource(s.(jobs := s.jobs[tx.job := j]), j.source, j.status), j.revision, j.status)
  {
    j := Corpus.Step(s, tx).jobs[tx.job];
  }

  lemma SilentShrinks(s: State, tx: Tx)
    requires Silent(s, tx)
    ensures OnlyShrinks(s, Corpus.Step(s, tx)) && Corpus.Step(s, tx).epoch == s.epoch
  {
    var j := SilentStep(s, tx);
    var s' := SetRevision(SetSource(s.(jobs := s.jobs[tx.job := j]), j.source, j.status), j.revision, j.status);
    assert OnlyShrinks(s, s') && s'.epoch == s.epoch by {
      StatusChangeShrinks(s, s.(jobs := s.jobs[tx.job := j]), j.source, j.revision, j.status);
    }
  }

  /** A transaction that does not bump never makes anything retrievable, so a cached page can only be too generous. */
  lemma UnbumpedOnlyShrinks(s: State, tx: Tx, principal: string, h: Hit)
    requires !Bumps(s, tx) && Retrievable(Corpus.Step(s, tx), principal, h)
    ensures Retrievable(s, principal, h)
  {
    BumpsExactly(s, tx);
    if Silent(s, tx) {
      SilentShrinks(s, tx);
      assert HasIndexedDocument(s, h.chunk);
    } else {
      OtherwiseUnchanged(s, tx);
    }
  }
}

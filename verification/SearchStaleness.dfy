/**
 Which transactions leave stale pages behind: the cache is keyed by the epoch, and some transactions
 take hits out of reach without raising it.
 */
module SearchStaleness {
  import opened Prelude
  import opened Corpus
  import opened SearchPages
  import opened SearchCache
  import opened SearchFreshness
  import Searches = SearchFreshness

  // ---------------------------------------------------------------------------------------------
  // Stale pages: exactly when

  lemma UnbumpedKeepsEpoch(s: State, tx: Tx)
    requires !Bumps(s, tx)
    ensures Corpus.Step(s, tx).epoch == s.epoch
  {
    BumpsExactly(s, tx);
    if Silent(s, tx) { SilentShrinks(s, tx); } else { OtherwiseUnchanged(s, tx); }
  }

  /** A new search that reads its epoch and looks in the cache. */
  function Retry(request: Fingerprint, cursor: Option<Cursor>, i: nat, now: int): seq<Searches.Step> {
    [Start(request, cursor), ReadsEpoch(i), LooksUp(i, now)]
  }

  /** An unexpired page for the request and cursor, cached at the current epoch, that lists the hit. */
  ghost predicate ListedInCache(s: System, request: Fingerprint, cursor: Option<Cursor>, n: nat, now: int, h: Hit) {
    && s.corpus.epoch.Some? && n < |s.cache| && DecodeCursor(cursor, request, s.corpus.epoch.value).Some?
    && s.cache[n].key == Key(request, s.corpus.epoch.value, DecodeCursor(cursor, request, s.corpus.epoch.value).value)
    && s.cache[n].expiresAt > now && h in s.cache[n].value.results
  }

  lemma RunThree(s: System, a: Searches.Step, b: Searches.Step, c: Searches.Step, limits: Limits)
    ensures Searches.Run(s, [a, b, c], limits) == Next(Next(Next(s, a, limits), b, limits), c, limits)
  {
    assert [a, b, c][1..] == [b, c] && [b, c][1..] == [c] && [c][1..] == [];
    var s2 := Next(Next(s, a, limits), b, limits);
    assert Searches.Run(s2, [c], limits) == Searches.Run(Next(s2, c, limits), [], limits);
  }

  /**
   A transaction that takes a hit out of reach without a bump leaves the pages that list it: a search
   that starts after the commit answers from an unexpired cached page.
   */
  lemma UnbumpedServesStalePages(
    s: System, tx: Tx, request: Fingerprint, cursor: Option<Cursor>, n: nat, now: int, limits: Limits, h: Hit)
    requires !Bumps(s.corpus, tx) && !Retrievable(Corpus.Step(s.corpus, tx), request.principal, h)
    requires DistinctKeys(s.cache) && ListedInCache(s, request, cursor, n, now, h)
    ensures
      var i := |s.searches|;
      var end := Searches.Run(Next(s, Commit(tx), limits), Retry(request, cursor, i, now), limits);
      && !Retrievable(end.corpus, request.principal, h)
      && i < |end.searches|
      && end.searches[i] == Search(request, cursor, Answered(s.corpus.epoch.value, s.cache[n].value.results))
  {
    var i := |s.searches|;
    UnbumpedKeepsEpoch(s.corpus, tx);
    var s1 := Next(s, Commit(tx), limits);
    RunThree(s1, Start(request, cursor), ReadsEpoch(i), LooksUp(i, now), limits);
    LookupDistinct(s.cache, n);
    var s2 := Next(s1, Start(request, cursor), limits);
    assert s2.searches[i] == Search(request, cursor, Started) && s2.corpus.epoch == s.corpus.epoch;
  }

  ghost predicate Quiet(steps: seq<Searches.Step>) {
    forall k :: 0 <= k < |steps| ==> !steps[k].Commit?
  }

  lemma {:induction false} QuietOutOfReach(s: System, steps: seq<Searches.Step>, limits: Limits, principal: string, h: Hit)
    requires Quiet(steps) && !Retrievable(s.corpus, principal, h)
    ensures OutOfReach(s, steps, limits, principal, h)
    decreases |steps|
  {
    if steps != [] {
      assert !steps[0].Commit?;
      var next := Next(s, steps[0], limits);
      assert next.corpus == s.corpus.(epoch := next.corpus.epoch);
      QuietOutOfReach(next, steps[1..], limits, principal, h);
    }
  }

  /** A search that reads its epoch after the commit answers with a hit that is out of reach from the commit on. */
  ghost predicate AnswersStale(before: System, tx: Tx, steps: seq<Searches.Step>, limits: Limits, i: nat, principal: string, h: Hit) {
    var after := Next(before, Commit(tx), limits);
    && EpochUnread(before, i) && OutOfReach(after, steps, limits, principal, h)
    && !AnswersWithout(Searches.Run(after, steps, limits), i, principal, h)
  }

  /**
   A transaction takes a hit out of a principal's reach while an unexpired page that lists it is
   cached at the current epoch. The next search for that page answers with the hit if and only if
   the transaction is a claim, a failure or a reindex that goes through; otherwise no search that
   reads its epoch after the commit ever does.
   */
  lemma StaleExactly(
    s: System, tx: Tx, request: Fingerprint, cursor: Option<Cursor>, n: nat, now: int, limits: Limits, h: Hit)
    requires Inv(s) && ListedInCache(s, request, cursor, n, now, h)
    requires Retrievable(s.corpus, request.principal, h) && !Retrievable(Corpus.Step(s.corpus, tx), request.principal, h)
    ensures AnswersStale(s, tx, Retry(request, cursor, |s.searches|, now), limits, |s.searches|, request.principal, h) <==> Silent(s.corpus, tx)
    ensures !Silent(s.corpus, tx) ==> forall steps, i :: !AnswersStale(s, tx, steps, limits, i, request.principal, h)
  {
    BumpsExactly(s.corpus, tx);
    var steps := Retry(request, cursor, |s.searches|, now);
    if Silent(s.corpus, tx) {
      UnbumpedServesStalePages(s, tx, request, cursor, n, now, limits, h);
      QuietOutOfReach(Next(s, Commit(tx), limits), steps, limits, request.principal, h);
    } else {
      assert Announces(s.corpus, tx) by {
        if !Announces(s.corpus, tx) { OtherwiseUnchanged(s.corpus, tx); }
      }
      forall steps, i ensures !AnswersStale(s, tx, steps, limits, i, request.principal, h) {
        NeverStale(s, tx, steps, limits, i, request.principal, h);
      }
    }
  }

  lemma NeverStale(before: System, tx: Tx, steps: seq<Searches.Step>, limits: Limits, i: nat, principal: string, h: Hit)
    requires EpochsWithin(before) && Bumps(before.corpus, tx)
    ensures !AnswersStale(before, tx, steps, limits, i, principal, h)
  {
    if EpochUnread(before, i) && OutOfReach(Next(before, Commit(tx), limits), steps, limits, principal, h) {
      FreshAfterBump(before, tx, steps, limits, principal, h, i);
    }
  }

  /** A search about to store a page of its ranking, which lists the hit, at the current epoch. */
  ghost predicate AboutToStore(s: System, i: nat, h: Hit) {
    && i < |s.searches| && s.searches[i].phase.Fetched?
    && var Search(fingerprint, cursor, Fetched(epoch, offset, ranked)) := s.searches[i];
    && s.corpus.epoch == Some(epoch) && DecodeCursor(cursor, fingerprint, epoch) == Some(offset)
    && h in PageAt(ranked, offset, fingerprint, epoch).results
  }

  /** Storing it puts the page where the next search for it looks, until its time to live is over. */
  lemma StoredPageIsListed(s: System, i: nat, size: nat, at: int, now: int, limits: Limits, h: Hit) returns (n: nat)
    requires AboutToStore(s, i, h) && size <= limits.maxBytes && limits.maxEntries >= 1 && now < at + limits.ttl
    ensures ListedInCache(Next(s, Stores(i, size, at), limits), s.searches[i].fingerprint, s.searches[i].cursor, n, now, h)
  {
    var Search(fingerprint, _, Fetched(epoch, offset, ranked)) := s.searches[i];
    var page := PageAt(ranked, offset, fingerprint, epoch);
    StoredSurvives(s.cache, Key(fingerprint, epoch, offset), page, size, at, limits);
    n := |Next(s, Stores(i, size, at), limits).cache| - 1;
  }

  /**
   Stored by an ordinary search, with room for it in the cache, and asked for again within its time
   to live: the page is served stale if and only if the transaction in between was silent.
   */
  lemma StoredThenStaleExactly(s: System, i: nat, size: nat, at: int, tx: Tx, now: int, limits: Limits, h: Hit)
    requires Inv(s) && AboutToStore(s, i, h) && size <= limits.maxBytes && limits.maxEntries >= 1 && at <= now < at + limits.ttl
    requires Retrievable(s.corpus, Principal(s.searches[i]), h)
    requires !Retrievable(Corpus.Step(s.corpus, tx), Principal(s.searches[i]), h)
    ensures
      var Search(fingerprint, cursor, _) := s.searches[i];
      var again := Retry(fingerprint, cursor, |s.searches|, now);
      AnswersStale(Next(s, Stores(i, size, at), limits), tx, again, limits, |s.searches|, fingerprint.principal, h) <==>
      Silent(s.corpus, tx)
  {
    var stored := Next(s, Stores(i, size, at), limits);
    NextKeepsEpochs(s, Stores(i, size, at), limits);
    var n := StoredPageIsListed(s, i, size, at, now, limits, h);
    StaleExactly(stored, tx, s.searches[i].fingerprint, s.searches[i].cursor, n, now, limits, h);
  }

  // ---------------------------------------------------------------------------------------------
  // A claim or a failure of an overtaken job

  /**
   Claiming or failing a job marks its source, so it hides whatever was retrievable of that source,
   also when the job is one of an older revision; reindexing does the same.
   */
  lemma SilentHides(s: State, tx: Tx, principal: string, h: Hit)
    requires Silent(s, tx) && h.source == (if tx.TxReindex? then tx.source else s.jobs[tx.job].source)
    ensures !Retrievable(Corpus.Step(s, tx), principal, h) && !Bumps(s, tx)
  {
    var j := SilentStep(s, tx);
    BumpsExactly(s, tx);
    assert j.source == h.source;
    assert h.source in s.sources ==> Corpus.Step(s, tx).sources[h.source].status == j.status;
  }

  const FIRST := TxRegisterSource("s", "r1", "h1", "j1", 3)
  const CLAIM_FIRST := TxClaim("j1", "w1", 10, 0)
  const SECOND := TxRegisterRevision("s", "r2", "h2", "j2", 3)
  const CLAIM_SECOND := TxClaim("j2", "w2", 10, 0)
  const CHUNKS := [ChunkWrite("c", "s", "r2", 0, "text")]
  const DOCUMENTS := [DocumentWrite("d", "c", "s", "r2", "v", Indexed)]
  const COMPLETE_SECOND := TxComplete("j2", "w2", CHUNKS, DOCUMENTS, 0)
  const HIT := Hit("c", "s", "r2", 0, "text")
  const LEASED := Job("s", "r1", Extracting, 1, 3, Some("w1"), Some(10), None)

  function Claimed(): State { Corpus.Step(Corpus.Step(EMPTY, FIRST), CLAIM_FIRST) }

  function Revised(): State { Corpus.Step(Corpus.Step(Claimed(), SECOND), CLAIM_SECOND) }

  /** The first revision's job is still leased when the second revision has been indexed. */
  function Overtaken(): State { Corpus.Step(Revised(), COMPLETE_SECOND) }

  ghost predicate IsRevised(s: State) {
    && s.sources == map["s" := Source(Extracting, Some("r2"), false, {})]
    && s.revisions == map["r1" := Revision("s", "h1", Superseded), "r2" := Revision("s", "h2", Extracting)]
    && s.jobs == map["j1" := LEASED, "j2" := Job("s", "r2", Extracting, 1, 3, Some("w2"), Some(10), None)]
    && s.chunks == map[] && s.documents == map[]
  }

  lemma AfterSecondClaim()
    ensures IsRevised(Revised())
  {
    var s := Claimed();
    assert "h1"[1] == '1' && "h2"[1] == '2' && "r1"[1] == '1' && "r2"[1] == '2' && "j1"[1] == '1' && "j2"[1] == '2';
    assert !HashTaken(s, "h2");
    var s1 := Corpus.Step(s, SECOND);
    assert s1.jobs["j2"] == NewJob("s", "r2", 3);
  }

  lemma PutsOnEmptyIndex(s: State) returns (s': State)
    requires s.chunks == map[] && s.documents == map[] && "r2" in s.revisions && s.revisions["r2"].source == "s"
    ensures PutChunks(s, CHUNKS).Some? && PutDocuments(PutChunks(s, CHUNKS).value, DOCUMENTS) == Some(s')
    ensures s' == s.(chunks := map[("r2", 0) := Chunk("c", "s", "text")],
                     documents := map[("c", "v") := Document("d", "s", "r2", Indexed)])
  {
    assert CHUNKS[1..] == [] && DOCUMENTS[1..] == [];
    var s1 := PutChunk(s, CHUNKS[0]).value;
    assert PutChunks(s1, []) == Some(s1);
    assert s1.chunks[("r2", 0)].id == "c" && ChunkIdTaken(s1.chunks, "c");
    s' := PutDocument(s1, DOCUMENTS[0]).value;
    assert PutDocuments(s', []) == Some(s');
  }

  lemma CompletesSecond(s: State)
    requires IsRevised(s)
    ensures
      var s' := Corpus.Step(s, COMPLETE_SECOND);
      "j1" in s'.jobs && s'.jobs["j1"] == LEASED && Retrievable(s', "p", HIT)
  {
    var s1 := DropRevisionIndex(s, "r2");
    assert s1 == s;
    var s2 := PutsOnEmptyIndex(s);
    var s' := Corpus.Step(s, COMPLETE_SECOND);
    assert s' == FinishJob(s2, "j2");
    assert s'.documents[("c", "v")].status == Indexed;
    assert HasIndexedDocument(s', "c");
  }

  /** Claiming the overtaken job again once its lease ran out, or failing it, hides the current revision without a bump. */
  lemma ClaimAndFailHide()
    ensures
      var s := Overtaken();
      var claim, fail := TxClaim("j1", "w3", 10, 10), TxFail("j1", "w1", 5);
      && Retrievable(s, "p", HIT)
      && !Retrievable(Corpus.Step(s, claim), "p", HIT) && !Bumps(s, claim)
      && !Retrievable(Corpus.Step(s, fail), "p", HIT) && !Bumps(s, fail)
  {
    AfterSecondClaim();
    CompletesSecond(Revised());
    SilentHides(Overtaken(), TxClaim("j1", "w3", 10, 10), "p", HIT);
    SilentHides(Overtaken(), TxFail("j1", "w1", 5), "p", HIT);
  }
}

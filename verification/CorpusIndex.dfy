/** What a completed extraction leaves in the index, and when retrieval may return it. */
module CorpusIndex {
  import opened Prelude
  import opened Corpus

  predicate Writes(w: ChunkWrite, revision: string, ordinal: nat) {
    w.revision == revision && w.ordinal == ordinal
  }

  /** The last of the writes to a place, which is the one whose content stays. */
  function LastWrite(writes: seq<ChunkWrite>, revision: string, ordinal: nat): Option<ChunkWrite> {
    if writes == [] then None
    else
      var later := LastWrite(writes[1..], revision, ordinal);
      if later.Some? then later else if Writes(writes[0], revision, ordinal) then Some(writes[0]) else None
  }

  /** Inserting leaves each written place with its last content and every other place alone. */
  lemma {:induction false} InsertedExactly(s: State, writes: seq<ChunkWrite>, revision: string, ordinal: nat)
    requires PutChunks(s, writes).Some?
    ensures
      var key, last := (revision, ordinal), LastWrite(writes, revision, ordinal);
      var after := PutChunks(s, writes).value.chunks;
      && (key in after <==> key in s.chunks || last.Some?)
      && (last.Some? ==> after[key].content == last.value.content)
      && (last.None? && key in after ==> after[key] == s.chunks[key])
    decreases |writes|
  {
    if writes != [] {
      InsertedExactly(PutChunk(s, writes[0]).value, writes[1..], revision, ordinal);
    }
  }

  /** The completion goes through and does its work, rather than finding the job already indexed. */
  predicate Completes(s: State, tx: Tx) {
    tx.TxComplete? && Execute(s, tx).Done? && s.jobs[tx.job].status != Indexed
  }

  function Cleared(s: State, tx: Tx): State
    requires Completes(s, tx)
  {
    DropRevisionIndex(s, s.jobs[tx.job].revision)
  }

  lemma CompletionState(s: State, tx: Tx)
    requires Completes(s, tx)
    ensures PutChunks(Cleared(s, tx), tx.chunks).Some?
    ensures Step(s, tx).chunks == PutChunks(Cleared(s, tx), tx.chunks).value.chunks
  {
    PutDocumentsKeepRows(PutChunks(Cleared(s, tx), tx.chunks).value, tx.documents);
  }

  /**
   After a completion the revision holds exactly the written ordinals, each with the content of its
   last write; nothing of an earlier extraction is left, and places of other revisions that were not
   written are untouched.
   */
  lemma {:induction false} CompletionReplacesIndex(s: State, tx: Tx, revision: string, ordinal: nat)
    requires Completes(s, tx)
    ensures
      var key, last := (revision, ordinal), LastWrite(tx.chunks, revision, ordinal);
      var after := Step(s, tx).chunks;
      && (last.Some? ==> key in after && after[key].content == last.value.content)
      && (last.None? && revision == s.jobs[tx.job].revision ==> key !in after)
      && (last.None? && revision != s.jobs[tx.job].revision ==>
            (key in after <==> key in s.chunks) && (key in after ==> after[key] == s.chunks[key]))
  {
    CompletionState(s, tx);
    InsertedExactly(Cleared(s, tx), tx.chunks, revision, ordinal);
  }

  lemma CompletionMarksRows(s: State, tx: Tx)
    requires Completes(s, tx)
    ensures
      var j, after := s.jobs[tx.job], Step(s, tx);
      && (j.source in s.sources ==> j.source in after.sources && after.sources[j.source] == s.sources[j.source].(status := Indexed))
      && (j.revision in s.revisions ==>
            j.revision in after.revisions && after.revisions[j.revision] == s.revisions[j.revision].(status := Indexed))
  {
    PutsKeepRows(Cleared(s, tx), tx.chunks, tx.documents);
  }

  predicate Stored(s: State, h: Hit) {
    (h.revision, h.ordinal) in s.chunks && s.chunks[(h.revision, h.ordinal)] == Chunk(h.chunk, h.source, h.content)
  }

  /**
   Right after the completion of a source's current revision, a principal may retrieve exactly the
   stored chunks that have an indexed document, if the source is visible to it.
   */
  lemma CompletedIsRetrievable(s: State, tx: Tx, principal: string, h: Hit)
    requires Completes(s, tx)
    requires
      var j := s.jobs[tx.job];
      && j.source in s.sources && j.revision in s.revisions && s.revisions[j.revision].source == j.source
      && h.source == j.source && h.revision == j.revision
    ensures
      var j, after := s.jobs[tx.job], Step(s, tx);
      Retrievable(after, principal, h) <==>
      (s.sources[j.source].current == Some(j.revision) && Visible(s.sources[j.source], principal) &&
       Stored(after, h) && HasIndexedDocument(after, h.chunk))
  {
    CompletionMarksRows(s, tx);
  }
}

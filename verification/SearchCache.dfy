/** The search cache: a map in recency order under an entry bound, a byte bound and a time to live. */
module SearchCache {
  import opened Prelude
  import opened SearchPages

  /** Fingerprints are compared whole: the digest is taken to be injective. */
  datatype Key = Key(fingerprint: Fingerprint, epoch: nat, offset: nat)

  datatype Entry = Entry(key: Key, expiresAt: int, bytes: nat, value: Page)

  datatype Limits = Limits(maxEntries: nat, maxBytes: nat, ttl: int)

  // ---------------------------------------------------------------------------------------------
  // Specification

  function Bytes(entries: seq<Entry>): nat {
    if entries == [] then 0 else entries[0].bytes + Bytes(entries[1..])
  }

  function Remove(entries: seq<Entry>, key: Key): seq<Entry> {
    if entries == [] then []
    else (if entries[0].key == key then [] else [entries[0]]) + Remove(entries[1..], key)
  }

  function Lookup(entries: seq<Entry>, key: Key): Option<Entry> {
    if entries == [] then None
    else if entries[0].key == key then Some(entries[0])
    else Lookup(entries[1..], key)
  }

  predicate Fits(entries: seq<Entry>, limits: Limits) {
    |entries| <= limits.maxEntries && Bytes(entries) <= limits.maxBytes
  }

  function Evict(entries: seq<Entry>, limits: Limits): seq<Entry> {
    if Fits(entries, limits) || entries == [] then entries else Evict(entries[1..], limits)
  }

  function Get(entries: seq<Entry>, key: Key, now: int): (seq<Entry>, Option<Page>) {
    match Lookup(entries, key)
    case None => (entries, None)
    case Some(e) =>
      if e.expiresAt <= now then (Remove(entries, key), None) else (Remove(entries, key) + [e], Some(e.value))
  }

  function Set(entries: seq<Entry>, key: Key, value: Page, bytes: nat, now: int, limits: Limits): seq<Entry> {
    if bytes > limits.maxBytes then entries
    else Evict(Remove(entries, key) + [Entry(key, now + limits.ttl, bytes, value)], limits)
  }

  // ---------------------------------------------------------------------------------------------
  // Facts about the specification

  ghost predicate DistinctKeys(entries: seq<Entry>) {
    forall i, j :: 0 <= i < j < |entries| ==> entries[i].key != entries[j].key
  }

  lemma {:induction false} BytesConcat(a: seq<Entry>, b: seq<Entry>)
    ensures Bytes(a + b) == Bytes(a) + Bytes(b)
  {
    if a == [] {
      assert a + b == b;
    } else {
      assert (a + b)[1..] == a[1..] + b;
      BytesConcat(a[1..], b);
    }
  }

  lemma BytesAppend(rest: seq<Entry>, last: Entry)
    ensures Bytes(rest + [last]) == Bytes(rest) + last.bytes
  {
    BytesConcat(rest, [last]);
    assert [last][1..] == [];
  }

  /** Removal keeps exactly the other entries, in their order. */
  lemma {:induction false} RemoveMembers(entries: seq<Entry>, key: Key)
    requires DistinctKeys(entries)
    ensures forall e :: e in Remove(entries, key) <==> e in entries && e.key != key
    ensures DistinctKeys(Remove(entries, key))
  {
    if entries != [] {
      var rest := Remove(entries[1..], key);
      RemoveMembers(entries[1..], key);
      assert entries == [entries[0]] + entries[1..];
      forall i | 0 <= i < |rest| ensures rest[i].key != entries[0].key {
        assert rest[i] in entries[1..];
      }
    }
  }

  lemma {:induction false} LookupExact(entries: seq<Entry>, key: Key)
    ensures Lookup(entries, key).Some? ==> Lookup(entries, key).value in entries && Lookup(entries, key).value.key == key
    ensures Lookup(entries, key).None? ==> Remove(entries, key) == entries
  {
    if entries != [] {
      LookupExact(entries[1..], key);
      assert entries == [entries[0]] + entries[1..];
    }
  }

  lemma {:induction false} RemoveBytes(entries: seq<Entry>, key: Key)
    requires DistinctKeys(entries)
    ensures Bytes(Remove(entries, key)) == Bytes(entries) - match Lookup(entries, key) case Some(e) => e.bytes case None => 0
  {
    if entries != [] {
      RemoveBytes(entries[1..], key);
      if entries[0].key == key {
        LookupExact(entries[1..], key);
        var found := Lookup(entries[1..], key);
        assert found.None?;
        assert Remove(entries, key) == Remove(entries[1..], key);
      } else {
        BytesConcat([entries[0]], Remove(entries[1..], key));
      }
    }
  }

  lemma {:induction false} RemoveExact(entries: seq<Entry>, key: Key)
    requires DistinctKeys(entries)
    ensures DistinctKeys(Remove(entries, key))
    ensures forall e :: e in Remove(entries, key) <==> e in entries && e.key != key
    ensures Bytes(Remove(entries, key)) == Bytes(entries) - match Lookup(entries, key) case Some(e) => e.bytes case None => 0
    ensures Lookup(entries, key).None? ==> Remove(entries, key) == entries
    ensures Lookup(entries, key).Some? ==> Lookup(entries, key).value in entries && Lookup(entries, key).value.key == key
  {
    RemoveMembers(entries, key);
    RemoveBytes(entries, key);
    LookupExact(entries, key);
  }

  /** Eviction leaves a suffix that fits. */
  lemma {:induction false} EvictIsSuffix(entries: seq<Entry>, limits: Limits) returns (dropped: nat)
    ensures dropped <= |entries| && Evict(entries, limits) == entries[dropped..]
    ensures Fits(Evict(entries, limits), limits)
    // every longer suffix does not fit, so the survivors are the longest most recent run that does
    ensures forall k :: 0 <= k < dropped ==> !Fits(entries[k..], limits)
  {
    if Fits(entries, limits) || entries == [] {
      dropped := 0;
      assert entries[0..] == entries;
    } else {
      var rest := EvictIsSuffix(entries[1..], limits);
      dropped := rest + 1;
      forall k | 0 <= k < dropped ensures !Fits(entries[k..], limits) {
        if k == 0 { assert entries[0..] == entries; } else { assert entries[k..] == entries[1..][k - 1..]; }
      }
    }
  }

  /** A just stored entry survives its own eviction, at the recent end, when at least one entry is allowed. */
  lemma StoredSurvives(entries: seq<Entry>, key: Key, value: Page, bytes: nat, now: int, limits: Limits)
    requires bytes <= limits.maxBytes && limits.maxEntries >= 1
    ensures
      var after := Set(entries, key, value, bytes, now, limits);
      after != [] && after[|after| - 1] == Entry(key, now + limits.ttl, bytes, value)
  {
    var e := Entry(key, now + limits.ttl, bytes, value);
    var all := Remove(entries, key) + [e];
    var dropped := EvictIsSuffix(all, limits);
    assert all[|all| - 1..] == [e];
    assert [e][1..] == [];
    assert Fits([e], limits);
    assert dropped < |all|;
  }

  ghost predicate Sound(entries: seq<Entry>, limits: Limits) {
    DistinctKeys(entries) && Fits(entries, limits)
  }

  lemma {:induction false} EvictKeeps(entries: seq<Entry>, limits: Limits)
    requires DistinctKeys(entries)
    ensures DistinctKeys(Evict(entries, limits)) && Fits(Evict(entries, limits), limits)
    ensures forall e :: e in Evict(entries, limits) ==> e in entries
  {
    if !Fits(entries, limits) && entries != [] { EvictKeeps(entries[1..], limits); }
  }

  lemma SetKeeps(entries: seq<Entry>, key: Key, value: Page, bytes: nat, now: int, limits: Limits)
    requires DistinctKeys(entries)
    ensures DistinctKeys(Set(entries, key, value, bytes, now, limits))
    ensures Fits(entries, limits) || bytes <= limits.maxBytes ==> Fits(Set(entries, key, value, bytes, now, limits), limits)
    ensures forall e :: e in Set(entries, key, value, bytes, now, limits) ==>
      (e in entries && (e.key != key || bytes > limits.maxBytes)) ||
      (bytes <= limits.maxBytes && e == Entry(key, now + limits.ttl, bytes, value))
  {
    if bytes <= limits.maxBytes {
      var e := Entry(key, now + limits.ttl, bytes, value);
      RemoveMembers(entries, key);
      EvictKeeps(Remove(entries, key) + [e], limits);
    }
  }

  lemma GetKeeps(entries: seq<Entry>, key: Key, now: int)
    requires DistinctKeys(entries)
    ensures DistinctKeys(Get(entries, key, now).0)
    ensures |Get(entries, key, now).0| <= |entries| && Bytes(Get(entries, key, now).0) <= Bytes(entries)
    ensures forall e :: e in Get(entries, key, now).0 ==> e in entries
    ensures Get(entries, key, now).1.Some? ==> exists e :: e in entries && e.key == key && e.expiresAt > now && Get(entries, key, now).1 == Some(e.value)
  {
    RemoveExact(entries, key);
    RemoveLength(entries, key);
    if Lookup(entries, key).Some? {
      var e := Lookup(entries, key).value;
      BytesAppend(Remove(entries, key), e);
    }
  }

  lemma {:induction false} RemoveLength(entries: seq<Entry>, key: Key)
    ensures |Remove(entries, key)| <= |entries|
    ensures Lookup(entries, key).Some? ==> |Remove(entries, key)| < |entries|
  {
    if entries != [] { RemoveLength(entries[1..], key); }
  }

  // ---------------------------------------------------------------------------------------------
  // Histories

  datatype Op = DoGet(key: Key, now: int) | DoSet(key: Key, value: Page, bytes: nat, now: int)

  function Apply(entries: seq<Entry>, op: Op, limits: Limits): seq<Entry> {
    match op
    case DoGet(key, now) => Get(entries, key, now).0
    case DoSet(key, value, bytes, now) => Set(entries, key, value, bytes, now, limits)
  }

  function History(ops: seq<Op>, limits: Limits): seq<Entry> {
    if ops == [] then [] else Apply(History(ops[..|ops| - 1], limits), ops[|ops| - 1], limits)
  }

  /** The last value accepted for a key: an oversize value is ignored. */
  function LastAccepted(ops: seq<Op>, key: Key, limits: Limits): Option<Entry> {
    if ops == [] then None
    else
      var op := ops[|ops| - 1];
      if op.DoSet? && op.key == key && op.bytes <= limits.maxBytes
      then Some(Entry(key, op.now + limits.ttl, op.bytes, op.value))
      else LastAccepted(ops[..|ops| - 1], key, limits)
  }

  /** After every history both bounds hold, and each key holds nothing but its last accepted value. */
  lemma {:induction false} HistorySound(ops: seq<Op>, limits: Limits)
    ensures Sound(History(ops, limits), limits)
    ensures forall e :: e in History(ops, limits) ==> LastAccepted(ops, e.key, limits) == Some(e)
  {
    if ops != [] {
      var before := History(ops[..|ops| - 1], limits);
      HistorySound(ops[..|ops| - 1], limits);
      match ops[|ops| - 1]
      case DoGet(key, now) => GetKeeps(before, key, now);
      case DoSet(key, value, bytes, now) => SetKeeps(before, key, value, bytes, now, limits);
    }
  }

  /** A read returns only the last accepted value of its key, and only before it expires. */
  lemma ReadsLastAccepted(ops: seq<Op>, limits: Limits, key: Key, now: int)
    ensures
      var read := Get(History(ops, limits), key, now).1;
      var last := LastAccepted(ops, key, limits);
      read.Some? ==> last.Some? && last.value.value == read.value && last.value.expiresAt > now
  {
    HistorySound(ops, limits);
    GetKeeps(History(ops, limits), key, now);
  }

  /** Read your write: with room for one entry, the value just accepted is read back until it expires. */
  lemma ReadYourWrite(entries: seq<Entry>, key: Key, value: Page, bytes: nat, now: int, later: int, limits: Limits)
    requires DistinctKeys(entries) && bytes <= limits.maxBytes && limits.maxEntries >= 1
    ensures Get(Set(entries, key, value, bytes, now, limits), key, later).1 ==
            if later < now + limits.ttl then Some(value) else None
  {
    var after := Set(entries, key, value, bytes, now, limits);
    StoredSurvives(entries, key, value, bytes, now, limits);
    SetKeeps(entries, key, value, bytes, now, limits);
    LookupDistinct(after, |after| - 1);
  }

  lemma {:induction false} LookupDistinct(entries: seq<Entry>, i: nat)
    requires DistinctKeys(entries) && i < |entries|
    ensures Lookup(entries, entries[i].key) == Some(entries[i])
  {
    if i > 0 { LookupDistinct(entries[1..], i - 1); }
  }

  // ---------------------------------------------------------------------------------------------
  // The cache object

  class CorpusSearchCache {
    var entries: seq<Entry>
    var bytes: int
    const limits: Limits

    ghost predicate Valid()
      reads this
    {
      bytes == Bytes(entries) && Sound(entries, limits)
    }

    constructor (limits: Limits)
      ensures Valid() && entries == [] && this.limits == limits
    {
      entries, bytes, this.limits := [], 0, limits;
    }

    method Delete(key: Key, entry: Entry)
      modifies this
      ensures entries == Remove(old(entries), key) && bytes == old(bytes) - entry.bytes
    {
      entries := Remove(entries, key);
      bytes := bytes - entry.bytes;
    }

    method Read(key: Key, now: int) returns (value: Option<Page>)
      requires Valid()
      modifies this
      ensures Valid() && (entries, value) == Get(old(entries), key, now)
    {
      GetKeeps(entries, key, now);
      RemoveExact(entries, key);
      var found := Lookup(entries, key);
      if found.None? {
        return None;
      }
      if found.value.expiresAt <= now {
        Delete(key, found.value);
        return None;
      }
      BytesAppend(Remove(entries, key), found.value);
      entries := Remove(entries, key) + [found.value];
      value := Some(found.value.value);
    }

    /** Drops the key's previous entry, if any, and appends the new one at the recent end. */
    method Replace(entry: Entry)
      requires bytes == Bytes(entries) && DistinctKeys(entries)
      modifies this
      ensures entries == Remove(old(entries), entry.key) + [entry] && bytes == Bytes(entries)
    {
      RemoveBytes(entries, entry.key);
      LookupExact(entries, entry.key);
      var previous := Lookup(entries, entry.key);
      if previous.Some? {
        Delete(entry.key, previous.value);
      }
      BytesAppend(entries, entry);
      entries := entries + [entry];
      bytes := bytes + entry.bytes;
    }

    method Write(key: Key, value: Page, size: nat, now: int)
      requires Valid()
      modifies this
      ensures Valid() && entries == Set(old(entries), key, value, size, now, limits)
    {
      if size > limits.maxBytes {
        return;
      }
      SetKeeps(entries, key, value, size, now, limits);
      Replace(Entry(key, now + limits.ttl, size, value));
      EvictOldest();
    }

    method EvictOldest()
      requires bytes == Bytes(entries)
      modifies this
      ensures entries == Evict(old(entries), limits) && bytes == Bytes(entries)
    {
      while |entries| > limits.maxEntries || bytes > limits.maxBytes
        invariant bytes == Bytes(entries)
        invariant Evict(entries, limits) == Evict(old(entries), limits)
        decreases |entries|
      {
        if entries == [] {
          break;
        }
        bytes := bytes - entries[0].bytes;
        entries := entries[1..];
      }
    }
  }
}

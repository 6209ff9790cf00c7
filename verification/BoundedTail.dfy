/** The byte-bounded tail of streamed text. */
module BoundedTail {
  import opened Unicode

  // ---------------------------------------------------------------------------------------------
  // Reference: the longest whole-character suffix within the limit

  function Width(c: Scalar): (r: nat)
    ensures r == |Bytes(c)|
  {
    if c < 0x80 then 1 else if c < 0x800 then 2 else if c < 0x1_0000 then 3 else 4
  }

  function Weight(cs: seq<Scalar>): nat {
    if cs == [] then 0 else Width(cs[0]) + Weight(cs[1..])
  }

  function LongestSuffix(cs: seq<Scalar>, limit: nat): seq<Scalar> {
    if cs == [] || Weight(cs) <= limit then cs else LongestSuffix(cs[1..], limit)
  }

  lemma {:induction false} WeightIsLength(cs: seq<Scalar>)
    ensures |Utf8(cs)| == Weight(cs)
    ensures |cs| <= |Utf16(cs)| <= Weight(cs)
  {
    if cs != [] { WeightIsLength(cs[1..]); }
  }

  lemma {:induction false} WeightConcat(a: seq<Scalar>, b: seq<Scalar>)
    ensures Weight(a + b) == Weight(a) + Weight(b)
  {
    if a == [] {
      assert a + b == b;
    } else {
      assert (a + b)[1..] == a[1..] + b;
      WeightConcat(a[1..], b);
    }
  }

  /** It is a suffix within the limit, and no longer suffix is. */
  lemma {:induction false} LongestSuffixIsLongest(cs: seq<Scalar>, limit: nat) returns (k: nat)
    ensures k <= |cs| && LongestSuffix(cs, limit) == cs[k..] && Weight(cs[k..]) <= limit
    ensures forall j :: 0 <= j < k ==> Weight(cs[j..]) > limit
  {
    if cs == [] || Weight(cs) <= limit {
      k := 0;
      assert cs[0..] == cs;
    } else {
      var rest := LongestSuffixIsLongest(cs[1..], limit);
      k := rest + 1;
      forall j | 0 <= j < k ensures Weight(cs[j..]) > limit {
        if j == 0 { assert cs[0..] == cs; } else { assert cs[j..] == cs[1..][j - 1..]; }
      }
    }
  }

  /** Dropping characters that are over the limit anyway does not change the answer. */
  lemma {:induction false} DropOver(cs: seq<Scalar>, k: nat, limit: nat)
    requires k <= |cs| && forall j :: 0 <= j < k ==> Weight(cs[j..]) > limit
    ensures LongestSuffix(cs, limit) == LongestSuffix(cs[k..], limit)
  {
    if k == 0 {
      assert cs[0..] == cs;
    } else {
      assert cs[0..] == cs;
      forall j | 0 <= j < k - 1 ensures Weight(cs[1..][j..]) > limit { assert cs[1..][j..] == cs[j + 1..]; }
      DropOver(cs[1..], k - 1, limit);
      assert cs[1..][k - 1..] == cs[k..];
    }
  }

  lemma {:induction false} WeightFalls(cs: seq<Scalar>, j: nat, k: nat)
    requires j <= k <= |cs|
    ensures Weight(cs[j..]) >= Weight(cs[k..]) + (k - j)
    decreases k - j
  {
    if j < k {
      assert cs[j..][1..] == cs[j + 1..];
      WeightFalls(cs, j + 1, k);
    }
  }

  /** Keeping only the tail of what came before does not change the tail of the whole. */
  lemma {:induction false} TailOfTail(a: seq<Scalar>, b: seq<Scalar>, limit: nat)
    ensures LongestSuffix(LongestSuffix(a, limit) + b, limit) == LongestSuffix(a + b, limit)
  {
    if a != [] && Weight(a) > limit {
      WeightConcat(a, b);
      assert (a + b)[1..] == a[1..] + b;
      TailOfTail(a[1..], b, limit);
    }
  }

  // ---------------------------------------------------------------------------------------------
  // The program

  /** JavaScript's slice(-limit): a zero limit slices nothing off. */
  function Slice(s: seq<Unit>, limit: nat): seq<Unit>
    requires limit < |s|
  {
    if limit == 0 then s else s[|s| - limit..]
  }

  /** Drops the continuation bytes at the front. */
  function FromBoundary(b: seq<Byte>): seq<Byte> {
    if b != [] && IsContinuation(b[0]) then FromBoundary(b[1..]) else b
  }

  function Trim(b: seq<Byte>, limit: nat): seq<Byte> {
    if |b| <= limit then b else FromBoundary(b[|b| - limit..])
  }

  function Shortened(s: seq<Unit>, limit: nat): seq<Unit> {
    if |Utf8(Scalars(s))| > limit && |s| > limit then Slice(s, limit) else s
  }

  function AppendTail(current: seq<Unit>, chunk: seq<Unit>, limit: nat): seq<Unit> {
    Utf16(Decode(Trim(Utf8(Scalars(Shortened(current + chunk, limit))), limit)))
  }

  /** Cuts the bytes at the limit, then at the next byte that starts a character. */
  method CutAtBoundary(bytes: seq<Byte>, limit: nat) returns (r: seq<Byte>)
    requires limit < |bytes|
    ensures r == Trim(bytes, limit)
  {
    var start := |bytes| - limit;
    while start < |bytes| && IsContinuation(bytes[start])
      invariant |bytes| - limit <= start <= |bytes|
      invariant FromBoundary(bytes[start..]) == FromBoundary(bytes[|bytes| - limit..])
    {
      assert bytes[start..][1..] == bytes[start + 1..];
      start := start + 1;
    }
    r := bytes[start..];
  }

  method AppendBoundedTail(current: seq<Unit>, chunk: seq<Unit>, limit: nat) returns (r: seq<Unit>)
    ensures r == AppendTail(current, chunk, limit)
  {
    var combined := current + chunk;
    if |Utf8(Scalars(combined))| > limit && |combined| > limit {
      combined := Slice(combined, limit);
    }
    var bytes := Utf8(Scalars(combined));
    if |bytes| > limit {
      bytes := CutAtBoundary(bytes, limit);
    }
    r := Utf16(Decode(bytes));
  }

  // ---------------------------------------------------------------------------------------------
  // Trimming bytes lands on a character boundary

  lemma {:induction false} ContinuationsAreDropped(b: seq<Byte>, rest: seq<Byte>)
    requires forall i :: 0 <= i < |b| ==> IsContinuation(b[i])
    requires rest == [] || !IsContinuation(rest[0])
    ensures FromBoundary(b + rest) == rest
  {
    if b == [] {
      assert b + rest == rest;
    } else {
      assert (b + rest)[1..] == b[1..] + rest;
      ContinuationsAreDropped(b[1..], rest);
    }
  }

  /** A cut within the first character skips to the second. */
  lemma TrimFirst(c: Scalar, rest: seq<Byte>, limit: nat)
    requires |rest| <= limit < |Bytes(c)| + |rest| && (rest == [] || !IsContinuation(rest[0]))
    ensures Trim(Bytes(c) + rest, limit) == rest
  {
    var head := Bytes(c);
    var at := |head| + |rest| - limit;
    ContinuationsAreDropped(head[at..], rest);
    assert (head + rest)[at..] == head[at..] + rest;
  }

  /** A cut beyond the first character is a cut of the rest. */
  lemma TrimBeyond(head: seq<Byte>, rest: seq<Byte>, limit: nat)
    requires limit < |rest|
    ensures Trim(head + rest, limit) == Trim(rest, limit)
  {
    var at := |rest| - limit;
    assert (head + rest)[|head| + at..] == rest[at..];
  }

  /** Cutting the bytes at the limit and skipping to a boundary leaves the longest suffix. */
  lemma {:induction false} TrimIsLongestSuffix(cs: seq<Scalar>, limit: nat)
    ensures Trim(Utf8(cs), limit) == Utf8(LongestSuffix(cs, limit))
  {
    WeightIsLength(cs);
    if Weight(cs) > limit {
      var rest := Utf8(cs[1..]);
      WeightIsLength(cs[1..]);
      TrimIsLongestSuffix(cs[1..], limit);
      if |rest| <= limit {
        TrimFirst(cs[0], rest, limit);
      } else {
        TrimBeyond(Bytes(cs[0]), rest, limit);
      }
    }
  }

  // ---------------------------------------------------------------------------------------------
  // The early slice on UTF-16 units

  /** Cutting units falls between characters, or through a surrogate pair. */
  lemma {:induction false} CutUnits(cs: seq<Scalar>, n: nat) returns (k: nat, split: bool)
    requires n <= |Utf16(cs)|
    ensures split ==> k < |cs| && IsLow(Units(cs[k])[|Units(cs[k])| - 1]) && |Units(cs[k])| == 2
    ensures split ==> Utf16(cs)[n..] == [Units(cs[k])[1]] + Utf16(cs[k + 1..])
    ensures !split ==> k <= |cs| && Utf16(cs)[n..] == Utf16(cs[k..])
  {
    if n == 0 {
      k, split := 0, false;
      assert cs[0..] == cs;
    } else {
      var head := Units(cs[0]);
      var rest := Utf16(cs[1..]);
      if n < |head| {
        k, split := 0, true;
        assert Utf16(cs)[1..] == [head[1]] + rest;
      } else {
        var k', split' := CutUnits(cs[1..], n - |head|);
        k, split := k' + 1, split';
        assert Utf16(cs)[n..] == rest[n - |head|..];
        assert cs[1..][k'..] == cs[k..];
        if split { assert cs[1..][k' + 1..] == cs[k + 1..] && cs[1..][k'] == cs[k]; }
      }
    }
  }

  lemma LoneLowReadsAsReplacement(u: Unit, rest: seq<Scalar>)
    requires IsLow(u)
    ensures Scalars([u] + Utf16(rest)) == [REPLACEMENT] + rest
  {
    Utf16RoundTrip(rest);
    assert ([u] + Utf16(rest))[1..] == Utf16(rest);
  }

  /** What begins at k weighs at least the limit, so every earlier suffix is over it. */
  lemma EarlierIsOver(cs: seq<Scalar>, k: nat, limit: nat)
    requires k <= |cs| && Weight(cs[k..]) >= limit
    ensures LongestSuffix(cs, limit) == LongestSuffix(cs[k..], limit)
  {
    forall j | 0 <= j < k ensures Weight(cs[j..]) > limit { WeightFalls(cs, j, k); }
    DropOver(cs, k, limit);
  }

  /** A split pair counts four bytes and its replacement three, so neither fits before the rest. */
  lemma SplitIsOver(cs: seq<Scalar>, k: nat, limit: nat)
    requires k < |cs| && |Units(cs[k])| == 2 && Weight(cs[k + 1..]) + 1 >= limit
    ensures LongestSuffix(cs, limit) == LongestSuffix([REPLACEMENT] + cs[k + 1..], limit)
  {
    var rest := cs[k + 1..];
    assert cs[k..] == [cs[k]] + rest;
    assert Weight(cs[k..]) == Width(cs[k]) + Weight(rest);
    EarlierIsOver(cs, k, limit);
  }

  /** The sliced string has the same longest suffix, even when the slice splits a surrogate pair. */
  lemma {:induction false} SliceKeepsTail(cs: seq<Scalar>, limit: nat)
    requires limit < |Utf16(cs)|
    ensures LongestSuffix(Scalars(Slice(Utf16(cs), limit)), limit) == LongestSuffix(cs, limit)
  {
    Utf16RoundTrip(cs);
    if limit > 0 {
      var k, split := CutUnits(cs, |Utf16(cs)| - limit);
      if !split {
        Utf16RoundTrip(cs[k..]);
        WeightIsLength(cs[k..]);
        EarlierIsOver(cs, k, limit);
      } else {
        LoneLowReadsAsReplacement(Units(cs[k])[1], cs[k + 1..]);
        WeightIsLength(cs[k + 1..]);
        SplitIsOver(cs, k, limit);
      }
    }
  }

  /**
   On well-formed text the program returns exactly the longest whole-character suffix within the
   limit; the early slice never changes the answer.
   */
  lemma AppendTailIsLongestSuffix(a: seq<Scalar>, b: seq<Scalar>, limit: nat)
    ensures AppendTail(Utf16(a), Utf16(b), limit) == Utf16(LongestSuffix(a + b, limit))
  {
    var s := Utf16(a + b);
    Utf16Concat(a, b);
    Utf16RoundTrip(a + b);
    var kept := Scalars(Shortened(s, limit));
    assert LongestSuffix(kept, limit) == LongestSuffix(a + b, limit) by {
      if |s| > limit { SliceKeepsTail(a + b, limit); }
    }
    TrimIsLongestSuffix(kept, limit);
    Utf8RoundTrip(LongestSuffix(kept, limit));
  }

  // ---------------------------------------------------------------------------------------------
  // Streaming

  function Flatten(chunks: seq<seq<Scalar>>): seq<Scalar> {
    if chunks == [] then [] else Flatten(chunks[..|chunks| - 1]) + chunks[|chunks| - 1]
  }

  function Fold(chunks: seq<seq<Scalar>>, limit: nat): seq<Unit> {
    if chunks == [] then [] else AppendTail(Fold(chunks[..|chunks| - 1], limit), Utf16(chunks[|chunks| - 1]), limit)
  }

  lemma {:induction false} FoldIsTail(chunks: seq<seq<Scalar>>, limit: nat)
    ensures Fold(chunks, limit) == Utf16(LongestSuffix(Flatten(chunks), limit))
  {
    if chunks != [] {
      var init, last := chunks[..|chunks| - 1], chunks[|chunks| - 1];
      FoldIsTail(init, limit);
      AppendTailIsLongestSuffix(LongestSuffix(Flatten(init), limit), last, limit);
      TailOfTail(Flatten(init), last, limit);
    }
  }

  /** Any way of cutting the same text into chunks gives the answer of one call on the whole text. */
  lemma {:induction false} ChunkingDoesNotMatter(chunks: seq<seq<Scalar>>, limit: nat)
    ensures Fold(chunks, limit) == AppendTail([], Utf16(Flatten(chunks)), limit)
  {
    FoldIsTail(chunks, limit);
    AppendTailIsLongestSuffix([], Flatten(chunks), limit);
    assert [] + Flatten(chunks) == Flatten(chunks);
  }
}

/** One page of a ranked search under a result count and a token budget, and the cursor that leads to the next. */
module SearchPages {
  import opened Prelude
  import opened Corpus

  /** What a request and its caller contribute to the cache key. */
  datatype Fingerprint = Fingerprint(principal: string, query: string, topK: nat, tokenBudget: nat, policy: string)

  datatype Cursor = Cursor(version: int, offset: int, fingerprint: Fingerprint, epoch: int)

  datatype Ranked = Ranked(hit: Hit, tokens: nat)

  datatype Page = Page(results: seq<Hit>, next: Option<Cursor>, exhausted: bool, truncated: bool)

  // ---------------------------------------------------------------------------------------------
  // Cursors

  function EncodeCursor(offset: nat, fingerprint: Fingerprint, epoch: nat): Cursor {
    Cursor(1, offset, fingerprint, epoch)
  }

  /** None stands for the invalid-cursor error. */
  function DecodeCursor(cursor: Option<Cursor>, fingerprint: Fingerprint, epoch: nat): Option<nat> {
    if cursor.None? then Some(0)
    else
      var c := cursor.value;
      if c.version != 1 || c.offset < 0 || c.fingerprint != fingerprint || c.epoch != epoch then None
      else Some(c.offset)
  }

  // ---------------------------------------------------------------------------------------------
  // One page

  /** How many of the first `slots` entries fit the budget, stopping at the first that does not. */
  function Fill(ranked: seq<Ranked>, slots: nat, budget: int): (n: nat)
    ensures n <= slots && n <= |ranked|
  {
    if slots == 0 || ranked == [] || ranked[0].tokens > budget then 0
    else 1 + Fill(ranked[1..], slots - 1, budget - ranked[0].tokens)
  }

  function Hits(ranked: seq<Ranked>): seq<Hit> {
    seq(|ranked|, i requires 0 <= i < |ranked| => ranked[i].hit)
  }

  function Tokens(ranked: seq<Ranked>): nat {
    if ranked == [] then 0 else ranked[0].tokens + Tokens(ranked[1..])
  }

  function From(ranked: seq<Ranked>, offset: nat): seq<Ranked> {
    if offset <= |ranked| then ranked[offset..] else []
  }

  /** The response of a search at an offset of a ranking. */
  function PageAt(ranked: seq<Ranked>, offset: nat, fingerprint: Fingerprint, epoch: nat): Page {
    var rest := From(ranked, offset);
    var n := Fill(rest, fingerprint.topK, fingerprint.tokenBudget);
    var exhausted := offset + n >= |ranked| || n == 0;
    Page(Hits(rest[..n]),
         if exhausted then None else Some(EncodeCursor(offset + n, fingerprint, epoch)),
         exhausted,
         n < fingerprint.topK && n < |rest|)
  }

  /** The token loop of a search. */
  method FillPage(rest: seq<Ranked>, topK: nat, budget: nat) returns (results: seq<Hit>, truncated: bool)
    ensures
      var n := Fill(rest, topK, budget);
      results == Hits(rest[..n]) && (truncated <==> n < topK && n < |rest|)
  {
    results, truncated := [], false;
    var tokens := 0;
    var n := 0;
    while n < topK && n < |rest|
      invariant 0 <= n <= topK && n <= |rest| && !truncated
      invariant results == Hits(rest[..n])
      invariant Fill(rest, topK, budget) == n + Fill(rest[n..], topK - n, budget - tokens)
    {
      assert rest[n..][1..] == rest[n + 1..];
      if tokens + rest[n].tokens > budget {
        truncated := true;
        break;
      }
      tokens := tokens + rest[n].tokens;
      results := results + [rest[n].hit];
      n := n + 1;
    }
  }

  method BuildPage(ranked: seq<Ranked>, offset: nat, fingerprint: Fingerprint, epoch: nat) returns (page: Page)
    ensures page == PageAt(ranked, offset, fingerprint, epoch)
  {
    var results, truncated := FillPage(From(ranked, offset), fingerprint.topK, fingerprint.tokenBudget);
    var nextOffset := offset + |results|;
    var exhausted := nextOffset >= |ranked| || |results| == 0;
    page := Page(results, if exhausted then None else Some(EncodeCursor(nextOffset, fingerprint, epoch)), exhausted, truncated);
  }

  lemma {:induction false} FillBounds(ranked: seq<Ranked>, slots: nat, budget: int)
    requires budget >= 0
    ensures Tokens(ranked[..Fill(ranked, slots, budget)]) <= budget
    ensures
      var n := Fill(ranked, slots, budget);
      n < slots && n < |ranked| ==> Tokens(ranked[..n]) + ranked[n].tokens > budget
    ensures Fill(ranked, slots, budget) == 0 <==> slots == 0 || ranked == [] || ranked[0].tokens > budget
  {
    if slots != 0 && ranked != [] && ranked[0].tokens <= budget {
      var n := Fill(ranked[1..], slots - 1, budget - ranked[0].tokens);
      FillBounds(ranked[1..], slots - 1, budget - ranked[0].tokens);
      assert ranked[..n + 1][1..] == ranked[1..][..n];
    }
  }

  /** A page is within both limits, and a short page is short only because its next entry would break the budget. */
  lemma PageWithinLimits(ranked: seq<Ranked>, offset: nat, fingerprint: Fingerprint, epoch: nat)
    requires offset <= |ranked|
    ensures
      var page := PageAt(ranked, offset, fingerprint, epoch);
      var n := |page.results|;
      && n <= fingerprint.topK && offset + n <= |ranked|
      && page.results == Hits(ranked[offset..offset + n])
      && Tokens(ranked[offset..offset + n]) <= fingerprint.tokenBudget
      && (page.truncated <==> n < fingerprint.topK && offset + n < |ranked|)
      && (page.truncated ==> Tokens(ranked[offset..offset + n]) + ranked[offset + n].tokens > fingerprint.tokenBudget)
  {
    var rest := ranked[offset..];
    var n := Fill(rest, fingerprint.topK, fingerprint.tokenBudget);
    FillBounds(rest, fingerprint.topK, fingerprint.tokenBudget);
    assert rest[..n] == ranked[offset..offset + n];
  }

  // ---------------------------------------------------------------------------------------------
  // Following cursors

  /** All results from an offset on, following each page's cursor against the same ranking and epoch. */
  function Walk(ranked: seq<Ranked>, cursor: Option<Cursor>, fingerprint: Fingerprint, epoch: nat): seq<Hit>
    decreases |ranked| - match DecodeCursor(cursor, fingerprint, epoch) case Some(o) => o case None => |ranked|
  {
    match DecodeCursor(cursor, fingerprint, epoch)
    case None => []
    case Some(offset) =>
      var page := PageAt(ranked, offset, fingerprint, epoch);
      if page.next.None? then page.results else page.results + Walk(ranked, page.next, fingerprint, epoch)
  }

  /** Where paging stops: at the first entry from `offset` on that alone exceeds the budget, or at the end. */
  function StopAt(ranked: seq<Ranked>, offset: nat, budget: nat): (r: nat)
    requires offset <= |ranked|
    ensures offset <= r <= |ranked|
    ensures forall i :: offset <= i < r ==> ranked[i].tokens <= budget
    ensures r < |ranked| ==> ranked[r].tokens > budget
    decreases |ranked| - offset
  {
    if offset == |ranked| || ranked[offset].tokens > budget then offset else StopAt(ranked, offset + 1, budget)
  }

  lemma {:induction false} FilledFit(ranked: seq<Ranked>, slots: nat, budget: int, whole: int)
    requires budget <= whole
    ensures forall i :: 0 <= i < Fill(ranked, slots, budget) ==> ranked[i].tokens <= whole
  {
    if slots != 0 && ranked != [] && ranked[0].tokens <= budget {
      FilledFit(ranked[1..], slots - 1, budget - ranked[0].tokens, whole);
      forall i | 0 <= i < Fill(ranked, slots, budget) ensures ranked[i].tokens <= whole {
        if i > 0 { assert ranked[i] == ranked[1..][i - 1]; }
      }
    }
  }

  lemma HitsConcat(ranked: seq<Ranked>, lo: nat, mid: nat, hi: nat)
    requires lo <= mid <= hi <= |ranked|
    ensures Hits(ranked[lo..mid]) + Hits(ranked[mid..hi]) == Hits(ranked[lo..hi])
  {
  }

  /** A page takes entries up to a common stopping point, and takes none only when it is there. */
  lemma FillAdvances(ranked: seq<Ranked>, offset: nat, topK: nat, budget: nat)
    requires topK >= 1 && offset <= |ranked|
    ensures
      var after := offset + Fill(ranked[offset..], topK, budget);
      var stop := StopAt(ranked, offset, budget);
      after <= |ranked| && StopAt(ranked, after, budget) == stop && (after == offset ==> stop == offset)
  {
    var rest := ranked[offset..];
    var after := offset + Fill(rest, topK, budget);
    FillBounds(rest, topK, budget);
    FilledFit(rest, topK, budget, budget);
    forall i | offset <= i < after ensures ranked[i].tokens <= budget {
      assert ranked[i] == rest[i - offset];
    }
    assert offset < |ranked| ==> ranked[offset] == rest[0];
  }

  /** A page is the next stretch of the ranking, and its cursor leads to where the stretch ends. */
  lemma PageAdvances(ranked: seq<Ranked>, offset: nat, fingerprint: Fingerprint, epoch: nat) returns (after: nat)
    requires fingerprint.topK >= 1 && offset <= |ranked|
    ensures offset <= after <= |ranked|
    ensures PageAt(ranked, offset, fingerprint, epoch).results == Hits(ranked[offset..after])
    ensures PageAt(ranked, offset, fingerprint, epoch).next ==
            if after == |ranked| || after == offset then None else Some(EncodeCursor(after, fingerprint, epoch))
    ensures StopAt(ranked, after, fingerprint.tokenBudget) == StopAt(ranked, offset, fingerprint.tokenBudget)
    ensures after == offset ==> StopAt(ranked, offset, fingerprint.tokenBudget) == offset
  {
    var n := Fill(ranked[offset..], fingerprint.topK, fingerprint.tokenBudget);
    after := offset + n;
    FillAdvances(ranked, offset, fingerprint.topK, fingerprint.tokenBudget);
    assert ranked[offset..][..n] == ranked[offset..after];
  }

  /** From any page on, the pages concatenate to one consecutive stretch of the ranking, without gap or overlap. */
  lemma {:induction false} WalkFrom(ranked: seq<Ranked>, cursor: Option<Cursor>, offset: nat, fingerprint: Fingerprint, epoch: nat)
    requires fingerprint.topK >= 1 && DecodeCursor(cursor, fingerprint, epoch) == Some(offset) && offset <= |ranked|
    ensures Walk(ranked, cursor, fingerprint, epoch) == Hits(ranked[offset..StopAt(ranked, offset, fingerprint.tokenBudget)])
    decreases |ranked| - offset
  {
    var after := PageAdvances(ranked, offset, fingerprint, epoch);
    var stop := StopAt(ranked, after, fingerprint.tokenBudget);
    if after != |ranked| && after != offset {
      WalkFrom(ranked, Some(EncodeCursor(after, fingerprint, epoch)), after, fingerprint, epoch);
      HitsConcat(ranked, offset, after, stop);
    }
  }

  /** Following cursors yields the ranking up to its first over-budget entry: all of it exactly when every entry fits. */
  lemma WalkIsTheRanking(ranked: seq<Ranked>, fingerprint: Fingerprint, epoch: nat)
    requires fingerprint.topK >= 1
    ensures Walk(ranked, None, fingerprint, epoch) == Hits(ranked[..StopAt(ranked, 0, fingerprint.tokenBudget)])
    ensures Walk(ranked, None, fingerprint, epoch) == Hits(ranked) <==>
            forall i :: 0 <= i < |ranked| ==> ranked[i].tokens <= fingerprint.tokenBudget
  {
    WalkFrom(ranked, None, 0, fingerprint, epoch);
    var stop := StopAt(ranked, 0, fingerprint.tokenBudget);
    assert ranked[0..stop] == ranked[..stop];
    if stop == |ranked| {
      assert ranked[..stop] == ranked;
    } else {
      assert |Hits(ranked[..stop])| < |Hits(ranked)|;
    }
  }
}

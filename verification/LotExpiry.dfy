/**
 When a lot expires, after purchases and reversals of its payment reference in any order: the upsert
 lets the last delivered expiry win, so here the order can matter.
 */
module LotExpiry {
  import opened Prelude
  import opened Ledger
  import opened LedgerRuns
  import opened Convergence

  function HolderOf(lots: seq<Lot>, reference: string): Option<nat> {
    Find(lots, (l: Lot) => l.reference == Some(reference))
  }

  /** The expiry of the lot that carries the payment reference; None also when there is no such lot. */
  function ExpiryAt(lots: seq<Lot>, reference: string): Option<int> {
    match HolderOf(lots, reference) case None => None case Some(i) => lots[i].expiresAt
  }

  /** The expiry a notice sets for a payment reference, if it sets one. */
  function Sets(n: Notice, reference: string): Option<int> {
    if n.DoCreateLot? && RefOf(n) == reference then n.lot.expiresAt else None
  }

  function Revised(expiry: Option<int>, n: Notice, reference: string): Option<int> {
    if Sets(n, reference).Some? then Sets(n, reference) else expiry
  }

  function RevisedAll(expiry: Option<int>, notices: seq<Notice>, reference: string): Option<int>
    decreases |notices|
  {
    if notices == [] then expiry else RevisedAll(Revised(expiry, notices[0], reference), notices[1..], reference)
  }

  // ---------------------------------------------------------------------------------------------
  // The lot's expiry is the last one set

  lemma AppendedHolder(lots: seq<Lot>, l: Lot, reference: string)
    ensures ExpiryAt(lots + [l], reference) ==
            if HolderOf(lots, reference).None? && l.reference == Some(reference) then l.expiresAt else ExpiryAt(lots, reference)
  {
    var all := lots + [l];
    assert forall i :: 0 <= i < |lots| ==> all[i] == lots[i];
    assert all[|lots|] == l;
    var found, before := HolderOf(all, reference), HolderOf(lots, reference);
    if before.Some? { assert all[before.value].reference == Some(reference) && found == before; }
  }

  lemma PurchaseRevises(b: Books, n: Notice, reference: string)
    requires n.DoCreateLot? && forall i :: 0 <= i < |b.lots| ==> Fits(b.lots[i], n)
    ensures ExpiryAt(Step(b, n).lots, reference) == Revised(ExpiryAt(b.lots, reference), n, reference)
  {
    var input := n.lot;
    var conflict := Find(b.lots, (l: Lot) => l.kind == Paid && l.reference == input.reference);
    if conflict.Some? {
      var row := b.lots[conflict.value].(
        credits := Max(b.lots[conflict.value].credits, input.credits),
        cash := Max(b.lots[conflict.value].cash, input.cash),
        expiresAt := if input.expiresAt.Some? then input.expiresAt else b.lots[conflict.value].expiresAt);
      assert UpsertLot(b.lots, input) == Some(b.lots[conflict.value := row]);
      UpdatedHolder(b.lots, conflict.value, row, n, reference);
    } else {
      assert UpsertLot(b.lots, input).Some?;
      AppendedHolder(b.lots, UpsertLot(b.lots, input).value[|b.lots|], reference);
    }
  }

  lemma UpdatedHolder(lots: seq<Lot>, at: nat, row: Lot, n: Notice, reference: string)
    requires at < |lots| && row.reference == lots[at].reference == Some(RefOf(n)) && lots[at].kind == Paid
    requires forall i :: 0 <= i < |lots| ==> Fits(lots[i], n)
    requires forall i :: 0 <= i < at ==> !(lots[i].kind == Paid && lots[i].reference == Some(RefOf(n)))
    ensures ExpiryAt(lots[at := row], reference) == if reference == RefOf(n) then row.expiresAt else ExpiryAt(lots, reference)
    ensures reference == RefOf(n) ==> ExpiryAt(lots, reference) == lots[at].expiresAt
  {
    var after := lots[at := row];
    assert forall i :: 0 <= i < |lots| ==> after[i].reference == lots[i].reference;
    assert HolderOf(after, reference) == HolderOf(lots, reference);
    if reference == RefOf(n) {
      forall i | 0 <= i < at ensures lots[i].reference != Some(reference) { assert Fits(lots[i], n); }
      assert HolderOf(lots, reference) == Some(at);
    }
  }

  lemma ReversalRevises(b: Books, n: Notice, reference: string)
    requires n.DoLifecycle? && forall i :: 0 <= i < |b.lots| ==> Fits(b.lots[i], n)
    ensures ExpiryAt(Step(b, n).lots, reference) == Revised(ExpiryAt(b.lots, reference), n, reference)
  {
    ReversalDelivers(b, n);
    var after := Step(b, n).lots;
    if |after| > |b.lots| {
      assert after == b.lots + [Placeholder(n.lifecycle)];
      AppendedHolder(b.lots, Placeholder(n.lifecycle), reference);
    }
  }

  /** After any run of notices the lot's expiry is the last one set for its payment reference, or what it was. */
  lemma {:induction false} ExpiryIsLastSet(b: Books, delivered: seq<Notice>, notices: seq<Notice>, reference: string)
    requires Ready(b.lots, notices) && forall i :: 0 <= i < |delivered| ==> delivered[i] in notices
    ensures ExpiryAt(Run(b, delivered).lots, reference) == RevisedAll(ExpiryAt(b.lots, reference), delivered, reference)
    decreases |delivered|
  {
    if delivered != [] {
      var n := delivered[0];
      assert n in notices;
      var k :| 0 <= k < |notices| && notices[k] == n;
      forall i | 0 <= i < |b.lots| ensures Fits(b.lots[i], n) { assert Fits(b.lots[i], notices[k]); }
      var b' := Step(b, n);
      if n.DoCreateLot? {
        PurchaseDelivers(b, n);
        PurchaseRevises(b, n, reference);
      } else {
        ReversalDelivers(b, n);
        ReversalRevises(b, n, reference);
      }
      DeliveryStaysReady(b.lots, b'.lots, notices, k);
      ExpiryIsLastSet(b', delivered[1..], notices, reference);
    }
  }

  // ---------------------------------------------------------------------------------------------
  // When the order matters

  /** All expiries that the notices set for the payment reference are equal. */
  ghost predicate OneExpiry(notices: seq<Notice>, reference: string) {
    forall m, n :: m in notices && n in notices && Sets(m, reference).Some? && Sets(n, reference).Some? ==>
      Sets(m, reference) == Sets(n, reference)
  }

  ghost predicate SetsAny(notices: seq<Notice>, reference: string) {
    exists n :: n in notices && Sets(n, reference).Some?
  }

  lemma {:induction false} RevisedToOne(expiry: Option<int>, notices: seq<Notice>, reference: string)
    ensures !SetsAny(notices, reference) ==> RevisedAll(expiry, notices, reference) == expiry
    ensures SetsAny(notices, reference) ==>
      exists n :: n in notices && Sets(n, reference).Some? && RevisedAll(expiry, notices, reference) == Sets(n, reference)
    decreases |notices|
  {
    if notices != [] {
      assert notices == [notices[0]] + notices[1..];
      RevisedToOne(Revised(expiry, notices[0], reference), notices[1..], reference);
    }
  }

  lemma {:induction false} LastSetWins(expiry: Option<int>, notices: seq<Notice>, n: Notice, reference: string)
    requires Sets(n, reference).Some?
    ensures RevisedAll(expiry, notices + [n], reference) == Sets(n, reference)
    decreases |notices|
  {
    if notices == [] {
      assert notices + [n] == [n] && [n][1..] == [];
      assert RevisedAll(Sets(n, reference), [], reference) == Sets(n, reference);
    } else {
      assert (notices + [n])[1..] == notices[1..] + [n];
      LastSetWins(Revised(expiry, notices[0], reference), notices[1..], n, reference);
    }
  }

  /** Every delivery of the same notices leaves the lot with the same expiry. */
  ghost predicate ExpiryConverges(b: Books, notices: seq<Notice>, reference: string) {
    forall other: seq<Notice> :: SameDelivery(notices, other) ==>
      ExpiryAt(Run(b, other).lots, reference) == ExpiryAt(Run(b, notices).lots, reference)
  }

  lemma ExpiryOf(b: Books, notices: seq<Notice>, other: seq<Notice>, reference: string)
    requires Ready(b.lots, notices) && SameDelivery(notices, other)
    ensures ExpiryAt(Run(b, other).lots, reference) == RevisedAll(ExpiryAt(b.lots, reference), other, reference)
  {
    SameDeliveryReady(b.lots, notices, other);
    ExpiryIsLastSet(b, other, other, reference);
  }

  /** Every notice of one delivery has its counterpart in the other, which sets the same expiry. */
  lemma Counterpart(first: seq<Notice>, second: seq<Notice>, n: Notice, reference: string) returns (m: Notice)
    requires SameDelivery(first, second) && n in second
    ensures m in first && Sets(m, reference) == Sets(n, reference)
  {
    var j :| 0 <= j < |second| && second[j] == n;
    var p, q := Plain(first), Plain(second);
    assert q[j] in p;
    var i :| 0 <= i < |p| && p[i] == q[j];
    m := first[i];
    assert Unpicked(m) == Unpicked(n);
  }

  lemma {:induction false} OneExpiryConverges(b: Books, notices: seq<Notice>, other: seq<Notice>, reference: string)
    requires Ready(b.lots, notices) && SameDelivery(notices, other) && OneExpiry(notices, reference)
    ensures ExpiryAt(Run(b, other).lots, reference) == ExpiryAt(Run(b, notices).lots, reference)
  {
    var start := ExpiryAt(b.lots, reference);
    ExpiryOf(b, notices, notices, reference);
    ExpiryOf(b, notices, other, reference);
    RevisedToOne(start, notices, reference);
    RevisedToOne(start, other, reference);
    if SetsAny(notices, reference) {
      var n :| n in notices && Sets(n, reference).Some? && RevisedAll(start, notices, reference) == Sets(n, reference);
      var m := Counterpart(other, notices, n, reference);
    }
    if SetsAny(other, reference) {
      var n :| n in other && Sets(n, reference).Some? && RevisedAll(start, other, reference) == Sets(n, reference);
      var m := Counterpart(notices, other, n, reference);
      assert SetsAny(notices, reference);
    }
  }

  lemma AppendKnown(notices: seq<Notice>, n: Notice)
    requires n in notices
    ensures SameDelivery(notices, notices + [n])
  {
    var k :| 0 <= k < |notices| && notices[k] == n;
    var p, q := Plain(notices), Plain(notices + [n]);
    assert q == p + [Unpicked(n)] && p[k] == Unpicked(n);
  }

  /** Two different expiries for one reference: the one delivered last stays. */
  lemma TwoExpiriesDiverge(b: Books, notices: seq<Notice>, reference: string, m: Notice, n: Notice)
    requires Ready(b.lots, notices) && m in notices && n in notices && Sets(m, reference).Some? && Sets(n, reference).Some?
    ensures SameDelivery(notices, notices + [m]) && ExpiryAt(Run(b, notices + [m]).lots, reference) == Sets(m, reference)
    ensures SameDelivery(notices, notices + [n]) && ExpiryAt(Run(b, notices + [n]).lots, reference) == Sets(n, reference)
  {
    AppendKnown(notices, m);
    AppendKnown(notices, n);
    ExpiryOf(b, notices, notices + [m], reference);
    ExpiryOf(b, notices, notices + [n], reference);
    LastSetWins(ExpiryAt(b.lots, reference), notices, m, reference);
    LastSetWins(ExpiryAt(b.lots, reference), notices, n, reference);
  }

  /**
   The expiry of a payment reference's lot does not depend on order or repetition of deliveries if
   and only if all expiries delivered for that reference are equal.
   */
  lemma ExpiryConvergesExactly(b: Books, notices: seq<Notice>, reference: string)
    requires Ready(b.lots, notices)
    ensures ExpiryConverges(b, notices, reference) <==> OneExpiry(notices, reference)
  {
    if OneExpiry(notices, reference) {
      forall other: seq<Notice> | SameDelivery(notices, other)
        ensures ExpiryAt(Run(b, other).lots, reference) == ExpiryAt(Run(b, notices).lots, reference)
      {
        OneExpiryConverges(b, notices, other, reference);
      }
    } else {
      var m, n :| m in notices && n in notices && Sets(m, reference).Some? && Sets(n, reference).Some? &&
                  Sets(m, reference) != Sets(n, reference);
      TwoExpiriesDiverge(b, notices, reference, m, n);
    }
  }

  const EARLY: Notice := DoCreateLot(LotInput(Paid, "USD", 5, 5, "k1", Some("p"), 0, Some(1), 0))
  const LATE: Notice := DoCreateLot(LotInput(Paid, "USD", 5, 5, "k2", Some("p"), 0, Some(2), 0))

  /** One payment delivered twice with different expiries: the last delivery decides. */
  lemma LastDeliveredExpiryStays()
    ensures ExpiryAt(Run(EMPTY, [EARLY, LATE]).lots, "p") == Some(2)
    ensures ExpiryAt(Run(EMPTY, [LATE, EARLY]).lots, "p") == Some(1)
  {
    assert "k1"[1] == '1' && "k2"[1] == '2' && |"k1"| == |"k2"| == 2 && |PlaceholderKey("p")| > 2;
    ExpiryIsLastSet(EMPTY, [EARLY, LATE], [EARLY, LATE], "p");
    ExpiryIsLastSet(EMPTY, [LATE, EARLY], [EARLY, LATE], "p");
    assert RevisedAll(Some(1), [LATE], "p") == RevisedAll(Some(2), [], "p") by { assert [LATE][1..] == []; }
    assert RevisedAll(Some(2), [EARLY], "p") == RevisedAll(Some(1), [], "p") by { assert [EARLY][1..] == []; }
    assert [EARLY, LATE][1..] == [LATE] && [LATE, EARLY][1..] == [EARLY];
  }
}

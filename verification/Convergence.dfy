/** Payment notices converge: delivery order, redelivery and early reversals do not change where the books end. */
module Convergence {
  import opened Prelude
  import opened Ledger
  import opened LedgerInvariants
  import opened LedgerReservations
  import opened LedgerRuns

  // ---------------------------------------------------------------------------------------------
  // Purchase, refund and chargeback notices

  predicate IsNotice(c: Command) {
    match c
    case DoCreateLot(i) => i.kind == Paid && i.reference.Some? && i.credits > 0 && i.cash >= 0
    case DoLifecycle(i) =>
      i.kind in {Refund, Chargeback} && i.lot.None? && i.reference.Some? && i.credits != 0 && i.cash >= 0
    case _ => false
  }

  type Notice = c: Command | IsNotice(c)
    witness DoCreateLot(LotInput(Paid, "USD", 1, 1, "k", Some("r"), 0, None, 0))

  function RefOf(n: Notice): string {
    if n.DoCreateLot? then n.lot.reference.value else n.lifecycle.reference.value
  }

  function KeyOf(n: Notice): string {
    if n.DoCreateLot? then n.lot.key else n.lifecycle.key
  }

  function CurrencyOf(n: Notice): string {
    if n.DoCreateLot? then n.lot.currency else n.lifecycle.currency
  }

  /** The entry a notice stands for: it depends on the notice alone. */
  function EntryOf(n: Notice): Entry {
    if n.DoCreateLot? then LotEntry(n.lot, LotId(Paid, RefOf(n))) else LifecycleEntry(n.lifecycle, LotId(Paid, RefOf(n)))
  }

  /** A lot the notice may meet is the paid lot of its payment reference, in its currency. */
  predicate Fits(l: Lot, n: Notice) {
    && (l.reference == Some(RefOf(n)) ==> l.kind == Paid && l.id == LotId(Paid, RefOf(n)) && l.currency == CurrencyOf(n))
    && (l.id == LotId(Paid, RefOf(n)) || l.key == PlaceholderKey(RefOf(n)) || (n.DoCreateLot? && l.key == KeyOf(n)) ==>
          l.reference == Some(RefOf(n)))
  }

  /** One currency per payment reference, one meaning per key, and no key that imitates a placeholder. */
  predicate Coherent(a: Notice, b: Notice) {
    && (RefOf(a) == RefOf(b) ==> CurrencyOf(a) == CurrencyOf(b))
    && (KeyOf(a) == KeyOf(b) ==> EntryOf(a) == EntryOf(b))
    && (a.DoCreateLot? && KeyOf(a) == PlaceholderKey(RefOf(b)) ==> RefOf(a) == RefOf(b))
  }

  ghost predicate Ready(lots: seq<Lot>, notices: seq<Notice>) {
    && (forall i, j :: 0 <= i < |lots| && 0 <= j < |notices| ==> Fits(lots[i], notices[j]))
    && (forall i, j :: 0 <= i < |notices| && 0 <= j < |notices| ==> Coherent(notices[i], notices[j]))
  }

  lemma SameLotSameReference(a: Notice, b: Notice)
    requires LotId(Paid, RefOf(a)) == LotId(Paid, RefOf(b))
    ensures RefOf(a) == RefOf(b)
  {
    PrefixInjective("clot_" + KindName(Paid) + ":", RefOf(a), RefOf(b));
  }

  lemma SamePlaceholderSameReference(a: Notice, b: Notice)
    requires PlaceholderKey(RefOf(a)) == PlaceholderKey(RefOf(b))
    ensures RefOf(a) == RefOf(b)
  {
    PrefixInjective("placeholder:", RefOf(a), RefOf(b));
  }

  /** A lot opened for one notice fits every coherent notice. */
  lemma NewLotFits(n: Notice, m: Notice, l: Lot)
    requires Coherent(n, m) && Coherent(m, n) && Coherent(m, m)
    requires l.kind == Paid && l.reference == Some(RefOf(n)) && l.id == LotId(Paid, RefOf(n)) && l.currency == CurrencyOf(n)
    requires l.key == PlaceholderKey(RefOf(n)) || (n.DoCreateLot? && l.key == KeyOf(n))
    ensures Fits(l, m)
  {
    if l.id == LotId(Paid, RefOf(m)) { SameLotSameReference(n, m); }
    if l.key == PlaceholderKey(RefOf(m)) && l.key == PlaceholderKey(RefOf(n)) { SamePlaceholderSameReference(n, m); }
    if m.DoCreateLot? && l.key == KeyOf(m) && n.DoCreateLot? && l.key == KeyOf(n) { SameLotSameReference(n, m); }
  }

  // ---------------------------------------------------------------------------------------------
  // One delivery

  predicate HasReference(lots: seq<Lot>, reference: string) {
    exists i :: 0 <= i < |lots| && lots[i].reference == Some(reference)
  }

  /** What a delivery does to the lots: at most one paid lot is opened, or one is revised in place. */
  ghost predicate OpensFor(before: seq<Lot>, after: seq<Lot>, n: Notice) {
    && (if HasReference(before, RefOf(n)) then |after| == |before| else |after| == |before| + 1)
    && (forall i :: 0 <= i < |before| ==>
          after[i].id == before[i].id && after[i].kind == before[i].kind && after[i].key == before[i].key &&
          after[i].reference == before[i].reference && after[i].currency == before[i].currency)
    && (|after| > |before| ==> var l := after[|before|];
          l.kind == Paid && l.reference == Some(RefOf(n)) && l.id == LotId(Paid, RefOf(n)) && l.currency == CurrencyOf(n) &&
          (l.key == PlaceholderKey(RefOf(n)) || (n.DoCreateLot? && l.key == KeyOf(n))))
  }

  lemma PurchaseDelivers(b: Books, n: Notice)
    requires n.DoCreateLot? && forall i :: 0 <= i < |b.lots| ==> Fits(b.lots[i], n)
    ensures Step(b, n).ledger == Append(b.ledger, EntryOf(n))
    ensures Step(b, n) == b.(lots := Step(b, n).lots, ledger := Step(b, n).ledger)
    ensures OpensFor(b.lots, Step(b, n).lots, n)
  {
    var input := n.lot;
    var lots := UpsertLot(b.lots, input);
    assert lots.Some?;
    forall i | 0 <= i < |lots.value| && Matches(lots.value[i], Some(LotIdOf(input)), input.reference)
      ensures lots.value[i].id == LotId(Paid, RefOf(n))
    {
      if i < |b.lots| { assert Fits(b.lots[i], n); }
    }
  }

  lemma ReversalDelivers(b: Books, n: Notice)
    requires n.DoLifecycle? && forall i :: 0 <= i < |b.lots| ==> Fits(b.lots[i], n)
    ensures Step(b, n).ledger == Append(b.ledger, EntryOf(n))
    ensures Step(b, n) == b.(lots := Step(b, n).lots, ledger := Step(b, n).ledger)
    ensures OpensFor(b.lots, Step(b, n).lots, n)
  {
    var input := n.lifecycle;
    var found := FirstMatch(b.lots, input.lot, input.reference);
    if found.Some? {
      assert Fits(b.lots[found.value], n);
    } else {
      var p := Placeholder(input);
      forall i | 0 <= i < |b.lots| ensures b.lots[i].reference != input.reference {
        assert !Matches(b.lots[i], input.lot, input.reference);
      }
      var lots := WithPlaceholder(b.lots, input);
      assert lots == b.lots + [p];
      assert lots[|b.lots|].reference == input.reference;
      assert Find(lots, (l: Lot) => l.reference == input.reference) == Some(|b.lots|);
    }
  }

  lemma DeliveryStaysReady(before: seq<Lot>, after: seq<Lot>, notices: seq<Notice>, k: nat)
    requires Ready(before, notices) && k < |notices| && OpensFor(before, after, notices[k])
    ensures Ready(after, notices)
  {
    forall i, j | 0 <= i < |after| && 0 <= j < |notices| ensures Fits(after[i], notices[j]) {
      assert Coherent(notices[k], notices[j]) && Coherent(notices[j], notices[k]) && Coherent(notices[j], notices[j]);
      if i < |before| {
        assert Fits(before[i], notices[j]);
      } else {
        NewLotFits(notices[k], notices[j], after[i]);
      }
    }
  }

  // ---------------------------------------------------------------------------------------------
  // Whole deliveries

  /** The ledger after the notices, with no reference to lots. */
  function Deliver(ledger: seq<Entry>, notices: seq<Notice>): seq<Entry>
    decreases |notices|
  {
    if notices == [] then ledger else Deliver(Append(ledger, EntryOf(notices[0])), notices[1..])
  }

  ghost predicate PaidLotsCover(lots: seq<Lot>, after: seq<Lot>, notices: seq<Notice>) {
    && (forall id :: id in KindIds(after, Promotional) <==> id in KindIds(lots, Promotional))
    && (forall id :: id in KindIds(after, Paid) <==>
          id in KindIds(lots, Paid) || NoticedLot(notices, id))
  }

  ghost predicate NoticedLot(notices: seq<Notice>, id: string) {
    exists i :: 0 <= i < |notices| && id == LotId(Paid, RefOf(notices[i]))
  }

  lemma OpenedIds(before: seq<Lot>, after: seq<Lot>, n: Notice)
    requires OpensFor(before, after, n) && forall i :: 0 <= i < |before| ==> Fits(before[i], n)
    ensures KindIds(after, Promotional) == KindIds(before, Promotional)
    ensures KindIds(after, Paid) == KindIds(before, Paid) + {LotId(Paid, RefOf(n))}
  {
    forall id, kind | id in KindIds(before, kind) ensures id in KindIds(after, kind) {
      var l :| l in before && l.kind == kind && l.id == id;
      var i :| 0 <= i < |before| && before[i] == l;
      assert after[i] in after;
    }
    forall id, kind | id in KindIds(after, kind)
      ensures id in KindIds(before, kind) || (kind == Paid && id == LotId(Paid, RefOf(n)))
    {
      var l :| l in after && l.kind == kind && l.id == id;
      var i :| 0 <= i < |after| && after[i] == l;
      if i < |before| { assert before[i] in before; }
    }
    if HasReference(before, RefOf(n)) {
      var i :| 0 <= i < |before| && before[i].reference == Some(RefOf(n));
      assert Fits(before[i], n) && after[i] in after;
    } else {
      assert after[|before|] in after;
    }
  }

  lemma {:induction false} RunDelivers(b: Books, delivered: seq<Notice>, notices: seq<Notice>)
    requires Ready(b.lots, notices) && forall i :: 0 <= i < |delivered| ==> delivered[i] in notices
    ensures Run(b, delivered).ledger == Deliver(b.ledger, delivered)
    ensures Run(b, delivered) == b.(lots := Run(b, delivered).lots, ledger := Deliver(b.ledger, delivered))
    ensures PaidLotsCover(b.lots, Run(b, delivered).lots, delivered)
    decreases |delivered|
  {
    if delivered != [] {
      var n := delivered[0];
      assert n in notices;
      var k :| 0 <= k < |notices| && notices[k] == n;
      forall i | 0 <= i < |b.lots| ensures Fits(b.lots[i], n) { assert Fits(b.lots[i], notices[k]); }
      var b' := Step(b, n);
      if n.DoCreateLot? { PurchaseDelivers(b, n); } else { ReversalDelivers(b, n); }
      DeliveryStaysReady(b.lots, b'.lots, notices, k);
      var rest := delivered[1..];
      RunDelivers(b', rest, notices);
      OpenedIds(b.lots, b'.lots, n);
      CoverStep(b.lots, b'.lots, Run(b', rest).lots, delivered);
    }
  }

  lemma CoverStep(lots: seq<Lot>, mid: seq<Lot>, after: seq<Lot>, notices: seq<Notice>)
    requires notices != [] && PaidLotsCover(mid, after, notices[1..])
    requires KindIds(mid, Promotional) == KindIds(lots, Promotional)
    requires KindIds(mid, Paid) == KindIds(lots, Paid) + {LotId(Paid, RefOf(notices[0]))}
    ensures PaidLotsCover(lots, after, notices)
  {
    var rest := notices[1..];
    forall id ensures NoticedLot(notices, id) <==> id == LotId(Paid, RefOf(notices[0])) || NoticedLot(rest, id) {
      if i :| 0 <= i < |rest| && id == LotId(Paid, RefOf(rest[i])) { assert notices[i + 1] == rest[i]; }
      if i :| 0 <= i < |notices| && id == LotId(Paid, RefOf(notices[i])) { if i > 0 { assert rest[i - 1] == notices[i]; } }
    }
  }

  // ---------------------------------------------------------------------------------------------
  // Closed form of the delivered ledger

  ghost predicate DistinctKeys(ledger: seq<Entry>) {
    forall i, j :: 0 <= i < j < |ledger| ==> ledger[i].key != ledger[j].key
  }

  ghost predicate OneMeaning(notices: seq<Notice>) {
    forall i, j :: 0 <= i < |notices| && 0 <= j < |notices| ==>
      KeyOf(notices[i]) == KeyOf(notices[j]) ==> EntryOf(notices[i]) == EntryOf(notices[j])
  }

  ghost predicate Noticed(notices: seq<Notice>, e: Entry) {
    exists i :: 0 <= i < |notices| && EntryOf(notices[i]) == e
  }

  /** The old entries, plus the entry of every notice whose key was not already recorded. */
  lemma {:induction false} DeliverExactly(ledger: seq<Entry>, notices: seq<Notice>)
    requires DistinctKeys(ledger) && OneMeaning(notices)
    ensures DistinctKeys(Deliver(ledger, notices))
    ensures forall e :: e in Deliver(ledger, notices) <==>
      e in ledger || (!HasKey(ledger, e.key) && Noticed(notices, e))
    decreases |notices|
  {
    if notices != [] {
      var first := EntryOf(notices[0]);
      DeliverExactly(Append(ledger, first), notices[1..]);
      forall e ensures e in Deliver(ledger, notices) <==> e in ledger || (!HasKey(ledger, e.key) && Noticed(notices, e)) {
        AppendKeys(ledger, first, e);
      }
    }
  }

  lemma AppendKeys(ledger: seq<Entry>, first: Entry, e: Entry)
    ensures HasKey(Append(ledger, first), e.key) <==> HasKey(ledger, e.key) || first.key == e.key
    ensures e in Append(ledger, first) <==> e in ledger || (!HasKey(ledger, first.key) && e == first)
  {
    var next := Append(ledger, first);
    if HasKey(ledger, e.key) {
      var i :| 0 <= i < |ledger| && ledger[i].key == e.key;
      assert next[i].key == e.key;
    }
    if !HasKey(ledger, first.key) { assert next[|ledger|] == first; }
  }

  // ---------------------------------------------------------------------------------------------
  // Sums do not see the order

  lemma {:induction false} DistinctMultiplicity(ledger: seq<Entry>, e: Entry)
    requires DistinctKeys(ledger)
    ensures multiset(ledger)[e] == if e in ledger then 1 else 0
  {
    if ledger != [] {
      var rest := ledger[..|ledger| - 1];
      assert ledger == rest + [ledger[|ledger| - 1]];
      DistinctMultiplicity(rest, e);
      assert forall i :: 0 <= i < |rest| ==> rest[i] == ledger[i];
    }
  }

  function Without(ledger: seq<Entry>, i: nat): seq<Entry>
    requires i < |ledger|
  {
    ledger[..i] + ledger[i + 1..]
  }

  lemma WithoutOne(ledger: seq<Entry>, i: nat)
    requires i < |ledger|
    ensures multiset(Without(ledger, i)) == multiset(ledger) - multiset{ledger[i]}
  {
    assert ledger == ledger[..i] + [ledger[i]] + ledger[i + 1..];
  }

  lemma TallyWithout(ledger: seq<Entry>, i: nat, view: View, scope: Scope)
    requires i < |ledger|
    ensures Tally(ledger, view, scope) == Tally(Without(ledger, i), view, scope) + Share(ledger[i], view, scope)
  {
    assert ledger == ledger[..i] + [ledger[i]] + ledger[i + 1..];
    TallyConcat(ledger[..i], ledger[i + 1..], view, scope);
    TallyConcat(ledger[..i] + [ledger[i]], ledger[i + 1..], view, scope);
    TallyConcat(ledger[..i], [ledger[i]], view, scope);
    TallySingle(ledger[i], view, scope);
  }

  lemma {:induction false} TallyPermuted(a: seq<Entry>, b: seq<Entry>, view: View, scope: Scope)
    requires multiset(a) == multiset(b)
    ensures Tally(a, view, scope) == Tally(b, view, scope)
  {
    if a == [] {
      assert |b| == |multiset(b)| == 0;
    } else {
      var k := |a| - 1;
      assert a[k] in multiset(b);
      var i :| 0 <= i < |b| && b[i] == a[k];
      WithoutOne(a, k);
      WithoutOne(b, i);
      TallyPermuted(Without(a, k), Without(b, i), view, scope);
      TallyWithout(a, k, view, scope);
      TallyWithout(b, i, view, scope);
    }
  }

  // ---------------------------------------------------------------------------------------------
  // Convergence

  /** Two deliveries of the same notices: any order, any number of times each. */
  ghost predicate SameNotices(first: seq<Notice>, second: seq<Notice>) {
    && (forall i :: 0 <= i < |first| ==> first[i] in second)
    && (forall i :: 0 <= i < |second| ==> second[i] in first)
  }

  // The row an unordered query happens to return is no part of what a notice says.

  function Unpicked(n: Notice): Notice {
    if n.DoCreateLot? then DoCreateLot(n.lot.(pick := 0)) else n
  }

  function Plain(notices: seq<Notice>): seq<Notice> {
    seq(|notices|, i requires 0 <= i < |notices| => Unpicked(notices[i]))
  }

  /** Whichever matching row the database returns, the delivery does the same. */
  lemma PickDoesNotMatter(b: Books, n: Notice)
    requires forall i :: 0 <= i < |b.lots| ==> Fits(b.lots[i], n)
    ensures Step(b, Unpicked(n)) == Step(b, n)
  {
    if n.DoCreateLot? {
      var plain := Unpicked(n);
      forall i | 0 <= i < |b.lots| ensures Fits(b.lots[i], plain) { assert Fits(b.lots[i], n); }
      assert Step(b, n).ledger == Append(b.ledger, EntryOf(n)) by { PurchaseDelivers(b, n); }
      assert Step(b, plain).ledger == Append(b.ledger, EntryOf(plain)) by { PurchaseDelivers(b, plain); }
      SameUpsert(b, n.lot, plain.lot);
    }
  }

  /** The rows and the acceptance of a purchase do not depend on the row returned, only the entry's lot could. */
  lemma SameUpsert(b: Books, input: LotInput, other: LotInput)
    requires other == input.(pick := other.pick)
    ensures CreateLot(b, other).Done? <==> CreateLot(b, input).Done?
    ensures CreateLot(b, input).Done? ==>
      CreateLot(b, other).books == CreateLot(b, input).books.(ledger := CreateLot(b, other).books.ledger)
  {
    assert UpsertLot(b.lots, other) == UpsertLot(b.lots, input);
  }

  lemma {:induction false} RunPlain(b: Books, delivered: seq<Notice>, notices: seq<Notice>)
    requires Ready(b.lots, notices) && forall i :: 0 <= i < |delivered| ==> delivered[i] in notices
    ensures Run(b, Plain(delivered)) == Run(b, delivered)
    decreases |delivered|
  {
    if delivered != [] {
      var n := delivered[0];
      assert n in notices;
      var k :| 0 <= k < |notices| && notices[k] == n;
      forall i | 0 <= i < |b.lots| ensures Fits(b.lots[i], n) { assert Fits(b.lots[i], notices[k]); }
      PickDoesNotMatter(b, n);
      if n.DoCreateLot? { PurchaseDelivers(b, n); } else { ReversalDelivers(b, n); }
      DeliveryStaysReady(b.lots, Step(b, n).lots, notices, k);
      assert Plain(delivered)[1..] == Plain(delivered[1..]);
      RunPlain(Step(b, n), delivered[1..], notices);
    }
  }

  lemma PlainReady(lots: seq<Lot>, notices: seq<Notice>)
    ensures Ready(lots, Plain(notices)) <==> Ready(lots, notices)
  {
    var plain := Plain(notices);
    assert forall l: Lot, n: Notice :: Fits(l, Unpicked(n)) <==> Fits(l, n);
    assert forall m: Notice, n: Notice :: Coherent(Unpicked(m), Unpicked(n)) <==> Coherent(m, n);
    assert forall i :: 0 <= i < |notices| ==> plain[i] == Unpicked(notices[i]);
    if Ready(lots, plain) {
      forall i, j | 0 <= i < |lots| && 0 <= j < |notices| ensures Fits(lots[i], notices[j]) { assert Fits(lots[i], plain[j]); }
      forall i, j | 0 <= i < |notices| && 0 <= j < |notices| ensures Coherent(notices[i], notices[j]) {
        assert Coherent(plain[i], plain[j]);
      }
    }
  }

  /** Two deliveries of the same notices, whatever rows the database returned in each. */
  ghost predicate SameDelivery(first: seq<Notice>, second: seq<Notice>) {
    SameNotices(Plain(first), Plain(second))
  }

  lemma SameDeliveryReady(lots: seq<Lot>, first: seq<Notice>, second: seq<Notice>)
    requires Ready(lots, first) && SameDelivery(first, second)
    ensures Ready(lots, second)
  {
    var p, q := Plain(first), Plain(second);
    PlainReady(lots, first);
    PlainReady(lots, second);
    forall i, j | 0 <= i < |lots| && 0 <= j < |q| ensures Fits(lots[i], q[j]) {
      assert q[j] in p;
    }
    forall i, j | 0 <= i < |q| && 0 <= j < |q| ensures Coherent(q[i], q[j]) {
      assert q[i] in p && q[j] in p;
    }
  }

  /**
   From any books, two deliveries of the same notices end with the same entries, the same balance
   of every lot, the same balance report and the same projection.
   */
  lemma DeliveriesConverge(b: Books, first: seq<Notice>, second: seq<Notice>)
    requires DistinctKeys(b.ledger) && Ready(b.lots, first) && SameDelivery(first, second)
    ensures
      var x, y := Run(b, first), Run(b, second);
      && multiset(x.ledger) == multiset(y.ledger)
      && (forall view, scope :: Tally(x.ledger, view, scope) == Tally(y.ledger, view, scope))
      && CreditBalance(x) == CreditBalance(y)
      && FinancialProjection(x) == FinancialProjection(y)
      && x.reservations == y.reservations == b.reservations
  {
    SameDeliveryReady(b.lots, first, second);
    PlainReady(b.lots, first);
    RunPlain(b, first, first);
    RunPlain(b, second, second);
    PlainConverge(b, Plain(first), Plain(second));
  }

  lemma {:induction false} PlainConverge(b: Books, first: seq<Notice>, second: seq<Notice>)
    requires DistinctKeys(b.ledger) && Ready(b.lots, first) && SameNotices(first, second)
    ensures
      var x, y := Run(b, first), Run(b, second);
      && multiset(x.ledger) == multiset(y.ledger)
      && (forall view, scope :: Tally(x.ledger, view, scope) == Tally(y.ledger, view, scope))
      && CreditBalance(x) == CreditBalance(y)
      && FinancialProjection(x) == FinancialProjection(y)
      && x.reservations == y.reservations == b.reservations
  {
    var x, y := Run(b, first), Run(b, second);
    RunDelivers(b, first, first);
    RunDelivers(b, second, first);
    assert OneMeaning(first) by {
      forall i, j | 0 <= i < |first| && 0 <= j < |first| && KeyOf(first[i]) == KeyOf(first[j])
        ensures EntryOf(first[i]) == EntryOf(first[j]) { assert Coherent(first[i], first[j]); }
    }
    assert OneMeaning(second) by {
      forall i, j | 0 <= i < |second| && 0 <= j < |second| && KeyOf(second[i]) == KeyOf(second[j])
        ensures EntryOf(second[i]) == EntryOf(second[j])
      {
        var p :| 0 <= p < |first| && first[p] == second[i];
        var q :| 0 <= q < |first| && first[q] == second[j];
        assert Coherent(first[p], first[q]);
      }
    }
    DeliverExactly(b.ledger, first);
    DeliverExactly(b.ledger, second);
    SameEntries(b.ledger, x.ledger, y.ledger, first, second);
    forall view, scope ensures Tally(x.ledger, view, scope) == Tally(y.ledger, view, scope) {
      TallyPermuted(x.ledger, y.ledger, view, scope);
    }
    SameKinds(b.lots, x.lots, y.lots, first, second);
  }

  lemma SameEntries(ledger: seq<Entry>, x: seq<Entry>, y: seq<Entry>, first: seq<Notice>, second: seq<Notice>)
    requires SameNotices(first, second) && DistinctKeys(x) && DistinctKeys(y)
    requires forall e :: e in x <==> e in ledger || (!HasKey(ledger, e.key) && Noticed(first, e))
    requires forall e :: e in y <==> e in ledger || (!HasKey(ledger, e.key) && Noticed(second, e))
    ensures multiset(x) == multiset(y)
  {
    forall e ensures multiset(x)[e] == multiset(y)[e] {
      DistinctMultiplicity(x, e);
      DistinctMultiplicity(y, e);
    }
  }

  lemma SameKinds(lots: seq<Lot>, x: seq<Lot>, y: seq<Lot>, first: seq<Notice>, second: seq<Notice>)
    requires SameNotices(first, second) && PaidLotsCover(lots, x, first) && PaidLotsCover(lots, y, second)
    ensures OfKind(x, Paid) == OfKind(y, Paid) && OfKind(x, Promotional) == OfKind(y, Promotional)
  {
    forall id ensures id in KindIds(x, Paid) <==> id in KindIds(y, Paid) {
      if i :| 0 <= i < |first| && id == LotId(Paid, RefOf(first[i])) {
        var j :| 0 <= j < |second| && second[j] == first[i];
      }
      if i :| 0 <= i < |second| && id == LotId(Paid, RefOf(second[i])) {
        var j :| 0 <= j < |first| && first[j] == second[i];
      }
    }
    assert KindIds(x, Paid) == KindIds(y, Paid);
    assert KindIds(x, Promotional) == KindIds(y, Promotional);
  }

  // ---------------------------------------------------------------------------------------------
  // Reversals that name a lot

  /** A reversal that names only a lot is accepted exactly when that lot is there, in its currency: it cannot come first. */
  lemma LotAddressedExactly(b: Books, input: LifecycleInput)
    requires LotsOk(b.lots) && input.lot.Some? && input.reference.None? && input.credits != 0 && input.cash >= 0
    ensures Lifecycle(b, input).Done? <==>
            exists i :: 0 <= i < |b.lots| && b.lots[i].id == input.lot.value && b.lots[i].currency == input.currency
    ensures Lifecycle(b, input) == Rejected(ReservationNotFound) <==> !HasLotId(b.lots, input.lot.value)
  {
    var found := FirstMatch(b.lots, input.lot, input.reference);
    if found.Some? {
      forall i | 0 <= i < |b.lots| && b.lots[i].id == input.lot.value ensures i == found.value {}
    } else {
      forall i | 0 <= i < |b.lots| ensures b.lots[i].id != input.lot.value {
        assert !Matches(b.lots[i], input.lot, input.reference);
      }
    }
  }

  // ---------------------------------------------------------------------------------------------
  // Redelivery of any command, at any later time

  ghost predicate Recorded(b: Books, c: Command) {
    match c
    case DoCreateLot(i) => HasKey(b.ledger, i.key)
    case DoLifecycle(i) => HasKey(b.ledger, i.key)
    case DoReserve(i) => exists k :: 0 <= k < |b.reservations| && b.reservations[k].key == i.key
    case DoSettle(i) => exists k :: 0 <= k < |b.settlements| && (b.settlements[k].key == i.key || b.settlements[k].usageKey == i.usageKey)
  }

  ghost predicate Grows(b: Books, b': Books) {
    && b.ledger <= b'.ledger && b.settlements <= b'.settlements
    && |b.reservations| <= |b'.reservations|
    && forall k :: 0 <= k < |b.reservations| ==> b'.reservations[k].key == b.reservations[k].key
  }

  lemma {:induction false} RunGrows(b: Books, commands: seq<Command>)
    ensures Grows(b, Run(b, commands))
    decreases |commands|
  {
    if commands != [] {
      assert Grows(b, Step(b, commands[0]));
      RunGrows(Step(b, commands[0]), commands[1..]);
    }
  }

  /** Once a command has gone through, delivering it again, whatever ran in between, moves no credit. */
  lemma RedeliveryMovesNothing(b: Books, c: Command, between: seq<Command>)
    requires Execute(b, c).Done?
    ensures
      var later := Run(Step(b, c), between);
      var again := Step(later, c);
      again.ledger == later.ledger && again.reservations == later.reservations && again.settlements == later.settlements
  {
    var b' := Step(b, c);
    var later := Run(b', between);
    DoneIsRecorded(b, c);
    RunGrows(b', between);
  }

  lemma DoneIsRecorded(b: Books, c: Command)
    requires Execute(b, c).Done?
    ensures Recorded(Step(b, c), c)
  {
    var b' := Step(b, c);
    match c
    case DoCreateLot(i) =>
      if !HasKey(b.ledger, i.key) { assert b'.ledger[|b.ledger|].key == i.key; }
    case DoLifecycle(i) =>
      if !HasKey(b.ledger, i.key) { assert b'.ledger[|b.ledger|].key == i.key; }
    case DoReserve(i) =>
      if Find(b.reservations, (r: Reservation) => r.key == i.key).None? {
        assert b'.reservations[|b.reservations|].key == i.key;
      }
    case DoSettle(i) =>
      if Accepted(b, i) { assert b'.settlements[|b.settlements|].key == i.key; }
  }
}

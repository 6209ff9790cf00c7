/** How a reservation picks its lots: ordered, exact, within every lot, and with the least paid credit. */
module LedgerReservations {
  import opened Prelude
  import opened Ledger
  import opened LedgerInvariants

  // ---------------------------------------------------------------------------------------------
  // ORDER BY

  lemma RowBeforeTransitive(a: Lot, b: Lot, c: Lot)
    requires RowBefore(a, b) && RowBefore(b, c)
    ensures RowBefore(a, c)
  {
    if OccursBefore(a, b) && OccursBefore(b, c) && a.occurredAt == b.occurredAt == c.occurredAt {
      TextBeforeTransitive(a.id, b.id, c.id);
    }
  }

  lemma RowBeforeAsymmetric(a: Lot, b: Lot)
    ensures !(RowBefore(a, b) && RowBefore(b, a))
  {
    TextBeforeTotal(a.id, b.id);
  }

  ghost predicate Sorted(rows: seq<Row>) {
    forall i, j :: 0 <= i < j < |rows| ==> !RowBefore(rows[j].lot, rows[i].lot)
  }

  lemma {:induction false} InsertMembers(r: Row, rows: seq<Row>)
    ensures multiset(Insert(r, rows)) == multiset(rows) + multiset{r}
  {
    if rows != [] && !RowBefore(r.lot, rows[0].lot) {
      InsertMembers(r, rows[1..]);
      assert rows == [rows[0]] + rows[1..];
    }
  }

  lemma {:induction false} InsertSorted(r: Row, rows: seq<Row>)
    requires Sorted(rows)
    ensures Sorted(Insert(r, rows))
  {
    if rows == [] {
    } else if RowBefore(r.lot, rows[0].lot) {
      forall j | 0 <= j < |rows| ensures !RowBefore(rows[j].lot, r.lot) {
        RowBeforeAsymmetric(r.lot, rows[0].lot);
        if RowBefore(rows[j].lot, r.lot) {
          RowBeforeTransitive(rows[j].lot, r.lot, rows[0].lot);
        }
      }
    } else {
      var rest := Insert(r, rows[1..]);
      InsertSorted(r, rows[1..]);
      InsertMembers(r, rows[1..]);
      forall j | 0 <= j < |rest| ensures !RowBefore(rest[j].lot, rows[0].lot) {
        assert rest[j] in multiset(rest);
      }
    }
  }

  /** The query result is in ORDER BY order and holds exactly the selected rows. */
  lemma {:induction false} OrderBySorted(rows: seq<Row>)
    ensures Sorted(OrderBy(rows))
    ensures multiset(OrderBy(rows)) == multiset(rows)
  {
    if rows != [] {
      OrderBySorted(rows[1..]);
      InsertSorted(rows[0], OrderBy(rows[1..]));
      InsertMembers(rows[0], OrderBy(rows[1..]));
      assert rows == [rows[0]] + rows[1..];
    }
  }

  function RowIds(rows: seq<Row>): set<string> {
    set r | r in rows :: r.lot.id
  }

  predicate NoDuplicates(rows: seq<Row>) {
    rows == [] || (rows[0].lot.id !in RowIds(rows[1..]) && NoDuplicates(rows[1..]))
  }

  lemma {:induction false} InsertNoDuplicates(r: Row, rows: seq<Row>)
    requires NoDuplicates(rows) && r.lot.id !in RowIds(rows)
    ensures NoDuplicates(Insert(r, rows))
    ensures RowIds(Insert(r, rows)) == RowIds(rows) + {r.lot.id}
  {
    if rows == [] || RowBefore(r.lot, rows[0].lot) {
      assert ([r] + rows)[1..] == rows;
    } else {
      assert forall x :: x in rows[1..] ==> x in rows;
      InsertNoDuplicates(r, rows[1..]);
      assert Insert(r, rows)[1..] == Insert(r, rows[1..]);
      assert rows == [rows[0]] + rows[1..];
    }
  }

  lemma {:induction false} OrderByNoDuplicates(rows: seq<Row>)
    requires NoDuplicates(rows)
    ensures NoDuplicates(OrderBy(rows))
    ensures RowIds(OrderBy(rows)) == RowIds(rows)
  {
    if rows != [] {
      OrderByNoDuplicates(rows[1..]);
      InsertNoDuplicates(rows[0], OrderBy(rows[1..]));
      assert rows == [rows[0]] + rows[1..];
    }
  }

  predicate Balanced(r: Row, ledger: seq<Entry>) {
    r.available > 0 && r.available == Tally(ledger, Available, OneLot(r.lot.id))
  }

  /** The selected rows are exactly the live lots with something available, each once. */
  lemma {:induction false} EligibleExact(lots: seq<Lot>, ledger: seq<Entry>, now: int)
    requires forall i, j :: 0 <= i < j < |lots| ==> lots[i].id != lots[j].id
    ensures NoDuplicates(EligibleRows(lots, ledger, now))
    ensures forall r :: r in EligibleRows(lots, ledger, now) <==> r.lot in lots && Live(r.lot, now) && Balanced(r, ledger)
  {
    if lots != [] {
      EligibleExact(lots[1..], ledger, now);
      var rest := EligibleRows(lots[1..], ledger, now);
      assert lots == [lots[0]] + lots[1..];
      forall r | r in rest ensures r.lot.id != lots[0].id {
        assert r.lot in lots[1..];
      }
      var all := EligibleRows(lots, ledger, now);
      if |all| > |rest| {
        assert all[1..] == rest;
        assert all == [all[0]] + rest;
      } else {
        assert all == rest;
      }
    }
  }

  /** The rows a reservation sees. */
  function Candidates(b: Books, now: int): seq<Row> {
    OrderBy(EligibleRows(b.lots, b.ledger, now))
  }

  lemma CandidatesExact(b: Books, now: int)
    requires LotsOk(b.lots)
    ensures Sorted(Candidates(b, now)) && NoDuplicates(Candidates(b, now))
    ensures forall r :: r in Candidates(b, now) <==> r.lot in b.lots && Live(r.lot, now) && Balanced(r, b.ledger)
  {
    var rows := EligibleRows(b.lots, b.ledger, now);
    EligibleExact(b.lots, b.ledger, now);
    OrderBySorted(rows);
    OrderByNoDuplicates(rows);
    forall r ensures r in Candidates(b, now) <==> r in rows {
      assert r in Candidates(b, now) <==> r in multiset(Candidates(b, now));
      assert r in rows <==> r in multiset(rows);
    }
  }

  // ---------------------------------------------------------------------------------------------
  // The greedy loop

  ghost predicate Feasible(rows: seq<Row>, currency: string, amounts: seq<int>, total: int) {
    && |amounts| == |rows|
    && Sum(amounts) == total
    && forall i :: 0 <= i < |rows| ==>
         0 <= amounts[i] <= (if rows[i].lot.currency == currency then rows[i].available else 0)
  }

  ghost predicate Positive(rows: seq<Row>) {
    forall i :: 0 <= i < |rows| ==> rows[i].available > 0
  }

  function Capacity(rows: seq<Row>, currency: string): int {
    if rows == [] then 0
    else (if rows[0].lot.currency == currency then rows[0].available else 0) + Capacity(rows[1..], currency)
  }

  /** The loop takes as much as it can, up to what is asked. */
  lemma {:induction false} TakeExact(rows: seq<Row>, currency: string, remaining: int)
    requires Positive(rows) && remaining >= 0
    ensures Capacity(rows, currency) >= 0
    ensures Feasible(rows, currency, Take(rows, currency, remaining), Min(remaining, Capacity(rows, currency)))
  {
    if rows != [] {
      var amount := Max(0, if rows[0].lot.currency == currency then Min(remaining, rows[0].available) else 0);
      TakeExact(rows[1..], currency, remaining - amount);
      var amounts := Take(rows, currency, remaining);
      assert amounts[1..] == Take(rows[1..], currency, remaining - amount);
      forall i | 0 <= i < |rows|
        ensures 0 <= amounts[i] <= (if rows[i].lot.currency == currency then rows[i].available else 0)
      {
        if i > 0 { assert amounts[i] == amounts[1..][i - 1] && rows[i] == rows[1..][i - 1]; }
      }
    }
  }

  /** A row contributes only when every earlier row of the currency is drained. */
  lemma {:induction false} TakeDrains(rows: seq<Row>, currency: string, remaining: int, i: nat, j: nat)
    requires Positive(rows) && remaining >= 0 && i < j < |rows|
    requires rows[i].lot.currency == currency && Take(rows, currency, remaining)[j] > 0
    ensures Take(rows, currency, remaining)[i] == rows[i].available
  {
    var amount := Max(0, if rows[0].lot.currency == currency then Min(remaining, rows[0].available) else 0);
    var rest := Take(rows[1..], currency, remaining - amount);
    assert Take(rows, currency, remaining)[1..] == rest;
    if i > 0 {
      TakeDrains(rows[1..], currency, remaining - amount, i - 1, j - 1);
    } else if remaining - amount == 0 {
      TakeNothing(rows[1..], currency, j - 1);
    }
  }

  lemma {:induction false} TakeNothing(rows: seq<Row>, currency: string, j: nat)
    requires Positive(rows) && j < |rows|
    ensures Take(rows, currency, 0)[j] == 0
  {
    if j > 0 { TakeNothing(rows[1..], currency, j - 1); }
  }

  function KindPart(rows: seq<Row>, amounts: seq<int>, kind: Kind): int
    requires |rows| == |amounts|
  {
    if rows == [] then 0
    else (if rows[0].lot.kind == kind then amounts[0] else 0) + KindPart(rows[1..], amounts[1..], kind)
  }

  lemma {:induction false} KindPartsSum(rows: seq<Row>, amounts: seq<int>)
    requires |rows| == |amounts|
    ensures KindPart(rows, amounts, Paid) + KindPart(rows, amounts, Promotional) == Sum(amounts)
  {
    if rows != [] { KindPartsSum(rows[1..], amounts[1..]); }
  }

  function PromoCapacity(rows: seq<Row>, currency: string): int {
    if rows == [] then 0
    else (if rows[0].lot.kind == Promotional && rows[0].lot.currency == currency then rows[0].available else 0) +
         PromoCapacity(rows[1..], currency)
  }

  lemma {:induction false} PromoBound(rows: seq<Row>, currency: string, amounts: seq<int>)
    requires |rows| == |amounts|
    requires forall i :: 0 <= i < |rows| ==>
      0 <= amounts[i] <= (if rows[i].lot.currency == currency then rows[i].available else 0)
    ensures 0 <= KindPart(rows, amounts, Promotional) <= PromoCapacity(rows, currency)
    ensures KindPart(rows, amounts, Paid) >= 0
  {
    if rows != [] { PromoBound(rows[1..], currency, amounts[1..]); }
  }

  lemma {:induction false} PaidTailHasNoPromo(rows: seq<Row>, currency: string)
    requires forall i :: 0 <= i < |rows| ==> rows[i].lot.kind == Paid
    ensures PromoCapacity(rows, currency) == 0
  {
    if rows != [] { PaidTailHasNoPromo(rows[1..], currency); }
  }

  /** Promotional lots come first, so greedy draining uses all the promotional credit it can. */
  lemma {:induction false} TakePromoFirst(rows: seq<Row>, currency: string, remaining: int)
    requires Sorted(rows) && Positive(rows) && remaining >= 0
    ensures PromoCapacity(rows, currency) >= 0
    ensures KindPart(rows, Take(rows, currency, remaining), Promotional) == Min(remaining, PromoCapacity(rows, currency))
  {
    if rows != [] {
      var amount := Max(0, if rows[0].lot.currency == currency then Min(remaining, rows[0].available) else 0);
      TakePromoFirst(rows[1..], currency, remaining - amount);
      assert Take(rows, currency, remaining)[1..] == Take(rows[1..], currency, remaining - amount);
      if rows[0].lot.kind == Paid {
        forall i | 0 <= i < |rows| ensures rows[i].lot.kind == Paid {
          if i > 0 { assert !RowBefore(rows[i].lot, rows[0].lot); }
        }
        PaidTailHasNoPromo(rows[1..], currency);
      }
    }
  }

  /** No other way to raise `total` from the same rows uses less paid credit. */
  lemma LeastPaidCredit(rows: seq<Row>, currency: string, total: int, other: seq<int>)
    requires Sorted(rows) && Positive(rows) && total >= 0
    requires Feasible(rows, currency, other, total)
    ensures Feasible(rows, currency, Take(rows, currency, total), total)
    ensures KindPart(rows, Take(rows, currency, total), Paid) <= KindPart(rows, other, Paid)
  {
    var greedy := Take(rows, currency, total);
    TakeExact(rows, currency, total);
    FeasibleWithinCapacity(rows, currency, other);
    TakePromoFirst(rows, currency, total);
    KindPartsSum(rows, greedy);
    KindPartsSum(rows, other);
    PromoBound(rows, currency, other);
  }

  lemma {:induction false} FeasibleWithinCapacity(rows: seq<Row>, currency: string, amounts: seq<int>)
    requires |rows| == |amounts|
    requires forall i :: 0 <= i < |rows| ==>
      0 <= amounts[i] <= (if rows[i].lot.currency == currency then rows[i].available else 0)
    ensures Sum(amounts) <= Capacity(rows, currency)
  {
    if rows != [] { FeasibleWithinCapacity(rows[1..], currency, amounts[1..]); }
  }

  // ---------------------------------------------------------------------------------------------
  // The allocation rows and their ledger entries

  ghost predicate NewAllocation(a: Allocation, ids: set<string>) {
    AllocationOk(a) && a.settled == a.released == 0 && a.lot in ids
  }

  lemma {:induction false} AllocationsOk(rows: seq<Row>, amounts: seq<int>)
    requires |rows| == |amounts| && NoDuplicates(rows)
    ensures forall i :: 0 <= i < |Allocations(rows, amounts)| ==> NewAllocation(Allocations(rows, amounts)[i], RowIds(rows))
    ensures DistinctLots(Allocations(rows, amounts))
  {
    if rows != [] {
      AllocationsOk(rows[1..], amounts[1..]);
      var rest := Allocations(rows[1..], amounts[1..]);
      var all := Allocations(rows, amounts);
      assert RowIds(rows[1..]) <= RowIds(rows);
      forall i | 0 <= i < |rest| ensures NewAllocation(rest[i], RowIds(rows)) && rest[i].lot != rows[0].lot.id {
        assert NewAllocation(rest[i], RowIds(rows[1..]));
      }
      if amounts[0] > 0 {
        assert all == [Allocation(rows[0].lot.id, amounts[0], 0, 0)] + rest;
        assert rows[0] in rows;
      } else {
        assert all == rest;
      }
    }
  }

  lemma {:induction false} AllocationsTotal(rows: seq<Row>, amounts: seq<int>)
    requires |rows| == |amounts|
    requires forall i :: 0 <= i < |amounts| ==> amounts[i] >= 0
    ensures AllocationTally(Allocations(rows, amounts), Held, ALL) == Sum(amounts)
    ensures AllocationTally(Allocations(rows, amounts), Consumed, ALL) == 0
    ensures AllocationTally(Allocations(rows, amounts), Freed, ALL) == 0
  {
    if rows != [] {
      AllocationsTotal(rows[1..], amounts[1..]);
      var rest := Allocations(rows[1..], amounts[1..]);
      var all := Allocations(rows, amounts);
      if amounts[0] > 0 { assert all[1..] == rest; } else { assert all == rest; }
    }
  }

  /** What a reservation takes from one lot is within what that lot had. */
  lemma {:induction false} AllocatedWithinLot(rows: seq<Row>, amounts: seq<int>, ledger: seq<Entry>, id: string)
    requires |rows| == |amounts| && NoDuplicates(rows)
    requires forall i :: 0 <= i < |rows| ==> Balanced(rows[i], ledger) && 0 <= amounts[i] <= rows[i].available
    ensures 0 <= AllocationTally(Allocations(rows, amounts), Held, OneLot(id))
    ensures id in RowIds(rows) ==>
      AllocationTally(Allocations(rows, amounts), Held, OneLot(id)) <= Tally(ledger, Available, OneLot(id))
    ensures id !in RowIds(rows) ==> AllocationTally(Allocations(rows, amounts), Held, OneLot(id)) == 0
  {
    if rows != [] {
      AllocatedWithinLot(rows[1..], amounts[1..], ledger, id);
      assert rows == [rows[0]] + rows[1..];
      var all := Allocations(rows, amounts);
      var rest := Allocations(rows[1..], amounts[1..]);
      if amounts[0] > 0 { assert all[1..] == rest; } else { assert all == rest; }
      assert id in RowIds(rows) <==> id == rows[0].lot.id || id in RowIds(rows[1..]);
    }
  }

  lemma {:induction false} HoldEntriesTally(
    key: string, currency: string, allocations: seq<Allocation>, view: View, scope: Scope)
    requires forall i :: 0 <= i < |allocations| ==> allocations[i].settled == allocations[i].released == 0
    ensures IsHolding(view) ==>
      Tally(HoldEntries(key, currency, allocations), view, scope) ==
      if scope.HasReservation(Some(ReservationId(key))) then AllocationTally(allocations, view, scope) else 0
    ensures scope.reservation.None? ==>
      Tally(HoldEntries(key, currency, allocations), Available, scope) == -AllocationTally(allocations, Held, scope)
  {
    if allocations != [] {
      var entries := HoldEntries(key, currency, allocations);
      var rest := HoldEntries(key, currency, allocations[1..]);
      HoldEntriesTally(key, currency, allocations[1..], view, scope);
      assert entries == [entries[0]] + rest;
      TallyConcat([entries[0]], rest, view, scope);
      TallyConcat([entries[0]], rest, Available, scope);
      TallySingle(entries[0], view, scope);
      TallySingle(entries[0], Available, scope);
    }
  }

  lemma {:induction false} HoldEntriesOk(key: string, currency: string, allocations: seq<Allocation>)
    requires forall i :: 0 <= i < |allocations| ==> AllocationOk(allocations[i])
    requires DistinctLots(allocations)
    ensures |HoldEntries(key, currency, allocations)| == |allocations|
    ensures forall i :: 0 <= i < |allocations| ==>
      var e := HoldEntries(key, currency, allocations)[i];
      EntryOk(e) && e.lot == allocations[i].lot && e.key == key + ":lot:" + allocations[i].lot
    ensures forall i, j :: 0 <= i < j < |allocations| ==>
      HoldEntries(key, currency, allocations)[i].key != HoldEntries(key, currency, allocations)[j].key
  {
    if allocations != [] {
      HoldEntriesOk(key, currency, allocations[1..]);
      var entries := HoldEntries(key, currency, allocations);
      assert entries[1..] == HoldEntries(key, currency, allocations[1..]);
      forall i | 0 <= i < |allocations|
        ensures EntryOk(entries[i]) && entries[i].lot == allocations[i].lot && entries[i].key == key + ":lot:" + allocations[i].lot
      {
        if i > 0 { assert entries[i] == entries[1..][i - 1]; }
      }
      forall i, j | 0 <= i < j < |allocations| ensures entries[i].key != entries[j].key {
        if entries[i].key == entries[j].key {
          PrefixInjective(key + ":lot:", allocations[i].lot, allocations[j].lot);
          assert false;
        }
      }
    }
  }

  // ---------------------------------------------------------------------------------------------
  // The whole operation

  /** A reservation that goes through is new: it was not already recorded under its key. */
  predicate Granted(b: Books, input: ReserveInput) {
    Reserve(b, input).Done? && Find(b.reservations, (r: Reservation) => r.key == input.key).None?
  }

  /**
   A granted reservation allocates exactly its maximum, takes no lot below zero, leaves the
   aggregate non-negative, and no other split of the maximum over the eligible lots of the catalog
   currency uses less paid credit.
   */
  lemma ReservationExact(b: Books, input: ReserveInput)
    requires LotsOk(b.lots) && Granted(b, input)
    ensures
      var b' := Reserve(b, input).books;
      var rows := Candidates(b, input.now);
      var currency := input.catalog.value.currency;
      var amounts := Take(rows, currency, Maximum(input));
      && |b'.reservations| == |b.reservations| + 1
      && var r := b'.reservations[|b.reservations|];
      && r.maximum == Maximum(input) == Sum(amounts)
      && r.allocations == Allocations(rows, amounts)
      && AllocationTally(r.allocations, Held, ALL) == r.maximum
      && Tally(b'.ledger, Available, ALL) == Tally(b.ledger, Available, ALL) - r.maximum >= 0
      && (forall id :: id in RowIds(rows) ==>
            0 <= Tally(b'.ledger, Available, OneLot(id)) <= Tally(b.ledger, Available, OneLot(id)))
      && (forall id :: id !in RowIds(rows) ==>
            Tally(b'.ledger, Available, OneLot(id)) == Tally(b.ledger, Available, OneLot(id)))
      && (forall other :: Feasible(rows, currency, other, r.maximum) ==>
            KindPart(rows, amounts, Paid) <= KindPart(rows, other, Paid))
  {
    var b' := Reserve(b, input).books;
    var rows := Candidates(b, input.now);
    var currency := input.catalog.value.currency;
    var total := Maximum(input);
    var amounts := Take(rows, currency, total);
    var allocations := Allocations(rows, amounts);
    var entries := HoldEntries(input.key, currency, allocations);
    CandidatesExact(b, input.now);
    assert Positive(rows) by {
      forall i | 0 <= i < |rows| ensures rows[i].available > 0 { assert rows[i] in rows; }
    }
    TakeExact(rows, currency, total);
    AllocationsOk(rows, amounts);
    AllocationsTotal(rows, amounts);
    forall i | 0 <= i < |allocations| ensures allocations[i].settled == allocations[i].released == 0 {
      assert NewAllocation(allocations[i], RowIds(rows));
    }
    TallyConcat(b.ledger, entries, Available, ALL);
    HoldEntriesTally(input.key, currency, allocations, Held, ALL);
    forall id
      ensures id in RowIds(rows) ==>
        0 <= Tally(b'.ledger, Available, OneLot(id)) <= Tally(b.ledger, Available, OneLot(id))
      ensures id !in RowIds(rows) ==>
        Tally(b'.ledger, Available, OneLot(id)) == Tally(b.ledger, Available, OneLot(id))
    {
      TallyConcat(b.ledger, entries, Available, OneLot(id));
      HoldEntriesTally(input.key, currency, allocations, Held, OneLot(id));
      forall i | 0 <= i < |rows| ensures Balanced(rows[i], b.ledger) { assert rows[i] in rows; }
      AllocatedWithinLot(rows, amounts, b.ledger, id);
    }
    forall other | Feasible(rows, currency, other, total)
      ensures KindPart(rows, amounts, Paid) <= KindPart(rows, other, Paid)
    {
      LeastPaidCredit(rows, currency, total, other);
    }
  }

  /**
   A reservation is refused for lack of credit exactly when the aggregate, or the eligible lots of
   the catalog currency, cannot cover it.
   */
  lemma InsufficientExactly(b: Books, input: ReserveInput)
    requires LotsOk(b.lots) && Find(b.reservations, (r: Reservation) => r.key == input.key).None?
    requires input.catalog.Some? && Maximum(input) > 0
    ensures Reserve(b, input) in {Rejected(CreditInsufficient), Rejected(NegativeBalanceForbidden)} <==>
      (|| Tally(b.ledger, Available, ALL) < Maximum(input)
       || Capacity(Candidates(b, input.now), input.catalog.value.currency) < Maximum(input))
  {
    var rows := Candidates(b, input.now);
    CandidatesExact(b, input.now);
    assert Positive(rows) by {
      forall i | 0 <= i < |rows| ensures rows[i].available > 0 { assert rows[i] in rows; }
    }
    TakeExact(rows, input.catalog.value.currency, Maximum(input));
  }
}

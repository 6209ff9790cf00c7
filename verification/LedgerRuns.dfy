/** The invariant over every run of the ledger, and what it makes true of the reported balances. */
module LedgerRuns {
  import opened Prelude
  import opened Ledger
  import opened LedgerInvariants
  import opened LedgerReservations

  // ---------------------------------------------------------------------------------------------
  // Each transaction keeps the invariant

  lemma UpsertKeepsLots(lots: seq<Lot>, input: LotInput)
    requires LotsOk(lots) && input.credits > 0 && input.cash >= 0 && UpsertLot(lots, input).Some?
    ensures LotsOk(UpsertLot(lots, input).value)
    ensures forall id :: HasLotId(lots, id) ==> HasLotId(UpsertLot(lots, input).value, id)
  {
    var after := UpsertLot(lots, input).value;
    forall id | HasLotId(lots, id) ensures HasLotId(after, id) {
      var i :| 0 <= i < |lots| && lots[i].id == id;
      assert after[i].id == id;
    }
  }

  /** Appending an entry that holds nothing leaves every holding as it was. */
  lemma AppendKeepsLedger(b: Books, lots: seq<Lot>, e: Entry)
    requires Inv(b) && LotsOk(lots) && forall id :: HasLotId(b.lots, id) ==> HasLotId(lots, id)
    requires EntryOk(e) && HasLotId(lots, e.lot) && e.kind !in {Hold, Release, Usage}
    ensures Inv(b.(lots := lots, ledger := Append(b.ledger, e)))
  {
    var b' := b.(lots := lots, ledger := Append(b.ledger, e));
    forall view, scope | IsHolding(view)
      ensures Tally(b'.ledger, view, scope) == RowsTally(b'.reservations, view, scope)
    {
      TallyConcat(b.ledger, [e], view, scope);
      TallySingle(e, view, scope);
      assert Tally(b.ledger, view, scope) == RowsTally(b.reservations, view, scope);
    }
  }

  lemma CreateLotKeeps(b: Books, input: LotInput)
    requires Inv(b) && CreateLot(b, input).Done?
    ensures Inv(CreateLot(b, input).books)
  {
    var lots := UpsertLot(b.lots, input).value;
    var row := lots[PickRow(lots, LotIdOf(input), input.reference, input.pick)];
    UpsertKeepsLots(b.lots, input);
    AppendKeepsLedger(b, lots, LotEntry(input, row.id));
  }

  lemma LifecycleKeeps(b: Books, input: LifecycleInput)
    requires Inv(b) && Lifecycle(b, input).Done?
    ensures Inv(Lifecycle(b, input).books)
  {
    var b' := Lifecycle(b, input).books;
    forall id | HasLotId(b.lots, id) ensures HasLotId(b'.lots, id) {
      var i :| 0 <= i < |b.lots| && b.lots[i].id == id;
      assert b'.lots[i].id == id;
    }
    var found := FirstMatch(b.lots, input.lot, input.reference);
    var row := if found.None? && input.reference.Some?
      then Find(b'.lots, (l: Lot) => l.reference == input.reference) else found;
    AppendKeepsLedger(b, b'.lots, LifecycleEntry(input, b'.lots[row.value].id));
  }

  lemma ExtendLedgerOk(ledger: seq<Entry>, lots: seq<Lot>, entries: seq<Entry>)
    requires LedgerOk(ledger, lots) && Fresh(ledger, entries)
    requires forall i :: 0 <= i < |entries| ==> EntryOk(entries[i]) && HasLotId(lots, entries[i].lot)
    requires forall i, j :: 0 <= i < j < |entries| ==> entries[i].key != entries[j].key
    ensures LedgerOk(ledger + entries, lots)
  {
    var all := ledger + entries;
    forall i, j | 0 <= i < j < |all| ensures all[i].key != all[j].key {
      if i < |ledger| <= j {
        assert !HasKey(ledger, entries[j - |ledger|].key);
      }
    }
  }

  lemma NewAllocationsSound(b: Books, now: int, currency: string, total: int)
    requires LotsOk(b.lots) && total > 0
    ensures
      var amounts := Take(Candidates(b, now), currency, total);
      var allocations := Allocations(Candidates(b, now), amounts);
      && (forall i :: 0 <= i < |allocations| ==> AllocationOk(allocations[i]))
      && (forall i :: 0 <= i < |allocations| ==> allocations[i].settled == allocations[i].released == 0)
      && (forall i :: 0 <= i < |allocations| ==> HasLotId(b.lots, allocations[i].lot))
      && DistinctLots(allocations)
      && AllocationTally(allocations, Held, ALL) == Sum(amounts) <= total
      && AllocationTally(allocations, Consumed, ALL) == AllocationTally(allocations, Freed, ALL) == 0
  {
    var rows := Candidates(b, now);
    var amounts := Take(rows, currency, total);
    var allocations := Allocations(rows, amounts);
    CandidatesExact(b, now);
    AllocationsOk(rows, amounts);
    assert Positive(rows) by {
      forall i | 0 <= i < |rows| ensures rows[i].available > 0 { assert rows[i] in rows; }
    }
    TakeExact(rows, currency, total);
    AllocationsTotal(rows, amounts);
    forall i | 0 <= i < |allocations|
      ensures AllocationOk(allocations[i]) && allocations[i].settled == allocations[i].released == 0
      ensures HasLotId(b.lots, allocations[i].lot)
    {
      assert NewAllocation(allocations[i], RowIds(rows));
      var row :| row in rows && row.lot.id == allocations[i].lot;
      var k :| 0 <= k < |b.lots| && b.lots[k] == row.lot;
    }
  }

  /** Books grow soundly by a reservation and the hold entries of its allocations. */
  lemma HoldKeeps(b: Books, r: Reservation, entries: seq<Entry>)
    requires Inv(b) && ReservationOk(r) && entries == HoldEntries(r.key, r.currency, r.allocations)
    requires forall i :: 0 <= i < |b.reservations| ==> b.reservations[i].key != r.key
    requires forall i :: 0 <= i < |r.allocations| ==>
      r.allocations[i].settled == r.allocations[i].released == 0 && HasLotId(b.lots, r.allocations[i].lot)
    requires Fresh(b.ledger, entries)
    ensures Inv(b.(ledger := b.ledger + entries, reservations := b.reservations + [r]))
  {
    var b' := b.(ledger := b.ledger + entries, reservations := b.reservations + [r]);
    HoldEntriesOk(r.key, r.currency, r.allocations);
    ExtendLedgerOk(b.ledger, b.lots, entries);
    forall view, scope | IsHolding(view)
      ensures Tally(b'.ledger, view, scope) == RowsTally(b'.reservations, view, scope)
    {
      TallyConcat(b.ledger, entries, view, scope);
      HoldEntriesTally(r.key, r.currency, r.allocations, view, scope);
      RowsTallyConcat(b.reservations, [r], view, scope);
      assert Tally(b.ledger, view, scope) == RowsTally(b.reservations, view, scope);
      assert [r][1..] == [];
    }
  }

  lemma ReserveKeeps(b: Books, input: ReserveInput)
    requires Inv(b) && Granted(b, input)
    ensures Inv(Reserve(b, input).books)
  {
    var currency := input.catalog.value.currency;
    var amounts := Take(Candidates(b, input.now), currency, Maximum(input));
    var allocations := Allocations(Candidates(b, input.now), amounts);
    var r := Reservation(ReservationId(input.key), input.key, currency, Maximum(input), 0, 0, Reserved, 1, allocations);
    var entries := HoldEntries(input.key, currency, allocations);
    NewAllocationsSound(b, input.now, currency, Maximum(input));
    assert Reserve(b, input).books == b.(ledger := b.ledger + entries, reservations := b.reservations + [r]);
    HoldKeeps(b, r, entries);
  }

  predicate SettleKey(key: string, lot: string, text: string) {
    text == key + ":settle:" + lot || text == key + ":release:" + lot
  }

  lemma SettleKeysApart(key: string, lot: string, other: string, text: string)
    requires SettleKey(key, lot, text) && SettleKey(key, other, text)
    ensures lot == other
  {
    var s, r := ":settle:", ":release:";
    assert (key + s + lot)[|key| + 1] == 's' && (key + s + other)[|key| + 1] == 's';
    assert (key + r + lot)[|key| + 1] == 'r' && (key + r + other)[|key| + 1] == 'r';
    if text == key + s + lot {
      PrefixInjective(key + s, lot, other);
    } else {
      PrefixInjective(key + r, lot, other);
    }
  }

  ghost predicate SettleEntryOk(e: Entry, key: string) {
    EntryOk(e) && SettleKey(key, e.lot, e.key)
  }

  lemma {:induction false} SettleEntriesOk(key: string, r: Reservation, allocations: seq<Allocation>, cuts: seq<Cut>)
    requires |allocations| == |cuts| && DistinctLots(allocations)
    ensures forall i :: 0 <= i < |SettleEntries(key, r, allocations, cuts)| ==>
      var e := SettleEntries(key, r, allocations, cuts)[i];
      SettleEntryOk(e, key) && exists k :: 0 <= k < |allocations| && allocations[k].lot == e.lot
    ensures forall i, j :: 0 <= i < j < |SettleEntries(key, r, allocations, cuts)| ==>
      SettleEntries(key, r, allocations, cuts)[i].key != SettleEntries(key, r, allocations, cuts)[j].key
  {
    if allocations != [] {
      var head := CutEntries(key, r, allocations[0], cuts[0]);
      var rest := SettleEntries(key, r, allocations[1..], cuts[1..]);
      var all := SettleEntries(key, r, allocations, cuts);
      SettleEntriesOk(key, r, allocations[1..], cuts[1..]);
      assert all == head + rest;
      forall i | 0 <= i < |head| ensures SettleEntryOk(head[i], key) && head[i].lot == allocations[0].lot {}
      forall i | 0 <= i < |rest|
        ensures SettleEntryOk(rest[i], key) && exists k :: 1 <= k < |allocations| && allocations[k].lot == rest[i].lot
      {
        var k :| 0 <= k < |allocations[1..]| && allocations[1..][k].lot == rest[i].lot;
        assert allocations[k + 1].lot == rest[i].lot;
      }
      forall i, j | 0 <= i < j < |all| ensures all[i].key != all[j].key {
        if j < |head| {
          assert (key + ":settle:" + allocations[0].lot)[|key| + 1] == 's';
          assert (key + ":release:" + allocations[0].lot)[|key| + 1] == 'r';
        } else if i < |head| && all[i].key == all[j].key {
          assert all[j] == rest[j - |head|];
          SettleKeysApart(key, all[i].lot, all[j].lot, all[i].key);
          assert false;
        }
      }
    }
  }

  /** A settlement that goes through is new: neither of its keys was recorded. */
  predicate Accepted(b: Books, input: SettleInput) {
    Settle(b, input).Done? &&
    Find(b.settlements, (s: Settlement) => s.key == input.key || s.usageKey == input.usageKey).None?
  }

  /** Every lot an allocation names holds a ledger entry, so it is a known lot. */
  lemma AllocatedLotKnown(b: Books, i: nat, k: nat)
    requires Inv(b) && i < |b.reservations| && k < |b.reservations[i].allocations|
    requires b.reservations[i].allocations[k].Unresolved() > 0
    ensures HasLotId(b.lots, b.reservations[i].allocations[k].lot)
  {
    var r := b.reservations[i];
    var id := r.allocations[k].lot;
    var scope := OneLot(id);
    AllocationShows(r.allocations, k);
    RowShows(b.reservations, i, scope);
    assert Tally(b.ledger, Held, scope) == RowsTally(b.reservations, Held, scope);
    TallyShows(b.ledger, id);
  }

  lemma {:induction false} AllocationShows(allocations: seq<Allocation>, k: nat)
    requires k < |allocations| && forall i :: 0 <= i < |allocations| ==> AllocationOk(allocations[i])
    ensures AllocationTally(allocations, Held, OneLot(allocations[k].lot)) >= allocations[k].Unresolved()
  {
    AllocationTallyNonNegative(allocations[1..], Held, OneLot(allocations[k].lot));
    if k > 0 { AllocationShows(allocations[1..], k - 1); }
  }

  lemma {:induction false} RowShows(rs: seq<Reservation>, i: nat, scope: Scope)
    requires i < |rs| && forall k :: 0 <= k < |rs| ==> ReservationOk(rs[k])
    ensures RowsTally(rs, Held, scope) >= ReservationTally(rs[i], Held, scope)
  {
    RowsTallyNonNegative(rs[1..], Held, scope);
    AllocationTallyNonNegative(rs[0].allocations, Held, scope);
    if i > 0 { RowShows(rs[1..], i - 1, scope); }
  }

  lemma {:induction false} TallyShows(ledger: seq<Entry>, id: string)
    requires Tally(ledger, Held, OneLot(id)) > 0
    ensures exists i :: 0 <= i < |ledger| && ledger[i].lot == id
  {
    var last := ledger[|ledger| - 1];
    if last.lot != id {
      TallyShows(ledger[..|ledger| - 1], id);
      var i :| 0 <= i < |ledger| - 1 && ledger[..|ledger| - 1][i].lot == id;
      assert ledger[i].lot == id;
    }
  }

  lemma {:induction false} ChargedLotHadRoom(key: string, r: Reservation, allocations: seq<Allocation>, cuts: seq<Cut>, i: nat)
    requires |allocations| == |cuts| && i < |SettleEntries(key, r, allocations, cuts)|
    requires forall k :: 0 <= k < |cuts| ==>
      cuts[k].measured >= 0 && cuts[k].released >= 0 && cuts[k].measured + cuts[k].released <= allocations[k].Unresolved()
    ensures exists k :: (
      0 <= k < |allocations| && allocations[k].Unresolved() > 0 &&
      allocations[k].lot == SettleEntries(key, r, allocations, cuts)[i].lot)
  {
    var head := CutEntries(key, r, allocations[0], cuts[0]);
    if i < |head| {
      assert SettleEntries(key, r, allocations, cuts)[i] == head[i];
    } else {
      ChargedLotHadRoom(key, r, allocations[1..], cuts[1..], i - |head|);
      var rest := SettleEntries(key, r, allocations[1..], cuts[1..]);
      var k :| 0 <= k < |allocations[1..]| && allocations[1..][k].lot == rest[i - |head|].lot && allocations[1..][k].Unresolved() > 0;
      assert allocations[k + 1].lot == SettleEntries(key, r, allocations, cuts)[i].lot;
    }
  }

  lemma SettleKeeps(b: Books, input: SettleInput)
    requires Inv(b) && Accepted(b, input)
    ensures Inv(Settle(b, input).books)
  {
    var b' := Settle(b, input).books;
    var i := Find(b.reservations, (r: Reservation) => r.id == input.reservation).value;
    var r := b.reservations[i];
    var r' := b'.reservations[i];
    var release := ReleaseOf(r, input);
    var cuts := Spread(r.allocations, input.measured, release);
    var entries := SettleReservation(r, input).1;
    SettledReservationOk(r, input);
    SpreadExact(r.allocations, input.measured, release);
    SettleEntriesOk(input.key, r, r.allocations, cuts);
    forall n | 0 <= n < |entries| ensures EntryOk(entries[n]) && HasLotId(b.lots, entries[n].lot) {
      ChargedLotHadRoom(input.key, r, r.allocations, cuts, n);
      var k :| 0 <= k < |r.allocations| && r.allocations[k].lot == entries[n].lot && r.allocations[k].Unresolved() > 0;
      AllocatedLotKnown(b, i, k);
      assert SettleEntryOk(entries[n], input.key);
    }
    ExtendLedgerOk(b.ledger, b.lots, entries);
    forall view, scope | IsHolding(view)
      ensures Tally(b'.ledger, view, scope) == RowsTally(b'.reservations, view, scope)
    {
      TallyConcat(b.ledger, entries, view, scope);
      SettleEntriesTally(input.key, r, r.allocations, cuts, view, scope);
      RowsTallyUpdate(b.reservations, i, r', view, scope);
      assert Tally(b.ledger, view, scope) == RowsTally(b.reservations, view, scope);
    }
  }

  lemma StepKeeps(b: Books, c: Command)
    requires Inv(b)
    ensures Inv(Step(b, c))
  {
    if Execute(b, c).Done? {
      match c
      case DoCreateLot(input) => CreateLotKeeps(b, input);
      case DoLifecycle(input) => LifecycleKeeps(b, input);
      case DoReserve(input) => if Granted(b, input) { ReserveKeeps(b, input); }
      case DoSettle(input) => if Accepted(b, input) { SettleKeeps(b, input); }
    }
  }

  /** Every run, from the empty books or from any sound books, stays sound. */
  lemma {:induction false} RunKeeps(b: Books, commands: seq<Command>)
    requires Inv(b)
    ensures Inv(Run(b, commands))
    decreases |commands|
  {
    if commands != [] {
      StepKeeps(b, commands[0]);
      RunKeeps(Step(b, commands[0]), commands[1..]);
    }
  }

  // ---------------------------------------------------------------------------------------------
  // Reports

  datatype Balance = Balance(
    available: int, reserved: int, consumed: int,
    paidAvailable: int, promoAvailable: int, paidReserved: int, promoReserved: int)

  function CreditBalance(b: Books): Balance {
    Balance(
      Tally(b.ledger, Available, ALL),
      Max(0, Tally(b.ledger, Held, ALL)),
      Tally(b.ledger, Consumed, ALL),
      Tally(b.ledger, PaidAvailable, OfKind(b.lots, Paid)),
      Tally(b.ledger, PromoAvailable, OfKind(b.lots, Promotional)),
      Max(0, Tally(b.ledger, Held, OfKind(b.lots, Paid))),
      Max(0, Tally(b.ledger, Held, OfKind(b.lots, Promotional))))
  }

  /** The ledger's columns of the financial projection. */
  datatype Projection = Projection(
    cash: int, refunds: int, chargebacks: int, paidLiability: int, paidRevenue: int, promoConsumption: int)

  function FinancialProjection(b: Books): Projection {
    Projection(
      Tally(b.ledger, CashCollected, ALL),
      Tally(b.ledger, RefundCash, ALL),
      Tally(b.ledger, ChargebackCash, ALL),
      Tally(b.ledger, Liability, OfKind(b.lots, Paid)),
      Tally(b.ledger, Consumed, OfKind(b.lots, Paid)),
      Tally(b.ledger, Consumed, OfKind(b.lots, Promotional)))
  }

  function TotalUnresolved(rs: seq<Reservation>): int {
    if rs == [] then 0 else rs[0].Unresolved() + TotalUnresolved(rs[1..])
  }

  function TotalSettled(rs: seq<Reservation>): int {
    if rs == [] then 0 else rs[0].settled + TotalSettled(rs[1..])
  }

  lemma {:induction false} RowTotals(rs: seq<Reservation>)
    requires forall i :: 0 <= i < |rs| ==> ReservationOk(rs[i])
    ensures RowsTally(rs, Held, ALL) == TotalUnresolved(rs)
    ensures RowsTally(rs, Consumed, ALL) == TotalSettled(rs)
  {
    if rs != [] { RowTotals(rs[1..]); }
  }

  lemma {:induction false} TallyLaws(ledger: seq<Entry>, scope: Scope)
    ensures Tally(ledger, Available, scope) + Tally(ledger, Held, scope) + Tally(ledger, Consumed, scope) ==
            Tally(ledger, CreditsIn, scope) - Tally(ledger, Reversals, scope)
    ensures Tally(ledger, Liability, scope) == Tally(ledger, PaidAvailable, scope) + Tally(ledger, Held, scope)
  {
    if ledger != [] { TallyLaws(ledger[..|ledger| - 1], scope); }
  }

  lemma {:induction false} CashLaws(ledger: seq<Entry>, scope: Scope)
    requires forall i :: 0 <= i < |ledger| ==> EntryOk(ledger[i])
    ensures Tally(ledger, CashCollected, scope) ==
            Tally(ledger, CashIn, scope) - Tally(ledger, RefundCash, scope) - Tally(ledger, ChargebackCash, scope)
    ensures Tally(ledger, CashIn, scope) >= 0 && Tally(ledger, RefundCash, scope) >= 0 && Tally(ledger, ChargebackCash, scope) >= 0
  {
    if ledger != [] {
      assert EntryOk(ledger[|ledger| - 1]);
      CashLaws(ledger[..|ledger| - 1], scope);
    }
  }

  lemma KindsPartition(lots: seq<Lot>, id: string)
    requires LotsOk(lots) && HasLotId(lots, id)
    ensures id in KindIds(lots, Paid) <==> id !in KindIds(lots, Promotional)
  {
    var i :| 0 <= i < |lots| && lots[i].id == id;
    assert lots[i] in lots;
    assert id in KindIds(lots, lots[i].kind);
  }

  lemma {:induction false} TallyByKind(ledger: seq<Entry>, lots: seq<Lot>, view: View)
    requires LotsOk(lots) && LedgerOk(ledger, lots)
    ensures Tally(ledger, view, ALL) ==
            Tally(ledger, view, OfKind(lots, Paid)) + Tally(ledger, view, OfKind(lots, Promotional))
  {
    if ledger != [] {
      var last := ledger[|ledger| - 1];
      TallyByKind(ledger[..|ledger| - 1], lots, view);
      KindsPartition(lots, last.lot);
    }
  }

  /**
   In every reachable state: the clamps never act, reserved is what the reservation rows still owe,
   the columns conserve the credits and the cash that came in, and the paid liability is the paid
   credit that is available or reserved.
   */
  lemma {:induction false} ReportsAgree(commands: seq<Command>)
    ensures
      var b := Run(EMPTY, commands);
      var balance := CreditBalance(b);
      var projection := FinancialProjection(b);
      && balance.reserved == Tally(b.ledger, Held, ALL) == TotalUnresolved(b.reservations)
      && balance.consumed == TotalSettled(b.reservations) == projection.paidRevenue + projection.promoConsumption
      && balance.paidReserved == Tally(b.ledger, Held, OfKind(b.lots, Paid))
      && balance.promoReserved == Tally(b.ledger, Held, OfKind(b.lots, Promotional))
      && balance.reserved == balance.paidReserved + balance.promoReserved
      && balance.available + balance.reserved + balance.consumed ==
           Tally(b.ledger, CreditsIn, ALL) - Tally(b.ledger, Reversals, ALL)
      && projection.paidLiability == balance.paidAvailable + balance.paidReserved
      && projection.cash + projection.refunds + projection.chargebacks == Tally(b.ledger, CashIn, ALL)
      && projection.refunds >= 0 && projection.chargebacks >= 0
  {
    var b := Run(EMPTY, commands);
    RunKeeps(EMPTY, commands);
    RowTotals(b.reservations);
    HoldingsNonNegative(b, Held, ALL);
    HoldingsNonNegative(b, Held, OfKind(b.lots, Paid));
    HoldingsNonNegative(b, Held, OfKind(b.lots, Promotional));
    HoldingsNonNegative(b, Consumed, ALL);
    CashLaws(b.ledger, ALL);
    TallyByKind(b.ledger, b.lots, Held);
    TallyByKind(b.ledger, b.lots, Consumed);
    TallyLaws(b.ledger, ALL);
    TallyLaws(b.ledger, OfKind(b.lots, Paid));
  }

  /** For every set of lots and every reservation, the raw reserved, consumed and released sums are what the rows hold, and never negative. */
  lemma HoldingsNonNegative(b: Books, view: View, scope: Scope)
    requires Inv(b) && IsHolding(view)
    ensures Tally(b.ledger, view, scope) == RowsTally(b.reservations, view, scope) >= 0
  {
    RowsTallyNonNegative(b.reservations, view, scope);
  }

  /**
   Every accepted settlement of a reachable state is distributed exactly: the usage entries sum to
   the measured amount and the release entries to the released amount, in total over the lots of
   the reservation, a terminal one leaves nothing unresolved, and no other reservation moves.
   */
  lemma SettlementExact(b: Books, input: SettleInput)
    requires Inv(b) && Accepted(b, input)
    ensures
      var b' := Settle(b, input).books;
      var i := Find(b.reservations, (r: Reservation) => r.id == input.reservation).value;
      var r, r' := b.reservations[i], b'.reservations[i];
      var only := Scope(None, Some(r.id));
      && b'.reservations == b.reservations[i := r']
      && ReservationOk(r')
      && r'.settled == r.settled + input.measured
      && (input.terminal ==> r'.Unresolved() == 0)
      && (!input.terminal ==> r'.released == r.released)
      && Tally(b'.ledger, Consumed, only) - Tally(b.ledger, Consumed, only) == input.measured
      && Tally(b'.ledger, Freed, only) - Tally(b.ledger, Freed, only) == ReleaseOf(r, input)
      && Tally(b'.ledger, Available, ALL) == Tally(b.ledger, Available, ALL) + ReleaseOf(r, input)
  {
    var b' := Settle(b, input).books;
    var i := Find(b.reservations, (r: Reservation) => r.id == input.reservation).value;
    var r := b.reservations[i];
    var only := Scope(None, Some(r.id));
    var release := ReleaseOf(r, input);
    var cuts := Spread(r.allocations, input.measured, release);
    var entries := SettleReservation(r, input).1;
    SettledReservationOk(r, input);
    SpreadExact(r.allocations, input.measured, release);
    ChargedTotals(r.allocations, cuts);
    AllocationTallyLotless(r.allocations, Consumed, only);
    AllocationTallyLotless(r.allocations, Freed, only);
    AllocationTallyLotless(Charged(r.allocations, cuts), Consumed, only);
    AllocationTallyLotless(Charged(r.allocations, cuts), Freed, only);
    SettleEntriesTally(input.key, r, r.allocations, cuts, Consumed, only);
    SettleEntriesTally(input.key, r, r.allocations, cuts, Freed, only);
    TallyConcat(b.ledger, entries, Consumed, only);
    TallyConcat(b.ledger, entries, Freed, only);
    SettleEntriesTally(input.key, r, r.allocations, cuts, Freed, ALL);
    SettleEntriesFree(input.key, r, r.allocations, cuts);
    TallyConcat(b.ledger, entries, Available, ALL);
  }

  lemma {:induction false} AllocationTallyLotless(allocations: seq<Allocation>, view: View, scope: Scope)
    requires scope.lots.None?
    ensures AllocationTally(allocations, view, scope) == AllocationTally(allocations, view, ALL)
  {
    if allocations != [] { AllocationTallyLotless(allocations[1..], view, scope); }
  }

  /** Of a settlement's entries only the releases touch what is available. */
  lemma {:induction false} SettleEntriesFree(key: string, r: Reservation, allocations: seq<Allocation>, cuts: seq<Cut>)
    requires |allocations| == |cuts|
    ensures Tally(SettleEntries(key, r, allocations, cuts), Available, ALL) ==
            Tally(SettleEntries(key, r, allocations, cuts), Freed, ALL)
  {
    if allocations != [] {
      var head := CutEntries(key, r, allocations[0], cuts[0]);
      var rest := SettleEntries(key, r, allocations[1..], cuts[1..]);
      SettleEntriesFree(key, r, allocations[1..], cuts[1..]);
      TallyConcat(head, rest, Available, ALL);
      TallyConcat(head, rest, Freed, ALL);
      if |head| == 1 {
        TallySingle(head[0], Available, ALL);
        TallySingle(head[0], Freed, ALL);
        assert head == [head[0]];
      } else if |head| == 2 {
        assert head == [head[0]] + [head[1]];
        TallyConcat([head[0]], [head[1]], Available, ALL);
        TallyConcat([head[0]], [head[1]], Freed, ALL);
        TallySingle(head[0], Available, ALL);
        TallySingle(head[0], Freed, ALL);
        TallySingle(head[1], Available, ALL);
        TallySingle(head[1], Freed, ALL);
      }
    }
  }
}

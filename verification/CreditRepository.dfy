/** The billing repository as an object whose methods update its tables; every method refines its transaction. Soundness over
 runs is `LedgerRuns.RunKeeps`. */
module CreditRepository {
  import opened Prelude
  import opened Ledger
  import opened LedgerInvariants
  import opened LedgerReservations
  import opened LedgerRuns

  class Repository {
    var lots: seq<Lot>
    var ledger: seq<Entry>
    var reservations: seq<Reservation>
    var settlements: seq<Settlement>

    ghost function State(): Books
      reads this
    {
      Books(lots, ledger, reservations, settlements)
    }

    constructor ()
      ensures State() == EMPTY
    {
      lots, ledger, reservations, settlements := [], [], [], [];
    }

    method CreateCreditLot(input: LotInput) returns (error: Option<Error>)
      modifies this
      ensures State() == Step(old(State()), DoCreateLot(input))
      ensures error == match Execute(old(State()), DoCreateLot(input)) case Done(_) => None case Rejected(e) => Some(e)
    {
      if input.credits <= 0 || input.cash < 0 {
        return Some(CheckViolation);
      }
      var upserted := UpsertLot(lots, input);
      if upserted.None? {
        return Some(UniqueViolation);
      }
      lots := upserted.value;
      var row := lots[PickRow(lots, LotIdOf(input), input.reference, input.pick)];
      InsertIfNew(LotEntry(input, row.id));
      error := None;
    }

    /** INSERT … ON CONFLICT (idempotency_key) DO NOTHING. */
    method InsertIfNew(e: Entry)
      modifies this`ledger
      ensures ledger == Append(old(ledger), e)
    {
      for i := 0 to |ledger|
        invariant ledger == old(ledger)
        invariant forall k :: 0 <= k < i ==> ledger[k].key != e.key
      {
        if ledger[i].key == e.key {
          return;
        }
      }
      ledger := ledger + [e];
    }

    method AppendCreditLifecycle(input: LifecycleInput) returns (error: Option<Error>)
      modifies this
      ensures State() == Step(old(State()), DoLifecycle(input))
      ensures error == match Execute(old(State()), DoLifecycle(input)) case Done(_) => None case Rejected(e) => Some(e)
    {
      var table := lots;
      var row := FirstMatch(table, input.lot, input.reference);
      if row.None? && input.reference.Some? {
        table := WithPlaceholder(table, input);
        row := Find(table, (l: Lot) => l.reference == input.reference);
      }
      if row.None? {
        return Some(ReservationNotFound);
      }
      if table[row.value].currency != input.currency {
        return Some(CreditCurrencyMismatch);
      }
      if input.credits == 0 || input.cash < 0 {
        return Some(CheckViolation);
      }
      lots := table;
      InsertIfNew(LifecycleEntry(input, table[row.value].id));
      error := None;
    }

    method ReserveCredits(input: ReserveInput) returns (error: Option<Error>)
      modifies this
      ensures State() == Step(old(State()), DoReserve(input))
      ensures error == match Execute(old(State()), DoReserve(input)) case Done(_) => None case Rejected(e) => Some(e)
    {
      if Find(reservations, (r: Reservation) => r.key == input.key).Some? {
        return None;
      }
      var maximum := Maximum(input);
      if input.catalog.None? || maximum <= 0 {
        return Some(RetailPriceCatalogMissing);
      }
      var available := Tally(ledger, Available, ALL);
      if available < maximum {
        return Some(if available < 0 then NegativeBalanceForbidden else CreditInsufficient);
      }
      var currency := input.catalog.value.currency;
      var rows := OrderBy(EligibleRows(lots, ledger, input.now));
      var allocations, remaining := Drain(rows, currency, maximum);
      if remaining > 0 {
        return Some(CreditInsufficient);
      }
      var ok := Insertable(HoldEntries(input.key, currency, allocations));
      if !ok {
        return Some(UniqueViolation);
      }
      reservations := reservations + [Reservation(
        ReservationId(input.key), input.key, currency, maximum, 0, 0, Reserved, 1, allocations)];
      ledger := ledger + HoldEntries(input.key, currency, allocations);
      error := None;
    }

    /** Whether no unique key of the ledger stands in the way of these rows. */
    method Insertable(entries: seq<Entry>) returns (ok: bool)
      ensures ok == Fresh(ledger, entries)
    {
      for i := 0 to |entries|
        invariant forall k :: 0 <= k < i ==> !HasKey(ledger, entries[k].key)
      {
        if HasKey(ledger, entries[i].key) {
          return false;
        }
      }
      ok := true;
    }

    method SettleCredits(input: SettleInput) returns (error: Option<Error>)
      modifies this
      ensures State() == Step(old(State()), DoSettle(input))
      ensures error == match Execute(old(State()), DoSettle(input)) case Done(_) => None case Rejected(e) => Some(e)
    {
      if Find(settlements, (s: Settlement) => s.key == input.key || s.usageKey == input.usageKey).Some? {
        return None;
      }
      var at := Find(reservations, (r: Reservation) => r.id == input.reservation);
      if at.None? {
        return Some(ReservationNotFound);
      }
      var r := reservations[at.value];
      if input.measured > r.Unresolved() {
        return Some(SettlementExceedsReservation);
      }
      if input.measured < 0 {
        return Some(CheckViolation);
      }
      var release := if input.terminal then r.Unresolved() - input.measured else 0;
      var resolved, entries := Resolve(r, input, release);
      var ok := Insertable(entries);
      if !ok {
        return Some(UniqueViolation);
      }
      settlements := settlements + [Settlement(
        SettlementId(input.usageKey), r.id, input.key, input.usageKey, input.measured, release, input.terminal)];
      ledger := ledger + entries;
      reservations := reservations[at.value := resolved];
      error := None;
    }
  }

  /** The reservation row after a settlement, and the entries that go with it. */
  method Resolve(r: Reservation, input: SettleInput, release: int) returns (resolved: Reservation, entries: seq<Entry>)
    requires release == ReleaseOf(r, input)
    ensures (resolved, entries) == SettleReservation(r, input)
  {
    var charged, measuredLeft, releaseLeft;
    charged, entries, measuredLeft, releaseLeft := Distribute(r, input.key, input.measured, release);
    var nextSettled := r.settled + input.measured;
    var nextReleased := r.released + release;
    resolved := r.(
      settled := nextSettled, released := nextReleased,
      state := StateOf(r.maximum - nextSettled - nextReleased, nextSettled), version := r.version + 1,
      allocations := charged);
  }

  lemma {:induction false} NothingLeftToTake(rows: seq<Row>, currency: string)
    ensures Sum(Take(rows, currency, 0)) == 0
    ensures Allocations(rows, Take(rows, currency, 0)) == []
  {
    if rows != [] {
      NothingLeftToTake(rows[1..], currency);
      assert Take(rows, currency, 0)[1..] == Take(rows[1..], currency, 0);
    }
  }

  function Drained(rows: seq<Row>, currency: string, remaining: int): seq<Allocation> {
    Allocations(rows, Take(rows, currency, remaining))
  }

  function Raised(rows: seq<Row>, currency: string, remaining: int): int {
    Sum(Take(rows, currency, remaining))
  }

  /** The reservation loop: drain the rows in order until nothing remains. */
  method Drain(rows: seq<Row>, currency: string, maximum: int) returns (allocations: seq<Allocation>, remaining: int)
    requires maximum > 0
    ensures allocations == Allocations(rows, Take(rows, currency, maximum))
    ensures remaining == maximum - Sum(Take(rows, currency, maximum))
  {
    allocations, remaining := [], maximum;
    var n := 0;
    assert rows[0..] == rows;
    while n < |rows|
      invariant 0 <= n <= |rows| && remaining > 0
      invariant allocations + Drained(rows[n..], currency, remaining) == Drained(rows, currency, maximum)
      invariant remaining - Raised(rows[n..], currency, remaining) == maximum - Raised(rows, currency, maximum)
    {
      if rows[n].lot.currency == currency {
        var amount := Min(remaining, rows[n].available);
        if amount > 0 {
          Regroup(allocations, [Allocation(rows[n].lot.id, amount, 0, 0)], Drained(rows[n + 1..], currency, remaining - amount));
          allocations := allocations + [Allocation(rows[n].lot.id, amount, 0, 0)];
          remaining := remaining - amount;
          if remaining == 0 {
            NothingLeftToTake(rows[n + 1..], currency);
            return;
          }
        }
      }
      n := n + 1;
    }
  }

  /** The variables of the settlement loop. */
  datatype Progress = Progress(charged: seq<Allocation>, entries: seq<Entry>, measuredLeft: int, releaseLeft: int)

  function Turn(key: string, r: Reservation, a: Allocation, p: Progress): Progress {
    var m := Min(p.measuredLeft, a.Unresolved());
    var freed := Min(p.releaseLeft, a.Unresolved() - m);
    Progress(p.charged + [Charge(a, Cut(m, freed))], p.entries + CutEntries(key, r, a, Cut(m, freed)),
             p.measuredLeft - m, p.releaseLeft - freed)
  }

  function Proceed(key: string, r: Reservation, todo: seq<Allocation>, p: Progress): Progress
    decreases |todo|
  {
    if todo == [] then p else Proceed(key, r, todo[1..], Turn(key, r, todo[0], p))
  }

  /** The loop adds what the spread charges, records and uses up. */
  lemma {:induction false} ProceedExact(key: string, r: Reservation, todo: seq<Allocation>, p: Progress)
    ensures
      var cuts := Spread(todo, p.measuredLeft, p.releaseLeft);
      Proceed(key, r, todo, p) == Progress(
        p.charged + Charged(todo, cuts), p.entries + SettleEntries(key, r, todo, cuts),
        p.measuredLeft - Measured(cuts), p.releaseLeft - Freeing(cuts))
    decreases |todo|
  {
    if todo != [] {
      var next := Turn(key, r, todo[0], p);
      var cut := Cut(p.measuredLeft - next.measuredLeft, p.releaseLeft - next.releaseLeft);
      var rest := Spread(todo[1..], next.measuredLeft, next.releaseLeft);
      ProceedExact(key, r, todo[1..], next);
      Regroup(p.charged, [Charge(todo[0], cut)], Charged(todo[1..], rest));
      Regroup(p.entries, CutEntries(key, r, todo[0], cut), SettleEntries(key, r, todo[1..], rest));
    }
  }

  /** The settlement loop over the allocations, charging first and releasing what is left of each. */
  method Distribute(r: Reservation, key: string, measured: int, release: int)
    returns (charged: seq<Allocation>, entries: seq<Entry>, measuredRemaining: int, releaseRemaining: int)
    ensures charged == Charged(r.allocations, Spread(r.allocations, measured, release))
    ensures entries == SettleEntries(key, r, r.allocations, Spread(r.allocations, measured, release))
    ensures measuredRemaining == measured - Measured(Spread(r.allocations, measured, release))
    ensures releaseRemaining == release - Freeing(Spread(r.allocations, measured, release))
  {
    charged, entries := [], [];
    measuredRemaining, releaseRemaining := measured, release;
    var n := 0;
    ghost var end := Proceed(key, r, r.allocations, Progress([], [], measured, release));
    assert r.allocations[0..] == r.allocations;
    while n < |r.allocations|
      invariant 0 <= n <= |r.allocations|
      invariant Proceed(key, r, r.allocations[n..], Progress(charged, entries, measuredRemaining, releaseRemaining)) == end
    {
      var a := r.allocations[n];
      var m := Min(measuredRemaining, a.Unresolved());
      var freed := Min(releaseRemaining, a.Unresolved() - m);
      assert r.allocations[n..][1..] == r.allocations[n + 1..];
      measuredRemaining := measuredRemaining - m;
      releaseRemaining := releaseRemaining - freed;
      entries := entries + CutEntries(key, r, a, Cut(m, freed));
      charged := charged + [Charge(a, Cut(m, freed))];
      n := n + 1;
    }
    ProceedExact(key, r, r.allocations, Progress([], [], measured, release));
  }

  lemma Regroup<T>(a: seq<T>, b: seq<T>, c: seq<T>)
    ensures (a + b) + c == a + (b + c)
  {
  }

  /** On a sound reservation both remainders of the settlement loop end at zero. */
  lemma RemaindersVanish(r: Reservation, input: SettleInput)
    requires ReservationOk(r) && 0 <= input.measured <= r.Unresolved()
    ensures
      var cuts := Spread(r.allocations, input.measured, ReleaseOf(r, input));
      input.measured - Measured(cuts) == 0 && ReleaseOf(r, input) - Freeing(cuts) == 0
  {
    SpreadExact(r.allocations, input.measured, ReleaseOf(r, input));
  }
}

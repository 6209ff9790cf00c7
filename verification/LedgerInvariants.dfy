/**
 What every run of the credit ledger keeps: the ledger, the reservation rows and the per-lot
 allocations are three descriptions of the same holdings, at every granularity.
 */
module LedgerInvariants {
  import opened Prelude
  import opened Ledger

  // ---------------------------------------------------------------------------------------------
  // The row side of the agreement

  function Portion(a: Allocation, view: View): int {
    match view
    case Held => a.Unresolved()
    case Consumed => a.settled
    case Freed => a.released
    case _ => 0
  }

  function AllocationTally(allocations: seq<Allocation>, view: View, scope: Scope): int {
    if allocations == [] then 0
    else (if scope.HasLot(allocations[0].lot) then Portion(allocations[0], view) else 0) +
         AllocationTally(allocations[1..], view, scope)
  }

  function ReservationTally(r: Reservation, view: View, scope: Scope): int {
    if scope.HasReservation(Some(r.id)) then AllocationTally(r.allocations, view, scope) else 0
  }

  function RowsTally(reservations: seq<Reservation>, view: View, scope: Scope): int {
    if reservations == [] then 0
    else ReservationTally(reservations[0], view, scope) + RowsTally(reservations[1..], view, scope)
  }

  predicate IsHolding(view: View) { view in {Held, Consumed, Freed} }

  // ---------------------------------------------------------------------------------------------
  // The invariant

  predicate AllocationOk(a: Allocation) {
    a.reserved > 0 && a.settled >= 0 && a.released >= 0 && a.Unresolved() >= 0
  }

  /** A later lot is charged only when every earlier one is fully charged. */
  ghost predicate Waterfall(allocations: seq<Allocation>) {
    forall i, j :: 0 <= i < j < |allocations| && allocations[j].settled > 0 ==>
      allocations[i].settled == allocations[i].reserved
  }

  ghost predicate DistinctLots(allocations: seq<Allocation>) {
    forall i, j :: 0 <= i < j < |allocations| ==> allocations[i].lot != allocations[j].lot
  }

  ghost predicate ReservationOk(r: Reservation) {
    && r.id == ReservationId(r.key)
    && r.maximum > 0 && r.settled >= 0 && r.released >= 0 && r.Unresolved() >= 0 && r.version >= 1
    && (forall i :: 0 <= i < |r.allocations| ==> AllocationOk(r.allocations[i]))
    && DistinctLots(r.allocations)
    && AllocationTally(r.allocations, Held, ALL) == r.Unresolved()
    && AllocationTally(r.allocations, Consumed, ALL) == r.settled
    && AllocationTally(r.allocations, Freed, ALL) == r.released
    && Waterfall(r.allocations)
    && (r.Unresolved() > 0 ==> forall i :: 0 <= i < |r.allocations| ==> r.allocations[i].released == 0)
    && r.state == StateOf(r.Unresolved(), r.settled)
  }

  ghost predicate LotsOk(lots: seq<Lot>) {
    && (forall i, j :: 0 <= i < j < |lots| ==> lots[i].id != lots[j].id)
    && (forall i :: 0 <= i < |lots| && lots[i].kind == Paid && lots[i].reference.Some? ==>
          lots[i].id == LotId(Paid, lots[i].reference.value))
    && (forall i :: 0 <= i < |lots| ==> lots[i].credits >= 0 && lots[i].cash >= 0)
  }

  predicate HasLotId(lots: seq<Lot>, id: string) {
    exists i :: 0 <= i < |lots| && lots[i].id == id
  }

  predicate EntryOk(e: Entry) {
    e.cash >= 0 && e.credits != 0 && (e.kind != Adjustment ==> e.credits > 0)
  }

  ghost predicate LedgerOk(ledger: seq<Entry>, lots: seq<Lot>) {
    && (forall i :: 0 <= i < |ledger| ==> EntryOk(ledger[i]) && HasLotId(lots, ledger[i].lot))
    && (forall i, j :: 0 <= i < j < |ledger| ==> ledger[i].key != ledger[j].key)
  }

  ghost predicate Agreement(b: Books) {
    forall view, scope :: IsHolding(view) ==>
      Tally(b.ledger, view, scope) == RowsTally(b.reservations, view, scope)
  }

  ghost predicate ReservationsOk(rs: seq<Reservation>) {
    && (forall i :: 0 <= i < |rs| ==> ReservationOk(rs[i]))
    && (forall i, j :: 0 <= i < j < |rs| ==> rs[i].key != rs[j].key)
  }

  ghost predicate Inv(b: Books) {
    LotsOk(b.lots) && LedgerOk(b.ledger, b.lots) && ReservationsOk(b.reservations) && Agreement(b)
  }

  // ---------------------------------------------------------------------------------------------
  // Sums

  lemma {:induction false} TallyConcat(a: seq<Entry>, b: seq<Entry>, view: View, scope: Scope)
    ensures Tally(a + b, view, scope) == Tally(a, view, scope) + Tally(b, view, scope)
  {
    if b == [] {
      assert a + b == a;
    } else {
      assert (a + b)[..|a + b| - 1] == a + b[..|b| - 1];
      TallyConcat(a, b[..|b| - 1], view, scope);
    }
  }

  lemma TallySingle(e: Entry, view: View, scope: Scope)
    ensures Tally([e], view, scope) == Share(e, view, scope)
  {
    assert [e][..0] == [];
  }

  lemma {:induction false} RowsTallyConcat(a: seq<Reservation>, b: seq<Reservation>, view: View, scope: Scope)
    ensures RowsTally(a + b, view, scope) == RowsTally(a, view, scope) + RowsTally(b, view, scope)
  {
    if a == [] {
      assert a + b == b;
    } else {
      assert (a + b)[1..] == a[1..] + b;
      RowsTallyConcat(a[1..], b, view, scope);
    }
  }

  lemma RowsTallyUpdate(rs: seq<Reservation>, i: nat, r: Reservation, view: View, scope: Scope)
    requires i < |rs|
    ensures RowsTally(rs[i := r], view, scope) ==
            RowsTally(rs, view, scope) - ReservationTally(rs[i], view, scope) + ReservationTally(r, view, scope)
  {
    assert rs == rs[..i] + [rs[i]] + rs[i + 1..];
    assert rs[i := r] == rs[..i] + [r] + rs[i + 1..];
    RowsTallyConcat(rs[..i] + [rs[i]], rs[i + 1..], view, scope);
    RowsTallyConcat(rs[..i], [rs[i]], view, scope);
    RowsTallyConcat(rs[..i] + [r], rs[i + 1..], view, scope);
    RowsTallyConcat(rs[..i], [r], view, scope);
  }

  lemma {:induction false} AllocationTallyNonNegative(allocations: seq<Allocation>, view: View, scope: Scope)
    requires forall i :: 0 <= i < |allocations| ==> AllocationOk(allocations[i])
    ensures AllocationTally(allocations, view, scope) >= 0
  {
    if allocations != [] {
      AllocationTallyNonNegative(allocations[1..], view, scope);
    }
  }

  lemma {:induction false} RowsTallyNonNegative(rs: seq<Reservation>, view: View, scope: Scope)
    requires forall i :: 0 <= i < |rs| ==> ReservationOk(rs[i])
    ensures RowsTally(rs, view, scope) >= 0
  {
    if rs != [] {
      AllocationTallyNonNegative(rs[0].allocations, view, scope);
      RowsTallyNonNegative(rs[1..], view, scope);
    }
  }

  // ---------------------------------------------------------------------------------------------
  // Spreading a settlement

  function Measured(cuts: seq<Cut>): int {
    if cuts == [] then 0 else cuts[0].measured + Measured(cuts[1..])
  }

  function Freeing(cuts: seq<Cut>): int {
    if cuts == [] then 0 else cuts[0].released + Freeing(cuts[1..])
  }

  /** Both loop remainders reach zero and no allocation is overdrawn. */
  lemma {:induction false} SpreadExact(allocations: seq<Allocation>, measured: int, release: int)
    requires forall i :: 0 <= i < |allocations| ==> AllocationOk(allocations[i])
    requires measured >= 0 && release >= 0
    requires measured + release <= AllocationTally(allocations, Held, ALL)
    ensures Measured(Spread(allocations, measured, release)) == measured
    ensures Freeing(Spread(allocations, measured, release)) == release
    ensures forall i :: 0 <= i < |allocations| ==>
      var cut := Spread(allocations, measured, release)[i];
      cut.measured >= 0 && cut.released >= 0 && cut.measured + cut.released <= allocations[i].Unresolved()
  {
    if allocations != [] {
      var room := allocations[0].Unresolved();
      var m := Min(measured, room);
      var r := Min(release, room - m);
      AllocationTallyNonNegative(allocations[1..], Held, ALL);
      SpreadExact(allocations[1..], measured - m, release - r);
      var cuts := Spread(allocations, measured, release);
      assert cuts[1..] == Spread(allocations[1..], measured - m, release - r);
      forall i | 0 <= i < |allocations|
        ensures cuts[i].measured >= 0 && cuts[i].released >= 0 &&
                cuts[i].measured + cuts[i].released <= allocations[i].Unresolved()
      {
        if i > 0 { assert cuts[i] == cuts[1..][i - 1] && allocations[i] == allocations[1..][i - 1]; }
      }
    }
  }

  /** Once nothing is measured beyond an allocation, all later cuts measure nothing. */
  lemma {:induction false} SpreadOrder(allocations: seq<Allocation>, measured: int, release: int, i: nat, j: nat)
    requires forall k :: 0 <= k < |allocations| ==> AllocationOk(allocations[k])
    requires measured >= 0 && release >= 0 && i < j < |allocations|
    requires Spread(allocations, measured, release)[j].measured > 0
    ensures Spread(allocations, measured, release)[i].measured == allocations[i].Unresolved()
  {
    var room := allocations[0].Unresolved();
    var m := Min(measured, room);
    var r := Min(release, room - m);
    var rest := Spread(allocations[1..], measured - m, release - r);
    assert Spread(allocations, measured, release)[1..] == rest;
    assert rest[j - 1].measured > 0;
    if i == 0 {
      SpreadNothing(allocations[1..], measured - m, release - r, j - 1);
    } else {
      SpreadOrder(allocations[1..], measured - m, release - r, i - 1, j - 1);
    }
  }

  lemma {:induction false} SpreadNothing(allocations: seq<Allocation>, measured: int, release: int, j: nat)
    requires forall k :: 0 <= k < |allocations| ==> AllocationOk(allocations[k])
    requires measured >= 0 && release >= 0 && j < |allocations|
    ensures Spread(allocations, measured, release)[j].measured > 0 ==> measured > 0
  {
    if j > 0 {
      var room := allocations[0].Unresolved();
      var m := Min(measured, room);
      SpreadNothing(allocations[1..], measured - m, release - Min(release, room - m), j - 1);
    }
  }

  lemma {:induction false} ChargedAt(allocations: seq<Allocation>, cuts: seq<Cut>, i: nat)
    requires |allocations| == |cuts| && i < |cuts|
    ensures |Charged(allocations, cuts)| == |allocations|
    ensures Charged(allocations, cuts)[i] == Charge(allocations[i], cuts[i])
  {
    if |cuts| > 1 {
      ChargedAt(allocations[1..], cuts[1..], if i > 0 then i - 1 else 0);
    }
  }

  lemma {:induction false} ChargedTotals(allocations: seq<Allocation>, cuts: seq<Cut>)
    requires |allocations| == |cuts|
    requires forall i :: 0 <= i < |cuts| ==> cuts[i].measured >= 0 && cuts[i].released >= 0
    ensures AllocationTally(Charged(allocations, cuts), Consumed, ALL) ==
            AllocationTally(allocations, Consumed, ALL) + Measured(cuts)
    ensures AllocationTally(Charged(allocations, cuts), Freed, ALL) ==
            AllocationTally(allocations, Freed, ALL) + Freeing(cuts)
    ensures AllocationTally(Charged(allocations, cuts), Held, ALL) ==
            AllocationTally(allocations, Held, ALL) - Measured(cuts) - Freeing(cuts)
  {
    if allocations != [] {
      ChargedTotals(allocations[1..], cuts[1..]);
      assert Charged(allocations, cuts)[1..] == Charged(allocations[1..], cuts[1..]);
    }
  }

  /** The settlement's ledger entries move exactly what the allocation rows move, in every scope. */
  lemma {:induction false} SettleEntriesTally(
    key: string, r: Reservation, allocations: seq<Allocation>, cuts: seq<Cut>, view: View, scope: Scope)
    requires |allocations| == |cuts| && IsHolding(view)
    requires forall i :: 0 <= i < |cuts| ==> cuts[i].measured >= 0 && cuts[i].released >= 0
    ensures Tally(SettleEntries(key, r, allocations, cuts), view, scope) ==
            if scope.HasReservation(Some(r.id))
            then AllocationTally(Charged(allocations, cuts), view, scope) - AllocationTally(allocations, view, scope)
            else 0
  {
    if allocations != [] {
      var head := CutEntries(key, r, allocations[0], cuts[0]);
      TallyConcat(head, SettleEntries(key, r, allocations[1..], cuts[1..]), view, scope);
      SettleEntriesTally(key, r, allocations[1..], cuts[1..], view, scope);
      assert Charged(allocations, cuts)[1..] == Charged(allocations[1..], cuts[1..]);
      CutEntriesTally(key, r, allocations[0], cuts[0], view, scope);
    }
  }

  /** What one cut's usage and release entries weigh is what they change of the allocation. */
  lemma CutShares(usage: Entry, release: Entry, id: string, a: Allocation, cut: Cut, view: View, scope: Scope)
    requires cut.measured >= 0 && cut.released >= 0 && IsHolding(view)
    requires usage.kind == Usage && usage.credits == cut.measured && release.kind == Release && release.credits == cut.released
    requires usage.lot == release.lot == a.lot && usage.reservation == release.reservation == Some(id)
    ensures (if cut.measured > 0 then Share(usage, view, scope) else 0) + (if cut.released > 0 then Share(release, view, scope) else 0) ==
            if scope.HasReservation(Some(id)) && scope.HasLot(a.lot) then Portion(Charge(a, cut), view) - Portion(a, view) else 0
  {
  }

  lemma CutEntriesTally(key: string, r: Reservation, a: Allocation, cut: Cut, view: View, scope: Scope)
    requires cut.measured >= 0 && cut.released >= 0 && IsHolding(view)
    ensures Tally(CutEntries(key, r, a, cut), view, scope) ==
            if scope.HasReservation(Some(r.id)) && scope.HasLot(a.lot)
            then Portion(Charge(a, cut), view) - Portion(a, view) else 0
  {
    var usage := Entry(a.lot, Usage, r.currency, cut.measured, 0, key + ":settle:" + a.lot, Some(r.id));
    var release := Entry(a.lot, Release, r.currency, cut.released, 0, key + ":release:" + a.lot, Some(r.id));
    TallyConcat(if cut.measured > 0 then [usage] else [], if cut.released > 0 then [release] else [], view, scope);
    CutShares(usage, release, r.id, a, cut, view, scope);
  }

  // ---------------------------------------------------------------------------------------------
  // Settling keeps a reservation sound

  lemma SettledReservationOk(r: Reservation, input: SettleInput)
    requires ReservationOk(r) && 0 <= input.measured <= r.Unresolved()
    ensures ReservationOk(SettleReservation(r, input).0)
    ensures input.terminal ==> SettleReservation(r, input).0.Unresolved() == 0
    ensures SettleReservation(r, input).0.settled == r.settled + input.measured
  {
    var release := ReleaseOf(r, input);
    var cuts := Spread(r.allocations, input.measured, release);
    var after := SettleReservation(r, input).0.allocations;
    SpreadExact(r.allocations, input.measured, release);
    ChargedTotals(r.allocations, cuts);
    ChargedRows(r.allocations, cuts);
    if input.measured > 0 {
      assert forall i :: 0 <= i < |r.allocations| ==> r.allocations[i].released == 0;
    }
    ChargedWaterfall(r.allocations, input.measured, release);
    if !input.terminal {
      ChargedKeepsReleased(r.allocations, cuts);
    }
  }

  lemma ChargedRows(allocations: seq<Allocation>, cuts: seq<Cut>)
    requires |allocations| == |cuts|
    requires forall i :: 0 <= i < |allocations| ==> AllocationOk(allocations[i])
    requires DistinctLots(allocations)
    requires forall i :: 0 <= i < |allocations| ==>
      cuts[i].measured >= 0 && cuts[i].released >= 0 &&
      cuts[i].measured + cuts[i].released <= allocations[i].Unresolved()
    ensures |Charged(allocations, cuts)| == |allocations|
    ensures forall i :: 0 <= i < |allocations| ==> AllocationOk(Charged(allocations, cuts)[i])
    ensures DistinctLots(Charged(allocations, cuts))
  {
    var after := Charged(allocations, cuts);
    if allocations != [] { ChargedAt(allocations, cuts, 0); }
    forall i | 0 <= i < |allocations| ensures AllocationOk(after[i]) && after[i].lot == allocations[i].lot {
      ChargedAt(allocations, cuts, i);
    }
  }

  lemma ChargedKeepsReleased(allocations: seq<Allocation>, cuts: seq<Cut>)
    requires |allocations| == |cuts| && Freeing(cuts) == 0
    requires forall i :: 0 <= i < |cuts| ==> cuts[i].measured >= 0 && cuts[i].released >= 0
    ensures |Charged(allocations, cuts)| == |allocations|
    ensures forall i :: 0 <= i < |allocations| ==> Charged(allocations, cuts)[i].released == allocations[i].released
  {
    if allocations != [] { ChargedAt(allocations, cuts, 0); }
    forall i | 0 <= i < |allocations| ensures Charged(allocations, cuts)[i].released == allocations[i].released {
      ChargedAt(allocations, cuts, i);
      CutWithinFreeing(cuts, i);
    }
  }

  lemma {:induction false} CutWithinFreeing(cuts: seq<Cut>, i: nat)
    requires i < |cuts| && forall k :: 0 <= k < |cuts| ==> cuts[k].released >= 0
    ensures Freeing(cuts) >= cuts[i].released
    ensures Freeing(cuts) >= 0
  {
    if |cuts| > 1 {
      CutWithinFreeing(cuts[1..], if i > 0 then i - 1 else 0);
    }
  }

  lemma ChargedWaterfall(allocations: seq<Allocation>, measured: int, release: int)
    requires forall i :: 0 <= i < |allocations| ==> AllocationOk(allocations[i])
    requires measured >= 0 && release >= 0 && measured + release <= AllocationTally(allocations, Held, ALL)
    requires Waterfall(allocations)
    requires measured > 0 ==> forall i :: 0 <= i < |allocations| ==> allocations[i].released == 0
    ensures Waterfall(Charged(allocations, Spread(allocations, measured, release)))
  {
    var cuts := Spread(allocations, measured, release);
    var after := Charged(allocations, cuts);
    SpreadExact(allocations, measured, release);
    if allocations != [] { ChargedAt(allocations, cuts, 0); }
    forall i, j | 0 <= i < j < |after| && after[j].settled > 0
      ensures after[i].settled == after[i].reserved
    {
      ChargedAt(allocations, cuts, i);
      ChargedAt(allocations, cuts, j);
      if cuts[j].measured > 0 {
        SpreadOrder(allocations, measured, release, i, j);
        SpreadNothing(allocations, measured, release, j);
      } else {
        assert allocations[j].settled > 0;
      }
    }
  }
}

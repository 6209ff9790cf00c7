/**
 The prepaid credit ledger of one billing scope.

 `Books` holds the rows of the four tables; every database transaction is one function from books
 to books, and a transaction that raises an error leaves the books as they were.
 */
module Ledger {
  import opened Prelude

  datatype Kind = Paid | Promotional

  datatype Lot = Lot(
    id: string, kind: Kind, currency: string, credits: int, cash: int, key: string,
    reference: Option<string>, occurredAt: int, expiresAt: Option<int>)

  datatype EntryType =
    | Purchase | PromotionalGrant | Hold | Release | Usage
    | Refund | Chargeback | Expiration | Adjustment

  datatype Entry = Entry(
    lot: string, kind: EntryType, currency: string, credits: int, cash: int, key: string,
    reservation: Option<string>)

  datatype Allocation = Allocation(lot: string, reserved: int, settled: int, released: int) {
    function Unresolved(): int { reserved - settled - released }
  }

  datatype ReservationState = Reserved | PartiallySettled | Settled | Released

  datatype Reservation = Reservation(
    id: string, key: string, currency: string, maximum: int, settled: int, released: int,
    state: ReservationState, version: int, allocations: seq<Allocation>)
  {
    function Unresolved(): int { maximum - settled - released }
  }

  datatype Settlement = Settlement(
    id: string, reservation: string, key: string, usageKey: string, measured: int, released: int, terminal: bool)

  datatype Books = Books(
    lots: seq<Lot>, ledger: seq<Entry>, reservations: seq<Reservation>, settlements: seq<Settlement>)

  const EMPTY := Books([], [], [], [])

  datatype Error =
    | CreditInsufficient | ReservationNotFound | SettlementExceedsReservation
    | RetailPriceCatalogMissing | CreditCurrencyMismatch | NegativeBalanceForbidden
    | UniqueViolation | CheckViolation

  datatype Outcome = Done(books: Books) | Rejected(error: Error)

  // ---------------------------------------------------------------------------------------------
  // Identifiers. The source hashes the parts; any injective encoding of them behaves the same.

  function KindName(kind: Kind): string {
    if kind == Paid then "paid" else "promotional"
  }

  function LotId(kind: Kind, text: string): string {
    "clot_" + KindName(kind) + ":" + text
  }

  function ReservationId(key: string): string { "cres_" + key }

  function SettlementId(usageKey: string): string { "cset_" + usageKey }

  function PlaceholderKey(reference: string): string { "placeholder:" + reference }

  // ---------------------------------------------------------------------------------------------
  // Views: each reporting column is a weight on entry types, summed over the entries in a scope.

  datatype View =
    | Available      // what the aggregate and the per-lot queries call available
    | PaidAvailable  // the same column as written for paid lots
    | PromoAvailable // the same column as written for promotional lots
    | Held | Consumed | Freed | CreditsIn | Reversals | Liability
    | CashIn | CashCollected | RefundCash | ChargebackCash

  function Weight(view: View, e: Entry): int {
    match view
    case Available =>
      (match e.kind
       case Purchase | PromotionalGrant | Release | Adjustment => e.credits
       case Hold | Refund | Chargeback | Expiration => -e.credits
       case Usage => 0)
    case PaidAvailable =>
      (match e.kind
       case Purchase | Release | Adjustment => e.credits
       case Hold | Refund | Chargeback | Expiration => -e.credits
       case PromotionalGrant | Usage => 0)
    case PromoAvailable =>
      (match e.kind
       case PromotionalGrant | Release | Adjustment => e.credits
       case Hold | Refund | Chargeback | Expiration => -e.credits
       case Purchase | Usage => 0)
    case Held =>
      (match e.kind
       case Hold => e.credits
       case Release | Usage => -e.credits
       case _ => 0)
    case Consumed => if e.kind == Usage then e.credits else 0
    case Freed => if e.kind == Release then e.credits else 0
    case CreditsIn =>
      (match e.kind case Purchase | PromotionalGrant | Adjustment => e.credits case _ => 0)
    case Reversals =>
      (match e.kind case Refund | Chargeback | Expiration => e.credits case _ => 0)
    case Liability =>
      (match e.kind
       case Purchase | Adjustment => e.credits
       case Usage | Refund | Chargeback | Expiration => -e.credits
       case _ => 0)
    case CashIn => if e.kind == Purchase then e.cash else 0
    case CashCollected =>
      (match e.kind case Purchase => e.cash case Refund | Chargeback => -e.cash case _ => 0)
    case RefundCash => if e.kind == Refund then e.cash else 0
    case ChargebackCash => if e.kind == Chargeback then e.cash else 0
  }

  /** Which rows a query looks at: a set of lots, one reservation, both, or everything. */
  datatype Scope = Scope(lots: Option<set<string>>, reservation: Option<string>) {
    predicate HasLot(lot: string) { lots.Some? ==> lot in lots.value }
    predicate HasReservation(r: Option<string>) { reservation.Some? ==> r == reservation }
    predicate Has(e: Entry) { HasLot(e.lot) && HasReservation(e.reservation) }
  }

  const ALL := Scope(None, None)

  function OneLot(id: string): Scope { Scope(Some({id}), None) }

  function KindIds(lots: seq<Lot>, kind: Kind): set<string> {
    set l | l in lots && l.kind == kind :: l.id
  }

  function OfKind(lots: seq<Lot>, kind: Kind): Scope { Scope(Some(KindIds(lots, kind)), None) }

  function Tally(ledger: seq<Entry>, view: View, scope: Scope): int {
    if ledger == [] then 0
    else Tally(ledger[..|ledger| - 1], view, scope) + Share(ledger[|ledger| - 1], view, scope)
  }

  function Share(e: Entry, view: View, scope: Scope): int {
    if scope.Has(e) then Weight(view, e) else 0
  }

  predicate HasKey(ledger: seq<Entry>, key: string) {
    exists i :: 0 <= i < |ledger| && ledger[i].key == key
  }

  // ---------------------------------------------------------------------------------------------
  // createCreditLot

  datatype LotInput = LotInput(
    kind: Kind, currency: string, credits: int, cash: int, key: string, reference: Option<string>,
    occurredAt: int, expiresAt: Option<int>,
    pick: nat) // the row an unordered LIMIT 1 happens to return

  function LotIdOf(input: LotInput): string {
    LotId(input.kind, if input.reference.Some? then input.reference.value else input.key)
  }

  /** The insert with its upsert on the payment reference of paid lots. */
  function UpsertLot(lots: seq<Lot>, input: LotInput): (r: Option<seq<Lot>>)
    ensures r.Some? ==> exists i :: 0 <= i < |r.value| && Matches(r.value[i], Some(LotIdOf(input)), input.reference)
  {
    var conflict := if input.kind == Paid && input.reference.Some?
      then Find(lots, (l: Lot) => l.kind == Paid && l.reference == input.reference) else None;
    if conflict.Some? then
      var row := lots[conflict.value];
      var updated := lots[conflict.value := row.(
        credits := Max(row.credits, input.credits),
        cash := Max(row.cash, input.cash),
        expiresAt := if input.expiresAt.Some? then input.expiresAt else row.expiresAt)];
      assert updated[conflict.value].reference == input.reference;
      Some(updated)
    else if Find(lots, (l: Lot) => l.id == LotIdOf(input) || l.key == input.key).Some? then None
    else
      var row := Lot(LotIdOf(input), input.kind, input.currency, input.credits, input.cash,
                     input.key, input.reference, input.occurredAt, input.expiresAt);
      assert (lots + [row])[|lots|] == row;
      Some(lots + [row])
  }

  predicate Matches(l: Lot, id: Option<string>, reference: Option<string>) {
    (id.Some? && l.id == id.value) || (reference.Some? && l.reference == reference)
  }

  /** The row that SELECT … LIMIT 1 returns when no order is asked for: any matching row. */
  function PickRow(lots: seq<Lot>, id: string, reference: Option<string>, pick: nat): (r: nat)
    requires exists i :: 0 <= i < |lots| && Matches(lots[i], Some(id), reference)
    ensures r < |lots| && Matches(lots[r], Some(id), reference)
  {
    if pick < |lots| && Matches(lots[pick], Some(id), reference) then pick
    else Find(lots, (l: Lot) => Matches(l, Some(id), reference)).value
  }

  function Append(ledger: seq<Entry>, e: Entry): seq<Entry> {
    if HasKey(ledger, e.key) then ledger else ledger + [e]
  }

  function LotEntry(input: LotInput, lot: string): Entry {
    Entry(lot, if input.kind == Paid then Purchase else PromotionalGrant, input.currency,
          input.credits, input.cash, input.key, None)
  }

  function CreateLot(b: Books, input: LotInput): Outcome {
    if input.credits <= 0 || input.cash < 0 then Rejected(CheckViolation)
    else match UpsertLot(b.lots, input)
      case None => Rejected(UniqueViolation)
      case Some(lots) =>
        var row := lots[PickRow(lots, LotIdOf(input), input.reference, input.pick)];
        Done(b.(lots := lots, ledger := Append(b.ledger, LotEntry(input, row.id))))
  }

  // ---------------------------------------------------------------------------------------------
  // appendCreditLifecycle

  type LifecycleKind = k: EntryType | k in {Refund, Chargeback, Expiration, Adjustment} witness Refund

  datatype LifecycleInput = LifecycleInput(
    kind: LifecycleKind, currency: string, credits: int, cash: int, key: string,
    lot: Option<string>, reference: Option<string>, occurredAt: int)

  /** ORDER BY occurred_at, lot_id. */
  predicate OccursBefore(a: Lot, b: Lot) {
    a.occurredAt < b.occurredAt || (a.occurredAt == b.occurredAt && TextBefore(a.id, b.id))
  }

  /** The matching row that comes first by occurrence. */
  function FirstMatch(lots: seq<Lot>, id: Option<string>, reference: Option<string>): (r: Option<nat>)
    ensures r.Some? ==> r.value < |lots| && Matches(lots[r.value], id, reference)
    ensures r.None? ==> forall j :: 0 <= j < |lots| ==> !Matches(lots[j], id, reference)
  {
    if lots == [] then None
    else
      var last := lots[|lots| - 1];
      var rest := FirstMatch(lots[..|lots| - 1], id, reference);
      if !Matches(last, id, reference) || (rest.Some? && !OccursBefore(last, lots[rest.value])) then rest
      else Some(|lots| - 1)
  }

  lemma OccursBeforeOrder(a: Lot, b: Lot, c: Lot)
    ensures !OccursBefore(a, a)
    ensures OccursBefore(a, b) && OccursBefore(b, c) ==> OccursBefore(a, c)
  {
    TextBeforeTotal(a.id, a.id);
    if OccursBefore(a, b) && OccursBefore(b, c) && a.occurredAt == b.occurredAt == c.occurredAt {
      TextBeforeTransitive(a.id, b.id, c.id);
    }
  }

  /** No matching row occurs before the one returned. */
  lemma {:induction false} FirstMatchIsEarliest(lots: seq<Lot>, id: Option<string>, reference: Option<string>, j: nat)
    requires j < |lots| && Matches(lots[j], id, reference)
    ensures
      var r := FirstMatch(lots, id, reference);
      r.Some? && !OccursBefore(lots[j], lots[r.value])
  {
    var n := |lots| - 1;
    var init, r := lots[..n], FirstMatch(lots, id, reference).value;
    OccursBeforeOrder(lots[n], lots[n], lots[n]);
    if j < n {
      assert init[j] == lots[j];
      FirstMatchIsEarliest(init, id, reference, j);
      var before := FirstMatch(init, id, reference).value;
      OccursBeforeOrder(lots[j], lots[n], lots[before]);
    }
  }

  function Placeholder(input: LifecycleInput): Lot
    requires input.reference.Some?
  {
    Lot(LotId(Paid, input.reference.value), Paid, input.currency, 0, 0,
        PlaceholderKey(input.reference.value), input.reference, input.occurredAt, None)
  }

  /** INSERT … ON CONFLICT DO NOTHING for a reversal that arrives before its purchase. */
  function WithPlaceholder(lots: seq<Lot>, input: LifecycleInput): seq<Lot>
    requires input.reference.Some?
  {
    var p := Placeholder(input);
    if Find(lots, (l: Lot) => l.id == p.id || l.key == p.key).Some? then lots else lots + [p]
  }

  function SignedCredits(input: LifecycleInput): int {
    if input.kind == Adjustment || input.credits >= 0 then input.credits else -input.credits
  }

  function LifecycleEntry(input: LifecycleInput, lot: string): Entry {
    Entry(lot, input.kind, input.currency, SignedCredits(input), input.cash, input.key, None)
  }

  function Lifecycle(b: Books, input: LifecycleInput): Outcome {
    var found := FirstMatch(b.lots, input.lot, input.reference);
    var lots := if found.None? && input.reference.Some? then WithPlaceholder(b.lots, input) else b.lots;
    var row := if found.None? && input.reference.Some?
      then Find(lots, (l: Lot) => l.reference == input.reference) else found;
    if row.None? then Rejected(ReservationNotFound)
    else if lots[row.value].currency != input.currency then Rejected(CreditCurrencyMismatch)
    else if input.credits == 0 || input.cash < 0 then Rejected(CheckViolation)
    else Done(b.(lots := lots, ledger := Append(b.ledger, LifecycleEntry(input, lots[row.value].id))))
  }

  // ---------------------------------------------------------------------------------------------
  // reserveCredits

  datatype Catalog = Catalog(currency: string, maximums: map<string, int>)

  datatype ReserveInput = ReserveInput(
    key: string, operation: string, maximum: Option<int>, now: int, catalog: Option<Catalog>)

  /** One row of the eligible-lots query. */
  datatype Row = Row(lot: Lot, available: int)

  predicate Live(l: Lot, now: int) {
    l.expiresAt.None? || l.expiresAt.value > now
  }

  function EligibleRows(lots: seq<Lot>, ledger: seq<Entry>, now: int): seq<Row> {
    if lots == [] then []
    else
      var available := Tally(ledger, Available, OneLot(lots[0].id));
      (if Live(lots[0], now) && available > 0 then [Row(lots[0], available)] else []) +
      EligibleRows(lots[1..], ledger, now)
  }

  function KindRank(kind: Kind): int { if kind == Promotional then 0 else 1 }

  /** ORDER BY promotional first, expires_at NULLS LAST, occurred_at, lot_id. */
  predicate RowBefore(a: Lot, b: Lot) {
    || KindRank(a.kind) < KindRank(b.kind)
    || (a.kind == b.kind &&
        (|| (a.expiresAt.Some? && (b.expiresAt.None? || a.expiresAt.value < b.expiresAt.value))
         || (a.expiresAt == b.expiresAt && OccursBefore(a, b))))
  }

  function Insert(r: Row, rows: seq<Row>): seq<Row> {
    if rows == [] || RowBefore(r.lot, rows[0].lot) then [r] + rows
    else [rows[0]] + Insert(r, rows[1..])
  }

  function OrderBy(rows: seq<Row>): seq<Row> {
    if rows == [] then [] else Insert(rows[0], OrderBy(rows[1..]))
  }

  /** How much each row contributes when lots are drained in order. */
  function Take(rows: seq<Row>, currency: string, remaining: int): (r: seq<int>)
    ensures |r| == |rows|
  {
    if rows == [] then []
    else
      var amount := if rows[0].lot.currency == currency then Min(remaining, rows[0].available) else 0;
      [Max(0, amount)] + Take(rows[1..], currency, remaining - Max(0, amount))
  }

  function Sum(xs: seq<int>): int {
    if xs == [] then 0 else xs[0] + Sum(xs[1..])
  }

  /** The allocation rows: those that contribute something. */
  function Allocations(rows: seq<Row>, amounts: seq<int>): seq<Allocation>
    requires |rows| == |amounts|
  {
    if rows == [] then []
    else (if amounts[0] > 0 then [Allocation(rows[0].lot.id, amounts[0], 0, 0)] else []) +
         Allocations(rows[1..], amounts[1..])
  }

  function HoldEntries(key: string, currency: string, allocations: seq<Allocation>): seq<Entry> {
    if allocations == [] then []
    else [Entry(allocations[0].lot, Hold, currency, allocations[0].reserved, 0,
                key + ":lot:" + allocations[0].lot, Some(ReservationId(key)))] +
         HoldEntries(key, currency, allocations[1..])
  }

  predicate Fresh(ledger: seq<Entry>, entries: seq<Entry>) {
    forall i :: 0 <= i < |entries| ==> !HasKey(ledger, entries[i].key)
  }

  function Maximum(input: ReserveInput): int {
    if input.maximum.Some? then input.maximum.value
    else if input.catalog.Some? && input.operation in input.catalog.value.maximums
    then input.catalog.value.maximums[input.operation] else 0
  }

  function Reserve(b: Books, input: ReserveInput): Outcome {
    if Find(b.reservations, (r: Reservation) => r.key == input.key).Some? then Done(b)
    else if input.catalog.None? || Maximum(input) <= 0 then Rejected(RetailPriceCatalogMissing)
    else
      var available := Tally(b.ledger, Available, ALL);
      if available < Maximum(input) then
        Rejected(if available < 0 then NegativeBalanceForbidden else CreditInsufficient)
      else
        var currency := input.catalog.value.currency;
        var rows := OrderBy(EligibleRows(b.lots, b.ledger, input.now));
        var amounts := Take(rows, currency, Maximum(input));
        var allocations := Allocations(rows, amounts);
        var entries := HoldEntries(input.key, currency, allocations);
        if Sum(amounts) < Maximum(input) then Rejected(CreditInsufficient)
        else if !Fresh(b.ledger, entries) then Rejected(UniqueViolation)
        else Done(b.(
          ledger := b.ledger + entries,
          reservations := b.reservations + [Reservation(
            ReservationId(input.key), input.key, currency, Maximum(input), 0, 0, Reserved, 1, allocations)]))
  }

  // ---------------------------------------------------------------------------------------------
  // settleCredits

  datatype SettleInput = SettleInput(
    reservation: string, key: string, usageKey: string, measured: int, terminal: bool)

  datatype Cut = Cut(measured: int, released: int)

  /** How one settlement is spread over the allocations, in allocation order. */
  function Spread(allocations: seq<Allocation>, measured: int, release: int): (r: seq<Cut>)
    ensures |r| == |allocations|
  {
    if allocations == [] then []
    else
      var room := allocations[0].Unresolved();
      var m := Min(measured, room);
      var r := Min(release, room - m);
      [Cut(m, r)] + Spread(allocations[1..], measured - m, release - r)
  }

  function Charge(a: Allocation, cut: Cut): Allocation {
    if cut.measured > 0 || cut.released > 0
    then a.(settled := a.settled + cut.measured, released := a.released + cut.released) else a
  }

  function Charged(allocations: seq<Allocation>, cuts: seq<Cut>): seq<Allocation>
    requires |allocations| == |cuts|
  {
    if allocations == [] then []
    else [Charge(allocations[0], cuts[0])] + Charged(allocations[1..], cuts[1..])
  }

  function CutEntries(key: string, r: Reservation, a: Allocation, cut: Cut): seq<Entry> {
    (if cut.measured > 0
     then [Entry(a.lot, Usage, r.currency, cut.measured, 0, key + ":settle:" + a.lot, Some(r.id))] else []) +
    (if cut.released > 0
     then [Entry(a.lot, Release, r.currency, cut.released, 0, key + ":release:" + a.lot, Some(r.id))] else [])
  }

  function SettleEntries(key: string, r: Reservation, allocations: seq<Allocation>, cuts: seq<Cut>): seq<Entry>
    requires |allocations| == |cuts|
  {
    if allocations == [] then []
    else CutEntries(key, r, allocations[0], cuts[0]) + SettleEntries(key, r, allocations[1..], cuts[1..])
  }

  function StateOf(unresolved: int, settled: int): ReservationState {
    if unresolved > 0 then (if settled > 0 then PartiallySettled else Reserved)
    else (if settled > 0 then Settled else Released)
  }

  function ReleaseOf(r: Reservation, input: SettleInput): int {
    if input.terminal then r.Unresolved() - input.measured else 0
  }

  function SettleReservation(r: Reservation, input: SettleInput): (Reservation, seq<Entry>) {
    var release := ReleaseOf(r, input);
    var cuts := Spread(r.allocations, input.measured, release);
    var settled := r.settled + input.measured;
    var released := r.released + release;
    (r.(settled := settled, released := released,
        state := StateOf(r.maximum - settled - released, settled), version := r.version + 1,
        allocations := Charged(r.allocations, cuts)),
     SettleEntries(input.key, r, r.allocations, cuts))
  }

  function Settle(b: Books, input: SettleInput): Outcome {
    if Find(b.settlements, (s: Settlement) => s.key == input.key || s.usageKey == input.usageKey).Some? then Done(b)
    else
      match Find(b.reservations, (r: Reservation) => r.id == input.reservation)
      case None => Rejected(ReservationNotFound)
      case Some(i) =>
        var r := b.reservations[i];
        if input.measured > r.Unresolved() then Rejected(SettlementExceedsReservation)
        else if input.measured < 0 then Rejected(CheckViolation)
        else
          var (r', entries) := SettleReservation(r, input);
          if !Fresh(b.ledger, entries) then Rejected(UniqueViolation)
          else Done(b.(
            ledger := b.ledger + entries,
            reservations := b.reservations[i := r'],
            settlements := b.settlements + [Settlement(
              SettlementId(input.usageKey), r.id, input.key, input.usageKey, input.measured,
              ReleaseOf(r, input), input.terminal)]))
  }

  // ---------------------------------------------------------------------------------------------
  // Runs

  datatype Command =
    | DoCreateLot(lot: LotInput)
    | DoLifecycle(lifecycle: LifecycleInput)
    | DoReserve(reserve: ReserveInput)
    | DoSettle(settle: SettleInput)

  function Execute(b: Books, c: Command): Outcome {
    match c
    case DoCreateLot(input) => CreateLot(b, input)
    case DoLifecycle(input) => Lifecycle(b, input)
    case DoReserve(input) => Reserve(b, input)
    case DoSettle(input) => Settle(b, input)
  }

  /** A rejected transaction is rolled back. */
  function Step(b: Books, c: Command): Books {
    match Execute(b, c)
    case Done(b') => b'
    case Rejected(_) => b
  }

  function Run(b: Books, commands: seq<Command>): Books
    decreases |commands|
  {
    if commands == [] then b else Run(Step(b, commands[0]), commands[1..])
  }
}

/**
 Admission calls that overlap. A call is up to four transactions (the lease, the reservation, the
 cancellation and the settlement behind it), and anything may be committed between two of them.
 */
module AdmissionCalls {
  import opened Prelude
  import opened Admission
  import Ledger
  import Invariants = LedgerInvariants
  import Runs = LedgerRuns

  // ---------------------------------------------------------------------------------------------
  // What others commit in between

  datatype Event = OnLeases(plan: Plan, action: Action) | OnBooks(command: Ledger.Command)

  function Happen(desk: Desk, e: Event): Desk {
    match e
    case OnLeases(plan, action) => desk.(leases := Act(desk.leases, plan, action))
    case OnBooks(command) => desk.(books := Ledger.Step(desk.books, command))
  }

  function HappenAll(desk: Desk, events: seq<Event>): Desk
    decreases |events|
  {
    if events == [] then desk else HappenAll(Happen(desk, events[0]), events[1..])
  }

  /** A cancellation of the lease's decision, or a completion of the resource it is bound to. */
  predicate Releases(l: Lease, e: Event) {
    e.OnLeases? &&
    (|| (e.action.Cancelling? && l.decisionId == e.action.decisionId)
     || (e.action.Completing? && l.resource == Some(e.action.resource)))
  }

  predicate ReleasedBy(desk: Desk, i: nat, events: seq<Event>)
    decreases |events|
  {
    i < |desk.leases| && events != [] &&
    (Releases(desk.leases[i], events[0]) || ReleasedBy(Happen(desk, events[0]), i, events[1..]))
  }

  lemma HappenKeepsRow(desk: Desk, e: Event, i: nat)
    requires i < |desk.leases|
    ensures
      var l, next := desk.leases[i], Happen(desk, e).leases;
      && i < |next| && next[i].requestKey == l.requestKey && next[i].decisionId == l.decisionId
      && (next[i].released <==> l.released || Releases(l, e))
    ensures DistinctRequests(desk.leases) ==> DistinctRequests(Happen(desk, e).leases)
  {
  }

  /** A lease is live after any events exactly when it was live and none of them released it. */
  lemma {:induction false} LiveRowExactly(desk: Desk, events: seq<Event>, i: nat)
    requires i < |desk.leases|
    ensures
      var l, end := desk.leases[i], HappenAll(desk, events).leases;
      && i < |end| && end[i].requestKey == l.requestKey && end[i].decisionId == l.decisionId
      && (end[i].released <==> l.released || ReleasedBy(desk, i, events))
    ensures DistinctRequests(desk.leases) ==> DistinctRequests(HappenAll(desk, events).leases)
    decreases |events|
  {
    if events != [] {
      HappenKeepsRow(desk, events[0], i);
      LiveRowExactly(Happen(desk, events[0]), events[1..], i);
    }
  }

  lemma LiveIsRow(leases: seq<Lease>, i: nat)
    requires DistinctRequests(leases) && i < |leases|
    ensures LiveLease(leases, leases[i].requestKey) <==> !leases[i].released
  {
  }

  // ---------------------------------------------------------------------------------------------
  // One call, transaction by transaction

  /** What is committed by others before each later transaction of the call. */
  datatype Pauses = Pauses(beforeReserve: seq<Event>, beforeCancel: seq<Event>, beforeSettle: seq<Event>)

  const ALONE := Pauses([], [], [])

  function ReservationKey(requestKey: string): string { "admission:" + requestKey }

  /** The reservation of the request that a decision belongs to. */
  function Held(desk: Desk, decisionId: string): Option<string> {
    match Find(desk.leases, (l: Lease) => l.decisionId == decisionId)
    case None => None
    case Some(i) =>
      match Find(desk.books.reservations, (x: Ledger.Reservation) => x.key == ReservationKey(desk.leases[i].requestKey))
      case None => None
      case Some(k) => Some(desk.books.reservations[k].id)
  }

  /** Everything reserved is given back. */
  function GiveBack(decisionId: string, reservation: string): Ledger.SettleInput {
    Ledger.SettleInput(reservation, "cancel:" + decisionId, "cancel:" + decisionId, 0, true)
  }

  /** Cancelling releases the lease and looks up its reservation in one transaction, and settles it in the next. */
  function Cancel(desk: Desk, decisionId: string, beforeSettle: seq<Event>): (Desk, Option<Ledger.Error>) {
    var released := desk.(leases := CancelTx(desk.leases, decisionId));
    match Held(desk, decisionId)
    case None => (released, None)
    case Some(reservation) =>
      var later := HappenAll(released, beforeSettle);
      match Ledger.Settle(later.books, GiveBack(decisionId, reservation))
      case Done(books) => (later.(books := books), None)
      case Rejected(error) => (later, Some(error))
  }

  /** The desk after the call's own lease transaction. */
  function Leased(desk: Desk, plan: Plan, r: Request): Desk {
    desk.(leases := AdmitTx(desk.leases, plan, r).0)
  }

  /** The desk when the call comes to reserve. */
  function AtReserve(desk: Desk, plan: Plan, r: Request, pauses: Pauses): Desk {
    HappenAll(Leased(desk, plan, r), pauses.beforeReserve)
  }

  function Call(desk: Desk, plan: Plan, r: Request, now: int, catalog: Option<Ledger.Catalog>, pauses: Pauses): (Desk, Answer) {
    var verdict := AdmitTx(desk.leases, plan, r).1;
    if verdict == Deny || !plan.prepaid then (Leased(desk, plan, r), Decided(verdict))
    else
      var d := AtReserve(desk, plan, r, pauses);
      match Ledger.Reserve(d.books, ReservationFor(r, now, catalog))
      case Done(books) => (d.(books := books), Decided(verdict))
      case Rejected(error) =>
        if !ShortOfCredit(Ledger.Rejected(error)) then (d, Threw(error))
        else
          var (after, failure) := Cancel(HappenAll(d, pauses.beforeCancel), DecisionId(r.requestKey), pauses.beforeSettle);
          (after, if failure.Some? then Threw(failure.value) else Decided(Deny))
  }

  /** A call that nothing interrupts is the call as one step. */
  lemma AloneIsOneStep(desk: Desk, plan: Plan, r: Request, now: int, catalog: Option<Ledger.Catalog>)
    requires forall i :: 0 <= i < |desk.leases| && desk.leases[i].decisionId == DecisionId(r.requestKey) ==>
      desk.leases[i].requestKey == r.requestKey
    ensures Call(desk, plan, r, now, catalog, ALONE) == Admit(desk, plan, r, now, catalog)
  {
    var d := Leased(desk, plan, r);
    var input := ReservationFor(r, now, catalog);
    if ShortOfCredit(Ledger.Reserve(d.books, input)) {
      assert Find(d.books.reservations, (x: Ledger.Reservation) => x.key == input.key).None?;
      forall i | 0 <= i < |d.leases| && d.leases[i].decisionId == DecisionId(r.requestKey)
        ensures d.leases[i].requestKey == r.requestKey {}
      assert Held(d, DecisionId(r.requestKey)).None?;
    }
  }

  // ---------------------------------------------------------------------------------------------
  // The lease behind an answer

  /** The row of the request after the call's own lease transaction. */
  function RowOf(desk: Desk, plan: Plan, r: Request): (i: nat)
    ensures i < |Leased(desk, plan, r).leases| && Leased(desk, plan, r).leases[i].requestKey == r.requestKey
  {
    match Find(desk.leases, (l: Lease) => l.requestKey == r.requestKey)
    case Some(i) => i
    case None =>
      assert Leased(desk, plan, r).leases[|desk.leases|].requestKey == r.requestKey;
      |desk.leases|
  }

  /** Others released the call's lease before it came to reserve. */
  predicate LostMeanwhile(desk: Desk, plan: Plan, r: Request, pauses: Pauses) {
    ReleasedBy(Leased(desk, plan, r), RowOf(desk, plan, r), pauses.beforeReserve)
  }

  lemma LeaseAfterLeasing(desk: Desk, plan: Plan, r: Request)
    requires DistinctRequests(desk.leases)
    ensures DistinctRequests(Leased(desk, plan, r).leases)
    ensures Leased(desk, plan, r).leases[RowOf(desk, plan, r)].released <==>
            if HasRequest(desk.leases, r.requestKey) then !LiveLease(desk.leases, r.requestKey)
            else AdmitTx(desk.leases, plan, r).1 == Deny
  {
    if HasRequest(desk.leases, r.requestKey) { LiveIsRow(desk.leases, RowOf(desk, plan, r)); }
  }

  /**
   A positive answer has a live lease if and only if the request was new or its lease still live when
   the call began, and nothing released the lease before the call's reservation went through.
   */
  lemma LiveBehindPositiveAnswer(desk: Desk, plan: Plan, r: Request, now: int, catalog: Option<Ledger.Catalog>, pauses: Pauses)
    requires DistinctRequests(desk.leases) && Positive(Call(desk, plan, r, now, catalog, pauses).1)
    ensures LiveLease(Call(desk, plan, r, now, catalog, pauses).0.leases, r.requestKey) <==>
            (&& (!HasRequest(desk.leases, r.requestKey) || LiveLease(desk.leases, r.requestKey))
             && !(plan.prepaid && LostMeanwhile(desk, plan, r, pauses)))
  {
    var d, i := Leased(desk, plan, r), RowOf(desk, plan, r);
    LeaseAfterLeasing(desk, plan, r);
    LiveRowExactly(d, pauses.beforeReserve, i);
    LiveIsRow(d.leases, i);
    LiveIsRow(AtReserve(desk, plan, r, pauses).leases, i);
  }

  /** Once the call has cancelled, its lease stays released. */
  lemma CancelledStays(desk: Desk, decisionId: string, beforeSettle: seq<Event>, i: nat)
    requires DistinctRequests(desk.leases) && i < |desk.leases| && desk.leases[i].decisionId == decisionId
    ensures !LiveLease(Cancel(desk, decisionId, beforeSettle).0.leases, desk.leases[i].requestKey)
  {
    var released := desk.(leases := CancelTx(desk.leases, decisionId));
    LiveRowExactly(released, beforeSettle, i);
    LiveIsRow(released.leases, i);
    LiveIsRow(HappenAll(released, beforeSettle).leases, i);
  }

  lemma {:induction false} EventsKeepBooks(desk: Desk, events: seq<Event>)
    requires Invariants.Inv(desk.books)
    ensures Invariants.Inv(HappenAll(desk, events).books)
    decreases |events|
  {
    if events != [] {
      if events[0].OnBooks? { Runs.StepKeeps(desk.books, events[0].command); }
      EventsKeepBooks(Happen(desk, events[0]), events[1..]);
    }
  }

  /**
   A call without a positive answer leaves the live lease it opened if and only if the request was
   new, no policy denied it, the plan is prepaid, nothing released the lease meanwhile, and on the
   books at the time of the reservation its key is unused and either there is no price, or credit
   suffices and a hold key is already recorded.
   */
  lemma LeftBehindExactly(desk: Desk, plan: Plan, r: Request, now: int, catalog: Option<Ledger.Catalog>, pauses: Pauses)
    requires DistinctRequests(desk.leases) && Invariants.Inv(desk.books)
    ensures
      var (after, answer) := Call(desk, plan, r, now, catalog, pauses);
      !Positive(answer) && !HasRequest(desk.leases, r.requestKey) && LiveLease(after.leases, r.requestKey) <==>
      (&& !HasRequest(desk.leases, r.requestKey) && plan.prepaid
       && VerdictOf(r.operation in plan.enabled, r.operation, MeasurementsFor(desk.leases, r), plan.policies) != Deny
       && !LostMeanwhile(desk, plan, r, pauses)
       && FailsOtherwise(AtReserve(desk, plan, r, pauses).books, ReservationFor(r, now, catalog)))
  {
    var leased, i, d := Leased(desk, plan, r), RowOf(desk, plan, r), AtReserve(desk, plan, r, pauses);
    if !HasRequest(desk.leases, r.requestKey) {
      NewLease(desk.leases, plan, r);
      LeaseAfterLeasing(desk, plan, r);
      EventsKeepBooks(leased, pauses.beforeReserve);
      ReserveFailsExactly(d.books, ReservationFor(r, now, catalog));
      LiveRowExactly(leased, pauses.beforeReserve, i);
      LiveIsRow(leased.leases, i);
      LiveIsRow(d.leases, i);
      LiveRowExactly(d, pauses.beforeCancel, i);
      CancelledStays(HappenAll(d, pauses.beforeCancel), DecisionId(r.requestKey), pauses.beforeSettle, i);
    }
  }

  ghost predicate UnderPlan(events: seq<Event>, plan: Plan) {
    forall i :: 0 <= i < |events| && events[i].OnLeases? ==> events[i].plan == plan
  }

  lemma {:induction false} EventsKeepLimits(desk: Desk, events: seq<Event>, plan: Plan)
    requires WithinLimits(desk.leases, plan) && DistinctRequests(desk.leases) && UnderPlan(events, plan)
    ensures WithinLimits(HappenAll(desk, events).leases, plan) && DistinctRequests(HappenAll(desk, events).leases)
    decreases |events|
  {
    if events != [] {
      if events[0].OnLeases? { ActKeepsLimits(desk.leases, plan, events[0].action); }
      EventsKeepLimits(Happen(desk, events[0]), events[1..], plan);
    }
  }

  /** Under one plan, overlapping calls keep every limit on turns too. */
  lemma CallKeepsLimits(desk: Desk, plan: Plan, r: Request, now: int, catalog: Option<Ledger.Catalog>, pauses: Pauses)
    requires WithinLimits(desk.leases, plan) && DistinctRequests(desk.leases)
    requires UnderPlan(pauses.beforeReserve, plan) && UnderPlan(pauses.beforeCancel, plan) && UnderPlan(pauses.beforeSettle, plan)
    ensures WithinLimits(Call(desk, plan, r, now, catalog, pauses).0.leases, plan)
  {
    var id := DecisionId(r.requestKey);
    ActKeepsLimits(desk.leases, plan, Admitting(r));
    EventsKeepLimits(Leased(desk, plan, r), pauses.beforeReserve, plan);
    var d := HappenAll(AtReserve(desk, plan, r, pauses), pauses.beforeCancel);
    EventsKeepLimits(AtReserve(desk, plan, r, pauses), pauses.beforeCancel, plan);
    ActKeepsLimits(d.leases, plan, Cancelling(id));
    EventsKeepLimits(d.(leases := CancelTx(d.leases, id)), pauses.beforeSettle, plan);
  }

  // ---------------------------------------------------------------------------------------------
  // Holds and leases

  ghost predicate HoldLeft(books: Ledger.Books, requestKey: string) {
    exists i :: 0 <= i < |books.reservations| &&
      books.reservations[i].key == ReservationKey(requestKey) && books.reservations[i].Unresolved() > 0
  }

  lemma ReservedHolds(books: Ledger.Books, r: Request, now: int, catalog: Option<Ledger.Catalog>)
    requires Ledger.Reserve(books, ReservationFor(r, now, catalog)).Done?
    ensures HoldLeft(Ledger.Reserve(books, ReservationFor(r, now, catalog)).books, r.requestKey) <==>
            KeyUnused(books, ReservationKey(r.requestKey)) || HoldLeft(books, r.requestKey)
  {
    var after := Ledger.Reserve(books, ReservationFor(r, now, catalog)).books;
    if KeyUnused(books, ReservationKey(r.requestKey)) {
      var row := after.reservations[|books.reservations|];
      assert row.key == ReservationKey(r.requestKey) && row.Unresolved() > 0;
    }
  }

  /**
   A positive prepaid answer leaves credit on hold with no live lease if and only if the lease is not
   live, by the condition above, and the reservation was new or still held something.
   */
  lemma StrandedHoldExactly(desk: Desk, plan: Plan, r: Request, now: int, catalog: Option<Ledger.Catalog>, pauses: Pauses)
    requires DistinctRequests(desk.leases) && plan.prepaid && Positive(Call(desk, plan, r, now, catalog, pauses).1)
    ensures
      var after := Call(desk, plan, r, now, catalog, pauses).0;
      var books := AtReserve(desk, plan, r, pauses).books;
      HoldLeft(after.books, r.requestKey) && !LiveLease(after.leases, r.requestKey) <==>
      (&& ((HasRequest(desk.leases, r.requestKey) && !LiveLease(desk.leases, r.requestKey)) || LostMeanwhile(desk, plan, r, pauses))
       && (KeyUnused(books, ReservationKey(r.requestKey)) || HoldLeft(books, r.requestKey)))
  {
    LiveBehindPositiveAnswer(desk, plan, r, now, catalog, pauses);
    ReservedHolds(AtReserve(desk, plan, r, pauses).books, r, now, catalog);
  }

  // ---------------------------------------------------------------------------------------------
  // A cancellation gives everything back

  predicate CancelUnused(books: Ledger.Books, decisionId: string) {
    forall i :: 0 <= i < |books.settlements| ==>
      books.settlements[i].key != "cancel:" + decisionId && books.settlements[i].usageKey != "cancel:" + decisionId
  }

  /** None of the release entries the cancellation would write is already recorded. */
  predicate ReleaseKeysFree(ledger: seq<Ledger.Entry>, key: string, allocations: seq<Ledger.Allocation>) {
    forall k :: 0 <= k < |allocations| ==> ReleaseKeyFree(ledger, key, allocations[k])
  }

  predicate ReleaseKeyFree(ledger: seq<Ledger.Entry>, key: string, a: Ledger.Allocation) {
    a.Unresolved() > 0 ==> !Ledger.HasKey(ledger, key + ":release:" + a.lot)
  }

  lemma {:induction false} FullReleaseEntries(
    ledger: seq<Ledger.Entry>, key: string, r: Ledger.Reservation, allocations: seq<Ledger.Allocation>)
    requires forall i :: 0 <= i < |allocations| ==> Invariants.AllocationOk(allocations[i])
    ensures
      var cuts := Ledger.Spread(allocations, 0, Invariants.AllocationTally(allocations, Ledger.Held, Ledger.ALL));
      Ledger.Fresh(ledger, Ledger.SettleEntries(key, r, allocations, cuts)) <==> ReleaseKeysFree(ledger, key, allocations)
  {
    if allocations != [] {
      var a, rest := allocations[0], allocations[1..];
      var total := Invariants.AllocationTally(rest, Ledger.Held, Ledger.ALL);
      Invariants.AllocationTallyNonNegative(rest, Ledger.Held, Ledger.ALL);
      FullReleaseEntries(ledger, key, r, rest);
      var cuts := Ledger.Spread(allocations, 0, a.Unresolved() + total);
      assert cuts[0] == Ledger.Cut(0, a.Unresolved()) && cuts[1..] == Ledger.Spread(rest, 0, total);
      FreshConcat(ledger, Ledger.CutEntries(key, r, a, cuts[0]), Ledger.SettleEntries(key, r, rest, cuts[1..]));
      ReleaseIsFresh(ledger, key, r, a);
      FreeFirstAndRest(ledger, key, allocations);
    }
  }

  lemma ReleaseIsFresh(ledger: seq<Ledger.Entry>, key: string, r: Ledger.Reservation, a: Ledger.Allocation)
    ensures Ledger.Fresh(ledger, Ledger.CutEntries(key, r, a, Ledger.Cut(0, a.Unresolved()))) <==>
            ReleaseKeyFree(ledger, key, a)
  {
    var entries := Ledger.CutEntries(key, r, a, Ledger.Cut(0, a.Unresolved()));
    if a.Unresolved() > 0 {
      assert entries[0].key == key + ":release:" + a.lot;
    }
  }

  lemma FreeFirstAndRest(ledger: seq<Ledger.Entry>, key: string, allocations: seq<Ledger.Allocation>)
    requires allocations != []
    ensures ReleaseKeysFree(ledger, key, allocations) <==>
            ReleaseKeyFree(ledger, key, allocations[0]) && ReleaseKeysFree(ledger, key, allocations[1..])
  {
    assert allocations == [allocations[0]] + allocations[1..];
  }

  lemma FreshConcat(ledger: seq<Ledger.Entry>, a: seq<Ledger.Entry>, b: seq<Ledger.Entry>)
    ensures Ledger.Fresh(ledger, a + b) <==> Ledger.Fresh(ledger, a) && Ledger.Fresh(ledger, b)
  {
    assert forall i :: 0 <= i < |a| ==> (a + b)[i] == a[i];
    assert forall i :: 0 <= i < |b| ==> (a + b)[|a| + i] == b[i];
  }

  /**
   The settlement of a cancellation leaves nothing of the reservation unresolved if and only if
   nothing was, or its key is unused and so are the keys of its release entries.
   */
  lemma GiveBackExactly(books: Ledger.Books, decisionId: string, i: nat)
    requires Invariants.Inv(books) && i < |books.reservations|
    ensures
      var r := books.reservations[i];
      var after := Ledger.Step(books, Ledger.DoSettle(GiveBack(decisionId, r.id))).reservations;
      && i < |after| && after[i].id == r.id
      && (after[i].Unresolved() == 0 <==>
            r.Unresolved() == 0 ||
            (CancelUnused(books, decisionId) && ReleaseKeysFree(books.ledger, "cancel:" + decisionId, r.allocations)))
  {
    var r := books.reservations[i];
    var input := GiveBack(decisionId, r.id);
    assert Invariants.ReservationOk(r);
    var found := Find(books.reservations, (x: Ledger.Reservation) => x.id == r.id);
    assert found == Some(i) by { SameIdSameRow(books, found.value, i); }
    FullReleaseEntries(books.ledger, input.key, r, r.allocations);
    Invariants.SettledReservationOk(r, input);
  }

  lemma SameIdSameRow(books: Ledger.Books, i: nat, k: nat)
    requires Invariants.Inv(books) && i < |books.reservations| && k < |books.reservations|
    requires books.reservations[i].id == books.reservations[k].id
    ensures i == k
  {
    assert Invariants.ReservationOk(books.reservations[i]) && Invariants.ReservationOk(books.reservations[k]);
    PrefixInjective("cres_", books.reservations[i].key, books.reservations[k].key);
  }

  lemma StepKeepsReservation(books: Ledger.Books, c: Ledger.Command, i: nat)
    requires i < |books.reservations|
    ensures i < |Ledger.Step(books, c).reservations| && Ledger.Step(books, c).reservations[i].id == books.reservations[i].id
  {
  }

  lemma {:induction false} EventsKeepReservation(desk: Desk, events: seq<Event>, i: nat)
    requires i < |desk.books.reservations|
    ensures
      var end := HappenAll(desk, events).books.reservations;
      i < |end| && end[i].id == desk.books.reservations[i].id
    decreases |events|
  {
    if events != [] {
      if events[0].OnBooks? { StepKeepsReservation(desk.books, events[0].command, i); }
      EventsKeepReservation(Happen(desk, events[0]), events[1..], i);
    }
  }

  /**
   After a cancellation the reservation it found holds nothing, if and only if at settlement time it
   already held nothing, or the cancellation's own keys were unused.
   */
  lemma CancelledHoldsNothing(desk: Desk, decisionId: string, beforeSettle: seq<Event>) returns (i: nat)
    requires Invariants.Inv(desk.books) && Held(desk, decisionId).Some?
    ensures
      var books := HappenAll(desk.(leases := CancelTx(desk.leases, decisionId)), beforeSettle).books;
      var after := Cancel(desk, decisionId, beforeSettle).0.books;
      && i < |books.reservations| && i < |after.reservations| && after.reservations[i].id == Held(desk, decisionId).value
      && (after.reservations[i].Unresolved() == 0 <==>
            books.reservations[i].Unresolved() == 0 ||
            (CancelUnused(books, decisionId) &&
             ReleaseKeysFree(books.ledger, "cancel:" + decisionId, books.reservations[i].allocations)))
  {
    var released := desk.(leases := CancelTx(desk.leases, decisionId));
    var lease := Find(desk.leases, (l: Lease) => l.decisionId == decisionId).value;
    i := Find(desk.books.reservations, (x: Ledger.Reservation) => x.key == ReservationKey(desk.leases[lease].requestKey)).value;
    EventsKeepBooks(released, beforeSettle);
    EventsKeepReservation(released, beforeSettle, i);
    GiveBackExactly(HappenAll(released, beforeSettle).books, decisionId, i);
  }

  // ---------------------------------------------------------------------------------------------
  // Two overlapping calls

  const PURCHASE := Ledger.DoCreateLot(Ledger.LotInput(Ledger.Paid, "USD", 9, 9, "k", Some("p"), 0, None, 0))

  /** The second call's lease and cancellation, and a purchase, while the first call waits to reserve. */
  const SECOND_CALL := [
    OnLeases(OPEN_PLAN, Admitting(TURN)), OnLeases(OPEN_PLAN, Cancelling(DecisionId("turn"))), OnBooks(PURCHASE)]

  /**
   Two calls with one request key: the second is short of credit and cancels their common decision,
   credit arrives, and the first answers Allow with credit on hold and no live lease.
   */
  lemma OverlapLosesLease()
    ensures
      var first := Leased(NO_CREDIT, OPEN_PLAN, TURN);
      var (after, answer) := Call(NO_CREDIT, OPEN_PLAN, TURN, 0, Some(PRICE), Pauses(SECOND_CALL, [], []));
      && Call(first, OPEN_PLAN, TURN, 0, Some(PRICE), ALONE).1 == Decided(Deny)
      && answer == Decided(Allow) && !LiveLease(after.leases, "turn") && HoldLeft(after.books, "turn")
  {
    var first := Leased(NO_CREDIT, OPEN_PLAN, TURN);
    OpenTurn();
    assert ShortOfCredit(Ledger.Reserve(Ledger.EMPTY, ReservationFor(TURN, 0, Some(PRICE)))) by { NoCreditNoTurn(); }
    AloneIsOneStep(first, OPEN_PLAN, TURN, 0, Some(PRICE));
    var cancelled := Happen(first, OnLeases(OPEN_PLAN, Cancelling(DecisionId("turn"))));
    assert SECOND_CALL[1..] == [SECOND_CALL[1], SECOND_CALL[2]] && SECOND_CALL[1..][1..] == [SECOND_CALL[2]];
    assert SECOND_CALL[1..][1..][1..] == [];
    assert Happen(first, SECOND_CALL[0]) == first;
    var d := Happen(cancelled, OnBooks(PURCHASE));
    assert HappenAll(d, []) == d;
    assert HappenAll(cancelled, [SECOND_CALL[2]]) == d;
    assert HappenAll(first, SECOND_CALL) == d;
    CreditCanArrive();
    assert ReleasedBy(first, 0, SECOND_CALL) by { assert Releases(first.leases[0], SECOND_CALL[1]); }
    StrandedHoldExactly(NO_CREDIT, OPEN_PLAN, TURN, 0, Some(PRICE), Pauses(SECOND_CALL, [], []));
  }

  lemma OpenTurn()
    ensures AdmitTx([], OPEN_PLAN, TURN) == ([Lease("turn", DecisionId("turn"), TurnStart, None, None, Allow, false)], Allow)
    ensures AdmitTx(AdmitTx([], OPEN_PLAN, TURN).0, OPEN_PLAN, TURN) == AdmitTx([], OPEN_PLAN, TURN)
  {
    var (leases, verdict) := AdmitTx([], OPEN_PLAN, TURN);
    assert VerdictOf(true, TurnStart, MeasurementsFor([], TURN), []) == Allow;
    assert leases == [Lease("turn", DecisionId("turn"), TurnStart, None, None, Allow, false)];
    assert leases[0].requestKey == "turn";
  }

  lemma NoCreditNoTurn()
    ensures Ledger.Reserve(Ledger.EMPTY, ReservationFor(TURN, 0, Some(PRICE))) == Ledger.Rejected(Ledger.CreditInsufficient)
  {
    assert Ledger.Maximum(ReservationFor(TURN, 0, Some(PRICE))) == 5;
  }
}

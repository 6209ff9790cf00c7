/** Commercial admission: policy evaluation, the leases it opens, and the credit reservation behind it. */
module Admission {
  import opened Prelude
  import Ledger
  import LedgerInvariants
  import Reservations = LedgerReservations

  datatype Meter =
    | TenantConcurrentTurn | SessionConcurrentTurn | ProviderSpend
    | CorpusSource | CorpusByte | CorpusChunk | StorageByte

  datatype Operation = TurnStart | SourceUpload | SourceIndex | SourceRetrieval | WorkspaceConcurrency

  datatype Policy = Policy(meter: Meter, soft: Option<nat>, hard: Option<nat>, version: nat, interrupt: bool)

  datatype Verdict = Allow | Warn | Deny

  datatype Decision = Decision(verdict: Verdict, reason: Option<Meter>, version: nat, interrupt: bool)

  type Measurements = map<Meter, int>

  function Meters(operation: Operation): set<Meter> {
    match operation
    case TurnStart => {TenantConcurrentTurn, SessionConcurrentTurn, ProviderSpend}
    case SourceUpload => {CorpusSource, CorpusByte, StorageByte}
    case SourceIndex => {CorpusChunk, ProviderSpend}
    case SourceRetrieval => {ProviderSpend}
    case WorkspaceConcurrency => {TenantConcurrentTurn}
  }

  function Measure(m: Measurements, meter: Meter): int {
    if meter in m then m[meter] else 0
  }

  predicate Blocks(p: Policy, operation: Operation, m: Measurements) {
    p.meter in Meters(operation) && p.hard.Some? && Measure(m, p.meter) >= p.hard.value
  }

  predicate Warns(p: Policy, operation: Operation, m: Measurements) {
    p.meter in Meters(operation) && p.soft.Some? && Measure(m, p.meter) >= p.soft.value
  }

  /** The verdict as a property of the set of policies. */
  function VerdictOf(enabled: bool, operation: Operation, m: Measurements, policies: seq<Policy>): Verdict {
    if !enabled || exists p :: p in policies && Blocks(p, operation, m) then Deny
    else if exists p :: p in policies && Warns(p, operation, m) then Warn
    else Allow
  }

  method EvaluateAdmission(enabled: bool, plan: nat, operation: Operation, m: Measurements, policies: seq<Policy>)
    returns (d: Decision)
    ensures d.verdict == VerdictOf(enabled, operation, m, policies)
    // a denial by policy names the first policy that blocks; a warning names the first that warns
    ensures enabled && d.verdict == Deny ==> exists i :: (
      0 <= i < |policies| && Blocks(policies[i], operation, m) &&
      d == Decision(Deny, Some(policies[i].meter), policies[i].version, policies[i].interrupt) &&
      forall j :: 0 <= j < i ==> !Blocks(policies[j], operation, m))
    ensures d.verdict == Warn ==> exists i :: (
      0 <= i < |policies| && Warns(policies[i], operation, m) &&
      d == Decision(Warn, Some(policies[i].meter), policies[i].version, policies[i].interrupt) &&
      forall j :: 0 <= j < i ==> !Warns(policies[j], operation, m))
    ensures !enabled || d.verdict == Allow ==> d.reason == None && d.version == plan && !d.interrupt
  {
    if !enabled {
      return Decision(Deny, None, plan, false);
    }
    var warning: Option<nat> := None;
    for i := 0 to |policies|
      invariant forall j :: 0 <= j < i ==> !Blocks(policies[j], operation, m)
      invariant warning.None? ==> forall j :: 0 <= j < i ==> !Warns(policies[j], operation, m)
      invariant warning.Some? ==> warning.value < i && Warns(policies[warning.value], operation, m)
      invariant warning.Some? ==> forall j :: 0 <= j < warning.value ==> !Warns(policies[j], operation, m)
    {
      var policy := policies[i];
      if policy.meter !in Meters(operation) {
        continue;
      }
      var measured := Measure(m, policy.meter);
      if policy.hard.Some? && measured >= policy.hard.value {
        assert policy in policies && Blocks(policy, operation, m);
        return Decision(Deny, Some(policy.meter), policy.version, policy.interrupt);
      }
      if policy.soft.Some? && measured >= policy.soft.value && warning.None? {
        warning := Some(i);
      }
    }
    if warning.Some? {
      var policy := policies[warning.value];
      assert policy in policies;
      return Decision(Warn, Some(policy.meter), policy.version, policy.interrupt);
    }
    d := Decision(Allow, None, plan, false);
  }

  function Rank(v: Verdict): nat {
    match v case Allow => 0 case Warn => 1 case Deny => 2
  }

  /** The verdict does not depend on the order or repetition of policies. */
  lemma VerdictIgnoresOrder(enabled: bool, operation: Operation, m: Measurements, first: seq<Policy>, second: seq<Policy>)
    requires forall p :: p in first <==> p in second
    ensures VerdictOf(enabled, operation, m, first) == VerdictOf(enabled, operation, m, second)
  {
    assert forall p :: p in first && Blocks(p, operation, m) <==> p in second && Blocks(p, operation, m);
    assert forall p :: p in first && Warns(p, operation, m) <==> p in second && Warns(p, operation, m);
  }

  /** Larger measurements and more policies only worsen the verdict. */
  lemma VerdictWorsens(
    enabled: bool, operation: Operation, low: Measurements, high: Measurements, few: seq<Policy>, many: seq<Policy>)
    requires forall meter :: Measure(low, meter) <= Measure(high, meter)
    requires forall p :: p in few ==> p in many
    ensures Rank(VerdictOf(enabled, operation, low, few)) <= Rank(VerdictOf(enabled, operation, high, many))
  {
    assert forall p :: p in few && Blocks(p, operation, low) ==> p in many && Blocks(p, operation, high);
    assert forall p :: p in few && Warns(p, operation, low) ==> p in many && Warns(p, operation, high);
  }

  // ---------------------------------------------------------------------------------------------
  // Leases

  datatype Lease = Lease(
    requestKey: string, decisionId: string, operation: Operation, session: Option<string>,
    resource: Option<string>, verdict: Verdict, released: bool)

  datatype Request = Request(operation: Operation, requestKey: string, session: Option<string>, other: Measurements)

  datatype Plan = Plan(enabled: set<Operation>, policies: seq<Policy>, prepaid: bool)

  predicate LiveTurn(l: Lease) { l.operation == TurnStart && !l.released }

  predicate InSession(l: Lease, session: Option<string>) { session.Some? && l.session == session }

  function Turns(leases: seq<Lease>): nat {
    if leases == [] then 0
    else Turns(leases[..|leases| - 1]) + if LiveTurn(leases[|leases| - 1]) then 1 else 0
  }

  /** SQL equality: a request without a session matches no lease. */
  function SessionTurns(leases: seq<Lease>, session: Option<string>): nat {
    if leases == [] then 0
    else SessionTurns(leases[..|leases| - 1], session) +
         if LiveTurn(leases[|leases| - 1]) && InSession(leases[|leases| - 1], session) then 1 else 0
  }

  function MeasurementsFor(leases: seq<Lease>, r: Request): Measurements {
    r.other[TenantConcurrentTurn := Turns(leases)][SessionConcurrentTurn := SessionTurns(leases, r.session)]
  }

  function DecisionId(requestKey: string): string { "qad_" + requestKey }

  /** The admission transaction: one lease per request key, born released when denied. */
  function AdmitTx(leases: seq<Lease>, plan: Plan, r: Request): (seq<Lease>, Verdict) {
    match Find(leases, (l: Lease) => l.requestKey == r.requestKey)
    case Some(i) => (leases, leases[i].verdict)
    case None =>
      var verdict := VerdictOf(r.operation in plan.enabled, r.operation, MeasurementsFor(leases, r), plan.policies);
      (leases + [Lease(r.requestKey, DecisionId(r.requestKey), r.operation, r.session, None, verdict, verdict == Deny)], verdict)
  }

  function BindTx(leases: seq<Lease>, decisionId: string, resource: string): seq<Lease> {
    seq(|leases|, i requires 0 <= i < |leases| =>
      if leases[i].decisionId == decisionId && leases[i].resource.None? then leases[i].(resource := Some(resource)) else leases[i])
  }

  function CompleteTx(leases: seq<Lease>, resource: string): seq<Lease> {
    seq(|leases|, i requires 0 <= i < |leases| =>
      if leases[i].resource == Some(resource) then leases[i].(released := true) else leases[i])
  }

  function CancelTx(leases: seq<Lease>, decisionId: string): seq<Lease> {
    seq(|leases|, i requires 0 <= i < |leases| =>
      if leases[i].decisionId == decisionId then leases[i].(released := true) else leases[i])
  }

  datatype Action = Admitting(request: Request) | Binding(decisionId: string, resource: string) | Completing(resource: string) | Cancelling(decisionId: string)

  function Act(leases: seq<Lease>, plan: Plan, a: Action): seq<Lease> {
    match a
    case Admitting(r) => AdmitTx(leases, plan, r).0
    case Binding(id, resource) => BindTx(leases, id, resource)
    case Completing(resource) => CompleteTx(leases, resource)
    case Cancelling(id) => CancelTx(leases, id)
  }

  function ActAll(leases: seq<Lease>, plan: Plan, actions: seq<Action>): seq<Lease>
    decreases |actions|
  {
    if actions == [] then leases else ActAll(Act(leases, plan, actions[0]), plan, actions[1..])
  }

  ghost predicate DistinctRequests(leases: seq<Lease>) {
    forall i, j :: 0 <= i < j < |leases| ==> leases[i].requestKey != leases[j].requestKey
  }

  ghost predicate WithinLimits(leases: seq<Lease>, plan: Plan) {
    forall p :: p in plan.policies && p.hard.Some? ==>
      && (p.meter == TenantConcurrentTurn ==> Turns(leases) <= p.hard.value)
      && (p.meter == SessionConcurrentTurn ==> forall s :: SessionTurns(leases, s) <= p.hard.value)
  }

  /** Updates that only release or annotate leases open no turn. */
  ghost predicate OnlyReleases(before: seq<Lease>, after: seq<Lease>) {
    && |after| == |before|
    && forall i :: 0 <= i < |before| ==>
         after[i].(resource := before[i].resource, released := before[i].released) == before[i] &&
         (before[i].released ==> after[i].released)
  }

  lemma {:induction false} ReleasingOpensNothing(before: seq<Lease>, after: seq<Lease>, session: Option<string>)
    requires OnlyReleases(before, after)
    ensures Turns(after) <= Turns(before) && SessionTurns(after, session) <= SessionTurns(before, session)
  {
    if before != [] {
      var n := |before| - 1;
      assert after[n].(resource := before[n].resource, released := before[n].released) == before[n];
      ReleasingOpensNothing(before[..n], after[..n], session);
    }
  }

  lemma ActKeepsLimits(leases: seq<Lease>, plan: Plan, a: Action)
    requires WithinLimits(leases, plan) && DistinctRequests(leases)
    ensures WithinLimits(Act(leases, plan, a), plan) && DistinctRequests(Act(leases, plan, a))
  {
    if !a.Admitting? {
      var after := Act(leases, plan, a);
      assert OnlyReleases(leases, after);
      forall p | p in plan.policies && p.hard.Some?
        ensures p.meter == TenantConcurrentTurn ==> Turns(after) <= p.hard.value
        ensures p.meter == SessionConcurrentTurn ==> forall s :: SessionTurns(after, s) <= p.hard.value
      {
        ReleasingOpensNothing(leases, after, None);
        forall s | p.meter == SessionConcurrentTurn ensures SessionTurns(after, s) <= p.hard.value {
          ReleasingOpensNothing(leases, after, s);
          assert SessionTurns(leases, s) <= p.hard.value;
        }
      }
    }
  }

  /** Under a fixed plan no run of admissions, bindings, completions and cancellations exceeds a hard limit on turns. */
  lemma {:induction false} RunsKeepLimits(leases: seq<Lease>, plan: Plan, actions: seq<Action>)
    requires WithinLimits(leases, plan) && DistinctRequests(leases)
    ensures WithinLimits(ActAll(leases, plan, actions), plan) && DistinctRequests(ActAll(leases, plan, actions))
    decreases |actions|
  {
    if actions != [] {
      ActKeepsLimits(leases, plan, actions[0]);
      RunsKeepLimits(Act(leases, plan, actions[0]), plan, actions[1..]);
    }
  }

  ghost predicate HasRequest(leases: seq<Lease>, requestKey: string) {
    exists i :: 0 <= i < |leases| && leases[i].requestKey == requestKey
  }

  /** Once a request key was admitted or denied, asking again at any later time changes nothing and repeats the verdict. */
  lemma {:induction false} RepeatedRequestAddsNothing(leases: seq<Lease>, plan: Plan, r: Request, between: seq<Action>)
    requires DistinctRequests(leases)
    ensures
      var (first, verdict) := AdmitTx(leases, plan, r);
      var later := ActAll(first, plan, between);
      AdmitTx(later, plan, r) == (later, verdict)
  {
    var (first, verdict) := AdmitTx(leases, plan, r);
    AdmittedIsRecorded(leases, plan, r);
    RecordPersists(first, plan, between, r.requestKey, verdict);
  }

  ghost predicate RecordedAs(leases: seq<Lease>, requestKey: string, verdict: Verdict) {
    && DistinctRequests(leases)
    && exists i :: 0 <= i < |leases| && leases[i].requestKey == requestKey && leases[i].verdict == verdict
  }

  lemma AdmittedIsRecorded(leases: seq<Lease>, plan: Plan, r: Request)
    requires DistinctRequests(leases)
    ensures RecordedAs(AdmitTx(leases, plan, r).0, r.requestKey, AdmitTx(leases, plan, r).1)
  {
    var (after, verdict) := AdmitTx(leases, plan, r);
    if |after| > |leases| { assert after[|leases|].requestKey == r.requestKey; }
  }

  lemma {:induction false} RecordPersists(leases: seq<Lease>, plan: Plan, actions: seq<Action>, requestKey: string, verdict: Verdict)
    requires RecordedAs(leases, requestKey, verdict)
    ensures RecordedAs(ActAll(leases, plan, actions), requestKey, verdict)
    decreases |actions|
  {
    if actions != [] {
      var next := Act(leases, plan, actions[0]);
      var i :| 0 <= i < |leases| && leases[i].requestKey == requestKey && leases[i].verdict == verdict;
      assert next[i].requestKey == requestKey && next[i].verdict == verdict;
      assert DistinctRequests(next);
      RecordPersists(next, plan, actions[1..], requestKey, verdict);
    }
  }

  // ---------------------------------------------------------------------------------------------
  // Admission with prepaid credit

  datatype Desk = Desk(leases: seq<Lease>, books: Ledger.Books)

  datatype Answer = Decided(verdict: Verdict) | Threw(error: Ledger.Error)

  function OperationName(operation: Operation): string {
    match operation
    case TurnStart => "turn.start"
    case SourceUpload => "source.upload"
    case SourceIndex => "source.index"
    case SourceRetrieval => "source.retrieval"
    case WorkspaceConcurrency => "workspace.concurrency"
  }

  /** The reservation an admission makes: its key is derived from the request key. */
  function ReservationFor(r: Request, now: int, catalog: Option<Ledger.Catalog>): Ledger.ReserveInput {
    Ledger.ReserveInput("admission:" + r.requestKey, OperationName(r.operation), None, now, catalog)
  }

  /** The whole of admit: the lease transaction, the reservation, and the cancellation when credit is short. */
  function Admit(desk: Desk, plan: Plan, r: Request, now: int, catalog: Option<Ledger.Catalog>): (Desk, Answer) {
    var (leases, verdict) := AdmitTx(desk.leases, plan, r);
    if verdict == Deny || !plan.prepaid then (desk.(leases := leases), Decided(verdict))
    else match Ledger.Reserve(desk.books, ReservationFor(r, now, catalog))
      case Done(books) => (Desk(leases, books), Decided(verdict))
      case Rejected(error) =>
        if error in {Ledger.CreditInsufficient, Ledger.NegativeBalanceForbidden}
        then (desk.(leases := CancelTx(leases, DecisionId(r.requestKey))), Decided(Deny))
        else (desk.(leases := leases), Threw(error))
  }

  ghost predicate LiveLease(leases: seq<Lease>, requestKey: string) {
    exists i :: 0 <= i < |leases| && leases[i].requestKey == requestKey && !leases[i].released
  }

  /** A positive answer has a live lease exactly when the request is new or its lease was still live. */
  lemma PositiveAnswerHasLiveLease(desk: Desk, plan: Plan, r: Request, now: int, catalog: Option<Ledger.Catalog>)
    requires DistinctRequests(desk.leases)
    requires Admit(desk, plan, r, now, catalog).1 in {Decided(Allow), Decided(Warn)}
    ensures HasRequest(Admit(desk, plan, r, now, catalog).0.leases, r.requestKey)
    ensures LiveLease(Admit(desk, plan, r, now, catalog).0.leases, r.requestKey) <==>
            !HasRequest(desk.leases, r.requestKey) || LiveLease(desk.leases, r.requestKey)
  {
    var (leases, verdict) := AdmitTx(desk.leases, plan, r);
    AdmittedIsRecorded(desk.leases, plan, r);
    if |leases| > |desk.leases| {
      assert leases[|desk.leases|].requestKey == r.requestKey && !leases[|desk.leases|].released;
    }
  }

  /** The whole admission, with its cancellation for lack of credit, stays within the limits on turns. */
  lemma AdmitKeepsLimits(desk: Desk, plan: Plan, r: Request, now: int, catalog: Option<Ledger.Catalog>)
    requires WithinLimits(desk.leases, plan) && DistinctRequests(desk.leases)
    ensures
      var after := Admit(desk, plan, r, now, catalog).0.leases;
      WithinLimits(after, plan) && DistinctRequests(after)
  {
    ActKeepsLimits(desk.leases, plan, Admitting(r));
    ActKeepsLimits(AdmitTx(desk.leases, plan, r).0, plan, Cancelling(DecisionId(r.requestKey)));
  }

  // A reservation that fails for another reason than lack of credit leaves the new lease open.

  predicate KeyUnused(books: Ledger.Books, key: string) {
    forall i :: 0 <= i < |books.reservations| ==> books.reservations[i].key != key
  }

  /** No catalog is in force, or it prices the operation at nothing. */
  predicate NoPrice(input: Ledger.ReserveInput) {
    input.catalog.None? || Ledger.Maximum(input) <= 0
  }

  predicate CreditSuffices(books: Ledger.Books, input: Ledger.ReserveInput)
    requires input.catalog.Some?
  {
    && Ledger.Tally(books.ledger, Ledger.Available, Ledger.ALL) >= Ledger.Maximum(input)
    && Reservations.Capacity(Reservations.Candidates(books, input.now), input.catalog.value.currency) >= Ledger.Maximum(input)
  }

  /** One of the keys its hold entries would carry is already in the ledger. */
  predicate HoldKeyTaken(books: Ledger.Books, input: Ledger.ReserveInput)
    requires input.catalog.Some?
  {
    var rows := Reservations.Candidates(books, input.now);
    var currency := input.catalog.value.currency;
    var allocations := Ledger.Allocations(rows, Ledger.Take(rows, currency, Ledger.Maximum(input)));
    !Ledger.Fresh(books.ledger, Ledger.HoldEntries(input.key, currency, allocations))
  }

  predicate FailsOtherwise(books: Ledger.Books, input: Ledger.ReserveInput) {
    KeyUnused(books, input.key) &&
    (NoPrice(input) || (CreditSuffices(books, input) && HoldKeyTaken(books, input)))
  }

  predicate ShortOfCredit(outcome: Ledger.Outcome) {
    outcome in {Ledger.Rejected(Ledger.CreditInsufficient), Ledger.Rejected(Ledger.NegativeBalanceForbidden)}
  }

  lemma ReserveFailsExactly(books: Ledger.Books, input: Ledger.ReserveInput)
    requires LedgerInvariants.LotsOk(books.lots)
    ensures Ledger.Reserve(books, input).Rejected? && !ShortOfCredit(Ledger.Reserve(books, input)) <==> FailsOtherwise(books, input)
  {
    if KeyUnused(books, input.key) && !NoPrice(input) {
      Reservations.InsufficientExactly(books, input);
    }
  }

  predicate Positive(answer: Answer) { answer in {Decided(Allow), Decided(Warn)} }

  /**
   A call without a positive answer leaves a newly opened live lease if and only if the request is
   new, no policy denies it, the plan is prepaid, the reservation key is unused, and either there is
   no price or credit suffices and a hold key is already recorded.
   */
  lemma OrphanedLeaseExactly(desk: Desk, plan: Plan, r: Request, now: int, catalog: Option<Ledger.Catalog>)
    requires LedgerInvariants.LotsOk(desk.books.lots)
    ensures
      var (after, answer) := Admit(desk, plan, r, now, catalog);
      !Positive(answer) && !HasRequest(desk.leases, r.requestKey) && LiveLease(after.leases, r.requestKey) <==>
      (&& !HasRequest(desk.leases, r.requestKey) && plan.prepaid
       && VerdictOf(r.operation in plan.enabled, r.operation, MeasurementsFor(desk.leases, r), plan.policies) != Deny
       && FailsOtherwise(desk.books, ReservationFor(r, now, catalog)))
  {
    ReserveFailsExactly(desk.books, ReservationFor(r, now, catalog));
    var (leases, verdict) := AdmitTx(desk.leases, plan, r);
    if !HasRequest(desk.leases, r.requestKey) {
      NewLease(desk.leases, plan, r);
    }
  }

  lemma NewLease(leases: seq<Lease>, plan: Plan, r: Request)
    requires !HasRequest(leases, r.requestKey)
    ensures
      var (after, verdict) := AdmitTx(leases, plan, r);
      && verdict == VerdictOf(r.operation in plan.enabled, r.operation, MeasurementsFor(leases, r), plan.policies)
      && (LiveLease(after, r.requestKey) <==> verdict != Deny)
      && (forall i :: 0 <= i < |after| && after[i].requestKey == r.requestKey ==> after[i].decisionId == DecisionId(r.requestKey))
  {
    var (after, verdict) := AdmitTx(leases, plan, r);
    assert after[|leases|].requestKey == r.requestKey && after[|leases|].released == (verdict == Deny);
    assert forall i :: 0 <= i < |leases| ==> leases[i].requestKey != r.requestKey && after[i] == leases[i];
  }

  /** Without a price catalog a prepaid turn throws and keeps its lease, which counts as a turn. */
  lemma MissingCatalogOrphansLease()
    ensures
      var (after, answer) := Admit(NO_CREDIT, OPEN_PLAN, TURN, 0, None);
      answer == Threw(Ledger.RetailPriceCatalogMissing) && LiveLease(after.leases, "turn") && Turns(after.leases) == 1
  {
    var (leases, verdict) := AdmitTx([], OPEN_PLAN, TURN);
    assert VerdictOf(true, TurnStart, MeasurementsFor([], TURN), []) == Allow;
    assert leases == [Lease("turn", DecisionId("turn"), TurnStart, None, None, Allow, false)];
    assert leases[0].requestKey == "turn" && leases[..0] == [];
  }

  const OPEN_PLAN := Plan({TurnStart}, [], true)
  const TURN := Request(TurnStart, "turn", None, map[])
  const NO_CREDIT := Desk([], Ledger.EMPTY)
  const PRICE := Ledger.Catalog("USD", map["turn.start" := 5])

  /** Denied for lack of credit, then retried once credit has arrived: the answer is positive and no lease is live. */
  lemma RetryAfterCreditDenial(books: Ledger.Books)
    requires Ledger.Reserve(books, ReservationFor(TURN, 0, Some(PRICE))).Done?
    ensures
      var (denied, first) := Admit(NO_CREDIT, OPEN_PLAN, TURN, 0, Some(PRICE));
      var (after, second) := Admit(denied.(books := books), OPEN_PLAN, TURN, 0, Some(PRICE));
      first == Decided(Deny) && second == Decided(Allow) && !LiveLease(after.leases, "turn") && Turns(after.leases) == 0
  {
    var (leases, verdict) := AdmitTx([], OPEN_PLAN, TURN);
    assert VerdictOf(true, TurnStart, MeasurementsFor([], TURN), []) == Allow;
    assert verdict == Allow && |leases| == 1;
    assert Ledger.Maximum(ReservationFor(TURN, 0, Some(PRICE))) == 5;
    assert Ledger.Reserve(Ledger.EMPTY, ReservationFor(TURN, 0, Some(PRICE))) == Ledger.Rejected(Ledger.CreditInsufficient);
    var denied := Admit(NO_CREDIT, OPEN_PLAN, TURN, 0, Some(PRICE)).0;
    assert |denied.leases| == 1 && denied.leases[0].released;
    assert Turns(denied.leases) == 0 by { assert denied.leases[..0] == []; }
  }

  /** Such books exist: a single purchase large enough. */
  lemma CreditCanArrive()
    ensures
      var books := Ledger.Step(Ledger.EMPTY, Ledger.DoCreateLot(Ledger.LotInput(Ledger.Paid, "USD", 9, 9, "k", Some("p"), 0, None, 0)));
      Ledger.Reserve(books, ReservationFor(TURN, 0, Some(PRICE))).Done?
  {
    var input := Ledger.LotInput(Ledger.Paid, "USD", 9, 9, "k", Some("p"), 0, None, 0);
    var lot := Ledger.UpsertLot([], input).value[0];
    var entry := Ledger.LotEntry(input, lot.id);
    var books := Ledger.Step(Ledger.EMPTY, Ledger.DoCreateLot(input));
    assert books.lots == [lot] && books.ledger == [entry];
    assert [entry][..0] == [];
    assert Ledger.Tally([entry], Ledger.Available, Ledger.ALL) == 9;
    assert Ledger.Tally([entry], Ledger.Available, Ledger.OneLot(lot.id)) == 9;
    assert [lot][1..] == [];
    var r := ReservationFor(TURN, 0, Some(PRICE));
    assert Ledger.Maximum(r) == 5;
    var rows := Ledger.EligibleRows([lot], [entry], 0);
    assert Ledger.EligibleRows([lot][1..], [entry], 0) == [];
    assert rows == [Ledger.Row(lot, 9)] + [];
    assert rows == [Ledger.Row(lot, 9)];
    assert rows[1..] == [];
    assert Ledger.OrderBy(rows) == rows;
    var amounts := Ledger.Take(rows, "USD", 5);
    assert amounts == [5];
    assert Ledger.Sum([5]) == 5;
    var allocations := Ledger.Allocations(rows, amounts);
    assert Ledger.Allocations(rows[1..], amounts[1..]) == [];
    assert allocations == [Ledger.Allocation(lot.id, 5, 0, 0)] + [];
    var entries := Ledger.HoldEntries(r.key, "USD", allocations);
    assert allocations[1..] == [];
    assert Ledger.HoldEntries(r.key, "USD", allocations[1..]) == [];
    assert |entries| == 1 && |entries[0].key| > 1;
    assert Ledger.Fresh([entry], entries);
  }
}

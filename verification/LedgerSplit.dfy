/** The paid and the promotional column of a balance: when they add up to the total. */
module LedgerSplit {
  import opened Prelude
  import opened Ledger
  import opened LedgerInvariants
  import opened LedgerReservations
  import opened LedgerRuns

  // ---------------------------------------------------------------------------------------------
  // Splitting the available balance by kind of lot

  /** A grant recorded on a paid lot, or a purchase recorded on a promotional one. */
  predicate Misfiled(e: Entry, lots: seq<Lot>) {
    (e.kind == PromotionalGrant && e.lot in KindIds(lots, Paid)) ||
    (e.kind == Purchase && e.lot in KindIds(lots, Promotional))
  }

  function MisfiledCredits(ledger: seq<Entry>, lots: seq<Lot>): int {
    if ledger == [] then 0
    else MisfiledCredits(ledger[..|ledger| - 1], lots) +
         (if Misfiled(ledger[|ledger| - 1], lots) then ledger[|ledger| - 1].credits else 0)
  }

  lemma {:induction false} SplitGap(ledger: seq<Entry>, lots: seq<Lot>)
    requires LotsOk(lots) && LedgerOk(ledger, lots)
    ensures Tally(ledger, Available, ALL) ==
            Tally(ledger, PaidAvailable, OfKind(lots, Paid)) +
            Tally(ledger, PromoAvailable, OfKind(lots, Promotional)) + MisfiledCredits(ledger, lots)
    ensures MisfiledCredits(ledger, lots) >= 0
    ensures MisfiledCredits(ledger, lots) == 0 <==> forall i :: 0 <= i < |ledger| ==> !Misfiled(ledger[i], lots)
  {
    if ledger != [] {
      var rest := ledger[..|ledger| - 1];
      SplitGap(rest, lots);
      KindsPartition(lots, ledger[|ledger| - 1].lot);
      assert forall i :: 0 <= i < |rest| ==> rest[i] == ledger[i];
      assert EntryOk(ledger[|ledger| - 1]);
    }
  }

  /** The paid and promotional columns add up to the total exactly when no entry is misfiled. */
  lemma SplitExactly(b: Books)
    requires Inv(b)
    ensures
      var balance := CreditBalance(b);
      balance.available == balance.paidAvailable + balance.promoAvailable <==>
      forall i :: 0 <= i < |b.ledger| ==> !Misfiled(b.ledger[i], b.lots)
  {
    SplitGap(b.ledger, b.lots);
  }

  // A grant that carries the payment reference of a paid lot can be recorded on that paid lot.

  const PAID_BUY := LotInput(Paid, "USD", 5, 5, "k1", Some("p"), 0, None, 0)
  const STRAY_GRANT := LotInput(Promotional, "USD", 7, 0, "k2", Some("p"), 0, None, 0)

  lemma SplitCanFail()
    ensures
      var balance := CreditBalance(Run(EMPTY, [DoCreateLot(PAID_BUY), DoCreateLot(STRAY_GRANT)]));
      balance.available != balance.paidAvailable + balance.promoAvailable
  {
    var commands := [DoCreateLot(PAID_BUY), DoCreateLot(STRAY_GRANT)];
    var b1 := Step(EMPTY, commands[0]);
    var b2 := Step(b1, commands[1]);
    assert commands[1..] == [commands[1]];
    assert Run(EMPTY, commands) == Run(b1, [commands[1]]) == Run(b2, []);
    AfterStrayGrant(b1);
    StepKeeps(EMPTY, commands[0]);
    StepKeeps(b1, commands[1]);
    SplitExactly(b2);
  }

  lemma AfterStrayGrant(b: Books)
    requires |b.lots| == 1 && b.lots[0].id == LotId(Paid, "p") && b.lots[0].kind == Paid && b.lots[0].key == "k1"
    requires b.lots[0].reference == Some("p") && |b.ledger| == 1 && b.ledger[0].key == "k1"
    ensures
      var b' := Step(b, DoCreateLot(STRAY_GRANT));
      |b'.ledger| == 2 && Misfiled(b'.ledger[1], b'.lots)
  {
    KindPrefixes("p", "p");
    assert "k1"[1] == '1' && "k2"[1] == '2';
    var lots := UpsertLot(b.lots, STRAY_GRANT).value;
    assert lots[0] == b.lots[0] && lots[0] in lots;
    assert lots[0].id in KindIds(lots, Paid);
    assert PickRow(lots, LotIdOf(STRAY_GRANT), Some("p"), 0) == 0;
    assert !HasKey(b.ledger, "k2");
  }

  lemma KindPrefixes(a: string, b: string)
    ensures LotId(Paid, a) != LotId(Promotional, b)
  {
    assert LotId(Paid, a)[6] == 'a' && LotId(Promotional, b)[6] == 'r';
  }

  // ---------------------------------------------------------------------------------------------
  // One call: exactly when it keeps the columns adding up

  ghost predicate LotKinded(l: Lot) {
    exists text :: l.id == LotId(l.kind, text)
  }

  ghost predicate LotsKinded(lots: seq<Lot>) {
    forall i :: 0 <= i < |lots| ==> LotKinded(lots[i])
  }

  lemma UpsertKeepsKinded(lots: seq<Lot>, input: LotInput)
    requires LotsKinded(lots) && UpsertLot(lots, input).Some?
    ensures LotsKinded(UpsertLot(lots, input).value)
  {
    var after := UpsertLot(lots, input).value;
    forall i | 0 <= i < |after| ensures LotKinded(after[i]) {
      if i < |lots| { assert LotKinded(lots[i]); }
    }
  }

  lemma SameIdSameKind(l: Lot, input: LotInput)
    requires LotKinded(l) && l.id == LotIdOf(input)
    ensures l.kind == input.kind
  {
    var text :| l.id == LotId(l.kind, text);
    var other := if input.reference.Some? then input.reference.value else input.key;
    if l.kind == Paid { KindPrefixes(text, other); } else { KindPrefixes(other, text); }
  }

  /** No lot of the other kind carries the input's payment reference. */
  ghost predicate ReferenceIsOfKind(lots: seq<Lot>, input: LotInput) {
    forall i :: 0 <= i < |lots| && input.reference.Some? && lots[i].reference == input.reference ==> lots[i].kind == input.kind
  }

  function Picked(lots: seq<Lot>, input: LotInput): Lot
    requires UpsertLot(lots, input).Some?
  {
    var after := UpsertLot(lots, input).value;
    after[PickRow(after, LotIdOf(input), input.reference, input.pick)]
  }

  /** Then the row picked after the upsert is of the input's kind, whichever it is. */
  lemma PickedOfKind(lots: seq<Lot>, input: LotInput)
    requires LotsKinded(lots) && UpsertLot(lots, input).Some? && ReferenceIsOfKind(lots, input)
    ensures Picked(lots, input).kind == input.kind
  {
    var after := UpsertLot(lots, input).value;
    var r := PickRow(after, LotIdOf(input), input.reference, input.pick);
    UpsertKeepsKinded(lots, input);
    assert LotKinded(after[r]);
    if after[r].id == LotIdOf(input) { SameIdSameKind(after[r], input); }
  }

  ghost predicate AddsUp(b: Books) {
    var balance := CreditBalance(b);
    balance.available == balance.paidAvailable + balance.promoAvailable
  }

  lemma KindIdsOfRow(lots: seq<Lot>, i: nat, kind: Kind)
    requires LotsOk(lots) && i < |lots|
    ensures lots[i].id in KindIds(lots, kind) <==> lots[i].kind == kind
  {
    assert lots[i] in lots;
    if lots[i].id in KindIds(lots, kind) {
      var l :| l in lots && l.kind == kind && l.id == lots[i].id;
      var j :| 0 <= j < |lots| && lots[j] == l;
      assert i == j;
    }
  }

  /** Entries already recorded are filed after the upsert as they were before. */
  lemma RecordedStaysFiled(b: Books, input: LotInput, e: Entry)
    requires Inv(b) && UpsertLot(b.lots, input).Some? && LotsOk(UpsertLot(b.lots, input).value) && HasLotId(b.lots, e.lot)
    ensures Misfiled(e, UpsertLot(b.lots, input).value) <==> Misfiled(e, b.lots)
  {
    var after := UpsertLot(b.lots, input).value;
    var i :| 0 <= i < |b.lots| && b.lots[i].id == e.lot;
    forall kind ensures e.lot in KindIds(after, kind) <==> e.lot in KindIds(b.lots, kind) {
      KindIdsOfRow(b.lots, i, kind);
      KindIdsOfRow(after, i, kind);
    }
  }

  /** A newly recorded purchase or grant keeps the columns adding up exactly when the row it lands on is of its kind. */
  lemma PickedKindDecides(b: Books, input: LotInput)
    requires Inv(b) && AddsUp(b) && CreateLot(b, input).Done? && !HasKey(b.ledger, input.key)
    ensures AddsUp(CreateLot(b, input).books) <==> Picked(b.lots, input).kind == input.kind
  {
    var b' := CreateLot(b, input).books;
    var row, e := Picked(b.lots, input), LotEntry(input, Picked(b.lots, input).id);
    CreateLotKeeps(b, input);
    SplitExactly(b);
    SplitExactly(b');
    assert b'.ledger == b.ledger + [e];
    forall i | 0 <= i < |b.ledger| ensures !Misfiled(b'.ledger[i], b'.lots) {
      assert b'.ledger[i] == b.ledger[i];
      RecordedStaysFiled(b, input, b.ledger[i]);
    }
    var r := PickRow(b'.lots, LotIdOf(input), input.reference, input.pick);
    KindIdsOfRow(b'.lots, r, Paid);
    KindIdsOfRow(b'.lots, r, Promotional);
    assert b'.ledger[|b.ledger|] == e;
  }

  function At(input: LotInput, pick: nat): LotInput { input.(pick := pick) }

  ghost predicate Keeps(b: Books, input: LotInput, pick: nat) {
    CreateLot(b, At(input, pick)).Done? && AddsUp(CreateLot(b, At(input, pick)).books)
  }

  lemma PickDecides(b: Books, input: LotInput, pick: nat)
    requires Inv(b) && AddsUp(b) && CreateLot(b, input).Done? && !HasKey(b.ledger, input.key)
    ensures UpsertLot(b.lots, At(input, pick)) == UpsertLot(b.lots, input)
    ensures Keeps(b, input, pick) <==> Picked(b.lots, At(input, pick)).kind == input.kind
  {
    PickedKindDecides(b, At(input, pick));
  }

  lemma OtherKindCanBePicked(b: Books, input: LotInput) returns (pick: nat)
    requires UpsertLot(b.lots, input).Some? && !ReferenceIsOfKind(b.lots, input)
    ensures UpsertLot(b.lots, At(input, pick)) == UpsertLot(b.lots, input)
    ensures Picked(b.lots, At(input, pick)).kind != input.kind
  {
    var i :| 0 <= i < |b.lots| && input.reference.Some? && b.lots[i].reference == input.reference && b.lots[i].kind != input.kind;
    pick := i;
  }

  /**
   From sound books whose columns add up, an accepted purchase or grant under a new key keeps them
   adding up, whichever row the unordered query returns, if and only if no lot of the other kind
   carries its payment reference.
   */
  lemma SplitKeptExactly(b: Books, input: LotInput)
    requires Inv(b) && LotsKinded(b.lots) && AddsUp(b) && CreateLot(b, input).Done? && !HasKey(b.ledger, input.key)
    ensures (forall pick: nat :: Keeps(b, input, pick)) <==> ReferenceIsOfKind(b.lots, input)
  {
    if ReferenceIsOfKind(b.lots, input) {
      forall pick: nat ensures Keeps(b, input, pick) {
        PickDecides(b, input, pick);
        PickedOfKind(b.lots, At(input, pick));
      }
    } else {
      var pick := OtherKindCanBePicked(b, input);
      PickDecides(b, input, pick);
    }
  }

  /** Lot ids carry their kind in every reachable state. */
  lemma {:induction false} RunKeepsKinded(b: Books, commands: seq<Command>)
    requires LotsKinded(b.lots)
    ensures LotsKinded(Run(b, commands).lots)
    decreases |commands|
  {
    if commands != [] {
      RunKeepsKinded(Step(b, commands[0]), commands[1..]);
    }
  }

  // When grants carry no payment reference, as every grant from a webhook does, nothing is misfiled.

  predicate PlainGrant(c: Command) {
    c.DoCreateLot? && c.lot.kind == Promotional ==> c.lot.reference.None?
  }

  ghost predicate LotFiled(l: Lot) {
    LotKinded(l) && (l.kind == Promotional ==> l.reference.None?)
  }

  ghost predicate WellFiled(b: Books) {
    && (forall i :: 0 <= i < |b.lots| ==> LotFiled(b.lots[i]))
    && (forall i :: 0 <= i < |b.ledger| ==> FiledOn(b.ledger[i]))
  }

  ghost predicate FiledOn(e: Entry) {
    && (e.kind == Purchase ==> exists text :: e.lot == LotId(Paid, text))
    && (e.kind == PromotionalGrant ==> exists text :: e.lot == LotId(Promotional, text))
  }

  lemma FiledIsNotMisfiled(e: Entry, lots: seq<Lot>)
    requires FiledOn(e) && forall i :: 0 <= i < |lots| ==> LotFiled(lots[i])
    ensures !Misfiled(e, lots)
  {
    if Misfiled(e, lots) {
      var l :| l in lots && l.id == e.lot && (l.kind == Paid <==> e.kind == PromotionalGrant);
      var i :| 0 <= i < |lots| && lots[i] == l;
      assert LotFiled(lots[i]);
      var text :| l.id == LotId(l.kind, text);
      var other :| e.lot == LotId(if l.kind == Paid then Promotional else Paid, other);
      if l.kind == Paid { KindPrefixes(text, other); } else { KindPrefixes(other, text); }
      assert false;
    }
  }

  lemma PlainReferenceIsOfKind(b: Books, input: LotInput)
    requires WellFiled(b) && PlainGrant(DoCreateLot(input))
    ensures LotsKinded(b.lots) && ReferenceIsOfKind(b.lots, input)
  {
    forall i | 0 <= i < |b.lots| ensures LotKinded(b.lots[i]) && (b.lots[i].kind == Promotional ==> b.lots[i].reference.None?) {
      assert LotFiled(b.lots[i]);
    }
  }

  lemma UpsertFiles(b: Books, input: LotInput)
    requires WellFiled(b) && UpsertLot(b.lots, input).Some? && PlainGrant(DoCreateLot(input))
    ensures forall i :: 0 <= i < |UpsertLot(b.lots, input).value| ==> LotFiled(UpsertLot(b.lots, input).value[i])
  {
    var lots := UpsertLot(b.lots, input).value;
    UpsertKeepsKinded(b.lots, input) by { PlainReferenceIsOfKind(b, input); }
    forall i | 0 <= i < |lots| ensures LotFiled(lots[i]) {
      assert LotKinded(lots[i]);
      if i < |b.lots| { assert LotFiled(b.lots[i]); }
    }
  }

  lemma CreateLotFiles(b: Books, input: LotInput)
    requires WellFiled(b) && CreateLot(b, input).Done? && PlainGrant(DoCreateLot(input))
    ensures WellFiled(CreateLot(b, input).books)
  {
    var row := Picked(b.lots, input);
    PlainReferenceIsOfKind(b, input);
    PickedOfKind(b.lots, input);
    UpsertFiles(b, input);
    assert LotFiled(row);
    assert FiledOn(LotEntry(input, row.id));
    var b' := CreateLot(b, input).books;
    forall i | 0 <= i < |b'.ledger| ensures FiledOn(b'.ledger[i]) {
      if i < |b.ledger| { assert FiledOn(b.ledger[i]); }
    }
  }

  lemma LifecycleFiles(b: Books, input: LifecycleInput)
    requires WellFiled(b) && Lifecycle(b, input).Done?
    ensures WellFiled(Lifecycle(b, input).books)
  {
    var b' := Lifecycle(b, input).books;
    forall i | 0 <= i < |b'.lots| ensures LotFiled(b'.lots[i]) {
      if i < |b.lots| { assert LotFiled(b.lots[i]); } else { assert b'.lots[i].id == LotId(Paid, input.reference.value); }
    }
  }

  lemma StepFiles(b: Books, c: Command)
    requires WellFiled(b) && PlainGrant(c)
    ensures WellFiled(Step(b, c))
  {
    if Execute(b, c).Done? {
      match c
      case DoCreateLot(input) => CreateLotFiles(b, input);
      case DoLifecycle(input) => LifecycleFiles(b, input);
      case DoReserve(input) =>
        if Granted(b, input) {
          var r := Step(b, c).reservations[|b.reservations|];
          HoldEntriesKind(input.key, input.catalog.value.currency, r.allocations);
        }
      case DoSettle(input) =>
        if Accepted(b, input) {
          var i := Find(b.reservations, (r: Reservation) => r.id == input.reservation).value;
          var r := b.reservations[i];
          SettleEntriesKind(input.key, r, r.allocations, Spread(r.allocations, input.measured, ReleaseOf(r, input)));
        }
    }
  }

  lemma {:induction false} HoldEntriesKind(key: string, currency: string, allocations: seq<Allocation>)
    ensures forall i :: 0 <= i < |HoldEntries(key, currency, allocations)| ==> HoldEntries(key, currency, allocations)[i].kind == Hold
  {
    if allocations != [] { HoldEntriesKind(key, currency, allocations[1..]); }
  }

  lemma {:induction false} SettleEntriesKind(key: string, r: Reservation, allocations: seq<Allocation>, cuts: seq<Cut>)
    requires |allocations| == |cuts|
    ensures forall i :: 0 <= i < |SettleEntries(key, r, allocations, cuts)| ==>
      SettleEntries(key, r, allocations, cuts)[i].kind in {Usage, Release}
  {
    if allocations != [] { SettleEntriesKind(key, r, allocations[1..], cuts[1..]); }
  }

  lemma {:induction false} RunFiles(b: Books, commands: seq<Command>)
    requires WellFiled(b) && forall i :: 0 <= i < |commands| ==> PlainGrant(commands[i])
    ensures WellFiled(Run(b, commands))
    decreases |commands|
  {
    if commands != [] {
      StepFiles(b, commands[0]);
      RunFiles(Step(b, commands[0]), commands[1..]);
    }
  }

  /** Over every run whose grants carry no payment reference, the two columns add up to the total. */
  lemma {:induction false} SplitOverPlainRuns(commands: seq<Command>)
    requires forall i :: 0 <= i < |commands| ==> PlainGrant(commands[i])
    ensures
      var balance := CreditBalance(Run(EMPTY, commands));
      balance.available == balance.paidAvailable + balance.promoAvailable
  {
    var b := Run(EMPTY, commands);
    RunKeeps(EMPTY, commands);
    RunFiles(EMPTY, commands);
    forall i | 0 <= i < |b.ledger| ensures !Misfiled(b.ledger[i], b.lots) {
      FiledIsNotMisfiled(b.ledger[i], b.lots);
    }
    SplitExactly(b);
  }
}

/** The timeline reconciler: one snapshot per item, folded from the events of that item. */
module Timeline {
  import opened Prelude
  import opened Unicode
  import opened BoundedTail

  type Text = seq<Unit>

  datatype Kind =
    | TextDelta(text: Text)         // message, plan and reasoning deltas
    | OutputDelta(text: Text)       // command output deltas
    | TextCompleted(text: Text)     // completed messages and plans
    | CommandCompleted(tail: Text)
    | Completed                     // file changes, tools, compaction
    | Other                         // every type without a case of its own

  datatype Key = Key(thread: string, turn: string, item: string)

  datatype Event = Event(id: nat, thread: Option<string>, turn: Option<string>, item: Option<string>, kind: Kind)

  datatype Snapshot = Snapshot(key: Key, completed: bool, event: Event, text: Option<Text>, output: Option<Text>)

  predicate Present(s: Option<string>) { s.Some? && s.value != "" }

  /** An item is addressed only when all three identifiers are there. */
  function ItemKey(e: Event): Option<Key> {
    if Present(e.thread) && Present(e.turn) && Present(e.item)
    then Some(Key(e.thread.value, e.turn.value, e.item.value)) else None
  }

  // ---------------------------------------------------------------------------------------------
  // One item

  function Advance(previous: Option<Snapshot>, key: Key, e: Event, tailBytes: nat): Snapshot {
    if previous.Some? && previous.value.completed then previous.value
    else
      match e.kind
      case TextDelta(text) =>
        var before := if previous.Some? && previous.value.text.Some? then previous.value.text.value else [];
        Snapshot(key, false, e, Some(before + text), None)
      case OutputDelta(text) =>
        var before := if previous.Some? && previous.value.output.Some? then previous.value.output.value else [];
        Snapshot(key, false, e, None, Some(AppendTail(before, text, tailBytes)))
      case TextCompleted(text) => Snapshot(key, true, e, Some(text), None)
      case CommandCompleted(tail) => Snapshot(key, true, e, None, Some(tail))
      case Completed => Snapshot(key, true, e, None, None)
      case Other => if previous.Some? then previous.value else Snapshot(key, false, e, None, None)
  }

  function ItemFold(key: Key, events: seq<Event>, tailBytes: nat): Option<Snapshot> {
    if events == [] then None
    else Some(Advance(ItemFold(key, events[..|events| - 1], tailBytes), key, events[|events| - 1], tailBytes))
  }

  // ---------------------------------------------------------------------------------------------
  // All items

  function Lookup(items: map<Key, Snapshot>, key: Key): Option<Snapshot> {
    if key in items then Some(items[key]) else None
  }

  function ApplyEvent(items: map<Key, Snapshot>, e: Event, tailBytes: nat): map<Key, Snapshot> {
    match ItemKey(e)
    case None => items
    case Some(key) => items[key := Advance(Lookup(items, key), key, e, tailBytes)]
  }

  function Items(events: seq<Event>, tailBytes: nat): map<Key, Snapshot> {
    if events == [] then map[]
    else ApplyEvent(Items(events[..|events| - 1], tailBytes), events[|events| - 1], tailBytes)
  }

  class TimelineReconciler {
    var items: map<Key, Snapshot>
    const tailBytes: nat

    constructor (tailBytes: nat)
      ensures items == map[] && this.tailBytes == tailBytes
    {
      items, this.tailBytes := map[], tailBytes;
    }

    method Apply(e: Event) returns (snapshot: Option<Snapshot>)
      modifies this
      ensures items == ApplyEvent(old(items), e, tailBytes)
      ensures snapshot == match ItemKey(e) case None => None case Some(key) => Lookup(items, key)
    {
      var key := ItemKey(e);
      if key.None? {
        return None;
      }
      var previous := Lookup(items, key.value);
      if previous.Some? && previous.value.completed {
        assert items == items[key.value := previous.value];
        return previous;
      }
      var next: Snapshot;
      match e.kind {
        case TextDelta(text) =>
          var before := if previous.Some? && previous.value.text.Some? then previous.value.text.value else [];
          next := Snapshot(key.value, false, e, Some(before + text), None);
        case OutputDelta(text) =>
          var before := if previous.Some? && previous.value.output.Some? then previous.value.output.value else [];
          var tail := AppendBoundedTail(before, text, tailBytes);
          next := Snapshot(key.value, false, e, None, Some(tail));
        case TextCompleted(text) => next := Snapshot(key.value, true, e, Some(text), None);
        case CommandCompleted(tail) => next := Snapshot(key.value, true, e, None, Some(tail));
        case Completed => next := Snapshot(key.value, true, e, None, None);
        case Other => next := if previous.Some? then previous.value else Snapshot(key.value, false, e, None, None);
      }
      items := items[key.value := next];
      snapshot := Some(next);
    }
  }

  // ---------------------------------------------------------------------------------------------
  // Each item depends on its own events only

  function Own(events: seq<Event>, key: Key): seq<Event> {
    if events == [] then []
    else Own(events[..|events| - 1], key) +
         if ItemKey(events[|events| - 1]) == Some(key) then [events[|events| - 1]] else []
  }

  lemma {:induction false} ItemsAreIndependent(events: seq<Event>, key: Key, tailBytes: nat)
    ensures Lookup(Items(events, tailBytes), key) == ItemFold(key, Own(events, key), tailBytes)
  {
    if events != [] {
      var init, last := events[..|events| - 1], events[|events| - 1];
      ItemsAreIndependent(init, key, tailBytes);
      if ItemKey(last) == Some(key) {
        assert Own(events, key)[..|Own(events, key)| - 1] == Own(init, key);
      } else {
        assert Own(events, key) == Own(init, key);
      }
    }
  }

  // ---------------------------------------------------------------------------------------------
  // The first completing event is final

  predicate Completes(k: Kind) { k.TextCompleted? || k.CommandCompleted? || k.Completed? }

  lemma {:induction false} OpenUntilCompleted(key: Key, events: seq<Event>, tailBytes: nat)
    requires forall i :: 0 <= i < |events| ==> !Completes(events[i].kind)
    ensures var s := ItemFold(key, events, tailBytes); s.Some? ==> !s.value.completed
  {
    if events != [] { OpenUntilCompleted(key, events[..|events| - 1], tailBytes); }
  }

  /** Whatever comes after the first completing event, the snapshot is the one that event made. */
  lemma {:induction false} FirstCompletionIsFinal(key: Key, before: seq<Event>, done: Event, after: seq<Event>, tailBytes: nat)
    requires forall i :: 0 <= i < |before| ==> !Completes(before[i].kind)
    requires Completes(done.kind)
    ensures
      var s := ItemFold(key, before + [done] + after, tailBytes);
      && s.Some? && s.value.completed && s.value.event == done
      && s.value.text == (if done.kind.TextCompleted? then Some(done.kind.text) else None)
      && s.value.output == (if done.kind.CommandCompleted? then Some(done.kind.tail) else None)
  {
    var all := before + [done] + after;
    if after == [] {
      assert all[..|all| - 1] == before;
      OpenUntilCompleted(key, before, tailBytes);
    } else {
      assert all[..|all| - 1] == before + [done] + after[..|after| - 1];
      FirstCompletionIsFinal(key, before, done, after[..|after| - 1], tailBytes);
    }
  }

  // ---------------------------------------------------------------------------------------------
  // A running command shows the bounded tail of all its output

  ghost predicate CommandEvent(e: Event) {
    e.kind.Other? || (e.kind.OutputDelta? && exists cs: seq<Scalar> :: e.kind.text == Utf16(cs))
  }

  function Deltas(events: seq<Event>): seq<Scalar> {
    if events == [] then []
    else Deltas(events[..|events| - 1]) +
         if events[|events| - 1].kind.OutputDelta? then Scalars(events[|events| - 1].kind.text) else []
  }

  predicate HasDelta(events: seq<Event>) {
    exists i :: 0 <= i < |events| && events[i].kind.OutputDelta?
  }

  ghost predicate ShowsTail(s: Option<Snapshot>, deltas: Option<seq<Scalar>>, tailBytes: nat) {
    && (s.Some? ==> !s.value.completed && s.value.text == None)
    && (s.Some? && deltas.None? ==> s.value.output == None)
    && (s.Some? && deltas.Some? ==> s.value.output == Some(Utf16(LongestSuffix(deltas.value, tailBytes))))
  }

  lemma DeltaShows(s: Option<Snapshot>, deltas: Option<seq<Scalar>>, key: Key, e: Event, cs: seq<Scalar>, tailBytes: nat)
    requires ShowsTail(s, deltas, tailBytes) && (s.None? ==> deltas.None?)
    requires e.kind.OutputDelta? && e.kind.text == Utf16(cs)
    ensures
      var before := if deltas.None? then [] else deltas.value;
      ShowsTail(Some(Advance(s, key, e, tailBytes)), Some(before + cs), tailBytes)
  {
    var before := if deltas.None? then [] else deltas.value;
    var shown := LongestSuffix(before, tailBytes);
    AppendTailIsLongestSuffix(shown, cs, tailBytes);
    TailOfTail(before, cs, tailBytes);
  }

  function DeltasOf(events: seq<Event>): Option<seq<Scalar>> {
    if HasDelta(events) then Some(Deltas(events)) else None
  }

  lemma DeltasStep(events: seq<Event>)
    requires events != []
    ensures
      var init, last := events[..|events| - 1], events[|events| - 1];
      var before := if HasDelta(init) then Deltas(init) else [];
      DeltasOf(events) == if last.kind.OutputDelta? then Some(before + Scalars(last.kind.text)) else DeltasOf(init)
  {
    var init, last := events[..|events| - 1], events[|events| - 1];
    NoDeltasNoText(init);
    assert forall i :: 0 <= i < |init| ==> init[i] == events[i];
    if !last.kind.OutputDelta? { assert Deltas(events) == Deltas(init); }
  }

  lemma {:induction false} NoDeltasNoText(events: seq<Event>)
    ensures !HasDelta(events) ==> Deltas(events) == []
  {
    if events != [] {
      var init := events[..|events| - 1];
      NoDeltasNoText(init);
      assert forall i :: 0 <= i < |init| ==> init[i] == events[i];
    }
  }

  /** Until it completes, a command item's output is the longest whole-character tail of all its deltas. */
  lemma {:induction false} CommandOutputIsTail(key: Key, events: seq<Event>, tailBytes: nat)
    requires forall i :: 0 <= i < |events| ==> CommandEvent(events[i])
    ensures ItemFold(key, events, tailBytes).Some? <==> events != []
    ensures ShowsTail(ItemFold(key, events, tailBytes), DeltasOf(events), tailBytes)
  {
    if events != [] {
      var init, last := events[..|events| - 1], events[|events| - 1];
      CommandOutputIsTail(key, init, tailBytes);
      DeltasStep(events);
      assert CommandEvent(last);
      if last.kind.OutputDelta? {
        var cs: seq<Scalar> :| last.kind.text == Utf16(cs);
        Utf16RoundTrip(cs);
        DeltaShows(ItemFold(key, init, tailBytes), DeltasOf(init), key, last, cs, tailBytes);
      }
    }
  }

  /** The same for the reconciler fed with the interleaved events of many items. */
  lemma ReconciledCommandOutput(events: seq<Event>, key: Key, tailBytes: nat)
    requires forall i :: 0 <= i < |Own(events, key)| ==> CommandEvent(Own(events, key)[i])
    requires HasDelta(Own(events, key))
    ensures
      var s := Lookup(Items(events, tailBytes), key);
      s.Some? && s.value.output == Some(Utf16(LongestSuffix(Deltas(Own(events, key)), tailBytes)))
  {
    ItemsAreIndependent(events, key, tailBytes);
    CommandOutputIsTail(key, Own(events, key), tailBytes);
  }
}

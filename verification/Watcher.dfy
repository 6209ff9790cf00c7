/** The watcher's bounded queue and its deduplicating flush, and what they make of a reconcile. */
module Watcher {
  import opened Prelude
  import opened TreeDiff

  datatype Entry = Entry(key: string, event: Event, dueAt: int)

  const NUL := '\0'

  function KeyOf(op: Operation, path: string, previous: Option<string>): string {
    if op == OpRename then (if previous.Some? then previous.value else "undefined") + [NUL] + path else path
  }

  datatype Enqueued = Ignored | Backpressure | Queued(pending: seq<Entry>)

  /** A rename out of or into an ignored place becomes a creation or a deletion. */
  function Effective(e: Event, ignored: string -> bool): Option<(Operation, string)> {
    var hidden := ignored(e.path);
    var wasHidden := e.previous.Some? && ignored(e.previous.value);
    if e.op == OpRename && wasHidden && !hidden then Some((OpCreate, e.path))
    else if e.op == OpRename && !wasHidden && hidden then
      Some((OpDelete, if e.previous.Some? then e.previous.value else e.path))
    else if hidden then None
    else Some((e.op, e.path))
  }

  function Put(pending: seq<Entry>, entry: Entry): seq<Entry> {
    match Find(pending, (x: Entry) => x.key == entry.key)
    case Some(i) => pending[i := entry]
    case None => pending + [entry]
  }

  function Enqueue(pending: seq<Entry>, e: Event, now: int, debounce: int, maxBacklog: nat, ignored: string -> bool): Enqueued {
    match Effective(e, ignored)
    case None => Ignored
    case Some((op, path)) =>
      var key := KeyOf(op, path, e.previous);
      var slot := Find(pending, (x: Entry) => x.key == key);
      if slot.None? && |pending| >= maxBacklog then Backpressure
      else
        var collapsed := if slot.Some? && pending[slot.value].event.op == OpCreate && op == OpUpdate then OpCreate else op;
        Queued(Put(pending, Entry(key, e.(op := collapsed, path := path), now + debounce)))
  }

  /** Enqueue in order; None stands for the backpressure error. */
  function EnqueueAll(pending: seq<Entry>, events: seq<Event>, debounce: int, maxBacklog: nat, ignored: string -> bool): Option<seq<Entry>>
    decreases |events|
  {
    if events == [] then Some(pending)
    else match Enqueue(pending, events[0], 0, debounce, maxBacklog, ignored)
      case Ignored => EnqueueAll(pending, events[1..], debounce, maxBacklog, ignored)
      case Backpressure => None
      case Queued(next) => EnqueueAll(next, events[1..], debounce, maxBacklog, ignored)
  }

  // ---------------------------------------------------------------------------------------------
  // Flush

  function InsertByKey(x: Entry, entries: seq<Entry>): seq<Entry> {
    if entries == [] || TextBefore(x.key, entries[0].key) then [x] + entries
    else [entries[0]] + InsertByKey(x, entries[1..])
  }

  function SortByKey(entries: seq<Entry>): seq<Entry> {
    if entries == [] then [] else InsertByKey(entries[0], SortByKey(entries[1..]))
  }

  function Ready(pending: seq<Entry>, now: int): seq<Entry> {
    if pending == [] then []
    else (if pending[0].dueAt <= now then [pending[0]] else []) + Ready(pending[1..], now)
  }

  function Trim(order: seq<Event>, cap: nat): seq<Event> {
    if |order| > cap then Trim(order[1..], cap) else order
  }

  /** Jobs and the emitted window after a flush; the job key is a digest of the whole event, taken to be injective. */
  function Emit(ready: seq<Entry>, order: seq<Event>, cap: nat): (seq<Event>, seq<Event>)
    decreases |ready|
  {
    if ready == [] then ([], order)
    else if ready[0].event in order then Emit(ready[1..], order, cap)
    else
      var (jobs, after) := Emit(ready[1..], Trim(order + [ready[0].event], cap), cap);
      ([ready[0].event] + jobs, after)
  }

  class WorkspaceCorpusWatcher {
    var pending: seq<Entry>
    var emittedOrder: seq<Event>
    const debounce: int
    const maxBacklog: nat
    const ignored: string -> bool

    constructor (debounce: int, maxBacklog: nat, ignored: string -> bool)
      ensures pending == [] && emittedOrder == []
      ensures this.debounce == debounce && this.maxBacklog == maxBacklog && this.ignored == ignored
    {
      pending, emittedOrder := [], [];
      this.debounce, this.maxBacklog, this.ignored := debounce, maxBacklog, ignored;
    }

    method Accept(e: Event, now: int) returns (outcome: Enqueued)
      modifies this`pending
      ensures outcome == Enqueue(old(pending), e, now, debounce, maxBacklog, ignored)
      ensures pending == if outcome.Queued? then outcome.pending else old(pending)
    {
      var operation, path := e.op, e.path;
      var hidden := ignored(path);
      var wasHidden := e.previous.Some? && ignored(e.previous.value);
      if operation == OpRename && wasHidden && !hidden {
        operation := OpCreate;
      } else if operation == OpRename && !wasHidden && hidden {
        operation := OpDelete;
        path := if e.previous.Some? then e.previous.value else e.path;
      } else if hidden {
        return Ignored;
      }
      var key := KeyOf(operation, path, e.previous);
      var slot := Find(pending, (x: Entry) => x.key == key);
      if slot.None? && |pending| >= maxBacklog {
        return Backpressure;
      }
      if slot.Some? && pending[slot.value].event.op == OpCreate && operation == OpUpdate {
        operation := OpCreate;
      }
      pending := Put(pending, Entry(key, e.(op := operation, path := path), now + debounce));
      outcome := Queued(pending);
    }

    /** The job loop with its window trimming; entries that are not due stay pending. */
    method Flush(now: int) returns (jobs: seq<Event>)
      modifies this
      ensures (jobs, emittedOrder) == Emit(SortByKey(Ready(old(pending), now)), old(emittedOrder), maxBacklog * 4)
      ensures pending == Waiting(old(pending), now)
    {
      var ready := SortByKey(Ready(pending, now));
      pending := Waiting(pending, now);
      jobs := [];
      var n := 0;
      ghost var (all, last) := Emit(ready, emittedOrder, maxBacklog * 4);
      assert ready[0..] == ready;
      while n < |ready|
        invariant 0 <= n <= |ready| && pending == Waiting(old(pending), now)
        invariant jobs + Emit(ready[n..], emittedOrder, maxBacklog * 4).0 == all
        invariant Emit(ready[n..], emittedOrder, maxBacklog * 4).1 == last
      {
        assert ready[n..][1..] == ready[n + 1..];
        var event := ready[n].event;
        n := n + 1;
        if event in emittedOrder {
          continue;
        }
        ghost var grown := emittedOrder + [event];
        emittedOrder := emittedOrder + [event];
        while |emittedOrder| > maxBacklog * 4
          invariant Trim(emittedOrder, maxBacklog * 4) == Trim(grown, maxBacklog * 4)
          invariant pending == Waiting(old(pending), now)
          decreases |emittedOrder|
        {
          emittedOrder := emittedOrder[1..];
        }
        jobs := jobs + [event];
      }
      assert ready[n..] == [];
      assert jobs + [] == jobs;
    }
  }

  function Waiting(pending: seq<Entry>, now: int): seq<Entry> {
    if pending == [] then []
    else (if pending[0].dueAt <= now then [] else [pending[0]]) + Waiting(pending[1..], now)
  }

  // ---------------------------------------------------------------------------------------------
  // Queue keys of a reconcile are distinct

  predicate PlainPath(p: string) { NUL !in p }

  ghost predicate PlainEvents(events: seq<Event>) {
    forall i :: 0 <= i < |events| ==> forall p :: p in Touch(events[i]) ==> PlainPath(p)
  }

  function EventKey(e: Event): string { KeyOf(e.op, e.path, e.previous) }

  function FirstNul(s: string): nat {
    if s == [] || s[0] == NUL then 0 else 1 + FirstNul(s[1..])
  }

  lemma {:induction false} FirstNulAt(a: string, b: string)
    requires PlainPath(a)
    ensures FirstNul(a + [NUL] + b) == |a|
  {
    if a != [] {
      assert (a + [NUL] + b)[1..] == a[1..] + [NUL] + b;
      FirstNulAt(a[1..], b);
    }
  }

  lemma RenameKeyShowsSource(a: string, b: string, c: string, d: string)
    requires PlainPath(a) && PlainPath(c) && a + [NUL] + b == c + [NUL] + d
    ensures a == c
  {
    FirstNulAt(a, b);
    FirstNulAt(c, d);
    assert (a + [NUL] + b)[..|a|] == a && (c + [NUL] + d)[..|c|] == c;
  }

  /** Events that touch different paths have different queue keys. */
  lemma KeysApart(e: Event, f: Event)
    requires Sound(e) && Sound(f) && Touch(e) !! Touch(f)
    requires forall p :: p in Touch(e) + Touch(f) ==> PlainPath(p)
    ensures EventKey(e) != EventKey(f)
  {
    assert e.path in Touch(e) && f.path in Touch(f);
    assert PlainPath(e.path) && PlainPath(f.path);
    if e.op == OpRename {
      var key := EventKey(e);
      assert key[|e.previous.value|] == NUL;
      assert NUL in key;
      if f.op == OpRename && EventKey(f) == key {
        RenameKeyShowsSource(e.previous.value, e.path, f.previous.value, f.path);
      }
    } else if f.op == OpRename {
      var key := EventKey(f);
      assert key[|f.previous.value|] == NUL;
      assert NUL in key;
    }
  }

  ghost predicate DistinctKeys(events: seq<Event>) {
    forall i, j :: 0 <= i < j < |events| ==> EventKey(events[i]) != EventKey(events[j])
  }

  lemma {:induction false} DiffKeysDistinct(before: Listing, next: Listing)
    requires Distinct(before) && Distinct(next) && PlainEvents(Diff(before, next))
    ensures DistinctKeys(Diff(before, next))
  {
    var events := Diff(before, next);
    DiffExact(before, next);
    forall i, j | 0 <= i < j < |events| ensures EventKey(events[i]) != EventKey(events[j]) {
      assert Right(events[i], TreeOf(before), TreeOf(next)) && Right(events[j], TreeOf(before), TreeOf(next));
      KeysApart(events[i], events[j]);
    }
  }

  // ---------------------------------------------------------------------------------------------
  // The backlog

  ghost predicate Unhidden(events: seq<Event>, ignored: string -> bool) {
    forall i :: 0 <= i < |events| ==> forall p :: p in Touch(events[i]) ==> !ignored(p)
  }

  function Entries(events: seq<Event>, debounce: int): seq<Entry> {
    seq(|events|, i requires 0 <= i < |events| => Entry(EventKey(events[i]), events[i], debounce))
  }

  lemma EnqueueFresh(done: seq<Event>, e: Event, debounce: int, maxBacklog: nat, ignored: string -> bool)
    requires Sound(e) && forall i :: 0 <= i < |done| ==> EventKey(done[i]) != EventKey(e)
    requires forall p :: p in Touch(e) ==> !ignored(p)
    ensures Enqueue(Entries(done, debounce), e, 0, debounce, maxBacklog, ignored) ==
            if |done| >= maxBacklog then Backpressure else Queued(Entries(done + [e], debounce))
  {
    var pending := Entries(done, debounce);
    assert e.path in Touch(e);
    if e.op == OpRename { assert e.previous.value in Touch(e); }
    assert Effective(e, ignored) == Some((e.op, e.path));
    assert Find(pending, (x: Entry) => x.key == EventKey(e)).None?;
    assert Entries(done + [e], debounce) == pending + [Entry(EventKey(e), e, debounce)];
  }

  lemma {:induction false} EnqueueAllExact(done: seq<Event>, events: seq<Event>, debounce: int, maxBacklog: nat, ignored: string -> bool)
    requires DistinctKeys(done + events) && AllSound(events) && Unhidden(events, ignored) && |done| <= maxBacklog
    ensures EnqueueAll(Entries(done, debounce), events, debounce, maxBacklog, ignored) ==
            if |done| + |events| <= maxBacklog then Some(Entries(done + events, debounce)) else None
    decreases |events|
  {
    if events == [] {
      assert done + events == done;
    } else {
      var all := done + events;
      forall i | 0 <= i < |done| ensures EventKey(done[i]) != EventKey(events[0]) {
        assert all[i] == done[i] && all[|done|] == events[0];
      }
      EnqueueFresh(done, events[0], debounce, maxBacklog, ignored);
      assert (done + [events[0]]) + events[1..] == all;
      if |done| < maxBacklog { EnqueueAllExact(done + [events[0]], events[1..], debounce, maxBacklog, ignored); }
    }
  }

  /** From an empty queue a reconcile goes through exactly when its events fit the backlog, and then all are queued. */
  lemma {:induction false} BacklogExactly(before: Listing, next: Listing, debounce: int, maxBacklog: nat, ignored: string -> bool)
    requires Distinct(before) && Distinct(next)
    requires PlainEvents(Diff(before, next)) && Unhidden(Diff(before, next), ignored)
    ensures EnqueueAll([], Diff(before, next), debounce, maxBacklog, ignored) ==
            if |Diff(before, next)| <= maxBacklog then Some(Entries(Diff(before, next), debounce)) else None
  {
    var events := Diff(before, next);
    DiffKeysDistinct(before, next);
    DiffExact(before, next);
    assert AllSound(events) by {
      forall i | 0 <= i < |events| ensures Sound(events[i]) { assert Right(events[i], TreeOf(before), TreeOf(next)); }
    }
    assert Entries([], debounce) == [];
    assert [] + events == events;
    EnqueueAllExact([], events, debounce, maxBacklog, ignored);
  }

  // ---------------------------------------------------------------------------------------------
  // Flushing a reconcile

  function Events(entries: seq<Entry>): seq<Event> {
    seq(|entries|, i requires 0 <= i < |entries| => entries[i].event)
  }

  lemma {:induction false} InsertKeeps(x: Entry, entries: seq<Entry>)
    ensures multiset(Events(InsertByKey(x, entries))) == multiset(Events(entries)) + multiset{x.event}
  {
    var after := InsertByKey(x, entries);
    if entries == [] || TextBefore(x.key, entries[0].key) {
      assert Events(after) == [x.event] + Events(entries);
    } else {
      InsertKeeps(x, entries[1..]);
      assert Events(after) == [entries[0].event] + Events(InsertByKey(x, entries[1..]));
      assert Events(entries) == [entries[0].event] + Events(entries[1..]);
    }
  }

  lemma {:induction false} SortKeeps(entries: seq<Entry>)
    ensures multiset(Events(SortByKey(entries))) == multiset(Events(entries))
  {
    if entries != [] {
      SortKeeps(entries[1..]);
      InsertKeeps(entries[0], SortByKey(entries[1..]));
      assert Events(entries) == [entries[0].event] + Events(entries[1..]);
    }
  }

  lemma {:induction false} AllReady(entries: seq<Entry>, now: int)
    requires forall i :: 0 <= i < |entries| ==> entries[i].dueAt <= now
    ensures Ready(entries, now) == entries
  {
    if entries != [] {
      AllReady(entries[1..], now);
      assert entries == [entries[0]] + entries[1..];
    }
  }

  /** Jobs are ready events; each ready event is emitted or was in the window when its turn came. */
  lemma {:induction false} EmitMembers(ready: seq<Entry>, order: seq<Event>, cap: nat)
    ensures forall e :: e in Emit(ready, order, cap).0 ==> e in Events(ready)
    ensures |Emit(ready, order, cap).0| <= |ready|
    ensures |Emit(ready, order, cap).0| == |ready| ==> Emit(ready, order, cap).0 == Events(ready)
    decreases |ready|
  {
    if ready != [] {
      assert Events(ready) == [ready[0].event] + Events(ready[1..]);
      if ready[0].event in order {
        EmitMembers(ready[1..], order, cap);
      } else {
        EmitMembers(ready[1..], Trim(order + [ready[0].event], cap), cap);
      }
    }
  }

  /** The newest n events of the window. */
  function Recent(order: seq<Event>, n: int): seq<Event> {
    if n <= 0 then [] else if |order| <= n then order else order[|order| - n..]
  }

  lemma {:induction false} TrimIsRecent(order: seq<Event>, cap: nat)
    ensures Trim(order, cap) == Recent(order, cap)
  {
    if |order| > cap { TrimIsRecent(order[1..], cap); }
  }

  /** A newcomer costs the window its oldest place. */
  lemma RecentAfter(order: seq<Event>, head: Event, cap: nat, n: int)
    requires n <= cap
    ensures Recent(Recent(order + [head], cap), n) == if n <= 0 then [] else Recent(order, n - 1) + [head]
  {
    if n > 0 {
      assert Recent(order + [head], n) == Recent(order, n - 1) + [head];
      assert Recent(Recent(order + [head], cap), n) == Recent(order + [head], n);
    }
  }

  /** No ready event is among the events the window still remembers when its turn comes. */
  predicate NoneRemembered(ready: seq<Entry>, order: seq<Event>, cap: nat) {
    forall k :: 0 <= k < |ready| ==> ready[k].event !in Recent(order, cap - k)
  }

  lemma NoneRememberedStep(ready: seq<Entry>, order: seq<Event>, cap: nat)
    requires ready != [] && |order| <= cap && ready[0].event !in order
    requires forall k :: 1 <= k < |ready| ==> ready[k].event != ready[0].event
    ensures NoneRemembered(ready, order, cap) <==> NoneRemembered(ready[1..], Recent(order + [ready[0].event], cap), cap)
  {
    var head, rest := ready[0].event, ready[1..];
    var window := Recent(order + [head], cap);
    forall k | 0 <= k < |rest|
      ensures rest[k].event in Recent(window, cap - k) <==> ready[k + 1].event in Recent(order, cap - (k + 1))
    {
      RecentAfter(order, head, cap, cap - k);
    }
    assert forall k :: 1 <= k < |ready| ==> ready[k] == rest[k - 1];
  }

  /** A flush emits every ready event exactly when none of them is remembered; the window never outgrows its cap. */
  lemma {:induction false} EmitsAllExactly(ready: seq<Entry>, order: seq<Event>, cap: nat)
    requires Disjoint(Events(ready)) && |order| <= cap
    ensures |Emit(ready, order, cap).0| == |ready| <==> NoneRemembered(ready, order, cap)
    ensures |Emit(ready, order, cap).1| <= cap
    decreases |ready|
  {
    if ready != [] {
      var head, rest := ready[0].event, ready[1..];
      RestDisjoint(ready);
      if head in order {
        EmitsAllExactly(rest, order, cap);
        EmitMembers(rest, order, cap);
        assert ready[0].event in Recent(order, cap - 0);
      } else {
        TrimIsRecent(order + [head], cap);
        EmitsAllExactly(rest, Recent(order + [head], cap), cap);
        NoneRememberedStep(ready, order, cap);
      }
    }
  }

  lemma RestDisjoint(ready: seq<Entry>)
    requires ready != [] && Disjoint(Events(ready))
    ensures Disjoint(Events(ready[1..]))
    ensures forall k :: 1 <= k < |ready| ==> ready[k].event != ready[0].event
  {
    var all, rest := Events(ready), Events(ready[1..]);
    forall i, j | 0 <= i < j < |rest| ensures Touch(rest[i]) !! Touch(rest[j]) {
      assert rest[i] == all[i + 1] && rest[j] == all[j + 1];
    }
    forall k | 1 <= k < |ready| ensures ready[k].event != ready[0].event {
      assert Touch(all[0]) !! Touch(all[k]) && all[0].path in Touch(all[0]);
    }
  }

  /** With disjoint events, the jobs are disjoint too, and whenever one is dropped it is missing from the jobs. */
  lemma {:induction false} EmitDisjoint(ready: seq<Entry>, order: seq<Event>, cap: nat)
    requires Disjoint(Events(ready))
    ensures Disjoint(Emit(ready, order, cap).0)
    ensures |Emit(ready, order, cap).0| < |ready| ==>
      exists i :: 0 <= i < |ready| && ready[i].event !in Emit(ready, order, cap).0
    decreases |ready|
  {
    if ready != [] {
      var head, rest := ready[0].event, ready[1..];
      var all := Events(ready);
      assert all == [head] + Events(rest);
      RestDisjoint(ready);
      var next := if head in order then order else Trim(order + [head], cap);
      var jobs := Emit(rest, next, cap).0;
      EmitDisjoint(rest, next, cap);
      EmitMembers(rest, next, cap);
      forall i | 0 <= i < |jobs| ensures Touch(head) !! Touch(jobs[i]) {
        assert jobs[i] in Events(rest);
        var k :| 0 <= k < |rest| && Events(rest)[k] == jobs[i];
        assert all[0] == head && all[k + 1] == jobs[i];
      }
      assert head.path in Touch(head);
      assert head !in jobs;
      if head !in order && |jobs| < |rest| {
        var i :| 0 <= i < |rest| && rest[i].event !in jobs;
        assert all[0] == head && all[i + 1] == rest[i].event;
        assert ready[i + 1].event !in [head] + jobs;
      }
    }
  }

  /**
   One reconcile, queued from empty and flushed: its jobs reproduce the new tree exactly when none of
   its events is still remembered as emitted.
   */
  lemma FlushReproducesExactly(before: Listing, next: Listing, debounce: int, now: int, order: seq<Event>, cap: nat)
    requires Distinct(before) && Distinct(next) && debounce <= now && |order| <= cap
    ensures
      var ready := SortByKey(Ready(Entries(Diff(before, next), debounce), now));
      ApplyAll(TreeOf(before), Emit(ready, order, cap).0) == TreeOf(next) <==> NoneRemembered(ready, order, cap)
  {
    var t, u := TreeOf(before), TreeOf(next);
    var events := Diff(before, next);
    var entries := Entries(events, debounce);
    AllReady(entries, now);
    var ready := SortByKey(entries);
    var jobs := Emit(ready, order, cap).0;
    assert Events(entries) == events;
    SortKeeps(entries);
    EmitMembers(ready, order, cap);
    assert |ready| == |events| by { assert |multiset(Events(ready))| == |multiset(events)|; }
    DiffExact(before, next);
    DisjointPermuted(events, Events(ready));
    EmitsAllExactly(ready, order, cap);
    if |jobs| == |events| {
      AnyOrderReproduces(before, next, jobs);
    } else {
      SameMembers(events, Events(ready));
      EmitDisjoint(ready, order, cap);
      var i :| 0 <= i < |ready| && ready[i].event !in jobs;
      RightPermuted(events, Events(ready), t, u);
      DroppedEventShows(t, u, Events(ready), jobs, i);
    }
  }

  /** A missing event leaves its path as it was, which is not as it should be. */
  lemma {:induction false} DroppedEventShows(t: Tree, u: Tree, events: seq<Event>, jobs: seq<Event>, i: nat)
    requires Disjoint(events) && AllRight(events, t, u) && Disjoint(jobs)
    requires i < |events| && events[i] !in jobs && forall e :: e in jobs ==> e in events
    ensures ApplyAll(t, jobs) != u
  {
    var p := events[i].path;
    assert p in Touch(events[i]) && Right(events[i], t, u);
    RightPermuted(events, jobs, t, u);
    forall k | 0 <= k < |jobs| ensures p !in Touch(jobs[k]) {
      assert jobs[k] in events;
      var m :| 0 <= m < |events| && events[m] == jobs[k];
      assert m != i;
      assert Touch(events[m]) !! Touch(events[i]);
    }
    ApplyAllAt(t, jobs, p);
  }

  /** Created, deleted and created again with the same content: the second creation is dropped. */
  lemma RepeatedCreationIsDropped(f: File, debounce: int, now: int, cap: nat)
    requires debounce <= now
    ensures
      var ready := SortByKey(Ready(Entries(Diff([], [f]), debounce), now));
      var created := Event(OpCreate, f.path, None, Some(f.hash));
      var deleted := Event(OpDelete, f.path, None, None);
      Emit(ready, [created, deleted], cap).0 == [] && ApplyAll(TreeOf([]), []) != TreeOf([f])
  {
    var created := Event(OpCreate, f.path, None, Some(f.hash));
    assert Missing([f][1..], []) == [];
    assert Missing([f], []) == [f];
    assert CreateEvents([f][1..], {}) == [];
    assert CreateEvents([f], {}) == [created];
    assert UpdateEvents(map[], [f][1..]) == [];
    assert Diff([], [f]) == [created];
    var entries := Entries([created], debounce);
    AllReady(entries, now);
    assert entries[1..] == [];
    assert SortByKey(entries) == entries;
    assert f.path in TreeOf([f]);
  }
}

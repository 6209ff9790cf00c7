/** Reconciling two file snapshots into create, update, rename and delete events. */
module TreeDiff {
  import opened Prelude

  datatype File = File(path: string, hash: string)

  /** A snapshot in its iteration order. */
  type Listing = seq<File>

  type Tree = map<string, string>

  datatype Operation = OpCreate | OpUpdate | OpRename | OpDelete

  datatype Event = Event(op: Operation, path: string, previous: Option<string>, hash: Option<string>)

  function Paths(l: Listing): set<string> { set f | f in l :: f.path }

  predicate Distinct(l: Listing) {
    l == [] || (l[0].path !in Paths(l[1..]) && Distinct(l[1..]))
  }

  function TreeOf(l: Listing): Tree {
    if l == [] then map[] else TreeOf(l[1..])[l[0].path := l[0].hash]
  }

  function ValueAt(t: Tree, p: string): Option<string> { if p in t then Some(t[p]) else None }

  // ---------------------------------------------------------------------------------------------
  // What events do to a tree

  function Touch(e: Event): set<string> {
    if e.op == OpRename && e.previous.Some? then {e.previous.value, e.path} else {e.path}
  }

  function Apply(t: Tree, e: Event): Tree {
    match e.op
    case OpDelete => t - {e.path}
    case OpRename =>
      var moved := if e.previous.Some? then t - {e.previous.value} else t;
      if e.hash.Some? then moved[e.path := e.hash.value] else moved
    case _ => if e.hash.Some? then t[e.path := e.hash.value] else t
  }

  function ApplyAll(t: Tree, events: seq<Event>): Tree {
    if events == [] then t else Apply(ApplyAll(t, events[..|events| - 1]), events[|events| - 1])
  }

  // ---------------------------------------------------------------------------------------------
  // The diff

  /** Entries of `a` whose path is not in `b`. */
  function Missing(a: Listing, b: Listing): Listing {
    if a == [] then [] else (if a[0].path in Paths(b) then [] else [a[0]]) + Missing(a[1..], b)
  }

  function Renamed(from: File, to: File): Event { Event(OpRename, to.path, Some(from.path), Some(to.hash)) }

  function Candidate(deleted: File, created: Listing, consumed: set<string>): Option<nat> {
    Find(created, (f: File) => f.path !in consumed && f.hash == deleted.hash)
  }

  /** A deleted file is renamed to the first unused created file with its content, or deleted. */
  function MatchOne(deleted: File, created: Listing, consumed: set<string>): (Event, set<string>) {
    match Candidate(deleted, created, consumed)
    case Some(i) => (Renamed(deleted, created[i]), consumed + {created[i].path})
    case None => (Event(OpDelete, deleted.path, None, None), consumed)
  }

  function MatchDeleted(deleted: Listing, created: Listing, consumed: set<string>): (seq<Event>, set<string>)
    decreases |deleted|
  {
    if deleted == [] then ([], consumed)
    else
      var (e, more) := MatchOne(deleted[0], created, consumed);
      var (rest, used) := MatchDeleted(deleted[1..], created, more);
      ([e] + rest, used)
  }

  function CreateEvents(created: Listing, used: set<string>): seq<Event> {
    if created == [] then []
    else (if created[0].path in used then [] else [Event(OpCreate, created[0].path, None, Some(created[0].hash))]) +
         CreateEvents(created[1..], used)
  }

  function UpdateEvents(before: Tree, next: Listing): seq<Event> {
    if next == [] then []
    else (if next[0].path in before && before[next[0].path] != next[0].hash
          then [Event(OpUpdate, next[0].path, None, Some(next[0].hash))] else []) +
         UpdateEvents(before, next[1..])
  }

  function Diff(before: Listing, next: Listing): seq<Event> {
    var deleted, created := Missing(before, next), Missing(next, before);
    var (moves, used) := MatchDeleted(deleted, created, {});
    moves + CreateEvents(created, used) + UpdateEvents(TreeOf(before), next)
  }

  /** The loops of a reconcile, producing the events in the order they are enqueued. */
  method Reconcile(before: Listing, next: Listing) returns (events: seq<Event>)
    ensures events == Diff(before, next)
  {
    var deleted, created := Missing(before, next), Missing(next, before);
    var moves, used := MatchLoop(deleted, created);
    var creates := CreateLoop(created, used);
    var updates := UpdateLoop(TreeOf(before), next);
    events := moves + creates + updates;
  }

  method MatchLoop(deleted: Listing, created: Listing) returns (events: seq<Event>, consumed: set<string>)
    ensures (events, consumed) == MatchDeleted(deleted, created, {})
  {
    events, consumed := [], {};
    var n := 0;
    ghost var (all, used) := MatchDeleted(deleted, created, {});
    assert deleted[0..] == deleted;
    while n < |deleted|
      invariant 0 <= n <= |deleted|
      invariant events + MatchDeleted(deleted[n..], created, consumed).0 == all
      invariant MatchDeleted(deleted[n..], created, consumed).1 == used
    {
      var found := Candidate(deleted[n], created, consumed);
      if found.Some? {
        events := events + [Renamed(deleted[n], created[found.value])];
        consumed := consumed + {created[found.value].path};
      } else {
        events := events + [Event(OpDelete, deleted[n].path, None, None)];
      }
      n := n + 1;
    }
    assert deleted[n..] == [];
    assert events + [] == events;
  }

  method CreateLoop(created: Listing, used: set<string>) returns (events: seq<Event>)
    ensures events == CreateEvents(created, used)
  {
    events := [];
    for n := 0 to |created|
      invariant events + CreateEvents(created[n..], used) == CreateEvents(created, used)
    {
      assert created[n..][1..] == created[n + 1..];
      if created[n].path !in used {
        events := events + [Event(OpCreate, created[n].path, None, Some(created[n].hash))];
      }
    }
  }

  method UpdateLoop(before: Tree, next: Listing) returns (events: seq<Event>)
    ensures events == UpdateEvents(before, next)
  {
    events := [];
    for n := 0 to |next|
      invariant events + UpdateEvents(before, next[n..]) == UpdateEvents(before, next)
    {
      assert next[n..][1..] == next[n + 1..];
      if next[n].path in before && before[next[n].path] != next[n].hash {
        events := events + [Event(OpUpdate, next[n].path, None, Some(next[n].hash))];
      }
    }
  }

  // ---------------------------------------------------------------------------------------------
  // Disjoint events commute

  function Touched(events: seq<Event>): set<string> {
    if events == [] then {} else Touch(events[0]) + Touched(events[1..])
  }

  /** No path is touched by two events. */
  ghost predicate Disjoint(events: seq<Event>) {
    forall i, j :: 0 <= i < j < |events| ==> Touch(events[i]) !! Touch(events[j])
  }

  /** A rename moves to another path, and every event but a deletion carries content. */
  predicate Sound(e: Event) {
    && (e.op == OpRename ==> e.previous.Some? && e.previous.value != e.path)
    && (e.op != OpDelete ==> e.hash.Some?)
  }

  ghost predicate AllSound(events: seq<Event>) {
    forall i :: 0 <= i < |events| ==> Sound(events[i])
  }

  function After(e: Event, p: string): Option<string>
    requires Sound(e)
  {
    if e.op == OpDelete || p != e.path then None else e.hash
  }

  lemma {:induction false} TouchedExactly(events: seq<Event>, p: string)
    ensures p in Touched(events) <==> exists i :: 0 <= i < |events| && p in Touch(events[i])
  {
    if events != [] {
      TouchedExactly(events[1..], p);
      if p in Touched(events[1..]) {
        var i :| 0 <= i < |events[1..]| && p in Touch(events[1..][i]);
        assert p in Touch(events[i + 1]);
      }
      if i :| 0 <= i < |events| && p in Touch(events[i]) {
        if i > 0 { assert events[1..][i - 1] == events[i]; }
      }
    }
  }

  /** An untouched path keeps its content; a touched one gets what its only event gives it. */
  lemma {:induction false} ApplyAllAt(t: Tree, events: seq<Event>, p: string)
    requires AllSound(events) && Disjoint(events)
    ensures (forall i :: 0 <= i < |events| ==> p !in Touch(events[i])) ==> ValueAt(ApplyAll(t, events), p) == ValueAt(t, p)
    ensures forall i :: 0 <= i < |events| && p in Touch(events[i]) ==> ValueAt(ApplyAll(t, events), p) == After(events[i], p)
  {
    if events != [] {
      var n := |events| - 1;
      ApplyAllAt(t, events[..n], p);
      assert Sound(events[n]);
      forall i | 0 <= i < |events| && p in Touch(events[i])
        ensures ValueAt(ApplyAll(t, events), p) == After(events[i], p)
      {
        if i < n {
          assert events[..n][i] == events[i] && Touch(events[i]) !! Touch(events[n]);
        }
      }
    }
  }

  // ---------------------------------------------------------------------------------------------
  // The diff is exact

  lemma {:induction false} TreeAt(l: Listing, p: string)
    requires Distinct(l)
    ensures p in TreeOf(l) <==> p in Paths(l)
    ensures forall f :: f in l && f.path == p ==> ValueAt(TreeOf(l), p) == Some(f.hash)
  {
    if l != [] {
      TreeAt(l[1..], p);
      assert l == [l[0]] + l[1..];
    }
  }

  lemma {:induction false} MissingExact(a: Listing, b: Listing)
    requires Distinct(a)
    ensures Distinct(Missing(a, b))
    ensures forall f :: f in Missing(a, b) <==> f in a && f.path !in Paths(b)
  {
    if a != [] {
      MissingExact(a[1..], b);
      assert a == [a[0]] + a[1..];
      var rest := Missing(a[1..], b);
      if a[0].path !in Paths(b) {
        assert Missing(a, b) == [a[0]] + rest;
        assert a[0].path !in Paths(rest) by {
          forall f | f in rest ensures f.path != a[0].path { assert f in a[1..]; }
        }
        assert Missing(a, b)[1..] == rest;
      } else {
        assert Missing(a, b) == rest;
      }
    }
  }

  /** Right for the new tree: each touched path gets its new content, and it had another one before. */
  ghost predicate Right(e: Event, before: Tree, next: Tree) {
    && Sound(e)
    && forall p :: p in Touch(e) ==> After(e, p) == ValueAt(next, p) && ValueAt(before, p) != ValueAt(next, p)
  }

  ghost predicate AllRight(events: seq<Event>, before: Tree, next: Tree) {
    forall i :: 0 <= i < |events| ==> Right(events[i], before, next)
  }

  lemma DisjointCons(e: Event, events: seq<Event>)
    requires Disjoint(events) && Touch(e) !! Touched(events)
    ensures Disjoint([e] + events)
    ensures Touched([e] + events) == Touch(e) + Touched(events)
  {
    var all := [e] + events;
    assert all[1..] == events;
    forall i, j | 0 <= i < j < |all| ensures Touch(all[i]) !! Touch(all[j]) {
      if i == 0 {
        forall p | p in Touch(all[j]) ensures p !in Touch(e) {
          assert p in Touch(events[j - 1]);
          TouchedExactly(events, p);
        }
      }
    }
  }

  lemma {:induction false} DisjointConcat(a: seq<Event>, b: seq<Event>)
    requires Disjoint(a) && Disjoint(b) && Touched(a) !! Touched(b)
    ensures Disjoint(a + b) && Touched(a + b) == Touched(a) + Touched(b)
  {
    if a == [] {
      assert a + b == b;
    } else {
      DisjointConcat(a[1..], b);
      assert a + b == [a[0]] + (a[1..] + b);
      forall p | p in Touch(a[0]) ensures p !in Touched(a[1..]) {
        TouchedExactly(a[1..], p);
        forall i | 0 <= i < |a[1..]| ensures p !in Touch(a[1..][i]) { assert Touch(a[0]) !! Touch(a[i + 1]); }
      }
      DisjointCons(a[0], a[1..] + b);
    }
  }

  ghost predicate FromTrees(deleted: Listing, created: Listing, before: Tree, next: Tree) {
    && (forall f :: f in deleted ==> ValueAt(before, f.path).Some? && f.path !in next)
    && (forall f :: f in created ==> ValueAt(next, f.path) == Some(f.hash) && f.path !in before)
  }

  /** One match is right, and touches the deleted path and the newly consumed one. */
  lemma MatchOneExact(d: File, created: Listing, consumed: set<string>, before: Tree, next: Tree)
    requires ValueAt(before, d.path).Some? && d.path !in next && FromTrees([], created, before, next) && consumed <= Paths(created)
    ensures
      var (e, more) := MatchOne(d, created, consumed);
      && Right(e, before, next) && consumed <= more <= Paths(created)
      && Touch(e) == {d.path} + (more - consumed)
  {
    var found := Candidate(d, created, consumed);
    if found.Some? {
      var f := created[found.value];
      assert f in created;
      assert (consumed + {f.path}) - consumed == {f.path};
    } else {
      assert consumed - consumed == {};
    }
  }

  /** Renames and deletions touch every deleted path once, and each created path at most once. */
  lemma {:induction false} MatchExact(deleted: Listing, created: Listing, consumed: set<string>, before: Tree, next: Tree)
    requires Distinct(deleted) && consumed <= Paths(created) && FromTrees(deleted, created, before, next)
    ensures
      var (events, used) := MatchDeleted(deleted, created, consumed);
      && consumed <= used <= Paths(created)
      && Disjoint(events) && Touched(events) == Paths(deleted) + (used - consumed)
      && AllRight(events, before, next)
    decreases |deleted|
  {
    if deleted != [] {
      var d, rest := deleted[0], deleted[1..];
      assert deleted == [d] + rest;
      assert d in deleted && FromTrees(rest, created, before, next);
      MatchOneExact(d, created, consumed, before, next);
      var (e, more) := MatchOne(d, created, consumed);
      MatchExact(rest, created, more, before, next);
      var (events, used) := MatchDeleted(rest, created, more);
      assert Paths(deleted) == {d.path} + Paths(rest);
      Apart(d, rest, created, consumed, more, used, before, next);
      DisjointCons(e, events);
      RightCons(e, events, before, next);
    }
  }

  lemma Apart(d: File, rest: Listing, created: Listing, consumed: set<string>, more: set<string>, used: set<string>, before: Tree, next: Tree)
    requires d.path !in Paths(rest) && ValueAt(before, d.path).Some? && FromTrees(rest, created, before, next)
    requires consumed <= more <= used <= Paths(created)
    ensures ({d.path} + (more - consumed)) !! (Paths(rest) + (used - more))
    ensures {d.path} + (more - consumed) + (Paths(rest) + (used - more)) == {d.path} + Paths(rest) + (used - consumed)
  {
    forall p | p in Paths(created) ensures p !in before { var f :| f in created && f.path == p; }
    forall p | p in Paths(rest) ensures p in before { var f :| f in rest && f.path == p; }
  }

  lemma RightCons(e: Event, events: seq<Event>, before: Tree, next: Tree)
    requires Right(e, before, next) && AllRight(events, before, next)
    ensures AllRight([e] + events, before, next)
  {
  }

  lemma {:induction false} CreateExact(created: Listing, used: set<string>, before: Tree, next: Tree)
    requires Distinct(created) && forall f :: f in created ==> ValueAt(next, f.path) == Some(f.hash) && f.path !in before
    ensures Disjoint(CreateEvents(created, used)) && Touched(CreateEvents(created, used)) == Paths(created) - used
    ensures AllRight(CreateEvents(created, used), before, next)
  {
    if created != [] {
      var rest := created[1..];
      var events := CreateEvents(rest, used);
      assert created == [created[0]] + rest;
      assert forall f :: f in rest ==> f in created;
      CreateExact(rest, used, before, next);
      assert Paths(created) == Paths(rest) + {created[0].path};
      if created[0].path !in used {
        var e := Event(OpCreate, created[0].path, None, Some(created[0].hash));
        assert created[0] in created;
        assert CreateEvents(created, used) == [e] + events;
        DisjointCons(e, events);
        RightCons(e, events, before, next);
      } else {
        assert CreateEvents(created, used) == events;
      }
    }
  }

  function ChangedPaths(before: Tree, next: Listing): set<string> {
    set f | f in next && f.path in before && before[f.path] != f.hash :: f.path
  }

  lemma UpdateStep(before: Tree, f: File, events: seq<Event>, rest: set<string>, next: Tree)
    requires f.path in before && before[f.path] != f.hash && ValueAt(next, f.path) == Some(f.hash)
    requires Disjoint(events) && Touched(events) == rest && f.path !in rest && AllRight(events, before, next)
    ensures
      var all := [Event(OpUpdate, f.path, None, Some(f.hash))] + events;
      Disjoint(all) && Touched(all) == rest + {f.path} && AllRight(all, before, next)
  {
    var e := Event(OpUpdate, f.path, None, Some(f.hash));
    DisjointCons(e, events);
    RightCons(e, events, before, next);
  }

  lemma {:induction false} UpdateExact(before: Tree, listing: Listing, next: Tree)
    requires Distinct(listing) && forall f :: f in listing ==> ValueAt(next, f.path) == Some(f.hash)
    ensures Disjoint(UpdateEvents(before, listing)) && Touched(UpdateEvents(before, listing)) == ChangedPaths(before, listing)
    ensures AllRight(UpdateEvents(before, listing), before, next)
  {
    if listing != [] {
      var f, rest := listing[0], listing[1..];
      assert f in listing && forall g :: g in rest ==> g in listing;
      UpdateExact(before, rest, next);
      if f.path in before && before[f.path] != f.hash {
        UpdateStep(before, f, UpdateEvents(before, rest), ChangedPaths(before, rest), next);
      } else {
        assert UpdateEvents(before, listing) == UpdateEvents(before, rest);
      }
    }
  }

  ghost predicate Exact(events: seq<Event>, before: Tree, next: Tree) {
    && Disjoint(events) && AllRight(events, before, next)
    && forall p :: ValueAt(before, p) != ValueAt(next, p) ==> p in Touched(events)
  }

  ghost predicate Represents(t: Tree, l: Listing) {
    && (forall f :: f in l ==> ValueAt(t, f.path) == Some(f.hash))
    && (forall p :: p in t <==> p in Paths(l))
  }

  lemma TreeRepresents(l: Listing)
    requires Distinct(l)
    ensures Represents(TreeOf(l), l)
  {
    forall f | f in l ensures ValueAt(TreeOf(l), f.path) == Some(f.hash) { TreeAt(l, f.path); }
    forall p ensures p in TreeOf(l) <==> p in Paths(l) { TreeAt(l, p); }
  }

  lemma ChangesAreCovered(before: Listing, next: Listing, t: Tree, u: Tree, p: string)
    requires Distinct(before) && Distinct(next) && Represents(t, before) && Represents(u, next) && ValueAt(t, p) != ValueAt(u, p)
    ensures p in Paths(Missing(before, next)) || p in Paths(Missing(next, before)) || p in ChangedPaths(t, next)
  {
    MissingExact(before, next);
    MissingExact(next, before);
    if p in u {
      var f :| f in next && f.path == p;
      assert p !in t ==> f in Missing(next, before);
    } else {
      var f :| f in before && f.path == p;
      assert f in Missing(before, next);
    }
  }

  lemma MissingFromTrees(before: Listing, next: Listing, t: Tree, u: Tree)
    requires Distinct(before) && Distinct(next) && Represents(t, before) && Represents(u, next)
    ensures FromTrees(Missing(before, next), Missing(next, before), t, u)
    ensures Distinct(Missing(before, next)) && Distinct(Missing(next, before))
    ensures Paths(Missing(before, next)) !! Paths(Missing(next, before))
    ensures (Paths(Missing(before, next)) + Paths(Missing(next, before))) !! ChangedPaths(t, next)
  {
    MissingExact(before, next);
    MissingExact(next, before);
  }

  /** The three groups of events touch disjoint paths. */
  lemma GroupsAreDisjoint(
    moves: seq<Event>, creates: seq<Event>, updates: seq<Event>,
    deleted: set<string>, created: set<string>, changed: set<string>, used: set<string>)
    requires Disjoint(moves) && Disjoint(creates) && Disjoint(updates)
    requires deleted !! created && (deleted + created) !! changed && used <= created
    requires Touched(moves) == deleted + used && Touched(creates) == created - used && Touched(updates) == changed
    ensures Disjoint(moves + creates + updates)
    ensures Touched(moves + creates + updates) == deleted + created + changed
  {
    DisjointConcat(moves, creates);
    assert Touched(moves + creates) == deleted + created;
    DisjointConcat(moves + creates, updates);
  }

  lemma DiffGroups(before: Listing, next: Listing, t: Tree, u: Tree)
    requires Distinct(before) && Distinct(next) && Represents(t, before) && Represents(u, next) && t == TreeOf(before)
    ensures Disjoint(Diff(before, next)) && AllRight(Diff(before, next), t, u)
    ensures Touched(Diff(before, next)) ==
            Paths(Missing(before, next)) + Paths(Missing(next, before)) + ChangedPaths(t, next)
  {
    var deleted, created := Missing(before, next), Missing(next, before);
    MissingFromTrees(before, next, t, u);
    MatchExact(deleted, created, {}, t, u);
    var (moves, used) := MatchDeleted(deleted, created, {});
    CreateExact(created, used, t, u);
    UpdateExact(t, next, u);
    var creates, updates := CreateEvents(created, used), UpdateEvents(t, next);
    assert used - {} == used;
    GroupsAreDisjoint(moves, creates, updates, Paths(deleted), Paths(created), ChangedPaths(t, next), used);
    RightConcat(moves, creates, t, u);
    RightConcat(moves + creates, updates, t, u);
  }

  /** The events of a reconcile touch each changed path exactly once, with its new content, and nothing else. */
  lemma {:induction false} DiffExact(before: Listing, next: Listing)
    requires Distinct(before) && Distinct(next)
    ensures Exact(Diff(before, next), TreeOf(before), TreeOf(next))
  {
    var t, u := TreeOf(before), TreeOf(next);
    TreeRepresents(before);
    TreeRepresents(next);
    DiffGroups(before, next, t, u);
    forall p | ValueAt(t, p) != ValueAt(u, p) ensures p in Touched(Diff(before, next)) {
      ChangesAreCovered(before, next, t, u, p);
    }
  }

  lemma RightConcat(a: seq<Event>, b: seq<Event>, before: Tree, next: Tree)
    requires AllRight(a, before, next) && AllRight(b, before, next)
    ensures AllRight(a + b, before, next)
  {
  }

  // ---------------------------------------------------------------------------------------------
  // Any order

  lemma {:induction false} Multiplicity(events: seq<Event>, e: Event)
    requires Disjoint(events)
    ensures multiset(events)[e] == if e in events then 1 else 0
  {
    if events != [] {
      var n := |events| - 1;
      var init := events[..n];
      assert events == init + [events[n]];
      Multiplicity(init, e);
      assert forall i :: 0 <= i < n ==> init[i] == events[i] && Touch(events[i]) !! Touch(events[n]);
      assert e.path in Touch(e);
    }
  }

  /** Disjointness does not depend on the order. */
  lemma DisjointPermuted(events: seq<Event>, shuffled: seq<Event>)
    requires Disjoint(events) && multiset(events) == multiset(shuffled)
    ensures Disjoint(shuffled)
  {
    forall i, j | 0 <= i < j < |shuffled| ensures Touch(shuffled[i]) !! Touch(shuffled[j]) {
      var a, b := shuffled[i], shuffled[j];
      assert a in multiset(shuffled) && b in multiset(shuffled);
      assert a in events && b in events;
      if a == b {
        TwiceCounts(shuffled, i, j);
        Multiplicity(events, a);
      }
      var x :| 0 <= x < |events| && events[x] == a;
      var y :| 0 <= y < |events| && events[y] == b;
      assert x != y;
    }
  }

  lemma TwiceCounts(events: seq<Event>, i: nat, j: nat)
    requires i < j < |events| && events[i] == events[j]
    ensures multiset(events)[events[i]] >= 2
  {
    assert events == events[..j] + events[j..];
    assert events[i] in multiset(events[..j]) by { assert events[..j][i] == events[i]; }
    assert events[j] in multiset(events[j..]) by { assert events[j..][0] == events[j]; }
  }

  /** Applied in any order, the events turn the old snapshot into the new one. */
  lemma {:induction false} AnyOrderReproduces(before: Listing, next: Listing, shuffled: seq<Event>)
    requires Distinct(before) && Distinct(next) && multiset(shuffled) == multiset(Diff(before, next))
    ensures ApplyAll(TreeOf(before), shuffled) == TreeOf(next)
  {
    var t, u := TreeOf(before), TreeOf(next);
    var events := Diff(before, next);
    DiffExact(before, next);
    DisjointPermuted(events, shuffled);
    SameMembers(events, shuffled);
    RightPermuted(events, shuffled, t, u);
    forall p ensures ValueAt(ApplyAll(t, shuffled), p) == ValueAt(u, p) {
      ApplyAllAt(t, shuffled, p);
      TouchedExactly(shuffled, p);
      SameTouched(events, shuffled, p);
      if i :| 0 <= i < |shuffled| && p in Touch(shuffled[i]) {
        assert Right(shuffled[i], t, u);
      }
    }
    SameTree(ApplyAll(t, shuffled), u);
  }

  lemma SameTouched(events: seq<Event>, shuffled: seq<Event>, p: string)
    requires forall e :: e in events <==> e in shuffled
    ensures p in Touched(events) <==> p in Touched(shuffled)
  {
    TouchedExactly(events, p);
    TouchedExactly(shuffled, p);
    if i :| 0 <= i < |events| && p in Touch(events[i]) {
      assert events[i] in shuffled;
      var k :| 0 <= k < |shuffled| && shuffled[k] == events[i];
    }
    if i :| 0 <= i < |shuffled| && p in Touch(shuffled[i]) {
      assert shuffled[i] in events;
      var k :| 0 <= k < |events| && events[k] == shuffled[i];
    }
  }

  lemma SameMembers(events: seq<Event>, shuffled: seq<Event>)
    requires multiset(events) == multiset(shuffled)
    ensures forall e :: e in events <==> e in shuffled
  {
    forall e ensures e in events <==> e in shuffled {
      assert e in events <==> e in multiset(events);
      assert e in shuffled <==> e in multiset(shuffled);
    }
  }

  lemma RightPermuted(events: seq<Event>, others: seq<Event>, before: Tree, next: Tree)
    requires AllRight(events, before, next) && forall e :: e in others ==> e in events
    ensures AllRight(others, before, next) && AllSound(others)
  {
    forall i | 0 <= i < |others| ensures Right(others[i], before, next) {
      assert others[i] in events;
      var k :| 0 <= k < |events| && events[k] == others[i];
    }
  }

  lemma SameTree(a: Tree, b: Tree)
    requires forall p :: ValueAt(a, p) == ValueAt(b, p)
    ensures a == b
  {
    forall p ensures (p in a <==> p in b) && (p in a ==> a[p] == b[p]) {
      assert ValueAt(a, p) == ValueAt(b, p);
    }
  }

  /** Each created path is the target of at most one rename. */
  lemma {:induction false} RenameTargetsDistinct(before: Listing, next: Listing, i: nat, j: nat)
    requires Distinct(before) && Distinct(next) && i < j < |Diff(before, next)|
    requires Diff(before, next)[i].op == OpRename && Diff(before, next)[j].op == OpRename
    ensures Diff(before, next)[i].path != Diff(before, next)[j].path
  {
    DiffExact(before, next);
    assert Touch(Diff(before, next)[i]) !! Touch(Diff(before, next)[j]);
  }
}

/** The subscription row: a newer (sequence, effective time) pair replaces an older one, in any delivery order. */
module Subscriptions {
  import opened Prelude

  datatype Subscription<T> = Subscription(sequence: nat, effectiveAt: int, data: T)

  /** Row comparison as SQL makes it: by sequence, then by effective time. */
  predicate Newer<T>(a: Subscription<T>, b: Subscription<T>) {
    a.sequence > b.sequence || (a.sequence == b.sequence && a.effectiveAt > b.effectiveAt)
  }

  function Apply<T>(row: Option<Subscription<T>>, incoming: Subscription<T>): Option<Subscription<T>> {
    if row.None? || Newer(incoming, row.value) then Some(incoming) else row
  }

  function Deliver<T>(row: Option<Subscription<T>>, deliveries: seq<Subscription<T>>): Option<Subscription<T>> {
    if deliveries == [] then row
    else Apply(Deliver(row, deliveries[..|deliveries| - 1]), deliveries[|deliveries| - 1])
  }

  /** The row after any deliveries is the first delivered of those with the greatest pair. */
  lemma {:induction false} EndsAtFirstGreatest<T>(deliveries: seq<Subscription<T>>)
    requires deliveries != []
    ensures Deliver(None, deliveries).Some?
    ensures forall i :: 0 <= i < |deliveries| ==> !Newer(deliveries[i], Deliver(None, deliveries).value)
    ensures exists i :: (
      0 <= i < |deliveries| && deliveries[i] == Deliver(None, deliveries).value &&
      forall j :: 0 <= j < i ==> Newer(deliveries[i], deliveries[j]))
  {
    var last := |deliveries| - 1;
    var rest := deliveries[..last];
    if rest == [] {
      assert deliveries[0] == Deliver(None, deliveries).value;
    } else {
      EndsAtFirstGreatest(rest);
      var row := Deliver(None, rest).value;
      assert forall i :: 0 <= i < last ==> rest[i] == deliveries[i];
      if Newer(deliveries[last], row) {
        assert Deliver(None, deliveries).value == deliveries[last];
      } else {
        var i :| 0 <= i < |rest| && rest[i] == row && forall j :: 0 <= j < i ==> Newer(rest[i], rest[j]);
        assert deliveries[i] == Deliver(None, deliveries).value;
      }
    }
  }

  // ---------------------------------------------------------------------------------------------
  // When the order of deliveries matters

  predicate Beats<T>(s: Subscription<T>, row: Option<Subscription<T>>) {
    row.None? || Newer(s, row.value)
  }

  ghost predicate Greatest<T>(s: Subscription<T>, deliveries: seq<Subscription<T>>) {
    s in deliveries && forall x :: x in deliveries ==> !Newer(x, s)
  }

  /** The same updates, in any order and with any repetition. */
  ghost predicate SameUpdates<T(!new)>(first: seq<Subscription<T>>, second: seq<Subscription<T>>) {
    forall s :: s in first <==> s in second
  }

  /** Of the updates that share the greatest pair, and beat the row, there is only one. */
  ghost predicate OneWinner<T(!new)>(row: Option<Subscription<T>>, deliveries: seq<Subscription<T>>) {
    forall a, b :: Greatest(a, deliveries) && Greatest(b, deliveries) && Beats(a, row) ==> a == b
  }

  /** The row stays, or becomes a delivered update that beats it; nothing delivered beats the outcome. */
  lemma {:induction false} EndsAtGreatest<T>(row: Option<Subscription<T>>, deliveries: seq<Subscription<T>>)
    ensures
      var end := Deliver(row, deliveries);
      && (end == row || (end.Some? && end.value in deliveries && Beats(end.value, row)))
      && forall x :: x in deliveries ==> !Beats(x, end)
  {
    if deliveries != [] {
      var last := |deliveries| - 1;
      assert deliveries == deliveries[..last] + [deliveries[last]];
      EndsAtGreatest(row, deliveries[..last]);
    }
  }

  /** A greatest update that beats the row and is delivered first is where the row ends. */
  lemma {:induction false} FirstGreatestStays<T>(row: Option<Subscription<T>>, s: Subscription<T>, rest: seq<Subscription<T>>)
    requires Beats(s, row) && forall x :: x in rest ==> !Newer(x, s)
    ensures Deliver(row, [s] + rest) == Some(s)
  {
    if rest == [] {
      assert [s] + rest == [s] && [s][..0] == [];
    } else {
      var last := |rest| - 1;
      assert ([s] + rest)[..last + 1] == [s] + rest[..last];
      assert rest[last] in rest;
      FirstGreatestStays(row, s, rest[..last]);
    }
  }

  lemma SameWinner<T(!new)>(row: Option<Subscription<T>>, first: seq<Subscription<T>>, second: seq<Subscription<T>>)
    requires OneWinner(row, first) && SameUpdates(first, second)
    ensures Deliver(row, second) == Deliver(row, first)
  {
    EndsAtGreatest(row, first);
    EndsAtGreatest(row, second);
    var a, b := Deliver(row, first), Deliver(row, second);
    if a != row { assert Greatest(a.value, first); }
    if b != row { assert Greatest(b.value, first); }
  }

  /**
   From any row, all deliveries of the same updates end at one row if and only if one update alone
   carries the greatest pair, or that pair does not beat the row. Ties below the greatest pair are
   harmless.
   */
  lemma OrderMattersExactly<T(!new)>(row: Option<Subscription<T>>, first: seq<Subscription<T>>)
    ensures (forall second :: SameUpdates(first, second) ==> Deliver(row, second) == Deliver(row, first)) <==>
            OneWinner(row, first)
  {
    if OneWinner(row, first) {
      forall second | SameUpdates(first, second) ensures Deliver(row, second) == Deliver(row, first) {
        SameWinner(row, first, second);
      }
    } else {
      var a, b :| Greatest(a, first) && Greatest(b, first) && Beats(a, row) && a != b;
      FirstGreatestStays(row, a, first);
      FirstGreatestStays(row, b, first);
      assert SameUpdates(first, [a] + first) && SameUpdates(first, [b] + first);
    }
  }

  /** Distinct updates carry distinct pairs. */
  ghost predicate DistinctPairs<T>(deliveries: seq<Subscription<T>>) {
    forall i, j :: 0 <= i < |deliveries| && 0 <= j < |deliveries| && deliveries[i] != deliveries[j] ==>
      deliveries[i].sequence != deliveries[j].sequence || deliveries[i].effectiveAt != deliveries[j].effectiveAt
  }

  /** With distinct pairs, order and repetition of deliveries do not matter, whatever the row was. */
  lemma OrderDoesNotMatter<T(!new)>(row: Option<Subscription<T>>, first: seq<Subscription<T>>, second: seq<Subscription<T>>)
    requires DistinctPairs(first) && SameUpdates(first, second)
    ensures Deliver(row, first) == Deliver(row, second)
  {
    assert OneWinner(row, first) by {
      forall a, b | Greatest(a, first) && Greatest(b, first) && Beats(a, row) ensures a == b {
        var i :| 0 <= i < |first| && first[i] == a;
        var j :| 0 <= j < |first| && first[j] == b;
      }
    }
    SameWinner(row, first, second);
  }

  /** Two different updates that share a pair end wherever the first delivery put the row. */
  lemma TiesKeepTheFirst<T>(a: Subscription<T>, b: Subscription<T>)
    requires a.sequence == b.sequence && a.effectiveAt == b.effectiveAt
    ensures Deliver(None, [a, b]) == Some(a) && Deliver(None, [b, a]) == Some(b)
  {
    FirstGreatestStays(None, a, [b]);
    FirstGreatestStays(None, b, [a]);
  }
}

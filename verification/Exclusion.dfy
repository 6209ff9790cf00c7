/** The platform-exclusion closure of the dependency inventory. */
module Exclusion {

  /** Installed packages in iteration order, the platform-specific ones, and who depends on each. */
  datatype Graph = Graph(packages: seq<string>, platform: set<string>, incoming: map<string, set<string>>) {
    function All(): set<string> { set p | p in packages }

    function Parents(p: string): set<string> {
      if p in incoming then incoming[p] else {}
    }

    /** Only installed packages are platform-specific or have edges. */
    ghost predicate Valid() {
      platform <= All() && forall p :: p in incoming ==> incoming[p] <= All()
    }

    predicate Orphaned(p: string, excluded: set<string>) {
      Parents(p) != {} && Parents(p) <= excluded
    }
  }

  /** Contains every platform-specific package and every package whose parents all are in it. */
  ghost predicate Closed(g: Graph, s: set<string>) {
    g.platform <= s && forall p :: p in g.All() && g.Orphaned(p, s) ==> p in s
  }

  ghost predicate IsLeastClosed(g: Graph, s: set<string>) {
    && s <= g.All() && Closed(g, s)
    && forall t: set<string> :: Closed(g, t) ==> s <= t
  }

  /** No member is platform-specific, and each has no parents or a parent in the set. */
  ghost predicate Supported(g: Graph, s: set<string>) {
    && s <= g.All()
    && forall p :: p in s ==> p !in g.platform && (g.Parents(p) == {} || exists q :: q in g.Parents(p) && q in s)
  }

  method ExcludedPackages(g: Graph) returns (excluded: set<string>)
    requires g.Valid()
    ensures IsLeastClosed(g, excluded)
  {
    excluded := g.platform;
    var changed := true;
    while changed
      invariant g.platform <= excluded <= g.All()
      invariant forall t: set<string> :: Closed(g, t) ==> excluded <= t
      invariant !changed ==> Closed(g, excluded)
      decreases |g.All() - excluded|, changed
    {
      changed := false;
      ghost var before := excluded;
      for i := 0 to |g.packages|
        invariant before <= excluded <= g.All()
        invariant forall t: set<string> :: Closed(g, t) ==> excluded <= t
        invariant changed <==> excluded != before
        invariant !changed ==> forall k :: 0 <= k < i ==> g.packages[k] in excluded || !g.Orphaned(g.packages[k], excluded)
      {
        var p := g.packages[i];
        if p in excluded {
          continue;
        }
        if g.Orphaned(p, excluded) {
          assert p in g.All();
          excluded := excluded + {p};
          changed := true;
        }
      }
      if changed {
        Shrinks(g.All(), before, excluded);
      }
    }
  }

  lemma Shrinks(all: set<string>, before: set<string>, after: set<string>)
    requires before <= after <= all && before != after
    ensures |all - after| < |all - before|
  {
    var p :| p in after && p !in before;
    assert all - after <= (all - before) - {p};
    SubsetSmaller(all - after, (all - before) - {p});
  }

  lemma SubsetSmaller(a: set<string>, b: set<string>)
    requires a <= b
    ensures |a| <= |b|
  {
    assert b == a + (b - a);
  }

  /** The answer is unique, so it does not depend on the order in which packages are visited. */
  lemma OrderDoesNotMatter(g: Graph, reordered: Graph, first: set<string>, second: set<string>)
    requires reordered.platform == g.platform && reordered.incoming == g.incoming && reordered.All() == g.All()
    requires IsLeastClosed(g, first) && IsLeastClosed(reordered, second)
    ensures first == second
  {
    assert Closed(g, second) && Closed(reordered, first);
  }

  /** The survivors are the greatest set in which every member is supported. */
  lemma SurvivorsAreGreatest(g: Graph, excluded: set<string>)
    requires g.Valid() && IsLeastClosed(g, excluded)
    ensures Supported(g, g.All() - excluded)
    ensures forall s: set<string> :: Supported(g, s) ==> s <= g.All() - excluded
  {
    var survivors := g.All() - excluded;
    forall p | p in survivors
      ensures p !in g.platform && (g.Parents(p) == {} || exists q :: q in g.Parents(p) && q in survivors)
    {
      assert !g.Orphaned(p, excluded);
      if g.Parents(p) != {} {
        var q :| q in g.Parents(p) && q !in excluded;
        assert q in g.incoming[p] && q in survivors;
      }
    }
    forall s: set<string> | Supported(g, s) ensures s <= survivors {
      var rest := g.All() - s;
      forall p | p in s ensures !g.Orphaned(p, rest) {
        if g.Parents(p) != {} {
          var q :| q in g.Parents(p) && q in s;
          assert q !in rest;
        }
      }
      assert Closed(g, rest);
      assert excluded <= rest;
    }
  }

  /** A package that still has an included ancestor chain to a parentless, portable package survives. */
  lemma {:induction false} ReachableFromRootSurvives(g: Graph, excluded: set<string>, path: seq<string>)
    requires IsLeastClosed(g, excluded) && path != []
    requires forall i :: 0 <= i < |path| ==> path[i] in g.All() && path[i] !in g.platform
    requires g.Parents(path[0]) == {} && forall i :: 0 <= i < |path| - 1 ==> path[i] in g.Parents(path[i + 1])
    ensures path[|path| - 1] !in excluded
  {
    var s := set i | 0 <= i < |path| :: path[i];
    var rest := g.All() - s;
    forall p | p in s ensures !g.Orphaned(p, rest) {
      var i :| 0 <= i < |path| && path[i] == p;
      if i > 0 { assert path[i - 1] in s && path[i - 1] in g.Parents(path[i]); }
    }
    assert Closed(g, rest);
  }
}

/** Directed graphs as adjacency sets, and what a depth-first post-order of one looks like. */
module Graphs {

  /** An edge counts only when its target is itself a vertex. */
  ghost predicate Edge<K>(g: map<K, set<K>>, u: K, w: K) { u in g && w in g && w in g[u] }

  ghost predicate IsPath<K>(g: map<K, set<K>>, p: seq<K>) {
    |p| > 0 && forall i :: 0 <= i < |p| - 1 ==> Edge(g, p[i], p[i + 1])
  }

  ghost predicate Connects<K>(g: map<K, set<K>>, p: seq<K>, u: K, w: K) {
    IsPath(g, p) && p[0] == u && p[|p| - 1] == w
  }

  ghost predicate Reaches<K(!new)>(g: map<K, set<K>>, u: K, w: K) { exists p :: Connects(g, p, u, w) }

  ghost predicate Acyclic<K(!new)>(g: map<K, set<K>>) {
    forall u, w :: Edge(g, u, w) ==> !Reaches(g, w, u)
  }

  ghost predicate Distinct<K>(order: seq<K>) {
    forall i, j :: 0 <= i < j < |order| ==> order[i] != order[j]
  }

  /** Every target stands before its referrer... */
  ghost predicate TargetsFirst<K(!new)>(g: map<K, set<K>>, order: seq<K>) {
    forall j, w :: 0 <= j < |order| && Edge(g, order[j], w) ==> w in order[..j]
  }

  /** ... or, on a graph with cycles, every target that does not leads back to its referrer. */
  ghost predicate TargetsFirstOrCycle<K(!new)>(g: map<K, set<K>>, order: seq<K>) {
    forall j, w :: 0 <= j < |order| && Edge(g, order[j], w) ==> w in order[..j] || Reaches(g, w, order[j])
  }

  /** x can be reached from one of the seeds. */
  ghost predicate FromSeeds<K(!new)>(g: map<K, set<K>>, seeds: seq<K>, x: K) {
    exists s :: s in seeds && Reaches(g, s, x)
  }

  lemma {:induction false} ReachesItself<K(!new)>(g: map<K, set<K>>, u: K)
    ensures Reaches(g, u, u)
  {
    assert Connects(g, [u], u, u);
  }

  lemma {:induction false} ReachesFurther<K(!new)>(g: map<K, set<K>>, u: K, v: K, w: K)
    requires Reaches(g, u, v) && Edge(g, v, w)
    ensures Reaches(g, u, w)
  {
    var p :| Connects(g, p, u, v);
    assert Connects(g, p + [w], u, w);
  }

  lemma {:induction false} ReachesEarlier<K(!new)>(g: map<K, set<K>>, u: K, v: K, w: K)
    requires Edge(g, u, v) && Reaches(g, v, w)
    ensures Reaches(g, u, w)
  {
    var p :| Connects(g, p, v, w);
    var q := [u] + p;
    assert forall i :: 0 < i < |q| ==> q[i] == p[i - 1];
    assert Connects(g, q, u, w);
  }

  /** A set closed under edges holds whatever its members reach. */
  lemma {:induction false} ClosedHoldsPath<K(!new)>(g: map<K, set<K>>, s: set<K>, p: seq<K>)
    requires forall u, w :: u in s && Edge(g, u, w) ==> w in s
    requires IsPath(g, p) && p[0] in s
    ensures p[|p| - 1] in s
  {
    if |p| > 1 {
      assert Edge(g, p[0], p[1]);
      ClosedHoldsPath(g, s, p[1..]);
    }
  }

  lemma {:induction false} ClosedHoldsReachable<K(!new)>(g: map<K, set<K>>, s: set<K>, u: K, w: K)
    requires forall a, b :: a in s && Edge(g, a, b) ==> b in s
    requires u in s && Reaches(g, u, w)
    ensures w in s
  {
    var p :| Connects(g, p, u, w);
    ClosedHoldsPath(g, s, p);
  }

  /** In a targets-first order everything reachable stands at or before where the path starts. */
  lemma {:induction false} PathStepsBack<K(!new)>(g: map<K, set<K>>, order: seq<K>, p: seq<K>, j: nat)
    requires TargetsFirst(g, order) && IsPath(g, p)
    requires j < |order| && p[0] == order[j]
    ensures p[|p| - 1] in order[..j + 1]
  {
    if |p| == 1 {
      assert order[..j + 1][j] == p[0];
    } else {
      assert Edge(g, p[0], p[1]);
      var i :| 0 <= i < j && order[..j][i] == p[1];
      PathStepsBack(g, order, p[1..], i);
      var h :| 0 <= h < i + 1 && order[..i + 1][h] == p[|p| - 1];
      assert order[..j + 1][h] == p[|p| - 1];
    }
  }

  /** Which orders a post-order walk can promise: all targets first exactly when nothing is cyclic. */
  lemma {:induction false} TargetsFirstIffAcyclic<K(!new)>(g: map<K, set<K>>, order: seq<K>)
    requires Distinct(order) && forall k :: k in g ==> k in order
    requires TargetsFirstOrCycle(g, order)
    ensures TargetsFirst(g, order) <==> Acyclic(g)
  {
    if TargetsFirst(g, order) {
      forall u, w | Edge(g, u, w)
        ensures !Reaches(g, w, u)
      {
        if Reaches(g, w, u) {
          var j :| 0 <= j < |order| && order[j] == u;
          var i :| 0 <= i < j && order[..j][i] == w;
          var p :| Connects(g, p, w, u);
          PathStepsBack(g, order, p, i);
        }
      }
    }
  }

  // ---- The state of a walk ----

  /** order lists the finished vertices of a walk that has entered seen. */
  ghost predicate Walk<K(!new)>(g: map<K, set<K>>, seen: set<K>, order: seq<K>) {
    && Distinct(order)
    && (forall k :: k in order ==> k in seen) && seen <= g.Keys
    && TargetsFirstOrCycle(g, order)
    && forall u, w :: u in order && Edge(g, u, w) ==> w in seen
  }

  /** The vertices entered and not finished all lead to k. */
  ghost predicate StackLeadsTo<K(!new)>(g: map<K, set<K>>, seen: set<K>, order: seq<K>, k: K) {
    forall s :: s in seen && s !in order ==> Reaches(g, s, k)
  }

  /** What visiting k did to the walk: finished only vertices k reaches, left the stack alone. */
  ghost predicate Visited<K(!new)>(g: map<K, set<K>>, seen0: set<K>, order0: seq<K>, k: K, seen: set<K>, order: seq<K>)
  {
    && order0 <= order && seen0 <= seen
    && (forall x :: x in seen && x !in order <==> x in seen0 && x !in order0)
    && (forall x :: x in seen && x !in seen0 ==> Reaches(g, k, x))
  }

  /** Finishing k: its targets are all entered, so each is finished or on the stack above k. */
  lemma {:induction false} FinishVertex<K(!new)>(g: map<K, set<K>>, seen0: set<K>, order0: seq<K>, k: K, seen: set<K>,
          order: seq<K>)
    requires Walk(g, seen, order) && k in g
    requires StackLeadsTo(g, seen0, order0, k) && k !in seen0
    requires Visited(g, seen0 + {k}, order0, k, seen, order)
    requires forall w :: Edge(g, k, w) ==> w in seen
    requires k !in order0
    ensures Walk(g, seen, order + [k])
    ensures Visited(g, seen0, order0, k, seen, order + [k])
  {
    var done := order + [k];
    assert k in seen && k !in order;
    forall j, w | 0 <= j < |done| && Edge(g, done[j], w)
      ensures w in done[..j] || Reaches(g, w, done[j])
    {
      if j < |order| {
        assert done[..j] == order[..j] && done[j] == order[j];
      } else {
        assert done[..j] == order;
        if w !in order {
          ReachesItself(g, k);
          assert w == k || (w in seen0 && w !in order0);
        }
      }
    }
    ReachesItself(g, k);
    forall x
      ensures x in seen && x !in done <==> x in seen0 && x !in order0
    {
      assert x in done <==> x in order || x == k;
    }
  }

  /** Visiting one target of k inside the walk of k. */
  lemma {:induction false} ThenVisited<K(!new)>(g: map<K, set<K>>, seen0: set<K>, order0: seq<K>, k: K, seen1: set<K>,
          order1: seq<K>, w: K, seen2: set<K>, order2: seq<K>)
    requires Visited(g, seen0, order0, k, seen1, order1)
    requires Edge(g, k, w) && Visited(g, seen1, order1, w, seen2, order2)
    ensures Visited(g, seen0, order0, k, seen2, order2)
  {
    forall x | x in seen2 && x !in seen0
      ensures Reaches(g, k, x)
    {
      if x !in seen1 {
        ReachesEarlier(g, k, w, x);
      }
    }
  }

  /** Seeds walked in turn: what is finished is exactly what the seeds reach. */
  lemma {:induction false} SeedsCovered<K(!new)>(g: map<K, set<K>>, seeds: seq<K>, k: K, order0: seq<K>, order: seq<K>,
          seen0: set<K>, seen: set<K>)
    requires Walk(g, seen, order) && Visited(g, seen0, order0, k, seen, order)
    requires (forall x :: x in seen0 ==> x in order0) && (forall x :: x in order0 ==> x in seen0)
    requires forall x :: x in order0 <==> FromSeeds(g, seeds, x)
    requires k in seen
    ensures forall x :: x in order <==> FromSeeds(g, seeds + [k], x)
  {
    forall x
      ensures x in order <==> FromSeeds(g, seeds + [k], x)
    {
      if x in order {
        if x in order0 {
          var s :| s in seeds && Reaches(g, s, x);
          assert s in seeds + [k];
        } else {
          assert x in seen && x !in seen0;
          assert k in seeds + [k];
        }
      }
      if FromSeeds(g, seeds + [k], x) {
        var s :| s in seeds + [k] && Reaches(g, s, x);
        if s in seeds {
          assert x in order0;
        } else {
          ClosedHoldsReachable(g, seen, k, x);
        }
      }
    }
  }

  /** The first m of the order are what the seeds reach. */
  ghost predicate PrefixReached<K(!new)>(g: map<K, set<K>>, seeds: seq<K>, order: seq<K>, m: int) {
    0 <= m <= |order| && forall x :: x in order[..m] <==> FromSeeds(g, seeds, x)
  }

  ghost predicate SomePrefixReached<K(!new)>(g: map<K, set<K>>, seeds: seq<K>, order: seq<K>) {
    exists m :: PrefixReached(g, seeds, order, m)
  }

  /** The first i seeds have been walked, one after the other. */
  ghost predicate SeedsWalked<K(!new)>(g: map<K, set<K>>, seeds: seq<K>, i: nat, seen: set<K>, order: seq<K>)
    requires i <= |seeds|
  {
    && Walk(g, seen, order) && (forall x :: x in seen <==> x in order)
    && (forall x :: x in order <==> FromSeeds(g, seeds[..i], x))
    && (forall h :: 0 <= h <= i ==> SomePrefixReached(g, seeds[..h], order))
  }

  lemma {:induction false} SeedsStart<K(!new)>(g: map<K, set<K>>, seeds: seq<K>)
    ensures SeedsWalked(g, seeds, 0, {}, [])
  {
    assert PrefixReached(g, seeds[..0], [], 0);
  }

  lemma {:induction false} SeedNext<K(!new)>(g: map<K, set<K>>, seeds: seq<K>, i: nat, seen: set<K>, order: seq<K>)
    requires i < |seeds| && SeedsWalked(g, seeds, i, seen, order)
    ensures Walk(g, seen, order) && StackLeadsTo(g, seen, order, seeds[i])
  {
  }

  lemma {:induction false} SeedsStep<K(!new)>(g: map<K, set<K>>, seeds: seq<K>, i: nat, seen0: set<K>, order0: seq<K>,
          seen: set<K>, order: seq<K>)
    requires i < |seeds| && SeedsWalked(g, seeds, i, seen0, order0)
    requires Walk(g, seen, order) && Visited(g, seen0, order0, seeds[i], seen, order) && seeds[i] in seen
    ensures SeedsWalked(g, seeds, i + 1, seen, order)
  {
    assert seeds[..i + 1] == seeds[..i] + [seeds[i]];
    SeedsCovered(g, seeds[..i], seeds[i], order0, order, seen0, seen);
    forall h | 0 <= h <= i + 1
      ensures SomePrefixReached(g, seeds[..h], order)
    {
      if h <= i {
        var m :| PrefixReached(g, seeds[..h], order0, m);
        assert order[..m] == order0[..m];
        assert PrefixReached(g, seeds[..h], order, m);
      } else {
        assert order[..|order|] == order;
        assert PrefixReached(g, seeds[..h], order, |order|);
      }
    }
  }

  lemma {:induction false} SeedsDone<K(!new)>(g: map<K, set<K>>, seeds: seq<K>, seen: set<K>, order: seq<K>)
    requires SeedsWalked(g, seeds, |seeds|, seen, order) && forall k :: k in g <==> k in seeds
    ensures Distinct(order) && forall k :: k in order <==> k in seeds
    ensures TargetsFirstOrCycle(g, order) && (TargetsFirst(g, order) <==> Acyclic(g))
    ensures forall h :: 0 <= h <= |seeds| ==> SomePrefixReached(g, seeds[..h], order)
  {
    hide TargetsFirst, TargetsFirstOrCycle, Acyclic, SomePrefixReached;
    assert seeds[..|seeds|] == seeds;
    forall k | k in seeds
      ensures k in order
    {
      ReachesItself(g, k);
      assert FromSeeds(g, seeds, k);
    }
    TargetsFirstIffAcyclic(g, order);
  }
}

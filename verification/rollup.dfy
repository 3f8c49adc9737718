/** The arithmetic of the stock rollup: repositories form a forest, every (repository, item)
    pair holding a current stock row stores a quantity, and that quantity should be the pair's
    own quantity plus the stored quantities of its direct children.

    This module states the invariant of hack/stockfix/queries.go, the rule that decides which
    violations a repair round may correct (hack/stockfix/repair.go), and proves what iterating
    that rule computes.  Ledger rows and loops are in module StockFix. */
module Rollup {

  /** The bound shared by the round loop and the ancestor walk (repair.go, maxRepairRounds). */
  const MAX_REPAIR_ROUNDS: nat := 64

  /** The text of a UUID column; NONE is the empty string the program reads for a null one. */
  type Uuid = int
  const NONE: Uuid := 0

  /** One row of the repositories table; parent is NONE for a root. */
  datatype Repository = Repository(id: Uuid, parent: Uuid, deleted: bool)

  datatype Pair = Pair(repo: Uuid, item: Uuid)

  /** The repositories table: ids are a primary key, and no id is NONE. */
  ghost predicate ValidTable(repos: seq<Repository>) {
    && (forall i, j :: 0 <= i < j < |repos| ==> repos[i].id != repos[j].id)
    && (forall i :: 0 <= i < |repos| ==> repos[i].id != NONE)
  }

  /** queryRepoParents: parent per live repository. */
  function Parents(repos: seq<Repository>): map<Uuid, Uuid> {
    if repos == [] then map[]
    else
      var last := repos[|repos| - 1];
      var rest := Parents(repos[..|repos| - 1]);
      if last.deleted then rest else rest[last.id := last.parent]
  }

  lemma {:induction false} ParentsSpec(repos: seq<Repository>)
    requires ValidTable(repos)
    ensures forall i :: 0 <= i < |repos| && !repos[i].deleted ==>
      repos[i].id in Parents(repos) && Parents(repos)[repos[i].id] == repos[i].parent
    ensures forall r :: r in Parents(repos) ==>
      exists i :: 0 <= i < |repos| && !repos[i].deleted && repos[i].id == r
  {
    if repos != [] {
      var init := repos[..|repos| - 1];
      ParentsSpec(init);
      forall r | r in Parents(repos)
        ensures exists i :: 0 <= i < |repos| && !repos[i].deleted && repos[i].id == r
      {
        if r in Parents(init) {
          var i :| 0 <= i < |init| && !init[i].deleted && init[i].id == r;
          assert repos[i].id == r;
        } else {
          assert repos[|repos| - 1].id == r;
        }
      }
    }
  }

  /** A lookup in Go's parents map: a missing key reads as NONE. */
  function Parent(parents: map<Uuid, Uuid>, r: Uuid): Uuid {
    if r in parents then parents[r] else NONE
  }

  /** The k-th ancestor of r, NONE once the walk has left the live repositories. */
  function Up(parents: map<Uuid, Uuid>, r: Uuid, k: nat): Uuid {
    if k == 0 then r else Parent(parents, Up(parents, r, k - 1))
  }

  lemma {:induction false} UpFromParent(parents: map<Uuid, Uuid>, r: Uuid, k: nat)
    ensures Up(parents, Parent(parents, r), k) == Up(parents, r, k + 1)
  {
    if k == 0 {
      assert Up(parents, r, 1) == Parent(parents, Up(parents, r, 0));
    } else {
      UpFromParent(parents, r, k - 1);
    }
  }

  /** At most n live repositories on any chain from a repository to its root. */
  ghost predicate ChainsWithin(parents: map<Uuid, Uuid>, n: nat) {
    forall r :: r in parents ==> Up(parents, r, n) !in parents
  }

  // ---- Ranks: a number per live repository that grows from child to parent ----

  ghost predicate Ranked(parents: map<Uuid, Uuid>, rank: map<Uuid, nat>, n: nat) {
    && rank.Keys == parents.Keys
    && (forall r :: r in parents ==> rank[r] < n)
    && (forall r :: r in parents && parents[r] in parents ==> rank[r] < rank[parents[r]])
  }

  ghost function Depth(parents: map<Uuid, Uuid>, r: Uuid, fuel: nat): (d: nat)
    ensures d <= fuel
    ensures r in parents && fuel > 0 ==> d > 0
    decreases fuel
  {
    if fuel == 0 || r !in parents then 0 else 1 + Depth(parents, parents[r], fuel - 1)
  }

  lemma {:induction false} DepthStable(parents: map<Uuid, Uuid>, r: Uuid, m: nat)
    requires Up(parents, r, m) !in parents
    ensures Depth(parents, r, m + 1) == Depth(parents, r, m)
    decreases m
  {
    if m > 0 && r in parents {
      UpFromParent(parents, r, m - 1);
      DepthStable(parents, parents[r], m - 1);
    }
  }

  /** Bounded chains and bounded ranks are the same thing. */
  lemma {:induction false} ChainsWithinIffRanked(parents: map<Uuid, Uuid>, n: nat)
    requires NONE !in parents
    ensures ChainsWithin(parents, n) <==> exists rank :: Ranked(parents, rank, n)
  {
    if ChainsWithin(parents, n) {
      if n == 0 {
        assert forall r :: r in parents ==> Up(parents, r, 0) == r;
      }
      var rank := map r | r in parents :: (n - Depth(parents, r, n)) as nat;
      forall r | r in parents && parents[r] in parents
        ensures rank[r] < rank[parents[r]]
      {
        UpFromParent(parents, r, n - 1);
        DepthStable(parents, parents[r], n - 1);
      }
      assert Ranked(parents, rank, n);
    }
    if rank :| Ranked(parents, rank, n) {
      forall r | r in parents
        ensures Up(parents, r, n) !in parents
      {
        if Up(parents, r, n) in parents {
          RankClimbs(parents, rank, n, r, n);
        }
      }
    }
  }

  lemma {:induction false} RankClimbs(parents: map<Uuid, Uuid>, rank: map<Uuid, nat>, n: nat, r: Uuid, k: nat)
    requires Ranked(parents, rank, n)
    requires NONE !in parents
    requires r in parents && Up(parents, r, k) in parents
    ensures rank[Up(parents, r, k)] >= rank[r] + k
  {
    if k > 0 {
      RankClimbs(parents, rank, n, r, k - 1);
    }
  }

  // ---- The rollup invariant (queries.go, queryRollupByTenant) ----

  /** COALESCE(column, 0) of the pair's current row. */
  function Stored(qty: map<Pair, int>, p: Pair): int {
    if p in qty then qty[p] else 0
  }

  predicate IsChild(r: Repository, qty: map<Pair, int>, p: Pair) {
    !r.deleted && r.parent == p.repo && Pair(r.id, p.item) in qty
  }

  /** child_sum: the stored quantities of the live direct children that hold a current row. */
  function ChildSum(repos: seq<Repository>, qty: map<Pair, int>, p: Pair): int {
    if repos == [] then 0
    else
      var last := repos[|repos| - 1];
      ChildSum(repos[..|repos| - 1], qty, p)
      + if IsChild(last, qty, p) then qty[Pair(last.id, p.item)] else 0
  }

  predicate IsLive(repos: seq<Repository>, r: Uuid) {
    exists i :: 0 <= i < |repos| && !repos[i].deleted && repos[i].id == r
  }

  function Expected(repos: seq<Repository>, own: map<Pair, int>, qty: map<Pair, int>, p: Pair): int {
    Stored(own, p) + ChildSum(repos, qty, p)
  }

  /** A pair the rollup query reports. */
  predicate Violated(repos: seq<Repository>, own: map<Pair, int>, qty: map<Pair, int>, p: Pair) {
    IsLive(repos, p.repo) && Stored(qty, p) != Expected(repos, own, qty, p)
  }

  /** A violation the repair can correct: the pair has a current row. */
  predicate Fixable(repos: seq<Repository>, own: map<Pair, int>, qty: map<Pair, int>, p: Pair) {
    p in qty && Violated(repos, own, qty, p)
  }

  /** fin is a recursive recomputation: every pair with a current row on a live repository holds
      its own quantity plus its children's. */
  ghost predicate IsRollup(repos: seq<Repository>, own: map<Pair, int>, fin: map<Pair, int>) {
    && fin.Keys == own.Keys
    && forall p :: p in own && IsLive(repos, p.repo) ==> fin[p] == own[p] + ChildSum(repos, fin, p)
  }

  /** p's stored quantity is not the recomputed one. */
  ghost predicate Dirty(repos: seq<Repository>, fin: map<Pair, int>, qty: map<Pair, int>, p: Pair) {
    p in qty && p in fin && IsLive(repos, p.repo) && qty[p] != fin[p]
  }

  lemma {:induction false} ChildSumDiffers(repos: seq<Repository>, a: map<Pair, int>, b: map<Pair, int>, p: Pair)
    requires a.Keys == b.Keys
    requires ChildSum(repos, a, p) != ChildSum(repos, b, p)
    ensures exists i ::
      0 <= i < |repos| && IsChild(repos[i], a, p) && a[Pair(repos[i].id, p.item)] != b[Pair(repos[i].id, p.item)]
  {
    var last := repos[|repos| - 1];
    if !(IsChild(last, a, p) && a[Pair(last.id, p.item)] != b[Pair(last.id, p.item)]) {
      ChildSumDiffers(repos[..|repos| - 1], a, b, p);
      var i :| 0 <= i < |repos| - 1 && IsChild(repos[..|repos| - 1][i], a, p)
          && a[Pair(repos[i].id, p.item)] != b[Pair(repos[i].id, p.item)];
      assert IsChild(repos[i], a, p);
    }
  }

  // ---- The recursive recomputation exists and is unique on a forest ----

  ghost function Recompute(repos: seq<Repository>, own: map<Pair, int>, rank: map<Uuid, nat>, n: nat, p: Pair): int
    requires ValidTable(repos) && Ranked(Parents(repos), rank, n)
    requires p in own
    decreases if p.repo in rank then rank[p.repo] else n, |repos| + 1
  {
    own[p] + RecomputeChildren(repos, own, rank, n, p, |repos|)
  }

  ghost function RecomputeChildren(repos: seq<Repository>, own: map<Pair, int>, rank: map<Uuid, nat>, n: nat, p: Pair,
          k: nat): int
    requires ValidTable(repos) && Ranked(Parents(repos), rank, n)
    requires p in own && k <= |repos|
    decreases if p.repo in rank then rank[p.repo] else n, k
  {
    if k == 0 then 0
    else
      var r := repos[k - 1];
      RecomputeChildren(repos, own, rank, n, p, k - 1)
      + if IsChild(r, own, p) then
          (ParentsSpec(repos); Recompute(repos, own, rank, n, Pair(r.id, p.item)))
        else 0
  }

  ghost function RecursiveSums(repos: seq<Repository>, own: map<Pair, int>, rank: map<Uuid, nat>, n: nat)
    : map<Pair, int>
    requires ValidTable(repos) && Ranked(Parents(repos), rank, n)
  {
    map p | p in own :: Recompute(repos, own, rank, n, p)
  }

  lemma {:induction false} RecomputeChildrenIsSum(repos: seq<Repository>, own: map<Pair, int>, rank: map<Uuid, nat>,
          n: nat, p: Pair, k: nat)
    requires ValidTable(repos) && Ranked(Parents(repos), rank, n)
    requires p in own && k <= |repos|
    ensures RecomputeChildren(repos, own, rank, n, p, k) == ChildSum(repos[..k], RecursiveSums(repos, own, rank, n), p)
  {
    if k > 0 {
      RecomputeChildrenIsSum(repos, own, rank, n, p, k - 1);
      assert repos[..k][..k - 1] == repos[..k - 1];
    }
  }

  lemma {:induction false} RecursiveSumsExist(repos: seq<Repository>, own: map<Pair, int>, rank: map<Uuid, nat>, n: nat)
    requires ValidTable(repos) && Ranked(Parents(repos), rank, n)
    ensures IsRollup(repos, own, RecursiveSums(repos, own, rank, n))
  {
    forall p | p in own && IsLive(repos, p.repo)
      ensures RecursiveSums(repos, own, rank, n)[p] == own[p] + ChildSum(repos, RecursiveSums(repos, own, rank, n), p)
    {
      RecomputeChildrenIsSum(repos, own, rank, n, p, |repos|);
      assert repos[..|repos|] == repos;
    }
  }

  /** Two recomputations agree on every live pair: on a forest the recursive sum is one value. */
  lemma {:induction false} RollupUnique(repos: seq<Repository>, own: map<Pair, int>, rank: map<Uuid, nat>, n: nat,
          a: map<Pair, int>, b: map<Pair, int>, p: Pair)
    requires ValidTable(repos) && Ranked(Parents(repos), rank, n)
    requires IsRollup(repos, own, a) && IsRollup(repos, own, b)
    requires p in own && IsLive(repos, p.repo)
    ensures a[p] == b[p]
    decreases (ParentsSpec(repos); rank[p.repo])
  {
    ParentsSpec(repos);
    if a[p] != b[p] {
      ChildSumDiffers(repos, a, b, p);
      var i :| 0 <= i < |repos| && IsChild(repos[i], a, p)
          && a[Pair(repos[i].id, p.item)] != b[Pair(repos[i].id, p.item)];
      RollupUnique(repos, own, rank, n, a, b, Pair(repos[i].id, p.item));
    }
  }

  // ---- What a recursive sum is: a total over everything below ----

  /** The repository r is live, and refers to parent. */
  ghost predicate LiveUnder(repos: seq<Repository>, r: Uuid, parent: Uuid) {
    exists row :: row in repos && !row.deleted && row.id == r && row.parent == parent
  }

  /** A chain of live repositories, each the child of the next, that all have a row for the item. */
  ghost predicate Climb(repos: seq<Repository>, keys: set<Pair>, item: Uuid, path: seq<Uuid>) {
    && path != []
    && (forall i :: 0 <= i < |path| ==> IsLive(repos, path[i]) && Pair(path[i], item) in keys)
    && (forall i :: 0 <= i < |path| - 1 ==> LiveUnder(repos, path[i], path[i + 1]))
  }

  ghost predicate ClimbFrom(repos: seq<Repository>, keys: set<Pair>, q: Pair, p: Pair, path: seq<Uuid>) {
    Climb(repos, keys, p.item, path) && path[0] == q.repo && path[|path| - 1] == p.repo
  }

  /** p is reached from q. */
  ghost predicate Reaches(repos: seq<Repository>, keys: set<Pair>, q: Pair, p: Pair) {
    q.item == p.item && exists path :: ClimbFrom(repos, keys, q, p, path)
  }

  ghost function Below(repos: seq<Repository>, keys: set<Pair>, p: Pair): set<Pair> {
    set q | q in keys && Reaches(repos, keys, q, p)
  }

  /** The children of p that have a row. */
  ghost function Children(repos: seq<Repository>, keys: set<Pair>, p: Pair): set<Pair> {
    set q | q in keys && q.item == p.item && LiveUnder(repos, q.repo, p.repo)
  }

  ghost function Total(values: map<Pair, int>, s: set<Pair>): int
    requires s <= values.Keys
  {
    if s == {} then 0
    else
      var q :| q in s;
      values[q] + Total(values, s - {q})
  }

  lemma {:induction false} TotalWithout(values: map<Pair, int>, s: set<Pair>, q: Pair)
    requires s <= values.Keys && q in s
    ensures Total(values, s) == values[q] + Total(values, s - {q})
  {
    var first :| first in s && Total(values, s) == values[first] + Total(values, s - {first});
    if first != q {
      TotalWithout(values, s - {first}, q);
      TotalWithout(values, s - {q}, first);
      assert s - {first} - {q} == s - {q} - {first};
    }
  }

  lemma {:induction false} TotalOfBoth(values: map<Pair, int>, a: set<Pair>, b: set<Pair>)
    requires a + b <= values.Keys && a !! b
    ensures Total(values, a + b) == Total(values, a) + Total(values, b)
  {
    if a == {} {
      assert a + b == b;
    } else {
      var q :| q in a;
      TotalWithout(values, a, q);
      TotalWithout(values, a + b, q);
      TotalOfBoth(values, a - {q}, b);
      assert a + b - {q} == (a - {q}) + b;
    }
  }

  lemma {:induction false} TotalOfOne(values: map<Pair, int>, q: Pair)
    requires q in values
    ensures Total(values, {q}) == values[q]
  {
    TotalWithout(values, {q}, q);
  }

  /** child_sum is the total over the children that have a row. */
  lemma {:induction false} ChildSumIsTotal(repos: seq<Repository>, qty: map<Pair, int>, p: Pair)
    requires ValidTable(repos)
    ensures ChildSum(repos, qty, p) == Total(qty, Children(repos, qty.Keys, p))
  {
    if repos == [] {
      assert Children(repos, qty.Keys, p) == {};
    } else {
      var init, last := repos[..|repos| - 1], repos[|repos| - 1];
      assert repos == init + [last];
      ChildSumIsTotal(init, qty, p);
      var before, q := Children(init, qty.Keys, p), Pair(last.id, p.item);
      ChildrenOneMore(init, last, qty.Keys, p);
      hide Children, ValidTable, Total;
      if IsChild(last, qty, p) {
        TotalOfOne(qty, q);
        TotalOfBoth(qty, before, {q});
      } else {
        assert before + {} == before;
      }
    }
  }

  lemma {:induction false} ChildrenOneMore(init: seq<Repository>, last: Repository, keys: set<Pair>, p: Pair)
    requires ValidTable(init + [last])
    ensures Pair(last.id, p.item) !in Children(init, keys, p)
    ensures var child := !last.deleted && last.parent == p.repo && Pair(last.id, p.item) in keys;
      Children(init + [last], keys, p) == Children(init, keys, p) + if child then {Pair(last.id, p.item)} else {}
  {
    assert forall row :: row in init + [last] <==> row in init || row == last;
    forall row | row in init
      ensures row.id != last.id
    {
      var i :| 0 <= i < |init| && init[i] == row;
      assert (init + [last])[i] == row && (init + [last])[|init|] == last;
    }
  }

  lemma {:induction false} OneParent(repos: seq<Repository>, r: Uuid, a: Uuid, b: Uuid)
    requires ValidTable(repos) && LiveUnder(repos, r, a) && LiveUnder(repos, r, b)
    ensures a == b && r in Parents(repos) && Parents(repos)[r] == a
  {
    ParentsSpec(repos);
  }

  /** Along a chain ranks rise. */
  lemma {:induction false} ClimbRises(repos: seq<Repository>, keys: set<Pair>, rank: map<Uuid, nat>, n: nat, item: Uuid,
          path: seq<Uuid>, i: nat, j: nat)
    requires ValidTable(repos) && Ranked(Parents(repos), rank, n) && Climb(repos, keys, item, path)
    requires i <= j < |path|
    ensures path[i] in rank && path[j] in rank && rank[path[i]] <= rank[path[j]]
    decreases j
  {
    ParentsSpec(repos);
    if i < j {
      ClimbRises(repos, keys, rank, n, item, path, i, j - 1);
      OneParent(repos, path[j - 1], path[j], path[j]);
    }
  }

  lemma {:induction false} ReachesRanked(repos: seq<Repository>, keys: set<Pair>, rank: map<Uuid, nat>, n: nat, q: Pair,
          p: Pair)
    requires ValidTable(repos) && Ranked(Parents(repos), rank, n) && Reaches(repos, keys, q, p)
    ensures q.repo in rank && p.repo in rank && rank[q.repo] <= rank[p.repo]
  {
    var path :| ClimbFrom(repos, keys, q, p, path);
    ClimbRises(repos, keys, rank, n, p.item, path, 0, |path| - 1);
  }

  /** Chains from one repository run alike as long as both last. */
  lemma {:induction false} ClimbsAgree(repos: seq<Repository>, keys: set<Pair>, item: Uuid, a: seq<Uuid>, b: seq<Uuid>,
          i: nat)
    requires ValidTable(repos) && Climb(repos, keys, item, a) && Climb(repos, keys, item, b) && a[0] == b[0]
    requires i < |a| && i < |b|
    ensures a[i] == b[i]
  {
    if i > 0 {
      ClimbsAgree(repos, keys, item, a, b, i - 1);
      OneParent(repos, a[i - 1], a[i], b[i]);
    }
  }

  /** What is below one child of p is not below another. */
  lemma {:induction false} BelowOneChild(repos: seq<Repository>, keys: set<Pair>, rank: map<Uuid, nat>, n: nat, q: Pair,
          p: Pair, c: Pair, d: Pair)
    requires ValidTable(repos) && Ranked(Parents(repos), rank, n) && IsLive(repos, p.repo)
    requires c in Children(repos, keys, p) && d in Children(repos, keys, p)
    requires Reaches(repos, keys, q, c) && Reaches(repos, keys, q, d)
    ensures c == d
  {
    var a :| ClimbFrom(repos, keys, q, c, a);
    var b :| ClimbFrom(repos, keys, q, d, b);
    if |a| < |b| {
      ClimbPasses(repos, keys, rank, n, p, c, d, a, b);
    } else if |b| < |a| {
      ClimbPasses(repos, keys, rank, n, p, d, c, b, a);
    } else {
      ClimbsAgree(repos, keys, p.item, a, b, |a| - 1);
    }
  }

  /** A longer chain would pass p before it reaches p's child. */
  lemma {:induction false} ClimbPasses(repos: seq<Repository>, keys: set<Pair>, rank: map<Uuid, nat>, n: nat, p: Pair,
          c: Pair, d: Pair, a: seq<Uuid>, b: seq<Uuid>)
    requires ValidTable(repos) && Ranked(Parents(repos), rank, n) && IsLive(repos, p.repo)
    requires c in Children(repos, keys, p) && d in Children(repos, keys, p)
    requires Climb(repos, keys, p.item, a) && Climb(repos, keys, p.item, b) && a[0] == b[0]
    requires a[|a| - 1] == c.repo && b[|b| - 1] == d.repo
    ensures |a| >= |b|
  {
    if |a| < |b| {
      ClimbsAgree(repos, keys, p.item, a, b, |a| - 1);
      OneParent(repos, c.repo, p.repo, b[|a|]);
      ClimbRises(repos, keys, rank, n, p.item, b, |a|, |b| - 1);
      OneParent(repos, d.repo, p.repo, p.repo);
    }
  }

  /** What is below p: p itself, and what is below one of its children. */
  lemma {:induction false} ReachesThrough(repos: seq<Repository>, keys: set<Pair>, q: Pair, p: Pair)
    requires p in keys && IsLive(repos, p.repo)
    ensures Reaches(repos, keys, q, p) <==>
      q == p || exists c :: c in Children(repos, keys, p) && Reaches(repos, keys, q, c)
  {
    if q == p {
      assert ClimbFrom(repos, keys, q, p, [p.repo]);
    } else if Reaches(repos, keys, q, p) {
      var path :| ClimbFrom(repos, keys, q, p, path);
      var init := path[..|path| - 1];
      var c := Pair(path[|path| - 2], p.item);
      assert LiveUnder(repos, path[|path| - 2], path[|path| - 1]);
      assert ClimbFrom(repos, keys, q, c, init);
      assert c in Children(repos, keys, p) && Reaches(repos, keys, q, c);
    } else if c :| c in Children(repos, keys, p) && Reaches(repos, keys, q, c) {
      var path :| ClimbFrom(repos, keys, q, c, path);
      assert ClimbFrom(repos, keys, q, p, path + [p.repo]);
    }
  }

  /** What is below some of these pairs. */
  ghost function BelowAny(repos: seq<Repository>, keys: set<Pair>, cs: set<Pair>): set<Pair> {
    set q | q in keys && exists c :: c in cs && Reaches(repos, keys, q, c)
  }

  lemma {:induction false} BelowIs(repos: seq<Repository>, keys: set<Pair>, rank: map<Uuid, nat>, n: nat, p: Pair)
    requires ValidTable(repos) && Ranked(Parents(repos), rank, n) && p in keys && IsLive(repos, p.repo)
    ensures Below(repos, keys, p) == BelowAny(repos, keys, Children(repos, keys, p)) + {p}
    ensures p !in BelowAny(repos, keys, Children(repos, keys, p))
  {
    hide Reaches, Children;
    forall q
      ensures q in Below(repos, keys, p) <==> q in BelowAny(repos, keys, Children(repos, keys, p)) + {p}
    {
      ReachesThrough(repos, keys, q, p);
    }
    if c :| c in Children(repos, keys, p) && Reaches(repos, keys, p, c) {
      ReachesRanked(repos, keys, rank, n, p, c);
      ChildRanked(repos, keys, rank, n, p, c);
    }
  }

  lemma {:induction false} ChildRanked(repos: seq<Repository>, keys: set<Pair>, rank: map<Uuid, nat>, n: nat, p: Pair,
          c: Pair)
    requires ValidTable(repos) && Ranked(Parents(repos), rank, n) && IsLive(repos, p.repo)
    requires c in Children(repos, keys, p)
    ensures c.repo in rank && p.repo in rank && rank[c.repo] < rank[p.repo] && IsLive(repos, c.repo) && c in keys
  {
    OneParent(repos, c.repo, p.repo, p.repo);
    ParentsSpec(repos);
  }

  /** A recursive recomputation holds, for every live pair, the total of the own quantities of all
      pairs from which it is reached. */
  lemma {:induction false} RollupIsTotal(repos: seq<Repository>, own: map<Pair, int>, rank: map<Uuid, nat>, n: nat,
          fin: map<Pair, int>, p: Pair)
    requires ValidTable(repos) && Ranked(Parents(repos), rank, n) && IsRollup(repos, own, fin)
    requires p in own && IsLive(repos, p.repo)
    ensures fin[p] == Total(own, Below(repos, own.Keys, p))
    decreases (ParentsSpec(repos); rank[p.repo]), 1
  {
    hide Reaches, Children, ChildSum;
    var cs := Children(repos, own.Keys, p);
    ParentsSpec(repos);
    ChildSumIsTotal(repos, fin, p);
    AreKeys(repos, own.Keys, p);
    ChildrenAreTotals(repos, own, rank, n, fin, p, cs);
    BelowIs(repos, own.Keys, rank, n, p);
    TotalOfBoth(own, BelowAny(repos, own.Keys, cs), {p});
    TotalOfOne(own, p);
  }

  lemma {:induction false} AreKeys(repos: seq<Repository>, keys: set<Pair>, p: Pair)
    ensures Children(repos, keys, p) <= keys
  {
  }

  lemma {:induction false} ChildrenAreTotals(repos: seq<Repository>, own: map<Pair, int>, rank: map<Uuid, nat>, n: nat,
          fin: map<Pair, int>, p: Pair, cs: set<Pair>)
    requires ValidTable(repos) && Ranked(Parents(repos), rank, n) && IsRollup(repos, own, fin)
    requires p in own && IsLive(repos, p.repo) && cs <= Children(repos, own.Keys, p) && cs <= fin.Keys
    ensures Total(fin, cs) == Total(own, BelowAny(repos, own.Keys, cs))
    decreases (ParentsSpec(repos); rank[p.repo]), 0, cs
  {
    hide Reaches, Children, ChildSum;
    if cs == {} {
      assert BelowAny(repos, own.Keys, cs) == {};
    } else {
      var c :| c in cs;
      var rest := cs - {c};
      assert cs == rest + {c};
      ChildRanked(repos, own.Keys, rank, n, p, c);
      RollupIsTotal(repos, own, rank, n, fin, c);
      ChildrenAreTotals(repos, own, rank, n, fin, p, rest);
      TotalWithout(fin, cs, c);
      BelowOneMore(repos, own.Keys, rank, n, p, rest, c);
      TotalOfBoth(own, BelowAny(repos, own.Keys, rest), Below(repos, own.Keys, c));
    }
  }

  lemma {:induction false} BelowOneMore(repos: seq<Repository>, keys: set<Pair>, rank: map<Uuid, nat>, n: nat, p: Pair,
          rest: set<Pair>, c: Pair)
    requires ValidTable(repos) && Ranked(Parents(repos), rank, n) && IsLive(repos, p.repo)
    requires rest <= Children(repos, keys, p) && c in Children(repos, keys, p) && c !in rest
    ensures BelowAny(repos, keys, rest + {c}) == BelowAny(repos, keys, rest) + Below(repos, keys, c)
    ensures BelowAny(repos, keys, rest) !! Below(repos, keys, c)
  {
    hide Reaches, Children;
    forall q | q in BelowAny(repos, keys, rest)
      ensures q !in Below(repos, keys, c)
    {
      var d :| d in rest && Reaches(repos, keys, q, d);
      if Reaches(repos, keys, q, c) {
        BelowOneChild(repos, keys, rank, n, q, p, c, d);
      }
    }
    assert forall d :: d in rest + {c} <==> d in rest || d == c;
  }
}

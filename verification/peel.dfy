/** What repeating a repair round computes.

    A round corrects every fixable violation that has no fixable violation below it; the book of
    quantities is written q0, Peel(q0), Peel(Peel(q0)), ...  Everything is stated for an arbitrary
    forest with ranks below n, an arbitrary own-quantity map and an arbitrary stored-quantity map. */
module Peeling {
  import opened Rollup

  ghost predicate Forest(repos: seq<Repository>, rank: map<Uuid, nat>, n: nat) {
    ValidTable(repos) && Ranked(Parents(repos), rank, n)
  }

  /** fin is the recomputation of own, and qty holds a current quantity for the same pairs. */
  ghost predicate Book(repos: seq<Repository>, own: map<Pair, int>, fin: map<Pair, int>, qty: map<Pair, int>) {
    IsRollup(repos, own, fin) && qty.Keys == own.Keys
  }

  ghost predicate Under(parents: map<Uuid, Uuid>, q: Uuid, r: Uuid) {
    exists k: nat :: k >= 1 && Up(parents, q, k) == r
  }

  /** readyToCorrect's blocked map: p is an ancestor, within the capped walk, of a fixable pair. */
  ghost predicate Blocked(repos: seq<Repository>, own: map<Pair, int>, qty: map<Pair, int>, p: Pair) {
    exists q: Uuid, k: nat ::
      1 <= k <= MAX_REPAIR_ROUNDS && Fixable(repos, own, qty, Pair(q, p.item)) && Up(Parents(repos), q, k) == p.repo
  }

  ghost predicate Ready(repos: seq<Repository>, own: map<Pair, int>, qty: map<Pair, int>, p: Pair) {
    Fixable(repos, own, qty, p) && !Blocked(repos, own, qty, p)
  }

  /** One repair round on the quantities. */
  ghost function Peel(repos: seq<Repository>, own: map<Pair, int>, qty: map<Pair, int>): map<Pair, int> {
    map p | p in qty :: if Ready(repos, own, qty, p) then Expected(repos, own, qty, p) else qty[p]
  }

  ghost function PeelN(repos: seq<Repository>, own: map<Pair, int>, qty: map<Pair, int>, k: nat): (q: map<Pair, int>)
    ensures q.Keys == qty.Keys
  {
    if k == 0 then qty else Peel(repos, own, PeelN(repos, own, qty, k - 1))
  }

  ghost predicate Settled(repos: seq<Repository>, own: map<Pair, int>, qty: map<Pair, int>) {
    forall p :: !Fixable(repos, own, qty, p)
  }

  // ---- One round ----

  /** If a pair is not expected to hold its final quantity, a child of it is wrong. */
  lemma {:induction false} WrongChild(repos: seq<Repository>, own: map<Pair, int>, fin: map<Pair, int>,
          qty: map<Pair, int>, p: Pair) returns (c: Repository)
    requires Book(repos, own, fin, qty)
    requires p in own && IsLive(repos, p.repo) && Expected(repos, own, qty, p) != fin[p]
    ensures c in repos && IsChild(c, qty, p) && Dirty(repos, fin, qty, Pair(c.id, p.item))
  {
    ChildSumDiffers(repos, qty, fin, p);
    var i :| 0 <= i < |repos| && IsChild(repos[i], qty, p)
        && qty[Pair(repos[i].id, p.item)] != fin[Pair(repos[i].id, p.item)];
    c := repos[i];
  }

  lemma {:induction false} CleanChildrenGiveFinal(repos: seq<Repository>, own: map<Pair, int>, fin: map<Pair, int>,
          qty: map<Pair, int>, p: Pair)
    requires Book(repos, own, fin, qty)
    requires p in own && IsLive(repos, p.repo)
    requires forall r :: r in repos && IsChild(r, qty, p) ==> !Dirty(repos, fin, qty, Pair(r.id, p.item))
    ensures Expected(repos, own, qty, p) == fin[p]
  {
    if Expected(repos, own, qty, p) != fin[p] {
      var c := WrongChild(repos, own, fin, qty, p);
    }
  }

  /** A wrong pair with nothing wrong below it is corrected by the next round. */
  lemma {:induction false} LowestDirtyIsReady(repos: seq<Repository>, rank: map<Uuid, nat>, n: nat, own: map<Pair, int>,
          fin: map<Pair, int>, qty: map<Pair, int>, p: Pair)
    requires Forest(repos, rank, n) && Book(repos, own, fin, qty)
    requires Dirty(repos, fin, qty, p)
    requires forall q :: Dirty(repos, fin, qty, Pair(q, p.item)) ==> !Under(Parents(repos), q, p.repo)
    ensures Ready(repos, own, qty, p)
  {
    var parents := Parents(repos);
    ParentsSpec(repos);
    ChildrenUnder(repos, qty, p);
    CleanChildrenGiveFinal(repos, own, fin, qty, p);
    if Blocked(repos, own, qty, p) {
      var q: Uuid, k: nat :| 1 <= k <= MAX_REPAIR_ROUNDS && Fixable(repos, own, qty, Pair(q, p.item))
          && Up(parents, q, k) == p.repo;
      assert Under(parents, q, p.repo);
      var b := Pair(q, p.item);
      ChildrenUnder(repos, qty, b);
      forall r | r in repos && IsChild(r, qty, b)
        ensures !Dirty(repos, fin, qty, Pair(r.id, b.item))
      {
        UpFromParent(parents, r.id, k);
        assert Under(parents, r.id, p.repo);
      }
      CleanChildrenGiveFinal(repos, own, fin, qty, b);
    }
  }

  lemma {:induction false} ChildrenUnder(repos: seq<Repository>, qty: map<Pair, int>, p: Pair)
    requires ValidTable(repos)
    ensures forall r :: r in repos && IsChild(r, qty, p) ==>
        Parent(Parents(repos), r.id) == p.repo && Under(Parents(repos), r.id, p.repo)
  {
    ParentsSpec(repos);
    forall r | r in repos && IsChild(r, qty, p)
      ensures Parent(Parents(repos), r.id) == p.repo && Under(Parents(repos), r.id, p.repo)
    {
      assert Up(Parents(repos), r.id, 0) == r.id;
      assert Up(Parents(repos), r.id, 1) == p.repo;
    }
  }

  /** Whatever the depth of the forest, a round with something fixable has something ready:
      the "repair stalled" error needs a cycle. */
  lemma {:induction false} FixableGivesReady(repos: seq<Repository>, rank: map<Uuid, nat>, n: nat, own: map<Pair, int>,
          qty: map<Pair, int>, p: Pair)
    requires Forest(repos, rank, n)
    requires Fixable(repos, own, qty, p)
    ensures exists r :: Ready(repos, own, qty, r)
    decreases (ParentsSpec(repos); rank[p.repo])
  {
    ParentsSpec(repos);
    if Blocked(repos, own, qty, p) {
      var q: Uuid, k: nat :| 1 <= k <= MAX_REPAIR_ROUNDS && Fixable(repos, own, qty, Pair(q, p.item))
          && Up(Parents(repos), q, k) == p.repo;
      RankClimbs(Parents(repos), rank, n, q, k);
      FixableGivesReady(repos, rank, n, own, qty, Pair(q, p.item));
    } else {
      assert Ready(repos, own, qty, p);
    }
  }

  // ---- Counting wrong pairs along a path to the root ----

  /** How many pairs of this item are wrong on the path from r up to its root. */
  ghost function DirtyOnPath(repos: seq<Repository>, rank: map<Uuid, nat>, n: nat, fin: map<Pair, int>,
          qty: map<Pair, int>, r: Uuid, item: Uuid): nat
    requires Forest(repos, rank, n)
    decreases if r in rank then n - rank[r] else 0
  {
    if r !in rank then 0
    else
      var above := Parents(repos)[r];
      (if Dirty(repos, fin, qty, Pair(r, item)) then 1 else 0)
      + (if above in rank then DirtyOnPath(repos, rank, n, fin, qty, above, item) else 0)
  }

  ghost predicate PathsWithin(repos: seq<Repository>, rank: map<Uuid, nat>, n: nat, fin: map<Pair, int>,
          qty: map<Pair, int>, bound: int)
    requires Forest(repos, rank, n)
  {
    forall r, item :: DirtyOnPath(repos, rank, n, fin, qty, r, item) <= bound
  }

  lemma {:induction false} PathThrough(repos: seq<Repository>, rank: map<Uuid, nat>, n: nat, fin: map<Pair, int>,
          qty: map<Pair, int>, q: Uuid, k: nat, p: Pair)
    requires Forest(repos, rank, n)
    requires Up(Parents(repos), q, k) == p.repo && p.repo in rank && q in rank
    ensures DirtyOnPath(repos, rank, n, fin, qty, q, p.item) >= DirtyOnPath(repos, rank, n, fin, qty, p.repo, p.item)
    ensures k > 0 && Dirty(repos, fin, qty, Pair(q, p.item)) ==>
      DirtyOnPath(repos, rank, n, fin, qty, q, p.item) > DirtyOnPath(repos, rank, n, fin, qty, p.repo, p.item)
    decreases k
  {
    if k > 0 {
      var parents := Parents(repos);
      ParentsSpec(repos);
      UpFromParent(parents, q, k - 1);
      if parents[q] !in parents {
        OutsideStaysOutside(parents, parents[q], k - 1);
      }
      PathThrough(repos, rank, n, fin, qty, parents[q], k - 1, p);
    }
  }

  lemma {:induction false} OutsideStaysOutside(parents: map<Uuid, Uuid>, r: Uuid, k: nat)
    requires NONE !in parents && r !in parents
    ensures Up(parents, r, k) !in parents
  {
    if k > 0 {
      OutsideStaysOutside(parents, r, k - 1);
    }
  }

  /** A pair whose expected quantity is not the final one has a fixable pair below it, and every
      pair in between is wrong. */
  lemma {:induction false} WrongBelow(repos: seq<Repository>, rank: map<Uuid, nat>, n: nat, own: map<Pair, int>,
          fin: map<Pair, int>, qty: map<Pair, int>, p: Pair) returns (q: Uuid, m: nat)
    requires Forest(repos, rank, n) && Book(repos, own, fin, qty)
    requires p in own && p.repo in rank && Expected(repos, own, qty, p) != fin[p]
    ensures m >= 1 && Up(Parents(repos), q, m) == p.repo && Fixable(repos, own, qty, Pair(q, p.item))
    ensures DirtyOnPath(repos, rank, n, fin, qty, q, p.item)
         >= m + DirtyOnPath(repos, rank, n, fin, qty, p.repo, p.item)
    decreases rank[p.repo]
  {
    ParentsSpec(repos);
    ChildrenUnder(repos, qty, p);
    var child := WrongChild(repos, own, fin, qty, p);
    hide ChildSum, Parents, IsRollup, Under, IsChild;
    var c := Pair(child.id, p.item);
    if Fixable(repos, own, qty, c) {
      q, m := child.id, 1;
      assert Up(Parents(repos), q, 0) == q;
    } else {
      q, m := WrongBelow(repos, rank, n, own, fin, qty, c);
      m := m + 1;
    }
  }

  /** Nothing fixable is left exactly when every live pair holds its recursive sum. */
  lemma {:induction false} SettledIffExact(repos: seq<Repository>, rank: map<Uuid, nat>, n: nat, own: map<Pair, int>,
          fin: map<Pair, int>, qty: map<Pair, int>)
    requires Forest(repos, rank, n) && Book(repos, own, fin, qty)
    ensures Settled(repos, own, qty) <==> forall p :: p in qty && IsLive(repos, p.repo) ==> qty[p] == fin[p]
  {
    ParentsSpec(repos);
    if Settled(repos, own, qty) {
      forall p | p in qty && IsLive(repos, p.repo)
        ensures qty[p] == fin[p]
      {
        if Expected(repos, own, qty, p) != fin[p] {
          var q, m := WrongBelow(repos, rank, n, own, fin, qty, p);
        }
        assert !Fixable(repos, own, qty, p);
      }
    } else {
      var p :| Fixable(repos, own, qty, p);
      if forall q :: q in qty && IsLive(repos, q.repo) ==> qty[q] == fin[q] {
        CleanChildrenGiveFinal(repos, own, fin, qty, p);
      }
    }
  }

  /** Unless more than 64 pairs are wrong on one path, a pair the round corrects was wrong, and is
      corrected to its final value. */
  lemma {:induction false} ReadyGetsFinal(repos: seq<Repository>, rank: map<Uuid, nat>, n: nat, own: map<Pair, int>,
          fin: map<Pair, int>, qty: map<Pair, int>, p: Pair)
    requires Forest(repos, rank, n) && Book(repos, own, fin, qty)
    requires PathsWithin(repos, rank, n, fin, qty, MAX_REPAIR_ROUNDS) && Ready(repos, own, qty, p)
    ensures Dirty(repos, fin, qty, p)
    ensures Expected(repos, own, qty, p) == fin[p]
  {
    ParentsSpec(repos);
    if Expected(repos, own, qty, p) != fin[p] {
      var q, m := WrongBelow(repos, rank, n, own, fin, qty, p);
    }
  }

  /** A round then corrects some of the wrong pairs, finally, and disturbs no other. */
  lemma {:induction false} PeelDirty(repos: seq<Repository>, rank: map<Uuid, nat>, n: nat, own: map<Pair, int>,
          fin: map<Pair, int>, qty: map<Pair, int>, p: Pair)
    requires Forest(repos, rank, n) && Book(repos, own, fin, qty)
    requires PathsWithin(repos, rank, n, fin, qty, MAX_REPAIR_ROUNDS)
    ensures Dirty(repos, fin, Peel(repos, own, qty), p) <==> Dirty(repos, fin, qty, p) && !Ready(repos, own, qty, p)
  {
    if Ready(repos, own, qty, p) {
      ReadyGetsFinal(repos, rank, n, own, fin, qty, p);
    }
  }

  /** The lowest wrong pair of a path that has one. */
  lemma {:induction false} LowestOnPath(repos: seq<Repository>, rank: map<Uuid, nat>, n: nat, fin: map<Pair, int>,
          qty: map<Pair, int>, r: Uuid, item: Uuid) returns (q: Uuid, k: nat)
    requires Forest(repos, rank, n)
    requires DirtyOnPath(repos, rank, n, fin, qty, r, item) > 0
    ensures Up(Parents(repos), r, k) == q && q in rank && Dirty(repos, fin, qty, Pair(q, item))
    ensures DirtyOnPath(repos, rank, n, fin, qty, q, item) == DirtyOnPath(repos, rank, n, fin, qty, r, item)
    decreases n - rank[r]
  {
    if Dirty(repos, fin, qty, Pair(r, item)) {
      q, k := r, 0;
    } else {
      var j;
      q, j := LowestOnPath(repos, rank, n, fin, qty, Parents(repos)[r], item);
      UpFromParent(Parents(repos), r, j);
      k := j + 1;
    }
  }

  lemma {:induction false} PeelOnPath(repos: seq<Repository>, rank: map<Uuid, nat>, n: nat, own: map<Pair, int>,
          fin: map<Pair, int>, qty: map<Pair, int>, r: Uuid, item: Uuid, q: Uuid, k: nat)
    requires Forest(repos, rank, n) && Book(repos, own, fin, qty)
    requires PathsWithin(repos, rank, n, fin, qty, MAX_REPAIR_ROUNDS)
    ensures DirtyOnPath(repos, rank, n, fin, Peel(repos, own, qty), r, item)
         <= DirtyOnPath(repos, rank, n, fin, qty, r, item)
    ensures r in rank && Up(Parents(repos), r, k) == q && q in rank && Ready(repos, own, qty, Pair(q, item)) ==>
      DirtyOnPath(repos, rank, n, fin, Peel(repos, own, qty), r, item) < DirtyOnPath(repos, rank, n, fin, qty, r, item)
    decreases if r in rank then n - rank[r] else 0
  {
    if r in rank {
      var parents := Parents(repos);
      ParentsSpec(repos);
      PeelDirty(repos, rank, n, own, fin, qty, Pair(r, item));
      if Ready(repos, own, qty, Pair(r, item)) {
        ReadyGetsFinal(repos, rank, n, own, fin, qty, Pair(r, item));
      }
      if parents[r] in rank {
        var j: nat := if k == 0 then 0 else k - 1;
        UpFromParent(parents, r, j);
        PeelOnPath(repos, rank, n, own, fin, qty, parents[r], item, q, j);
      } else if k > 0 {
        UpFromParent(parents, r, k - 1);
        OutsideStaysOutside(parents, parents[r], k - 1);
      }
    }
  }

  /** The longest path loses a wrong pair every round... */
  lemma {:induction false} PeelShortensLongest(repos: seq<Repository>, rank: map<Uuid, nat>, n: nat,
          own: map<Pair, int>, fin: map<Pair, int>, qty: map<Pair, int>, bound: int)
    requires Forest(repos, rank, n) && Book(repos, own, fin, qty)
    requires 1 <= bound <= MAX_REPAIR_ROUNDS && PathsWithin(repos, rank, n, fin, qty, bound)
    ensures PathsWithin(repos, rank, n, fin, Peel(repos, own, qty), bound - 1)
  {
    var next := Peel(repos, own, qty);
    forall r, item
      ensures DirtyOnPath(repos, rank, n, fin, next, r, item) <= bound - 1
    {
      PeelOnPath(repos, rank, n, own, fin, qty, r, item, r, 0);
      if DirtyOnPath(repos, rank, n, fin, next, r, item) > bound - 1 {
        var q, k := LowestOnPath(repos, rank, n, fin, qty, r, item);
        forall d | Dirty(repos, fin, qty, Pair(d, item))
          ensures !Under(Parents(repos), d, q)
        {
          if Under(Parents(repos), d, q) {
            var j: nat :| j >= 1 && Up(Parents(repos), d, j) == q;
            ParentsSpec(repos);
            PathThrough(repos, rank, n, fin, qty, d, j, Pair(q, item));
          }
        }
        LowestDirtyIsReady(repos, rank, n, own, fin, qty, Pair(q, item));
        PeelOnPath(repos, rank, n, own, fin, qty, r, item, q, k);
      }
    }
  }

  // ---- Stretches: consecutive pairs of a path, as many as the ancestor walk spans ----

  /** How many of the first len pairs on the path from r are wrong. */
  ghost function DirtyInStretch(repos: seq<Repository>, fin: map<Pair, int>, qty: map<Pair, int>, r: Uuid, item: Uuid,
          len: nat): nat
    decreases len
  {
    if len == 0 || r !in Parents(repos) then 0
    else
      (if Dirty(repos, fin, qty, Pair(r, item)) then 1 else 0)
      + DirtyInStretch(repos, fin, qty, Parents(repos)[r], item, len - 1)
  }

  /** A walk of 64 steps starts at one pair and reaches 64 more. */
  const STRETCH: nat := MAX_REPAIR_ROUNDS + 1

  ghost predicate StretchesWithin(repos: seq<Repository>, fin: map<Pair, int>, qty: map<Pair, int>, bound: int) {
    forall r, item :: DirtyInStretch(repos, fin, qty, r, item, STRETCH) <= bound
  }

  /** On short chains a stretch is the whole path. */
  lemma {:induction false} StretchIsPath(repos: seq<Repository>, rank: map<Uuid, nat>, n: nat, fin: map<Pair, int>,
          qty: map<Pair, int>, r: Uuid, item: Uuid, len: nat)
    requires Forest(repos, rank, n) && (r in rank ==> n - rank[r] <= len)
    ensures DirtyInStretch(repos, fin, qty, r, item, len) == DirtyOnPath(repos, rank, n, fin, qty, r, item)
    decreases len
  {
    if r in rank {
      StretchIsPath(repos, rank, n, fin, qty, Parents(repos)[r], item, len - 1);
    }
  }

  /** No stretch loses more than one wrong pair in a round, because what is ready blocks the rest of
      it: in any table, cyclic ones included. */
  lemma {:induction false} PeelTakesOnePerStretch(repos: seq<Repository>, own: map<Pair, int>, fin: map<Pair, int>,
          qty: map<Pair, int>, r: Uuid, item: Uuid, len: nat)
    requires len <= STRETCH
    ensures DirtyInStretch(repos, fin, Peel(repos, own, qty), r, item, len)
         >= DirtyInStretch(repos, fin, qty, r, item, len) - 1
    ensures (forall k: nat :: k < len ==> !Ready(repos, own, qty, Pair(Up(Parents(repos), r, k), item))) ==>
      DirtyInStretch(repos, fin, Peel(repos, own, qty), r, item, len) == DirtyInStretch(repos, fin, qty, r, item, len)
    decreases len
  {
    if len > 0 && r in Parents(repos) {
      var above := Parents(repos)[r];
      PeelTakesOnePerStretch(repos, own, fin, qty, above, item, len - 1);
      assert Up(Parents(repos), r, 0) == r;
      forall k: nat | k < len - 1
        ensures Up(Parents(repos), above, k) == Up(Parents(repos), r, k + 1)
        ensures Ready(repos, own, qty, Pair(r, item)) ==>
          !Ready(repos, own, qty, Pair(Up(Parents(repos), above, k), item))
      {
        UpFromParent(Parents(repos), r, k);
      }
    }
  }

  // ---- All rounds ----

  /** In a forest of any depth, k rounds settle a book without a path of more than k wrong pairs. */
  lemma {:induction false} PathsWithinSettle(repos: seq<Repository>, rank: map<Uuid, nat>, n: nat, own: map<Pair, int>,
          fin: map<Pair, int>, qty: map<Pair, int>, k: nat)
    requires Forest(repos, rank, n) && Book(repos, own, fin, qty)
    requires k <= MAX_REPAIR_ROUNDS && PathsWithin(repos, rank, n, fin, qty, k)
    ensures Settled(repos, own, PeelN(repos, own, qty, k))
  {
    var end := PeelN(repos, own, qty, k);
    PathsAfter(repos, rank, n, own, fin, qty, k, k);
    ParentsSpec(repos);
    forall p | p in end && IsLive(repos, p.repo)
      ensures end[p] == fin[p]
    {
      assert DirtyOnPath(repos, rank, n, fin, end, p.repo, p.item) <= 0;
    }
    SettledIffExact(repos, rank, n, own, fin, end);
  }

  /** And a book that k rounds settle had no stretch of more than k wrong pairs. */
  lemma {:induction false} SettledStretches(repos: seq<Repository>, rank: map<Uuid, nat>, n: nat, own: map<Pair, int>,
          fin: map<Pair, int>, qty: map<Pair, int>, k: nat)
    requires Forest(repos, rank, n) && Book(repos, own, fin, qty)
    requires Settled(repos, own, PeelN(repos, own, qty, k))
    ensures StretchesWithin(repos, fin, qty, k)
  {
    var end := PeelN(repos, own, qty, k);
    SettledIffExact(repos, rank, n, own, fin, end);
    forall r, item
      ensures DirtyInStretch(repos, fin, qty, r, item, STRETCH) <= k
    {
      StretchLosesAtMost(repos, own, fin, qty, k, r, item);
      CleanStretch(repos, fin, end, r, item, STRETCH);
    }
  }

  /** On chains of at most 65 repositories the two meet: whether every path of the initial book fits
      the bound is exactly whether that many rounds settle the book. */
  lemma {:induction false} SettledAfterIffPathsWithin(repos: seq<Repository>, rank: map<Uuid, nat>, n: nat,
          own: map<Pair, int>, fin: map<Pair, int>, qty: map<Pair, int>, k: nat)
    requires Forest(repos, rank, n) && n <= STRETCH && Book(repos, own, fin, qty)
    ensures Settled(repos, own, PeelN(repos, own, qty, k)) <==> PathsWithin(repos, rank, n, fin, qty, k)
  {
    if PathsWithin(repos, rank, n, fin, qty, k) {
      if k <= MAX_REPAIR_ROUNDS {
        PathsWithinSettle(repos, rank, n, own, fin, qty, k);
      } else if p :| Fixable(repos, own, PeelN(repos, own, qty, k), p) {
        FixableRanksRise(repos, rank, n, own, qty, k, p);
      }
    }
    if Settled(repos, own, PeelN(repos, own, qty, k)) {
      SettledStretches(repos, rank, n, own, fin, qty, k);
      forall r, item
        ensures DirtyOnPath(repos, rank, n, fin, qty, r, item) <= k
      {
        StretchIsPath(repos, rank, n, fin, qty, r, item, STRETCH);
        assert DirtyInStretch(repos, fin, qty, r, item, STRETCH) <= k;
      }
    }
  }

  lemma {:induction false} PathsAfter(repos: seq<Repository>, rank: map<Uuid, nat>, n: nat, own: map<Pair, int>,
          fin: map<Pair, int>, qty: map<Pair, int>, bound: nat, k: nat)
    requires Forest(repos, rank, n) && Book(repos, own, fin, qty)
    requires k <= bound <= MAX_REPAIR_ROUNDS && PathsWithin(repos, rank, n, fin, qty, bound)
    ensures PathsWithin(repos, rank, n, fin, PeelN(repos, own, qty, k), bound - k)
  {
    if k > 0 {
      PathsAfter(repos, rank, n, own, fin, qty, bound, k - 1);
      PeelShortensLongest(repos, rank, n, own, fin, PeelN(repos, own, qty, k - 1), bound - k + 1);
    }
  }

  lemma {:induction false} StretchLosesAtMost(repos: seq<Repository>, own: map<Pair, int>, fin: map<Pair, int>,
          qty: map<Pair, int>, k: nat, r: Uuid, item: Uuid)
    ensures DirtyInStretch(repos, fin, PeelN(repos, own, qty, k), r, item, STRETCH)
         >= DirtyInStretch(repos, fin, qty, r, item, STRETCH) - k
  {
    hide Peel, DirtyInStretch;
    if k > 0 {
      StretchLosesAtMost(repos, own, fin, qty, k - 1, r, item);
      PeelTakesOnePerStretch(repos, own, fin, PeelN(repos, own, qty, k - 1), r, item, STRETCH);
    }
  }

  lemma {:induction false} CleanStretch(repos: seq<Repository>, fin: map<Pair, int>, qty: map<Pair, int>, r: Uuid,
          item: Uuid, len: nat)
    requires forall p :: !Dirty(repos, fin, qty, p)
    ensures DirtyInStretch(repos, fin, qty, r, item, len) == 0
    decreases len
  {
    if len > 0 && r in Parents(repos) {
      CleanStretch(repos, fin, qty, Parents(repos)[r], item, len - 1);
    }
  }

  // ---- What a pair goes through ----

  /** A pair that turns fixable in a round has a child that the round corrected. */
  lemma {:induction false} NewlyFixable(repos: seq<Repository>, own: map<Pair, int>, qty: map<Pair, int>, p: Pair)
    returns (c: Uuid)
    requires ValidTable(repos)
    requires Fixable(repos, own, Peel(repos, own, qty), p)
    requires Fixable(repos, own, qty, p) ==> Ready(repos, own, qty, p)
    ensures Parent(Parents(repos), c) == p.repo && Ready(repos, own, qty, Pair(c, p.item))
  {
    ChildrenUnder(repos, qty, p);
    var next := Peel(repos, own, qty);
    assert ChildSum(repos, next, p) != ChildSum(repos, qty, p);
    ChildSumDiffers(repos, next, qty, p);
    var i :| 0 <= i < |repos| && IsChild(repos[i], next, p)
        && next[Pair(repos[i].id, p.item)] != qty[Pair(repos[i].id, p.item)];
    c := repos[i].id;
    assert repos[i] in repos && IsChild(repos[i], qty, p);
  }

  lemma {:induction false} QuietAfterReady(repos: seq<Repository>, own: map<Pair, int>, qty: map<Pair, int>, p: Pair,
          q: Uuid, d: nat)
    requires ValidTable(repos) && Ready(repos, own, qty, p)
    requires d < MAX_REPAIR_ROUNDS && Up(Parents(repos), q, d) == p.repo
    ensures !Fixable(repos, own, Peel(repos, own, qty), Pair(q, p.item))
  {
    hide Parents, ChildSum, Expected, Peel;
    if Fixable(repos, own, Peel(repos, own, qty), Pair(q, p.item)) {
      assert d == 0 ==> q == p.repo && Pair(q, p.item) == p;
      var c := NewlyFixable(repos, own, qty, Pair(q, p.item));
      UpFromParent(Parents(repos), c, d);
    }
  }

  /** Once a pair is ready, nothing below it turns fixable within reach, one step less with every
      round: after i rounds, not within 64 - i steps. */
  lemma {:induction false} QuietBelowReady(repos: seq<Repository>, own: map<Pair, int>, qty: map<Pair, int>, p: Pair,
          i: nat, q: Uuid, d: nat)
    requires ValidTable(repos) && Ready(repos, own, qty, p)
    requires 1 <= i && d + i <= MAX_REPAIR_ROUNDS && Up(Parents(repos), q, d) == p.repo
    ensures !Fixable(repos, own, PeelN(repos, own, qty, i), Pair(q, p.item))
    decreases i
  {
    if i == 1 {
      QuietAfterReady(repos, own, qty, p, q, d);
    } else {
      var before := PeelN(repos, own, qty, i - 1);
      QuietBelowReady(repos, own, qty, p, i - 1, q, d);
      hide Parents, Peel;
      if Fixable(repos, own, Peel(repos, own, before), Pair(q, p.item)) {
        var c := NewlyFixable(repos, own, before, Pair(q, p.item));
        UpFromParent(Parents(repos), c, d);
        QuietBelowReady(repos, own, qty, p, i - 1, c, d + 1);
      }
    }
  }

  lemma {:induction false} PeelNLater(repos: seq<Repository>, own: map<Pair, int>, qty: map<Pair, int>, j: nat, i: nat)
    ensures PeelN(repos, own, PeelN(repos, own, qty, j), i) == PeelN(repos, own, qty, j + i)
  {
    hide Peel;
    if i > 0 {
      PeelNLater(repos, own, qty, j, i - 1);
    }
  }

  /** A pair is corrected in at most one of any 64 rounds: whatever the depth of the table, with
      cyclic parents too, and whether or not the rounds end well. */
  lemma {:induction false} CorrectedOnce(repos: seq<Repository>, own: map<Pair, int>, qty: map<Pair, int>, j: nat,
          k: nat, p: Pair)
    requires ValidTable(repos) && j < k <= j + MAX_REPAIR_ROUNDS
    requires Ready(repos, own, PeelN(repos, own, qty, j), p)
    ensures !Fixable(repos, own, PeelN(repos, own, qty, k), p)
  {
    hide Peel, PeelN, Fixable, Ready, Parents;
    assert Up(Parents(repos), p.repo, 0) == p.repo;
    QuietBelowReady(repos, own, PeelN(repos, own, qty, j), p, k - j, p.repo, 0);
    PeelNLater(repos, own, qty, j, k - j);
  }

  lemma {:induction false} UnreadyKeeps(repos: seq<Repository>, own: map<Pair, int>, qty: map<Pair, int>, j: nat,
          k: nat, p: Pair)
    requires j <= k && p in qty
    requires forall i: nat :: j <= i < k ==> !Ready(repos, own, PeelN(repos, own, qty, i), p)
    ensures PeelN(repos, own, qty, k)[p] == PeelN(repos, own, qty, j)[p]
    decreases k
  {
    if j < k {
      UnreadyKeeps(repos, own, qty, j, k - 1, p);
    }
  }

  lemma {:induction false} ReadyChanges(repos: seq<Repository>, own: map<Pair, int>, qty: map<Pair, int>, p: Pair)
    requires Ready(repos, own, qty, p)
    ensures p in qty && IsLive(repos, p.repo) && Peel(repos, own, qty)[p] != qty[p]
  {
  }

  lemma {:induction false} InOneRoundOnly(repos: seq<Repository>, own: map<Pair, int>, qty: map<Pair, int>, j: nat,
          i: nat, p: Pair)
    requires ValidTable(repos) && i <= MAX_REPAIR_ROUNDS && j <= MAX_REPAIR_ROUNDS && i != j
    requires Ready(repos, own, PeelN(repos, own, qty, j), p)
    ensures !Ready(repos, own, PeelN(repos, own, qty, i), p)
  {
    hide PeelN;
    if Ready(repos, own, PeelN(repos, own, qty, i), p) {
      CorrectedOnce(repos, own, qty, if i < j then i else j, if i < j then j else i, p);
    }
  }

  /** p was corrected in one of the first k rounds. */
  ghost predicate CorrectedBefore(repos: seq<Repository>, own: map<Pair, int>, qty: map<Pair, int>, k: nat, p: Pair) {
    exists j: nat :: j < k && Ready(repos, own, PeelN(repos, own, qty, j), p)
  }

  /** The one correction a pair gets changes it for good. */
  lemma {:induction false} CorrectedDiffers(repos: seq<Repository>, own: map<Pair, int>, qty: map<Pair, int>, j: nat,
          k: nat, p: Pair)
    requires ValidTable(repos) && j < k <= MAX_REPAIR_ROUNDS && Ready(repos, own, PeelN(repos, own, qty, j), p)
    ensures p in qty && IsLive(repos, p.repo) && PeelN(repos, own, qty, k)[p] != qty[p]
  {
    forall i: nat | i < k && i != j
      ensures !Ready(repos, own, PeelN(repos, own, qty, i), p)
    {
      InOneRoundOnly(repos, own, qty, j, i, p);
    }
    ReadyChanges(repos, own, PeelN(repos, own, qty, j), p);
    hide Peel, Ready, IsLive;
    UnreadyKeeps(repos, own, qty, 0, j, p);
    UnreadyKeeps(repos, own, qty, j + 1, k, p);
  }

  /** When k rounds settle a book, the pairs corrected in some round are exactly those that were
      wrong to begin with. */
  lemma {:induction false} CorrectedIffWrong(repos: seq<Repository>, rank: map<Uuid, nat>, n: nat, own: map<Pair, int>,
          fin: map<Pair, int>, qty: map<Pair, int>, k: nat, p: Pair)
    requires Forest(repos, rank, n) && Book(repos, own, fin, qty) && k <= MAX_REPAIR_ROUNDS
    requires Settled(repos, own, PeelN(repos, own, qty, k))
    ensures Dirty(repos, fin, qty, p) <==> CorrectedBefore(repos, own, qty, k, p)
  {
    SettledIffExact(repos, rank, n, own, fin, PeelN(repos, own, qty, k));
    assert PeelN(repos, own, qty, 0) == qty;
    hide Peel, Ready, Settled, IsRollup, PeelN, IsLive;
    if j: nat :| j < k && Ready(repos, own, PeelN(repos, own, qty, j), p) {
      CorrectedDiffers(repos, own, qty, j, k, p);
    } else if p in qty {
      UnreadyKeeps(repos, own, qty, 0, k, p);
    }
  }

  lemma {:induction false} RanksRise(repos: seq<Repository>, rank: map<Uuid, nat>, n: nat, own: map<Pair, int>,
          qty: map<Pair, int>, k: nat, p: Pair)
    requires Forest(repos, rank, n)
    requires forall q :: Fixable(repos, own, qty, q) ==> q.repo in rank && rank[q.repo] >= k
    requires Fixable(repos, own, Peel(repos, own, qty), p)
    ensures p.repo in rank && rank[p.repo] > k
  {
    ParentsSpec(repos);
    if Fixable(repos, own, qty, p) && Blocked(repos, own, qty, p) {
      var q: Uuid, d: nat :| 1 <= d <= MAX_REPAIR_ROUNDS && Fixable(repos, own, qty, Pair(q, p.item))
          && Up(Parents(repos), q, d) == p.repo;
      hide *;
      RankClimbs(Parents(repos), rank, n, q, d);
    } else {
      hide Parents, ChildSum, Expected, Peel;
      var c := NewlyFixable(repos, own, qty, p);
      assert Fixable(repos, own, qty, Pair(c, p.item));
    }
  }

  /** At the start of round k no fixable violation has rank below k, in a forest of any depth and
      whatever ranking of it is chosen. */
  lemma {:induction false} FixableRanksRise(repos: seq<Repository>, rank: map<Uuid, nat>, n: nat, own: map<Pair, int>,
          qty: map<Pair, int>, k: nat, p: Pair)
    requires Forest(repos, rank, n)
    requires Fixable(repos, own, PeelN(repos, own, qty, k), p)
    ensures p.repo in rank && rank[p.repo] >= k
    decreases k
  {
    if k == 0 {
      ParentsSpec(repos);
    } else {
      hide Fixable, Peel, Parents;
      var before := PeelN(repos, own, qty, k - 1);
      forall q | Fixable(repos, own, before, q)
        ensures q.repo in rank && rank[q.repo] >= k - 1
      {
        FixableRanksRise(repos, rank, n, own, qty, k - 1, q);
      }
      RanksRise(repos, rank, n, own, before, k - 1, p);
    }
  }

  // ---- How the rounds can end ----

  ghost predicate GoesOn(repos: seq<Repository>, own: map<Pair, int>, qty: map<Pair, int>) {
    exists p :: Ready(repos, own, qty, p)
  }

  /** Something is fixable and nothing is ready: the rounds cannot go on. */
  ghost predicate Stuck(repos: seq<Repository>, own: map<Pair, int>, qty: map<Pair, int>) {
    !Settled(repos, own, qty) && !GoesOn(repos, own, qty)
  }

  /** A book in which nothing is ready stays as it is. */
  lemma {:induction false} NothingReadyStays(repos: seq<Repository>, own: map<Pair, int>, qty: map<Pair, int>, j: nat,
          k: nat)
    requires j <= k && !GoesOn(repos, own, PeelN(repos, own, qty, j))
    ensures PeelN(repos, own, qty, k) == PeelN(repos, own, qty, j)
    decreases k
  {
    if j < k {
      NothingReadyStays(repos, own, qty, j, k - 1);
    }
  }

  // ---- How many rounds a forest can need ----

  lemma {:induction false} PathWithinRank(repos: seq<Repository>, rank: map<Uuid, nat>, n: nat, fin: map<Pair, int>,
          qty: map<Pair, int>, r: Uuid, item: Uuid)
    requires Forest(repos, rank, n)
    ensures DirtyOnPath(repos, rank, n, fin, qty, r, item) <= if r in rank then n - rank[r] else 0
    decreases if r in rank then n - rank[r] else 0
  {
    if r in rank && Parents(repos)[r] in rank {
      PathWithinRank(repos, rank, n, fin, qty, Parents(repos)[r], item);
    }
  }

  /** Chains of at most n repositories settle in n rounds, whatever the book. */
  lemma {:induction false} ShortChainsSettle(repos: seq<Repository>, rank: map<Uuid, nat>, n: nat, own: map<Pair, int>,
          qty: map<Pair, int>)
    requires Forest(repos, rank, n)
    ensures Settled(repos, own, PeelN(repos, own, qty, n))
  {
    if p :| Fixable(repos, own, PeelN(repos, own, qty, n), p) {
      FixableRanksRise(repos, rank, n, own, qty, n, p);
    }
  }

  /** Repositories 1 to n, each the parent of the next. */
  function Chain(n: nat): (repos: seq<Repository>)
    ensures |repos| == n && forall i :: 0 <= i < n ==> repos[i] == Repository(i + 1, i, false)
  {
    if n == 0 then [] else Chain(n - 1) + [Repository(n, n - 1, false)]
  }

  function ChainRank(n: nat): map<Uuid, nat> {
    map r | r in Parents(Chain(n)) :: if 0 <= r <= n then n - r else 0
  }

  function ChainBook(n: nat, item: Uuid, quantity: int): map<Pair, int> {
    var pairs := set r | r in Parents(Chain(n)) :: Pair(r, item);
    map p | p in pairs :: quantity
  }

  lemma {:induction false} ChainParents(n: nat, r: Uuid)
    ensures r in Parents(Chain(n)) <==> 1 <= r <= n
    ensures r in Parents(Chain(n)) ==> Parents(Chain(n))[r] == r - 1
  {
    if n > 0 {
      assert Chain(n)[..n - 1] == Chain(n - 1);
      ChainParents(n - 1, r);
    }
  }

  lemma {:induction false} ChainIsForest(n: nat)
    ensures Forest(Chain(n), ChainRank(n), n)
  {
    hide Parents;
    forall r
      ensures r in Parents(Chain(n)) <==> 1 <= r <= n
      ensures r in Parents(Chain(n)) ==> Parents(Chain(n))[r] == r - 1
    {
      ChainParents(n, r);
    }
  }

  lemma {:induction false} NothingStored(repos: seq<Repository>, qty: map<Pair, int>, p: Pair)
    requires forall q :: q in qty ==> qty[q] == 0
    ensures ChildSum(repos, qty, p) == 0
  {
    if repos != [] {
      NothingStored(repos[..|repos| - 1], qty, p);
    }
  }

  /** With nothing owned and one unit stored everywhere, all of the chain is wrong. */
  lemma {:induction false} AllWrong(n: nat, item: Uuid, r: Uuid)
    requires 1 <= r <= n
    ensures Forest(Chain(n), ChainRank(n), n)
    ensures DirtyOnPath(Chain(n), ChainRank(n), n, ChainBook(n, item, 0), ChainBook(n, item, 1), r, item) == r
    decreases r
  {
    ChainIsForest(n);
    ChainParents(n, r);
    assert Chain(n)[r - 1] == Repository(r, r - 1, false);
    assert Dirty(Chain(n), ChainBook(n, item, 0), ChainBook(n, item, 1), Pair(r, item));
    if r > 1 {
      AllWrong(n, item, r - 1);
    }
  }

  /** A chain of n repositories can need all n rounds, so with 64 the loop gives up: one more
      iteration has to find nothing left. */
  lemma {:induction false} FullChainNeedsEveryRound(n: nat, item: Uuid)
    requires 1 <= n <= MAX_REPAIR_ROUNDS
    ensures Forest(Chain(n), ChainRank(n), n)
    ensures !Settled(Chain(n), ChainBook(n, item, 0),
        PeelN(Chain(n), ChainBook(n, item, 0), ChainBook(n, item, 1), n - 1))
    ensures Settled(Chain(n), ChainBook(n, item, 0), PeelN(Chain(n), ChainBook(n, item, 0), ChainBook(n, item, 1), n))
  {
    var own, qty := ChainBook(n, item, 0), ChainBook(n, item, 1);
    NothingOwned(Chain(n), own, qty);
    assert n <= STRETCH;
    hide *;
    ChainIsForest(n);
    AllWrong(n, item, n);
    if PathsWithin(Chain(n), ChainRank(n), n, own, qty, n - 1) {
      PathAtMost(Chain(n), ChainRank(n), n, own, qty, n - 1, n, item);
    }
    SettledAfterIffPathsWithin(Chain(n), ChainRank(n), n, own, own, qty, n - 1);
    ShortChainsSettle(Chain(n), ChainRank(n), n, own, qty);
  }

  lemma {:induction false} PathAtMost(repos: seq<Repository>, rank: map<Uuid, nat>, n: nat, fin: map<Pair, int>,
          qty: map<Pair, int>, bound: int, r: Uuid, item: Uuid)
    requires Forest(repos, rank, n) && PathsWithin(repos, rank, n, fin, qty, bound)
    ensures DirtyOnPath(repos, rank, n, fin, qty, r, item) <= bound
  {
  }

  // ---- A forest one level too deep ----

  /** The chain of 66, and one more child of its last but one. */
  function Fork(): seq<Repository> { Chain(STRETCH + 1) + [Repository(STRETCH + 2, STRETCH, false)] }

  function ForkRank(): map<Uuid, nat> { ChainRank(STRETCH + 1)[STRETCH + 2 := 0] }

  function ForkBook(item: Uuid): map<Pair, int> {
    ChainBook(STRETCH + 1, item, 0)[Pair(STRETCH + 2, item) := 0]
  }

  /** Nothing owned; the two lowest hold quantities that cancel out, and the root is wrong too. */
  function ForkStored(item: Uuid): map<Pair, int> {
    ForkBook(item)[Pair(STRETCH + 1, item) := 1][Pair(STRETCH + 2, item) := -1][Pair(1, item) := 1]
  }

  lemma {:induction false} ForkParents(r: Uuid)
    ensures r in Parents(Fork()) <==> 1 <= r <= STRETCH + 2
    ensures r in Parents(Fork()) ==> Parents(Fork())[r] == if r == STRETCH + 2 then STRETCH else r - 1
  {
    assert Fork()[..STRETCH + 1] == Chain(STRETCH + 1);
    ChainParents(STRETCH + 1, r);
  }

  lemma {:induction false} ForkIsForest()
    ensures Forest(Fork(), ForkRank(), STRETCH + 1)
  {
    forall r
      ensures r in Parents(Fork()) <==> 1 <= r <= STRETCH + 2
      ensures r in Parents(Fork()) ==> Parents(Fork())[r] == if r == STRETCH + 2 then STRETCH else r - 1
      ensures r in Parents(Chain(STRETCH + 1)) <==> 1 <= r <= STRETCH + 1
    {
      ForkParents(r);
      ChainParents(STRETCH + 1, r);
    }
    hide Parents;
  }

  lemma {:induction false} ForkUp(r: Uuid, k: nat)
    requires 1 <= r <= STRETCH + 2 && k >= 1
    ensures var u := (if r == STRETCH + 2 then STRETCH + 1 else r) - k;
      Up(Parents(Fork()), r, k) == if u > 0 then u else 0
  {
    hide Parents;
    if k > 1 {
      ForkUp(r, k - 1);
      ForkParents(Up(Parents(Fork()), r, k - 1));
    } else {
      ForkParents(r);
      assert Up(Parents(Fork()), r, 0) == r;
    }
  }

  lemma {:induction false} ChainChildSum(n: nat, qty: map<Pair, int>, p: Pair)
    ensures ChildSum(Chain(n), qty, p) == if 0 <= p.repo < n then Stored(qty, Pair(p.repo + 1, p.item)) else 0
  {
    if n > 0 {
      assert Chain(n)[..n - 1] == Chain(n - 1);
      ChainChildSum(n - 1, qty, p);
    }
  }

  lemma {:induction false} ForkChildSum(qty: map<Pair, int>, p: Pair)
    ensures ChildSum(Fork(), qty, p) ==
      (if 0 <= p.repo <= STRETCH then Stored(qty, Pair(p.repo + 1, p.item)) else 0)
      + (if p.repo == STRETCH then Stored(qty, Pair(STRETCH + 2, p.item)) else 0)
  {
    assert Fork()[..STRETCH + 1] == Chain(STRETCH + 1);
    ChainChildSum(STRETCH + 1, qty, p);
  }

  lemma {:induction false} ForkKeys(item: Uuid, p: Pair)
    ensures p in ForkStored(item) <==> p.item == item && 1 <= p.repo <= STRETCH + 2
    ensures p in ForkBook(item) <==> p in ForkStored(item)
    ensures p in ForkBook(item) ==> ForkBook(item)[p] == 0
    ensures p in ForkStored(item) ==>
      ForkStored(item)[p] == if p.repo == 1 || p.repo == STRETCH + 1 then 1 else if p.repo == STRETCH + 2 then -1 else 0
    ensures IsLive(Fork(), p.repo) <==> 1 <= p.repo <= STRETCH + 2
  {
    ChainParents(STRETCH + 1, p.repo);
    if 1 <= p.repo <= STRETCH + 2 {
      assert Fork()[p.repo - 1].id == p.repo;
    }
    hide Parents;
  }

  lemma {:induction false} ForkFixable(item: Uuid, p: Pair)
    ensures Fixable(Fork(), ForkBook(item), ForkStored(item), p) <==>
      p.item == item && (p.repo == 1 || p.repo == STRETCH + 1 || p.repo == STRETCH + 2)
    ensures Fixable(Fork(), ForkBook(item), ForkStored(item), p) ==>
      Ready(Fork(), ForkBook(item), ForkStored(item), p) && Expected(Fork(), ForkBook(item), ForkStored(item), p) == 0
    ensures !Fixable(Fork(), ForkBook(item), ForkBook(item), p)
  {
    forall q: Pair
      ensures Fixable(Fork(), ForkBook(item), ForkStored(item), q) <==>
        q.item == item && (q.repo == 1 || q.repo == STRETCH + 1 || q.repo == STRETCH + 2)
      ensures Fixable(Fork(), ForkBook(item), ForkStored(item), q) ==>
        Expected(Fork(), ForkBook(item), ForkStored(item), q) == 0
    {
      ForkFixableAt(item, q);
    }
    ForkFixableAt(item, p);
    hide Fixable, Parents, Fork, ForkStored, ForkBook, Expected, Up;
    if Blocked(Fork(), ForkBook(item), ForkStored(item), p) {
      var q: Uuid, k: nat :| 1 <= k <= MAX_REPAIR_ROUNDS && Up(Parents(Fork()), q, k) == p.repo
          && Fixable(Fork(), ForkBook(item), ForkStored(item), Pair(q, p.item));
      ForkUp(q, k);
    }
  }

  lemma {:induction false} ForkFixableAt(item: Uuid, q: Pair)
    ensures Fixable(Fork(), ForkBook(item), ForkStored(item), q) <==>
      q.item == item && (q.repo == 1 || q.repo == STRETCH + 1 || q.repo == STRETCH + 2)
    ensures Fixable(Fork(), ForkBook(item), ForkStored(item), q) ==>
      Expected(Fork(), ForkBook(item), ForkStored(item), q) == 0
    ensures !Fixable(Fork(), ForkBook(item), ForkBook(item), q)
  {
    ForkChildSum(ForkStored(item), q);
    ForkChildSum(ForkBook(item), q);
    ForkKeys(item, q);
    ForkKeys(item, Pair(q.repo + 1, q.item));
    ForkKeys(item, Pair(STRETCH + 2, q.item));
    hide Fork, ForkStored, ForkBook, ChildSum, IsLive;
  }

  /** On chains of 66 repositories the two bounds part: here one round settles a book although a path
      holds two wrong pairs, 65 steps apart and with a balanced pair above the lower one. */
  lemma {:induction false} TooDeepForOnePerPath(item: Uuid)
    ensures Forest(Fork(), ForkRank(), STRETCH + 1) && Book(Fork(), ForkBook(item), ForkBook(item), ForkStored(item))
    ensures Settled(Fork(), ForkBook(item), PeelN(Fork(), ForkBook(item), ForkStored(item), 1))
    ensures !PathsWithin(Fork(), ForkRank(), STRETCH + 1, ForkBook(item), ForkStored(item), 1)
  {
    ForkIsForest();
    var own, qty := ForkBook(item), ForkStored(item);
    forall p: Pair
      ensures p in qty <==> p in own
      ensures Fixable(Fork(), own, qty, p) ==> Ready(Fork(), own, qty, p) && Expected(Fork(), own, qty, p) == 0
      ensures !Fixable(Fork(), own, own, p)
      ensures p in qty && !Fixable(Fork(), own, qty, p) ==> qty[p] == 0
      ensures p in own ==> own[p] == 0
    {
      ForkKeys(item, p);
      ForkFixable(item, p);
    }
    ForkKeys(item, Pair(1, item));
    ForkKeys(item, Pair(STRETCH + 1, item));
    ForkUp(STRETCH + 1, STRETCH);
    ForkParents(1);
    ForkParents(STRETCH + 1);
    hide Fork, ForkStored, ForkBook, ForkRank, Fixable, Parents, Up, IsLive, ChildSum, Expected;
    assert Peel(Fork(), own, qty) == own;
    assert PeelN(Fork(), own, qty, 0) == qty;
    PathThrough(Fork(), ForkRank(), STRETCH + 1, own, qty, STRETCH + 1, STRETCH, Pair(1, item));
    assert DirtyOnPath(Fork(), ForkRank(), STRETCH + 1, own, qty, 1, item) >= 1;
    NothingOwned(Fork(), own, qty);
  }

  lemma {:induction false} NothingOwned(repos: seq<Repository>, own: map<Pair, int>, qty: map<Pair, int>)
    requires qty.Keys == own.Keys && forall p :: p in own ==> own[p] == 0
    ensures Book(repos, own, own, qty)
  {
    forall p
      ensures ChildSum(repos, own, p) == 0
    {
      NothingStored(repos, own, p);
    }
  }
}

/** The stock ledger of one tenant and its repair (hack/stockfix): rows are appended in a
    transaction, round after round, until the rollup query reports nothing that can be fixed. */
module StockFix {
  import opened Rollup
  import opened Peeling

  /** One row of the stocks table; deleted stands for a non-null deleted_at. */
  datatype StockRow = StockRow(
    repo: Uuid, item: Uuid, version: int,
    quantity: int, own: int, incoming: int, outgoing: int, ownIncoming: int, ownOutgoing: int,
    createdBy: Uuid, deleted: bool)
  {
    function Key(): Pair { Pair(repo, item) }
  }

  datatype RollupViolation = RollupViolation(
    repo: Uuid, item: Uuid, stored: int, expected: int,
    own: int, ownIncoming: int, ownOutgoing: int, incoming: int, outgoing: int,
    createdBy: Uuid, hasCurrentRow: bool)
  {
    function Key(): Pair { Pair(repo, item) }
  }

  datatype RepairPlan = RepairPlan(initial: seq<RollupViolation>, corrective: seq<StockRow>, unfixable: set<Pair>)

  /** Broken: the database failed a statement. */
  datatype RepairResult = Repaired(plan: RepairPlan) | NotConverged | Stalled | Broken

  /** The cur CTE over the first n rows: per pair the non-deleted row of highest version. */
  function CurrentUpTo(rows: seq<StockRow>, n: nat): map<Pair, StockRow>
    requires n <= |rows|
  {
    if n == 0 then map[]
    else
      var last := rows[n - 1];
      var cur := CurrentUpTo(rows, n - 1);
      if last.deleted || (last.Key() in cur && cur[last.Key()].version >= last.version) then cur
      else cur[last.Key() := last]
  }

  function Current(rows: seq<StockRow>): map<Pair, StockRow> { CurrentUpTo(rows, |rows|) }

  lemma {:induction false} CurrentUpToIsHighest(rows: seq<StockRow>, n: nat, p: Pair)
    requires n <= |rows|
    ensures p in CurrentUpTo(rows, n) ==>
      var c := CurrentUpTo(rows, n)[p]; c in rows[..n] && !c.deleted && c.Key() == p
    ensures forall i :: 0 <= i < n && !rows[i].deleted && rows[i].Key() == p ==>
      p in CurrentUpTo(rows, n) && rows[i].version <= CurrentUpTo(rows, n)[p].version
  {
    if n > 0 {
      CurrentUpToIsHighest(rows, n - 1, p);
      assert rows[..n] == rows[..n - 1] + [rows[n - 1]];
    }
  }

  lemma {:induction false} CurrentIsHighest(rows: seq<StockRow>, p: Pair)
    ensures p in Current(rows) <==> exists r :: r in rows && !r.deleted && r.Key() == p
    ensures p in Current(rows) ==>
      Current(rows)[p] in rows && !Current(rows)[p].deleted && Current(rows)[p].Key() == p
    ensures forall r :: r in rows && !r.deleted && r.Key() == p ==>
        p in Current(rows) && r.version <= Current(rows)[p].version
  {
    CurrentUpToIsHighest(rows, |rows|, p);
    assert rows[..|rows|] == rows;
  }

  lemma {:induction false} CurrentUpToAppend(rows: seq<StockRow>, row: StockRow, n: nat)
    requires n <= |rows|
    ensures CurrentUpTo(rows + [row], n) == CurrentUpTo(rows, n)
  {
    if n > 0 {
      CurrentUpToAppend(rows, row, n - 1);
    }
  }

  function Quantities(cur: map<Pair, StockRow>): map<Pair, int> { map p | p in cur :: cur[p].quantity }

  function Owns(cur: map<Pair, StockRow>): map<Pair, int> { map p | p in cur :: cur[p].own }

  /** The columns a correction must carry over unchanged. */
  predicate SameButQuantity(a: StockRow, b: StockRow) {
    && a.repo == b.repo && a.item == b.item && a.own == b.own && a.incoming == b.incoming && a.outgoing == b.outgoing
    && a.ownIncoming == b.ownIncoming && a.ownOutgoing == b.ownOutgoing && a.createdBy == b.createdBy
  }

  /** The row of queryRollupByTenant's result for p. */
  function ViolationOf(repos: seq<Repository>, cur: map<Pair, StockRow>, p: Pair): RollupViolation {
    var expected := Expected(repos, Owns(cur), Quantities(cur), p);
    if p in cur then
      var r := cur[p];
      RollupViolation(p.repo, p.item, r.quantity, expected, r.own, r.ownIncoming, r.ownOutgoing, r.incoming,
          r.outgoing, r.createdBy, true)
    else RollupViolation(p.repo, p.item, 0, expected, 0, 0, 0, 0, 0, NONE, false)
  }

  ghost predicate ViolatedIn(repos: seq<Repository>, cur: map<Pair, StockRow>, p: Pair) {
    Violated(repos, Owns(cur), Quantities(cur), p)
  }

  /** vs lists every violation once. */
  ghost predicate ListsViolations(repos: seq<Repository>, cur: map<Pair, StockRow>, vs: seq<RollupViolation>) {
    && (forall i :: 0 <= i < |vs| ==>
        vs[i] == ViolationOf(repos, cur, vs[i].Key()) && ViolatedIn(repos, cur, vs[i].Key()))
    && DistinctKeys(vs)
    && (forall p :: ViolatedIn(repos, cur, p) ==> p in Keys(vs))
  }

  ghost predicate DistinctKeys(vs: seq<RollupViolation>) {
    forall i, j :: 0 <= i < j < |vs| ==> vs[i].Key() != vs[j].Key()
  }

  ghost function Keys(vs: seq<RollupViolation>): set<Pair> { set v | v in vs :: v.Key() }

  ghost predicate DistinctRows(rows: seq<StockRow>) {
    forall i, j :: 0 <= i < j < |rows| ==> rows[i].Key() != rows[j].Key()
  }

  lemma {:induction false} RowKeysAppend(rows: seq<StockRow>, r: StockRow)
    ensures RowKeys(rows + [r]) == RowKeys(rows) + {r.Key()}
    ensures r.Key() !in RowKeys(rows) && DistinctRows(rows) ==> DistinctRows(rows + [r])
  {
    forall p | p in RowKeys(rows) + {r.Key()}
      ensures p in RowKeys(rows + [r])
    {
      if p in RowKeys(rows) {
        var w :| w in rows && w.Key() == p;
        assert w in rows + [r];
      } else {
        assert r in rows + [r];
      }
    }
  }

  lemma {:induction false} KeysAppend(vs: seq<RollupViolation>, v: RollupViolation)
    ensures Keys(vs + [v]) == Keys(vs) + {v.Key()}
  {
    forall p | p in Keys(vs) + {v.Key()}
      ensures p in Keys(vs + [v])
    {
      if p in Keys(vs) {
        var w :| w in vs && w.Key() == p;
        assert w in vs + [v];
      } else {
        assert v in vs + [v];
      }
    }
  }

  ghost function RowKeys(rows: seq<StockRow>): set<Pair> { set r | r in rows :: r.Key() }

  lemma {:induction false} ChildSumNeedsItem(repos: seq<Repository>, qty: map<Pair, int>, p: Pair)
    requires ChildSum(repos, qty, p) != 0
    ensures exists q :: q in qty && q.item == p.item
  {
    var last := repos[|repos| - 1];
    if IsChild(last, qty, p) {
      assert Pair(last.id, p.item) in qty;
    } else {
      ChildSumNeedsItem(repos[..|repos| - 1], qty, p);
    }
  }

  lemma {:induction false} ViolatedItemHasRow(repos: seq<Repository>, rows: seq<StockRow>, p: Pair)
    requires ViolatedIn(repos, Current(rows), p)
    ensures exists r :: r in rows && r.item == p.item
  {
    var cur := Current(rows);
    if ChildSum(repos, Quantities(cur), p) != 0 {
      ChildSumNeedsItem(repos, Quantities(cur), p);
      var q :| q in cur && q.item == p.item;
      CurrentIsHighest(rows, q);
    } else {
      CurrentIsHighest(rows, p);
    }
  }

  /** p is an ancestor of v's repository, for the same item, within the capped walk. */
  ghost predicate Shadows(v: RollupViolation, parents: map<Uuid, Uuid>, p: Pair) {
    v.item == p.item && p.repo != NONE
        && exists k: nat :: 1 <= k <= MAX_REPAIR_ROUNDS && Up(parents, v.repo, k) == p.repo
  }

  ghost predicate BlockedBy(fixable: seq<RollupViolation>, parents: map<Uuid, Uuid>, p: Pair) {
    exists v :: v in fixable && Shadows(v, parents, p)
  }

  ghost function Unblocked(vs: seq<RollupViolation>, fixable: seq<RollupViolation>,
          parents: map<Uuid, Uuid>): seq<RollupViolation> {
    if vs == [] then []
    else
      var rest := Unblocked(vs[..|vs| - 1], fixable, parents);
      if BlockedBy(fixable, parents, vs[|vs| - 1].Key()) then rest else rest + [vs[|vs| - 1]]
  }

  lemma {:induction false} UnblockedSpec(vs: seq<RollupViolation>, fixable: seq<RollupViolation>,
          parents: map<Uuid, Uuid>)
    requires DistinctKeys(vs)
    ensures forall v :: v in Unblocked(vs, fixable, parents) <==> v in vs && !BlockedBy(fixable, parents, v.Key())
    ensures DistinctKeys(Unblocked(vs, fixable, parents))
  {
    hide BlockedBy;
    if vs != [] {
      var init, last := vs[..|vs| - 1], vs[|vs| - 1];
      UnblockedSpec(init, fixable, parents);
      assert vs == init + [last];
      var rest := Unblocked(init, fixable, parents);
      assert forall v :: v in vs <==> v in init || v == last;
      assert forall v :: v in rest + [last] <==> v in rest || v == last;
      NotAmong(vs, |vs| - 1, rest);
      assert forall i :: 0 <= i < |rest| ==> rest[i] in rest;
    }
  }

  function WithoutCurrentRow(vs: seq<RollupViolation>): set<Pair> {
    set v | v in vs && !v.hasCurrentRow :: v.Key()
  }

  /** The loop of repairTenant that keeps the violations a correction could be written for. */
  method WithCurrentRow(vs: seq<RollupViolation>, unfixable: set<Pair>) returns (fixable: seq<RollupViolation>)
    requires DistinctKeys(vs)
    requires forall v :: v in vs && v.Key() in unfixable ==> !v.hasCurrentRow
    ensures DistinctKeys(fixable)
    ensures forall v :: v in fixable <==> v in vs && v.hasCurrentRow
  {
    fixable := [];
    for i := 0 to |vs|
      invariant DistinctKeys(fixable)
      invariant forall v :: v in fixable <==> v in vs[..i] && v.hasCurrentRow
    {
      assert vs[..i + 1] == vs[..i] + [vs[i]];
      if vs[i].hasCurrentRow && vs[i].Key() !in unfixable {
        NotAmong(vs, i, fixable);
        fixable := fixable + [vs[i]];
      }
    }
    assert vs[..|vs|] == vs;
  }

  /** readyToCorrect: the violations with no fixable violation among their descendants. */
  method ReadyToCorrect(fixable: seq<RollupViolation>, parents: map<Uuid, Uuid>) returns (ready: seq<RollupViolation>)
    requires NONE !in parents
    ensures ready == Unblocked(fixable, fixable, parents)
  {
    var blocked: set<Pair> := {};
    var i := 0;
    while i < |fixable|
      invariant 0 <= i <= |fixable|
      invariant forall p :: p in blocked <==> BlockedBy(fixable[..i], parents, p)
    {
      var v := fixable[i];
      var before := blocked;
      var repo := Parent(parents, v.repo);
      assert repo == Up(parents, v.repo, 1) by { assert Up(parents, v.repo, 0) == v.repo; }
      var depth: nat := 0;
      while repo != NONE && depth < MAX_REPAIR_ROUNDS
        invariant depth <= MAX_REPAIR_ROUNDS
        invariant repo == Up(parents, v.repo, depth + 1)
        invariant forall p :: p in blocked <==>
          (p in before ||
           (p.item == v.item && p.repo != NONE && exists k: nat :: 1 <= k <= depth && Up(parents, v.repo, k) == p.repo))
        decreases MAX_REPAIR_ROUNDS - depth
      {
        blocked := blocked + {Pair(repo, v.item)};
        repo := Parent(parents, repo);
        depth := depth + 1;
      }
      if repo == NONE {
        forall k: nat | k >= depth + 1
          ensures Up(parents, v.repo, k) == NONE
        {
          RootStays(parents, v.repo, depth + 1, k);
        }
      }
      assert fixable[..i + 1] == fixable[..i] + [v];
      assert forall p :: p in blocked <==> (p in before || Shadows(v, parents, p));
      i := i + 1;
    }
    assert fixable[..i] == fixable;
    ready := [];
    i := 0;
    while i < |fixable|
      invariant 0 <= i <= |fixable|
      invariant ready == Unblocked(fixable[..i], fixable, parents)
    {
      assert fixable[..i + 1][..i] == fixable[..i];
      if fixable[i].Key() !in blocked {
        ready := ready + [fixable[i]];
      }
      i := i + 1;
    }
    assert fixable[..i] == fixable;
  }

  lemma {:induction false} RootStays(parents: map<Uuid, Uuid>, r: Uuid, j: nat, k: nat)
    requires NONE !in parents && Up(parents, r, j) == NONE && j <= k
    ensures Up(parents, r, k) == NONE
  {
    if j < k {
      RootStays(parents, r, j, k - 1);
    }
  }

  /** No row of a pair, soft-deleted ones included, is above the version recorded for it. */
  ghost predicate BoundsVersions(rows: seq<StockRow>, versions: map<Pair, int>) {
    forall r {:trigger r in rows} :: r in rows ==> r.Key() in versions && r.version <= versions[r.Key()]
  }

  /** queryMaxVersions: the bound is attained. */
  ghost predicate IsMaxVersions(rows: seq<StockRow>, versions: map<Pair, int>) {
    && BoundsVersions(rows, versions)
    && (forall p :: p in versions ==>
        exists r {:trigger r in rows} :: r in rows && r.Key() == p && r.version == versions[p])
  }

  /** corrective[j] is current once appended: its version is above every row of its pair before it,
      soft-deleted ones included, and every other column is the live row's. */
  ghost predicate Corrects(rows0: seq<StockRow>, corrective: seq<StockRow>, j: nat)
    requires j < |corrective|
  {
    var c := corrective[j];
    && !c.deleted
    && c.Key() in Current(rows0) && SameButQuantity(c, Current(rows0)[c.Key()])
    && (forall r {:trigger r in rows0} :: r in rows0 && r.Key() == c.Key() ==> r.version < c.version)
    && (forall i :: 0 <= i < j && corrective[i].Key() == c.Key() ==> corrective[i].version < c.version)
  }

  /** Appending a row above every version of its pair makes it the pair's current row. */
  lemma {:induction false} AppendHighest(rows: seq<StockRow>, versions: map<Pair, int>, row: StockRow)
    requires BoundsVersions(rows, versions)
    requires !row.deleted && row.Key() in versions && row.version == versions[row.Key()] + 1
    ensures Current(rows + [row]) == Current(rows)[row.Key() := row]
    ensures BoundsVersions(rows + [row], versions[row.Key() := row.version])
    ensures forall r {:trigger r in rows} :: r in rows && r.Key() == row.Key() ==> r.version < row.version
  {
    CurrentUpToAppend(rows, row, |rows|);
    CurrentIsHighest(rows, row.Key());
  }

  /** The rows a round picks from the query's answer are those the peeling rule calls ready. */
  lemma {:induction false} ReadyRowsAreReady(repos: seq<Repository>, cur: map<Pair, StockRow>, vs: seq<RollupViolation>,
          fixable: seq<RollupViolation>, ready: seq<RollupViolation>)
    requires ValidTable(repos) && ListsViolations(repos, cur, vs)
    requires DistinctKeys(fixable)
    requires forall v :: v in fixable <==> v in vs && v.hasCurrentRow
    requires ready == Unblocked(fixable, fixable, Parents(repos))
    ensures forall p :: p in Keys(fixable) <==> Fixable(repos, Owns(cur), Quantities(cur), p)
    ensures forall p :: p in Keys(ready) <==> Ready(repos, Owns(cur), Quantities(cur), p)
    ensures DistinctKeys(ready)
    ensures forall v :: v in ready ==> v == ViolationOf(repos, cur, v.Key())
  {
    hide ChildSum, Expected, Owns, Up, Unblocked;
    var own, qty, parents := Owns(cur), Quantities(cur), Parents(repos);
    ParentsSpec(repos);
    UnblockedSpec(fixable, fixable, parents);
    forall p | p in Keys(fixable)
      ensures Fixable(repos, own, qty, p)
    {
      var v :| v in fixable && v.Key() == p;
      var i :| 0 <= i < |vs| && vs[i] == v;
    }
    forall p | Fixable(repos, own, qty, p)
      ensures p in Keys(fixable)
    {
      assert ViolatedIn(repos, cur, p);
      var v :| v in vs && v.Key() == p;
      var i :| 0 <= i < |vs| && vs[i] == v;
      assert v in fixable;
    }
    forall p | p in Keys(fixable)
      ensures BlockedBy(fixable, parents, p) <==> Blocked(repos, own, qty, p)
    {
      if BlockedBy(fixable, parents, p) {
        var v :| v in fixable && Shadows(v, parents, p);
        var k: nat :| 1 <= k <= MAX_REPAIR_ROUNDS && Up(parents, v.repo, k) == p.repo;
        assert v.Key() == Pair(v.repo, p.item);
      }
      if Blocked(repos, own, qty, p) {
        var q: Uuid, k: nat :| 1 <= k <= MAX_REPAIR_ROUNDS && Fixable(repos, own, qty, Pair(q, p.item))
            && Up(parents, q, k) == p.repo;
        assert Pair(q, p.item) in Keys(fixable);
        var v :| v in fixable && v.Key() == Pair(q, p.item);
        assert Shadows(v, parents, p);
      }
    }
    forall p
      ensures p in Keys(ready) <==> Ready(repos, own, qty, p)
    {
      if p in Keys(ready) {
        var v :| v in ready && v.Key() == p;
        assert v in fixable;
      }
      if Ready(repos, own, qty, p) {
        var v :| v in fixable && v.Key() == p;
        assert v in ready;
      }
    }
    forall v | v in ready
      ensures v == ViolationOf(repos, cur, v.Key())
    {
      assert v in vs;
      var i :| 0 <= i < |vs| && vs[i] == v;
    }
  }

  /** The current rows part-way through a round: the pairs in done are corrected, the others wait. */
  ghost predicate InRound(targets: map<Pair, int>, start: map<Pair, StockRow>, cur: map<Pair, StockRow>,
          done: set<Pair>)
    requires targets.Keys == start.Keys
  {
    && cur.Keys == start.Keys
    && forall p :: p in cur ==>
      && SameButQuantity(cur[p], start[p])
      && cur[p].quantity == if p in done then targets[p] else start[p].quantity
  }

  /** What each current row should hold, priced from the rows themselves. */
  ghost function Targets(repos: seq<Repository>, cur: map<Pair, StockRow>): (targets: map<Pair, int>)
    ensures targets.Keys == cur.Keys
  {
    var own, qty := Owns(cur), Quantities(cur);
    map p | p in cur :: Expected(repos, own, qty, p)
  }

  lemma {:induction false} NotAmong(vs: seq<RollupViolation>, i: nat, picked: seq<RollupViolation>)
    requires DistinctKeys(vs) && i < |vs|
    requires forall v :: v in picked ==> v in vs[..i]
    ensures forall v :: v in picked ==> v.Key() != vs[i].Key()
  {
    forall v | v in picked
      ensures v.Key() != vs[i].Key()
    {
      var j :| 0 <= j < i && vs[..i][j] == v;
    }
  }

  lemma {:induction false} UnfixableAre(repos: seq<Repository>, cur: map<Pair, StockRow>, vs: seq<RollupViolation>,
          unfixable: set<Pair>)
    requires ListsViolations(repos, cur, vs) && unfixable == WithoutCurrentRow(vs)
    ensures forall p :: p in unfixable <==> p !in cur && ViolatedIn(repos, cur, p)
  {
    forall p | p in unfixable
      ensures p !in cur && ViolatedIn(repos, cur, p)
    {
      var v :| v in vs && !v.hasCurrentRow && v.Key() == p;
      var k :| 0 <= k < |vs| && vs[k] == v;
    }
    forall p | p !in cur && ViolatedIn(repos, cur, p)
      ensures p in unfixable
    {
      var v :| v in vs && v.Key() == p;
      var k :| 0 <= k < |vs| && vs[k] == v;
    }
  }

  /** A pair recorded as unfixable never has a current row, so skipping it again changes nothing. */
  lemma {:induction false} UnfixableHaveNoRow(repos: seq<Repository>, cur: map<Pair, StockRow>,
          vs: seq<RollupViolation>, cur0: map<Pair, StockRow>, plan: RepairPlan)
    requires ListsViolations(repos, cur, vs) && Planned(repos, cur0, plan) && cur.Keys == cur0.Keys
    ensures forall v :: v in vs && v.Key() in plan.unfixable ==> !v.hasCurrentRow
  {
    forall v | v in vs && v.Key() in plan.unfixable
      ensures !v.hasCurrentRow
    {
      var k :| 0 <= k < |vs| && vs[k] == v;
    }
  }

  lemma {:induction false} CorrectsMore(rows0: seq<StockRow>, corrective: seq<StockRow>, row: StockRow)
    requires forall j :: 0 <= j < |corrective| ==> Corrects(rows0, corrective, j)
    requires Corrects(rows0, corrective + [row], |corrective|)
    ensures forall j :: 0 <= j < |corrective| + 1 ==> Corrects(rows0, corrective + [row], j)
  {
    forall j | 0 <= j < |corrective|
      ensures Corrects(rows0, corrective + [row], j)
    {
      assert Corrects(rows0, corrective, j);
      assert (corrective + [row])[j] == corrective[j];
    }
  }

  /** No pair is corrected twice, whatever the table. */
  lemma {:induction false} NotYetCorrected(repos: seq<Repository>, own: map<Pair, int>, qty: map<Pair, int>, k: nat,
          p: Pair)
    requires ValidTable(repos) && k <= MAX_REPAIR_ROUNDS && Ready(repos, own, PeelN(repos, own, qty, k), p)
    ensures !CorrectedBefore(repos, own, qty, k, p)
  {
    if j: nat :| j < k && Ready(repos, own, PeelN(repos, own, qty, j), p) {
      InOneRoundOnly(repos, own, qty, j, k, p);
    }
  }

  /** What stopping with nothing fixable after k rounds says. */
  lemma {:induction false} RepairedMeans(repos: seq<Repository>, rank: map<Uuid, nat>, n: nat, own: map<Pair, int>,
          qty: map<Pair, int>, k: nat)
    requires Forest(repos, rank, n) && qty.Keys == own.Keys && k < MAX_REPAIR_ROUNDS
    requires Settled(repos, own, PeelN(repos, own, qty, k))
    ensures forall p :: p in own && IsLive(repos, p.repo) ==>
      PeelN(repos, own, qty, k)[p] == Recompute(repos, own, rank, n, p)
    ensures StretchesWithin(repos, RecursiveSums(repos, own, rank, n), qty, k)
    ensures forall p :: Dirty(repos, RecursiveSums(repos, own, rank, n), qty, p) <==>
      CorrectedBefore(repos, own, qty, k, p)
  {
    var fin := RecursiveSums(repos, own, rank, n);
    RecursiveSumsExist(repos, own, rank, n);
    SettledIffExact(repos, rank, n, own, fin, PeelN(repos, own, qty, k));
    SettledStretches(repos, rank, n, own, fin, qty, k);
    forall p
      ensures Dirty(repos, fin, qty, p) <==> CorrectedBefore(repos, own, qty, k, p)
    {
      CorrectedIffWrong(repos, rank, n, own, fin, qty, k, p);
    }
  }

  /** v carries its current row's fields and the quantity that row should hold. */
  ghost predicate Prices(v: RollupViolation, cur: map<Pair, StockRow>, targets: map<Pair, int>)
    requires targets.Keys == cur.Keys
  {
    && v.Key() in cur && v.expected == targets[v.Key()]
    && v.own == cur[v.Key()].own && v.incoming == cur[v.Key()].incoming && v.outgoing == cur[v.Key()].outgoing
    && v.ownIncoming == cur[v.Key()].ownIncoming && v.ownOutgoing == cur[v.Key()].ownOutgoing
        && v.createdBy == cur[v.Key()].createdBy
  }

  /** The ledger part-way through a round that began with the current rows start. */
  ghost predicate RoundState(targets: map<Pair, int>, rows0: seq<StockRow>, start: map<Pair, StockRow>,
          planned: seq<StockRow>, done: set<Pair>, rows: seq<StockRow>, versions: map<Pair, int>,
          corrective: seq<StockRow>)
    requires targets.Keys == start.Keys
  {
    && RowsState(rows0, rows, versions, corrective)
    && InRound(targets, start, Current(rows), done)
    && RowKeys(corrective) == RowKeys(planned) + done
  }

  /** The ledger is rows0 followed by well-formed corrections, and versions is up to date. */
  ghost predicate RowsState(rows0: seq<StockRow>, rows: seq<StockRow>, versions: map<Pair, int>,
          corrective: seq<StockRow>) {
    && rows == rows0 + corrective
    && BoundsVersions(rows, versions)
    && (forall j :: 0 <= j < |corrective| ==> Corrects(rows0, corrective, j))
  }

  lemma {:induction false} RowsStateStep(rows0: seq<StockRow>, rows: seq<StockRow>, versions: map<Pair, int>,
          corrective: seq<StockRow>, row: StockRow)
    requires RowsState(rows0, rows, versions, corrective)
    requires !row.deleted && row.Key() in versions && row.version == versions[row.Key()] + 1
    requires row.Key() in Current(rows0) && SameButQuantity(row, Current(rows0)[row.Key()])
    ensures RowsState(rows0, rows + [row], versions[row.Key() := row.version], corrective + [row])
    ensures Current(rows + [row]) == Current(rows)[row.Key() := row]
  {
    AppendHighest(rows, versions, row);
    forall i | 0 <= i < |corrective| && corrective[i].Key() == row.Key()
      ensures corrective[i].version < row.version
    {
      assert corrective[i] in rows;
    }
    forall r {:trigger r in rows0} | r in rows0 && r.Key() == row.Key()
      ensures r.version < row.version
    {
      assert r in rows;
    }
    assert Corrects(rows0, corrective + [row], |corrective|);
    CorrectsMore(rows0, corrective, row);
    assert rows + [row] == rows0 + (corrective + [row]);
  }

  lemma {:induction false} ReadyRowsArePriced(repos: seq<Repository>, cur: map<Pair, StockRow>,
          ready: seq<RollupViolation>)
    requires forall v :: v in ready ==> v == ViolationOf(repos, cur, v.Key())
    requires forall p :: p in Keys(ready) ==> p in cur
    ensures forall v :: v in ready ==> Prices(v, cur, Targets(repos, cur))
  {
    forall v | v in ready
      ensures Prices(v, cur, Targets(repos, cur))
    {
      assert v.Key() in Keys(ready);
      assert v == ViolationOf(repos, cur, v.Key());
    }
  }

  lemma {:induction false} InRoundStep(targets: map<Pair, int>, start: map<Pair, StockRow>, cur: map<Pair, StockRow>,
          done: set<Pair>, p: Pair, row: StockRow)
    requires targets.Keys == start.Keys && InRound(targets, start, cur, done)
    requires p in start && SameButQuantity(row, start[p]) && row.quantity == targets[p]
    ensures InRound(targets, start, cur[p := row], done + {p})
  {
  }

  lemma {:induction false} RoundStateStep(targets: map<Pair, int>, rows0: seq<StockRow>, start: map<Pair, StockRow>,
          planned: seq<StockRow>, done: set<Pair>, rows: seq<StockRow>, versions: map<Pair, int>,
          corrective: seq<StockRow>, p: Pair, row: StockRow)
    requires targets.Keys == start.Keys
    requires RoundState(targets, rows0, start, planned, done, rows, versions, corrective)
    requires start.Keys == Current(rows0).Keys
    requires forall q :: q in start ==> SameButQuantity(start[q], Current(rows0)[q])
    requires p in start && p !in done && p in versions
    requires !row.deleted && row.version == versions[p] + 1
    requires row.Key() == p && SameButQuantity(row, start[p]) && row.quantity == targets[p]
    ensures RoundState(targets, rows0, start, planned, done + {p}, rows + [row], versions[p := row.version],
        corrective + [row])
  {
    RowsStateStep(rows0, rows, versions, corrective, row);
    InRoundStep(targets, start, Current(rows), done, p, row);
    RowKeysAppend(corrective, row);
  }

  /** The ledger at the start of a round, relative to the rows rows0 the repair began with. */
  ghost predicate RepairState(repos: seq<Repository>, rows0: seq<StockRow>, round: nat, rows: seq<StockRow>,
          versions: map<Pair, int>, plan: RepairPlan)
  {
    && RowsState(rows0, rows, versions, plan.corrective)
    && BookState(repos, Current(rows0), round, Current(rows))
    && PlanState(repos, Current(rows0), round, plan)
  }

  /** The quantities are those of the peeled book, and nothing else has changed. */
  ghost predicate BookState(repos: seq<Repository>, cur0: map<Pair, StockRow>, round: nat, cur: map<Pair, StockRow>) {
    && cur.Keys == cur0.Keys
    && (forall p :: p in cur0 ==> SameButQuantity(cur[p], cur0[p]))
    && Owns(cur) == Owns(cur0)
    && Quantities(cur) == PeelN(repos, Owns(cur0), Quantities(cur0), round)
    && (round > 0 ==> GoesOn(repos, Owns(cur0), PeelN(repos, Owns(cur0), Quantities(cur0), round - 1)))
  }

  ghost predicate PlanState(repos: seq<Repository>, cur0: map<Pair, StockRow>, round: nat, plan: RepairPlan) {
    && (round > 0 ==> Planned(repos, cur0, plan))
    && (forall p :: p in RowKeys(plan.corrective) <==> CorrectedBefore(repos, Owns(cur0), Quantities(cur0), round, p))
    && DistinctRows(plan.corrective)
  }

  /** The parts of a plan fixed by the first round. */
  ghost predicate Planned(repos: seq<Repository>, cur0: map<Pair, StockRow>, plan: RepairPlan) {
    && ListsViolations(repos, cur0, plan.initial)
    && (forall p :: p in plan.unfixable <==> p !in cur0 && ViolatedIn(repos, cur0, p))
  }

  lemma {:induction false} RepairStateStep(repos: seq<Repository>, rows0: seq<StockRow>, round: nat,
          rows: seq<StockRow>, versions: map<Pair, int>, plan: RepairPlan, ready: set<Pair>, rows': seq<StockRow>,
          versions': map<Pair, int>, corrective: seq<StockRow>)
    requires ValidTable(repos) && round < MAX_REPAIR_ROUNDS
    requires RepairState(repos, rows0, round, rows, versions, plan)
    requires Planned(repos, Current(rows0), plan)
    requires GoesOn(repos, Owns(Current(rows)), Quantities(Current(rows)))
    requires forall p :: p in ready <==> Ready(repos, Owns(Current(rows)), Quantities(Current(rows)), p)
    requires RoundState(Targets(repos, Current(rows)), rows0, Current(rows), plan.corrective, ready, rows',
        versions', corrective)
    requires DistinctRows(plan.corrective) && RowKeys(plan.corrective) !! ready ==> DistinctRows(corrective)
    ensures RepairState(repos, rows0, round + 1, rows', versions', plan.(corrective := corrective))
  {
    hide Ready, Fixable, Settled, BookState, CurrentUpTo, PeelN, Targets, CorrectedBefore;
    assert BookState(repos, Current(rows0), round, Current(rows));
    BookStateStep(repos, Current(rows0), round, Current(rows), ready, Current(rows'));
    KeysAfterRound(repos, Current(rows0), round, Current(rows), ready, RowKeys(plan.corrective),
        RowKeys(corrective));
    assert PlanState(repos, Current(rows0), round + 1, plan.(corrective := corrective));
  }

  lemma {:induction false} BookStateStep(repos: seq<Repository>, cur0: map<Pair, StockRow>, round: nat,
          start: map<Pair, StockRow>, ready: set<Pair>, end: map<Pair, StockRow>)
    requires BookState(repos, cur0, round, start)
    requires GoesOn(repos, Owns(start), Quantities(start))
    requires forall p :: p in ready <==> Ready(repos, Owns(start), Quantities(start), p)
    requires InRound(Targets(repos, start), start, end, ready)
    ensures BookState(repos, cur0, round + 1, end)
    ensures Owns(start) == Owns(cur0) && Quantities(start) == PeelN(repos, Owns(cur0), Quantities(cur0), round)
  {
    QuantitiesAfterRound(repos, start, end, ready);
    RestUnchanged(cur0, start, end);
  }

  lemma {:induction false} QuantitiesAfterRound(repos: seq<Repository>, start: map<Pair, StockRow>,
          end: map<Pair, StockRow>, ready: set<Pair>)
    requires InRound(Targets(repos, start), start, end, ready)
    requires forall p :: p in ready <==> Ready(repos, Owns(start), Quantities(start), p)
    ensures Quantities(end) == Peel(repos, Owns(start), Quantities(start))
    ensures Owns(end) == Owns(start)
  {
  }

  lemma {:induction false} RestUnchanged(a: map<Pair, StockRow>, b: map<Pair, StockRow>, c: map<Pair, StockRow>)
    requires a.Keys == b.Keys == c.Keys
    requires forall p :: p in a ==> SameButQuantity(b[p], a[p])
    requires forall p :: p in b ==> SameButQuantity(c[p], b[p])
    ensures forall p :: p in a ==> SameButQuantity(c[p], a[p])
    ensures Owns(a) == Owns(b)
  {
  }

  lemma {:induction false} KeysAfterRound(repos: seq<Repository>, cur0: map<Pair, StockRow>, round: nat,
          start: map<Pair, StockRow>, ready: set<Pair>, before: set<Pair>, after: set<Pair>)
    requires ValidTable(repos) && round < MAX_REPAIR_ROUNDS
    requires Owns(start) == Owns(cur0) && Quantities(start) == PeelN(repos, Owns(cur0), Quantities(cur0), round)
    requires forall p :: p in ready <==> Ready(repos, Owns(start), Quantities(start), p)
    requires forall p :: p in before <==> CorrectedBefore(repos, Owns(cur0), Quantities(cur0), round, p)
    requires after == before + ready
    ensures forall p :: p in after <==> CorrectedBefore(repos, Owns(cur0), Quantities(cur0), round + 1, p)
    ensures before !! ready
  {
    hide Ready, PeelN, Owns, Quantities;
    var own, qty0 := Owns(cur0), Quantities(cur0);
    forall p
      ensures p in after <==> CorrectedBefore(repos, own, qty0, round + 1, p)
      ensures p in ready ==> p !in before
    {
      assert CorrectedBefore(repos, own, qty0, round + 1, p) <==>
        (CorrectedBefore(repos, own, qty0, round, p) || Ready(repos, own, PeelN(repos, own, qty0, round), p));
      if p in ready {
        NotYetCorrected(repos, own, qty0, round, p);
      }
    }
  }

  // ---- What a repair promises ----

  /** rows is rows0 followed by well-formed corrections. */
  ghost predicate OnlyCorrections(rows0: seq<StockRow>, rows: seq<StockRow>) {
    && |rows0| <= |rows| && rows[..|rows0|] == rows0
    && forall j :: 0 <= j < |rows| - |rows0| ==> Corrects(rows0, rows[|rows0|..], j)
  }

  /** The plan names the violations it started from, what it left alone and every row it wrote;
      no pair gained or lost a current row, and nothing fixable is left. */
  ghost predicate CompletePlan(repos: seq<Repository>, rows0: seq<StockRow>, rows: seq<StockRow>, plan: RepairPlan) {
    && rows == rows0 + plan.corrective
    && Planned(repos, Current(rows0), plan)
    && Current(rows).Keys == Current(rows0).Keys
    && Owns(Current(rows)) == Owns(Current(rows0))
    && Settled(repos, Owns(Current(rows)), Quantities(Current(rows)))
  }

  ghost function SumsOf(repos: seq<Repository>, rank: map<Uuid, nat>, n: nat, rows0: seq<StockRow>): map<Pair, int>
    requires Forest(repos, rank, n)
  {
    RecursiveSums(repos, Owns(Current(rows0)), rank, n)
  }

  ghost predicate StoresRecursiveSums(repos: seq<Repository>, rank: map<Uuid, nat>, n: nat, rows0: seq<StockRow>,
          rows: seq<StockRow>)
    requires Forest(repos, rank, n)
  {
    forall p :: p in Current(rows) && IsLive(repos, p.repo) ==>
      p in SumsOf(repos, rank, n, rows0) && Current(rows)[p].quantity == SumsOf(repos, rank, n, rows0)[p]
  }

  ghost predicate WrongPairsPerPathWithin(repos: seq<Repository>, rank: map<Uuid, nat>, n: nat, rows0: seq<StockRow>,
          bound: nat)
    requires Forest(repos, rank, n)
  {
    PathsWithin(repos, rank, n, SumsOf(repos, rank, n, rows0), Quantities(Current(rows0)), bound)
  }

  ghost predicate OneRowPerWrongPair(repos: seq<Repository>, rank: map<Uuid, nat>, n: nat, rows0: seq<StockRow>,
          corrective: seq<StockRow>)
    requires Forest(repos, rank, n)
  {
    && DistinctRows(corrective)
    && forall p :: p in RowKeys(corrective) <==>
        Dirty(repos, SumsOf(repos, rank, n, rows0), Quantities(Current(rows0)), p)
  }

  /** The loop gets to a round with nothing fixable before it runs out of rounds... */
  ghost predicate Converges(repos: seq<Repository>, rows0: seq<StockRow>) {
    exists k: nat :: k < MAX_REPAIR_ROUNDS
      && Settled(repos, Owns(Current(rows0)), PeelN(repos, Owns(Current(rows0)), Quantities(Current(rows0)), k))
  }

  /** ... or to one with something fixable and nothing ready. */
  ghost predicate GetsStuck(repos: seq<Repository>, rows0: seq<StockRow>) {
    exists k: nat :: k < MAX_REPAIR_ROUNDS
      && Stuck(repos, Owns(Current(rows0)), PeelN(repos, Owns(Current(rows0)), Quantities(Current(rows0)), k))
  }

  /** No path of more than 63 wrong pairs: then the loop converges, in a forest of any depth.  If it
      converges, no 65 consecutive pairs of a path held more than 63 wrong ones; on chains of at most
      65 repositories that is the same. */
  lemma {:induction false} ConvergesBounds(repos: seq<Repository>, rank: map<Uuid, nat>, n: nat, rows0: seq<StockRow>)
    requires Forest(repos, rank, n)
    ensures WrongPairsPerPathWithin(repos, rank, n, rows0, MAX_REPAIR_ROUNDS - 1) ==> Converges(repos, rows0)
    ensures Converges(repos, rows0) ==>
      StretchesWithin(repos, SumsOf(repos, rank, n, rows0), Quantities(Current(rows0)), MAX_REPAIR_ROUNDS - 1)
    ensures n <= STRETCH && Converges(repos, rows0) ==>
      WrongPairsPerPathWithin(repos, rank, n, rows0, MAX_REPAIR_ROUNDS - 1)
  {
    var own, qty, fin := Owns(Current(rows0)), Quantities(Current(rows0)), SumsOf(repos, rank, n, rows0);
    RecursiveSumsExist(repos, own, rank, n);
    hide PeelN, Settled, StretchesWithin, PathsWithin, Current;
    if WrongPairsPerPathWithin(repos, rank, n, rows0, MAX_REPAIR_ROUNDS - 1) {
      PathsWithinSettle(repos, rank, n, own, fin, qty, MAX_REPAIR_ROUNDS - 1);
    }
    if k: nat :| k < MAX_REPAIR_ROUNDS && Settled(repos, own, PeelN(repos, own, qty, k)) {
      SettledStays(repos, own, qty, k, MAX_REPAIR_ROUNDS - 1);
      SettledStretches(repos, rank, n, own, fin, qty, MAX_REPAIR_ROUNDS - 1);
      if n <= STRETCH {
        SettledAfterIffPathsWithin(repos, rank, n, own, fin, qty, MAX_REPAIR_ROUNDS - 1);
      }
    }
  }

  lemma {:induction false} SettledStays(repos: seq<Repository>, own: map<Pair, int>, qty: map<Pair, int>, j: nat,
          k: nat)
    requires j <= k && Settled(repos, own, PeelN(repos, own, qty, j))
    ensures Settled(repos, own, PeelN(repos, own, qty, k))
  {
    NothingReadyStays(repos, own, qty, j, k);
  }

  lemma {:induction false} RootIsNoRepository(repos: seq<Repository>)
    requires ValidTable(repos)
    ensures NONE !in Parents(repos)
  {
    ParentsSpec(repos);
  }

  lemma {:induction false} SomethingReady(repos: seq<Repository>, cur: map<Pair, StockRow>, ready: seq<RollupViolation>)
    requires |ready| > 0
    requires forall p :: p in Keys(ready) <==> Ready(repos, Owns(cur), Quantities(cur), p)
    ensures GoesOn(repos, Owns(cur), Quantities(cur))
  {
    assert ready[0].Key() in Keys(ready);
  }

  lemma {:induction false} NothingReady(repos: seq<Repository>, cur: map<Pair, StockRow>, fixable: seq<RollupViolation>,
          ready: seq<RollupViolation>)
    requires |fixable| > 0 && |ready| == 0
    requires forall p :: p in Keys(fixable) <==> Fixable(repos, Owns(cur), Quantities(cur), p)
    requires forall p :: p in Keys(ready) <==> Ready(repos, Owns(cur), Quantities(cur), p)
    ensures Stuck(repos, Owns(cur), Quantities(cur))
  {
    assert fixable[0].Key() in Keys(fixable);
    assert Keys(ready) == {};
  }

  /** A stall needs a cycle. */
  lemma {:induction false} NeverStuck(repos: seq<Repository>, rank: map<Uuid, nat>, n: nat, rows0: seq<StockRow>)
    requires Forest(repos, rank, n)
    ensures !GetsStuck(repos, rows0)
  {
    var own, qty := Owns(Current(rows0)), Quantities(Current(rows0));
    hide PeelN, Current;
    if k: nat :| k < MAX_REPAIR_ROUNDS && Stuck(repos, own, PeelN(repos, own, qty, k)) {
      var p :| Fixable(repos, own, PeelN(repos, own, qty, k), p);
      FixableGivesReady(repos, rank, n, own, PeelN(repos, own, qty, k), p);
    }
  }

  /** The state of the loop after a round says that no earlier round ended it. */
  lemma {:induction false} NotEndedBefore(repos: seq<Repository>, cur0: map<Pair, StockRow>, round: nat,
          cur: map<Pair, StockRow>, k: nat)
    requires BookState(repos, cur0, round, cur) && k < round
    ensures !Settled(repos, Owns(cur0), PeelN(repos, Owns(cur0), Quantities(cur0), k))
    ensures !Stuck(repos, Owns(cur0), PeelN(repos, Owns(cur0), Quantities(cur0), k))
  {
    var own, qty := Owns(cur0), Quantities(cur0);
    hide PeelN;
    if !GoesOn(repos, own, PeelN(repos, own, qty, k)) {
      NothingReadyStays(repos, own, qty, k, round - 1);
    }
  }

  /** How the loop ends is decided by the book it starts from, in any table. */
  lemma {:induction false} HowItEnds(repos: seq<Repository>, rows0: seq<StockRow>, round: nat, rows: seq<StockRow>,
          result: RepairResult)
    requires BookState(repos, Current(rows0), round, Current(rows)) && round <= MAX_REPAIR_ROUNDS
    requires result.Repaired? ==>
      round < MAX_REPAIR_ROUNDS && Settled(repos, Owns(Current(rows)), Quantities(Current(rows)))
    requires result.Stalled? ==>
      round < MAX_REPAIR_ROUNDS && Stuck(repos, Owns(Current(rows)), Quantities(Current(rows)))
    requires result.NotConverged? ==> round == MAX_REPAIR_ROUNDS
    requires !result.Broken?
    ensures result.Repaired? <==> Converges(repos, rows0)
    ensures result.Stalled? <==> GetsStuck(repos, rows0)
  {
    var own, qty := Owns(Current(rows0)), Quantities(Current(rows0));
    assert Quantities(Current(rows)) == PeelN(repos, own, qty, round) && Owns(Current(rows)) == own;
    forall k: nat | k < round
      ensures !Settled(repos, own, PeelN(repos, own, qty, k)) && !Stuck(repos, own, PeelN(repos, own, qty, k))
    {
      NotEndedBefore(repos, Current(rows0), round, Current(rows), k);
    }
    if !result.NotConverged? {
      assert !GoesOn(repos, own, PeelN(repos, own, qty, round));
      forall k: nat | round <= k < MAX_REPAIR_ROUNDS
        ensures PeelN(repos, own, qty, k) == PeelN(repos, own, qty, round)
      {
        NothingReadyStays(repos, own, qty, round, k);
      }
    }
  }

  lemma {:induction false} OnlyCorrectionsAfter(repos: seq<Repository>, rows0: seq<StockRow>, round: nat,
          rows: seq<StockRow>, versions: map<Pair, int>, plan: RepairPlan)
    requires RepairState(repos, rows0, round, rows, versions, plan)
    ensures OnlyCorrections(rows0, rows) && DistinctRows(rows[|rows0|..])
    ensures BookState(repos, Current(rows0), round, Current(rows))
  {
    assert rows[|rows0|..] == plan.corrective;
  }

  lemma {:induction false} NoCorrections(rows: seq<StockRow>)
    ensures OnlyCorrections(rows, rows) && DistinctRows(rows[|rows|..])
  {
  }

  lemma {:induction false} RoundStarts(repos: seq<Repository>, rows0: seq<StockRow>, round: nat, rows: seq<StockRow>,
          versions: map<Pair, int>, plan: RepairPlan)
    requires RepairState(repos, rows0, round, rows, versions, plan)
    ensures Current(rows).Keys == Targets(repos, Current(rows)).Keys
    ensures RoundState(Targets(repos, Current(rows)), rows0, Current(rows), plan.corrective, {}, rows, versions,
        plan.corrective)
    ensures Current(rows).Keys == Current(rows0).Keys
    ensures forall p :: p in Current(rows) ==> SameButQuantity(Current(rows)[p], Current(rows0)[p])
  {
    hide CurrentUpTo, Corrects, Expected;
  }

  /** Also in the middle of a round: what it has corrected so far was not corrected before, and the
      versions it goes by are there. */
  lemma {:induction false} RoundSoFar(repos: seq<Repository>, targets: map<Pair, int>, rows0: seq<StockRow>, round: nat,
          before: seq<StockRow>, versions0: map<Pair, int>, plan: RepairPlan, ready: set<Pair>, done: set<Pair>,
          rows: seq<StockRow>, versions: map<Pair, int>, corrective: seq<StockRow>)
    requires ValidTable(repos) && round < MAX_REPAIR_ROUNDS && targets.Keys == Current(before).Keys
    requires RepairState(repos, rows0, round, before, versions0, plan)
    requires RoundState(targets, rows0, Current(before), plan.corrective, done, rows, versions, corrective)
    requires forall p :: p in ready <==> Ready(repos, Owns(Current(before)), Quantities(Current(before)), p)
    requires DistinctRows(plan.corrective) && RowKeys(plan.corrective) !! ready ==> DistinctRows(corrective)
    ensures OnlyCorrections(rows0, rows) && DistinctRows(rows[|rows0|..])
    ensures RowKeys(corrective) == RowKeys(plan.corrective) + done
    ensures forall p :: p in Current(before) ==> p in versions
  {
    hide Ready, CorrectedBefore, PeelN, Owns, Quantities, CurrentUpTo, RowKeys, DistinctRows, Corrects;
    forall p | p in Current(before)
      ensures p in versions
    {
      CurrentIsHighest(rows, p);
      assert Current(rows)[p] in rows;
    }
    assert BookState(repos, Current(rows0), round, Current(before));
    KeysAfterRound(repos, Current(rows0), round, Current(before), ready, RowKeys(plan.corrective),
        RowKeys(plan.corrective) + ready);
    assert rows[|rows0|..] == corrective;
  }

  lemma {:induction false} RepairStarts(repos: seq<Repository>, rows: seq<StockRow>, versions: map<Pair, int>)
    requires BoundsVersions(rows, versions)
    ensures RepairState(repos, rows, 0, rows, versions, RepairPlan([], [], {}))
  {
    var plan := RepairPlan([], [], {});
    assert rows + plan.corrective == rows;
    assert RowsState(rows, rows, versions, plan.corrective);
    assert BookState(repos, Current(rows), 0, Current(rows));
  }

  lemma {:induction false} PlanUpdated(repos: seq<Repository>, rows0: seq<StockRow>, round: nat, rows: seq<StockRow>,
          versions: map<Pair, int>, plan: RepairPlan, next: RepairPlan)
    requires RepairState(repos, rows0, round, rows, versions, plan)
    requires next.corrective == plan.corrective && Planned(repos, Current(rows0), next)
    ensures RepairState(repos, rows0, round, rows, versions, next)
  {
    assert PlanState(repos, Current(rows0), round, next);
  }

  lemma {:induction false} SurveyAllowed(repos: seq<Repository>, rows0: seq<StockRow>, round: nat, rows: seq<StockRow>,
          versions: map<Pair, int>, plan: RepairPlan)
    requires RepairState(repos, rows0, round, rows, versions, plan)
    requires round == 0 ==> rows == rows0
    ensures Current(rows).Keys == Current(rows0).Keys
    ensures if round == 0 then Current(rows) == Current(rows0) else Planned(repos, Current(rows0), plan)
    ensures OnlyCorrections(rows0, rows)
  {
    OnlyCorrectionsAfter(repos, rows0, round, rows, versions, plan);
  }

  lemma {:induction false} RepairDone(repos: seq<Repository>, rank: map<Uuid, nat>, n: nat, rows0: seq<StockRow>,
          round: nat, rows: seq<StockRow>, versions: map<Pair, int>, plan: RepairPlan)
    requires ValidTable(repos) && round < MAX_REPAIR_ROUNDS
    requires RepairState(repos, rows0, round, rows, versions, plan) && Planned(repos, Current(rows0), plan)
    requires Settled(repos, Owns(Current(rows)), Quantities(Current(rows)))
    ensures CompletePlan(repos, rows0, rows, plan)
    ensures Forest(repos, rank, n) ==>
      StoresRecursiveSums(repos, rank, n, rows0, rows) && OneRowPerWrongPair(repos, rank, n, rows0, plan.corrective)
  {
    var own, qty0 := Owns(Current(rows0)), Quantities(Current(rows0));
    if Forest(repos, rank, n) {
      RepairedMeans(repos, rank, n, own, qty0, round);
      forall p | p in Current(rows) && IsLive(repos, p.repo)
        ensures p in SumsOf(repos, rank, n, rows0) && Current(rows)[p].quantity == SumsOf(repos, rank, n, rows0)[p]
      {
        assert p in own;
        assert Quantities(Current(rows))[p] == PeelN(repos, own, qty0, round)[p];
      }
    }
  }

  /** Chains of at most 63 repositories never run out of rounds, whatever the ledger says. */
  lemma {:induction false} ShortChainsConverge(repos: seq<Repository>, rank: map<Uuid, nat>, n: nat,
          rows0: seq<StockRow>)
    requires Forest(repos, rank, n) && n < MAX_REPAIR_ROUNDS
    ensures WrongPairsPerPathWithin(repos, rank, n, rows0, MAX_REPAIR_ROUNDS - 1) && Converges(repos, rows0)
  {
    forall r, item
      ensures DirtyOnPath(repos, rank, n, SumsOf(repos, rank, n, rows0), Quantities(Current(rows0)), r,
          item) <= MAX_REPAIR_ROUNDS - 1
    {
      PathWithinRank(repos, rank, n, SumsOf(repos, rank, n, rows0), Quantities(Current(rows0)), r, item);
    }
    ConvergesBounds(repos, rank, n, rows0);
  }

  // ---- In terms of the rows alone ----

  /** The column own_quantity summed over these pairs' current rows. */
  ghost function OwnTotal(cur: map<Pair, StockRow>, s: set<Pair>): int
    requires s <= cur.Keys
  {
    Total(map q | q in cur :: cur[q].own, s)
  }

  /** What p's row should hold: its own quantity and those of all pairs from which p is reached by a
      chain of live repositories that all have a current row. */
  ghost function OwnBelow(repos: seq<Repository>, cur: map<Pair, StockRow>, p: Pair): int {
    OwnTotal(cur, Below(repos, cur.Keys, p))
  }

  ghost predicate StoresTotals(repos: seq<Repository>, rows0: seq<StockRow>, rows: seq<StockRow>) {
    forall p :: p in Current(rows) && IsLive(repos, p.repo) ==>
      Current(rows)[p].quantity == OwnBelow(repos, Current(rows0), p)
  }

  lemma {:induction false} SumsAreTotals(repos: seq<Repository>, rank: map<Uuid, nat>, n: nat, rows0: seq<StockRow>,
          p: Pair)
    requires Forest(repos, rank, n) && p in Current(rows0) && IsLive(repos, p.repo)
    ensures p in SumsOf(repos, rank, n, rows0)
    ensures SumsOf(repos, rank, n, rows0)[p] == OwnBelow(repos, Current(rows0), p)
  {
    hide Current, CurrentUpTo, IsRollup, Below;
    var cur := Current(rows0);
    RecursiveSumsExist(repos, Owns(cur), rank, n);
    RollupIsTotal(repos, Owns(cur), rank, n, SumsOf(repos, rank, n, rows0), p);
    assert Owns(cur) == (map q | q in cur :: cur[q].own) && Owns(cur).Keys == cur.Keys;
  }

  /** So a repaired ledger holds these totals, and the pairs that got a row are those that did not. */
  lemma {:induction false} TotalsStored(repos: seq<Repository>, rank: map<Uuid, nat>, n: nat, rows0: seq<StockRow>,
          rows: seq<StockRow>)
    requires Forest(repos, rank, n) && StoresRecursiveSums(repos, rank, n, rows0, rows)
    requires Current(rows).Keys == Current(rows0).Keys
    ensures StoresTotals(repos, rows0, rows)
  {
    hide SumsOf, CurrentUpTo, Current, OwnBelow;
    forall p | p in Current(rows) && IsLive(repos, p.repo)
      ensures Current(rows)[p].quantity == OwnBelow(repos, Current(rows0), p)
    {
      SumsAreTotals(repos, rank, n, rows0, p);
    }
  }

  lemma {:induction false} WrongPairs(repos: seq<Repository>, rank: map<Uuid, nat>, n: nat, rows0: seq<StockRow>,
          corrective: seq<StockRow>)
    requires Forest(repos, rank, n) && OneRowPerWrongPair(repos, rank, n, rows0, corrective)
    ensures forall p :: p in RowKeys(corrective) <==>
      p in Current(rows0) && IsLive(repos, p.repo) && Current(rows0)[p].quantity != OwnBelow(repos, Current(rows0), p)
  {
    hide SumsOf, CurrentUpTo, Current, OwnBelow, RowKeys;
    forall p
      ensures p in RowKeys(corrective) <==>
        p in Current(rows0) && IsLive(repos, p.repo) && Current(rows0)[p].quantity != OwnBelow(repos, Current(rows0), p)
    {
      if p in Current(rows0) && IsLive(repos, p.repo) {
        SumsAreTotals(repos, rank, n, rows0, p);
      }
    }
  }

  /** A pair without children holds its row's own quantity. */
  lemma {:induction false} ChildlessHoldsOwn(repos: seq<Repository>, rank: map<Uuid, nat>, n: nat, rows: seq<StockRow>,
          p: Pair)
    requires Forest(repos, rank, n) && p in Current(rows) && IsLive(repos, p.repo)
    requires Children(repos, Current(rows).Keys, p) == {}
    ensures OwnBelow(repos, Current(rows), p) == Current(rows)[p].own
  {
    hide Current, CurrentUpTo, Children, Reaches;
    BelowIs(repos, Current(rows).Keys, rank, n, p);
    assert BelowAny(repos, Current(rows).Keys, {}) == {};
    TotalOfOne(map q | q in Current(rows) :: Current(rows)[q].own, p);
  }

  /** The quantity the pair's row holds, and what it should by the rows of its direct children. */
  function Held(cur: map<Pair, StockRow>, p: Pair): int { if p in cur then cur[p].quantity else 0 }

  ghost function FromChildren(repos: seq<Repository>, cur: map<Pair, StockRow>, p: Pair): int {
    (if p in cur then cur[p].own else 0)
    + Total(map q | q in cur :: cur[q].quantity, set q | q in cur && q in Children(repos, cur.Keys, p))
  }

  /** What the rollup query reports: the live pairs that do not hold what their children's rows add up
      to, each once, with both numbers and the columns of its current row. */
  ghost predicate ReportsMismatches(repos: seq<Repository>, cur: map<Pair, StockRow>, vs: seq<RollupViolation>) {
    && DistinctKeys(vs)
    && (forall p :: p in Keys(vs) <==> IsLive(repos, p.repo) && Held(cur, p) != FromChildren(repos, cur, p))
    && (forall v :: v in vs ==>
        && v.stored == Held(cur, v.Key()) && v.expected == FromChildren(repos, cur, v.Key())
        && (v.hasCurrentRow <==> v.Key() in cur)
        && (v.hasCurrentRow ==> SameColumns(v, cur[v.Key()])))
  }

  predicate SameColumns(v: RollupViolation, r: StockRow) {
    && v.repo == r.repo && v.item == r.item && v.own == r.own && v.ownIncoming == r.ownIncoming
    && v.ownOutgoing == r.ownOutgoing && v.incoming == r.incoming && v.outgoing == r.outgoing
    && v.createdBy == r.createdBy
  }

  lemma {:induction false} ExpectedMeans(repos: seq<Repository>, cur: map<Pair, StockRow>, p: Pair)
    requires ValidTable(repos)
    ensures Expected(repos, Owns(cur), Quantities(cur), p) == FromChildren(repos, cur, p)
    ensures ViolatedIn(repos, cur, p) <==> IsLive(repos, p.repo) && Held(cur, p) != FromChildren(repos, cur, p)
  {
    hide Children, ChildSum;
    ChildSumIsTotal(repos, Quantities(cur), p);
    assert Quantities(cur) == (map q | q in cur :: cur[q].quantity) && Quantities(cur).Keys == cur.Keys;
    AreKeys(repos, cur.Keys, p);
    assert (set q | q in cur && q in Children(repos, cur.Keys, p)) == Children(repos, cur.Keys, p);
  }

  lemma {:induction false} ListingMeans(repos: seq<Repository>, rows: seq<StockRow>, vs: seq<RollupViolation>)
    requires ValidTable(repos) && ListsViolations(repos, Current(rows), vs)
    ensures ReportsMismatches(repos, Current(rows), vs)
  {
    hide CurrentUpTo, Current, FromChildren, Expected, ViolatedIn;
    var cur := Current(rows);
    forall p
      ensures p in Keys(vs) <==> IsLive(repos, p.repo) && Held(cur, p) != FromChildren(repos, cur, p)
    {
      ExpectedMeans(repos, cur, p);
      if v :| v in vs && v.Key() == p {
        var k :| 0 <= k < |vs| && vs[k] == v;
      }
    }
    forall v | v in vs
      ensures v.stored == Held(cur, v.Key()) && v.expected == FromChildren(repos, cur, v.Key())
      ensures v.hasCurrentRow <==> v.Key() in cur
      ensures v.hasCurrentRow ==> SameColumns(v, cur[v.Key()])
    {
      var k :| 0 <= k < |vs| && vs[k] == v;
      ExpectedMeans(repos, cur, v.Key());
      CurrentIsHighest(rows, v.Key());
    }
  }

  // ---- The gate before the commit ----

  /** A rowless pair that balances now and stops balancing once its descendants are corrected. */
  ghost predicate RepairUnbalances(repos: seq<Repository>, rank: map<Uuid, nat>, n: nat, rows0: seq<StockRow>, p: Pair)
    requires Forest(repos, rank, n)
  {
    && IsLive(repos, p.repo) && p !in Current(rows0)
    && ChildSum(repos, Quantities(Current(rows0)), p) == 0
    && ChildSum(repos, SumsOf(repos, rank, n, rows0), p) != 0
  }

  /** Every violation in rows was already there, on a pair without a current row, in rows0. */
  ghost predicate OnlyOldRowlessViolations(repos: seq<Repository>, rows0: seq<StockRow>, rows: seq<StockRow>) {
    forall p :: ViolatedIn(repos, Current(rows), p) ==> p !in Current(rows0) && ViolatedIn(repos, Current(rows0), p)
  }

  lemma {:induction false} RepairedChildSum(repos: seq<Repository>, rank: map<Uuid, nat>, n: nat, rows0: seq<StockRow>,
          rows: seq<StockRow>, p: Pair)
    requires Forest(repos, rank, n) && StoresRecursiveSums(repos, rank, n, rows0, rows)
    requires Current(rows).Keys == Current(rows0).Keys
    ensures ChildSum(repos, Quantities(Current(rows)), p) == ChildSum(repos, SumsOf(repos, rank, n, rows0), p)
  {
    var qty, sums := Quantities(Current(rows)), SumsOf(repos, rank, n, rows0);
    if ChildSum(repos, qty, p) != ChildSum(repos, sums, p) {
      ChildSumDiffers(repos, qty, sums, p);
    }
  }

  /** What the check after the insert finds: nothing, unless the repair unbalanced a rowless pair. */
  lemma {:induction false} RemainingIffUnbalanced(repos: seq<Repository>, rows0: seq<StockRow>, rows: seq<StockRow>,
          plan: RepairPlan, remaining: seq<RollupViolation>)
    requires CompletePlan(repos, rows0, rows, plan)
    requires forall p :: p in Keys(remaining) <==> ViolatedIn(repos, Current(rows), p) && p !in plan.unfixable
    ensures remaining == [] <==> OnlyOldRowlessViolations(repos, rows0, rows)
    ensures forall rank, n :: Forest(repos, rank, n) && StoresRecursiveSums(repos, rank, n, rows0, rows) ==>
      (remaining == [] <==> forall p :: !RepairUnbalances(repos, rank, n, rows0, p))
  {
    var cur0, cur := Current(rows0), Current(rows);
    forall p
      ensures p in Keys(remaining) ==> p !in cur
    {
      assert !Fixable(repos, Owns(cur), Quantities(cur), p);
    }
    if remaining != [] {
      assert remaining[0].Key() in Keys(remaining);
    }
    forall rank, n | Forest(repos, rank, n) && StoresRecursiveSums(repos, rank, n, rows0, rows)
      ensures remaining == [] <==> forall p :: !RepairUnbalances(repos, rank, n, rows0, p)
    {
      forall p
        ensures p in Keys(remaining) <==> RepairUnbalances(repos, rank, n, rows0, p)
      {
        RepairedChildSum(repos, rank, n, rows0, rows, p);
        assert ViolatedIn(repos, cur0, p) && p !in cur0 <==> p in plan.unfixable;
      }
    }
  }

  lemma {:induction false} PlanKeys(repos: seq<Repository>, rows0: seq<StockRow>, rows: seq<StockRow>, plan: RepairPlan)
    requires CompletePlan(repos, rows0, rows, plan)
    ensures Current(rows).Keys == Current(rows0).Keys
  {
  }

  lemma {:induction false} NothingUnbalanced(repos: seq<Repository>, rank: map<Uuid, nat>, n: nat, rows: seq<StockRow>)
    requires Forest(repos, rank, n) && StoresRecursiveSums(repos, rank, n, rows, rows)
    ensures forall p :: !RepairUnbalances(repos, rank, n, rows, p)
  {
    forall p
      ensures !RepairUnbalances(repos, rank, n, rows, p)
    {
      RepairedChildSum(repos, rank, n, rows, rows, p);
    }
  }

  lemma {:induction false} NothingWritten(repos: seq<Repository>, rows0: seq<StockRow>, rows: seq<StockRow>,
          plan: RepairPlan)
    requires CompletePlan(repos, rows0, rows, plan) && plan.corrective == []
    ensures rows == rows0 && OnlyOldRowlessViolations(repos, rows0, rows)
  {
    assert rows0 + plan.corrective == rows0;
    forall p | ViolatedIn(repos, Current(rows), p)
      ensures p !in Current(rows0)
    {
      assert !Fixable(repos, Owns(Current(rows)), Quantities(Current(rows)), p);
    }
  }

  // ---- Every end is reached ----

  function Row(repo: Uuid, item: Uuid, quantity: int, own: int): StockRow {
    StockRow(repo, item, 1, quantity, own, 0, 0, 0, 0, NONE, false)
  }

  /** One row of quantity 1 for each of the repositories 1 to n. */
  function ChainRows(n: nat, item: Uuid): (rows: seq<StockRow>)
    ensures |rows| == n
  {
    if n == 0 then [] else ChainRows(n - 1, item) + [Row(n, item, 1, 0)]
  }

  lemma {:induction false} ChainCurrent(n: nat, item: Uuid, p: Pair)
    ensures p in Current(ChainRows(n, item)) <==> 1 <= p.repo <= n && p.item == item
    ensures p in Current(ChainRows(n, item)) ==> Current(ChainRows(n, item))[p] == Row(p.repo, item, 1, 0)
  {
    if n > 0 {
      ChainCurrent(n - 1, item, p);
      ChainCurrent(n - 1, item, Pair(n, item));
      CurrentUpToAppend(ChainRows(n - 1, item), Row(n, item, 1, 0), n - 1);
    }
  }

  lemma {:induction false} ChainBooks(n: nat, item: Uuid)
    ensures Owns(Current(ChainRows(n, item))) == ChainBook(n, item, 0)
    ensures Quantities(Current(ChainRows(n, item))) == ChainBook(n, item, 1)
  {
    var cur := Current(ChainRows(n, item));
    forall p
      ensures p in cur <==> p in ChainBook(n, item, 0)
      ensures p in cur ==> cur[p] == Row(p.repo, item, 1, 0)
    {
      ChainCurrent(n, item, p);
      ChainParents(n, p.repo);
      assert p.repo in Parents(Chain(n)) && p.item == item ==> p == Pair(p.repo, item);
    }
  }

  /** A chain of 64 repositories whose stored quantities are all 1 and should be 0: the repair runs
      out of rounds. */
  lemma {:induction false} FullChainRunsOut(item: Uuid)
    ensures var rows := ChainRows(MAX_REPAIR_ROUNDS, item);
      && Forest(Chain(MAX_REPAIR_ROUNDS), ChainRank(MAX_REPAIR_ROUNDS), MAX_REPAIR_ROUNDS)
      && !Converges(Chain(MAX_REPAIR_ROUNDS), rows) && !GetsStuck(Chain(MAX_REPAIR_ROUNDS), rows)
  {
    hide Forest, Settled, PeelN, Current, Owns, Quantities, Stuck;
    var n := MAX_REPAIR_ROUNDS;
    var repos, own, qty := Chain(n), ChainBook(n, item, 0), ChainBook(n, item, 1);
    FullChainNeedsEveryRound(n, item);
    ChainBooks(n, item);
    forall k: nat | k < n
      ensures !Settled(repos, own, PeelN(repos, own, qty, k))
    {
      if Settled(repos, own, PeelN(repos, own, qty, k)) {
        SettledStays(repos, own, qty, k, n - 1);
      }
    }
    NeverStuck(repos, ChainRank(n), n, ChainRows(n, item));
  }

  /** Two repositories that are each other's parent: the repair stalls. */
  lemma {:induction false} CycleStalls(item: Uuid)
    ensures var repos := [Repository(1, 2, false), Repository(2, 1, false)];
      ValidTable(repos) && GetsStuck(repos, [Row(1, item, 1, 0), Row(2, item, 0, 0)])
  {
    var repos := [Repository(1, 2, false), Repository(2, 1, false)];
    var rows := [Row(1, item, 1, 0), Row(2, item, 0, 0)];
    var a, b := Pair(1, item), Pair(2, item);
    assert rows[..1] == [rows[0]] && rows[..2] == rows;
    assert Current(rows) == map[a := rows[0], b := rows[1]] by {
      assert CurrentUpTo(rows, 1) == map[a := rows[0]];
    }
    var own, qty := Owns(Current(rows)), Quantities(Current(rows));
    assert own == map[a := 0, b := 0] && qty == map[a := 1, b := 0];
    TwoRepositories(repos, qty, a);
    TwoRepositories(repos, qty, b);
    assert Fixable(repos, own, qty, a) by { assert repos[0].id == 1; }
    assert Fixable(repos, own, qty, b) by { assert repos[1].id == 2; }
    TwoParents(repos);
    assert Up(Parents(repos), 1, 0) == 1 && Up(Parents(repos), 1, 1) == 2;
    assert Up(Parents(repos), 2, 0) == 2 && Up(Parents(repos), 2, 1) == 1;
    assert Stuck(repos, own, PeelN(repos, own, qty, 0));
  }

  lemma {:induction false} TwoParents(repos: seq<Repository>)
    requires |repos| == 2 && !repos[0].deleted && !repos[1].deleted
    ensures Parents(repos) == map[repos[0].id := repos[0].parent][repos[1].id := repos[1].parent]
  {
    var first := repos[..1];
    assert first == [repos[0]] && first[..0] == [] && Parents(first[..0]) == map[];
    assert Parents(first) == map[repos[0].id := repos[0].parent];
  }

  lemma {:induction false} TwoRepositories(repos: seq<Repository>, qty: map<Pair, int>, p: Pair)
    requires |repos| == 2
    ensures ChildSum(repos, qty, p) ==
      (if IsChild(repos[0], qty, p) then qty[Pair(repos[0].id, p.item)] else 0)
      + (if IsChild(repos[1], qty, p) then qty[Pair(repos[1].id, p.item)] else 0)
  {
    var first := repos[..1];
    assert first == [repos[0]] && first[..0] == [];
    assert ChildSum(first, qty, p) == if IsChild(repos[0], qty, p) then qty[Pair(repos[0].id, p.item)] else 0;
  }

  /** A parent without a row above a child whose row is wrong: the repair of the child unbalances the
      parent, and exit code 3 follows. */
  lemma {:induction false} RowlessParentUnbalances(item: Uuid)
    ensures var repos, rank := [Repository(1, NONE, false), Repository(2, 1, false)], map[1 := 1, 2 := 0];
      var rows := [Row(2, item, 0, 5)];
      Forest(repos, rank, 2) && Converges(repos, rows) && RepairUnbalances(repos, rank, 2, rows, Pair(1, item))
  {
    var repos, rank := [Repository(1, NONE, false), Repository(2, 1, false)], map[1 := 1, 2 := 0];
    var rows := [Row(2, item, 0, 5)];
    var parent, child := Pair(1, item), Pair(2, item);
    TwoParents(repos);
    assert CurrentUpTo(rows, 0) == map[] && Current(rows) == map[child := rows[0]];
    var own, sums := Owns(Current(rows)), SumsOf(repos, rank, 2, rows);
    RecursiveSumsExist(repos, own, rank, 2);
    TwoRepositories(repos, Quantities(Current(rows)), parent);
    TwoRepositories(repos, sums, parent);
    TwoRepositories(repos, sums, child);
    assert IsLive(repos, 1) && IsLive(repos, 2) by { assert repos[0].id == 1 && repos[1].id == 2; }
    assert sums[child] == 5;
    ShortChainsConverge(repos, rank, 2, rows);
  }

  class Ledger {
    const repos: seq<Repository>
    /** Whether the database fails the statement with this number. */
    const fails: nat -> bool
    var rows: seq<StockRow>
    var issued: nat

    constructor (repos: seq<Repository>, rows: seq<StockRow>, fails: nat -> bool)
      ensures this.repos == repos && this.rows == rows && this.fails == fails && issued == 0
    {
      this.repos, this.rows, this.fails := repos, rows, fails;
      issued := 0;
    }

    /** The database has answered these statements. */
    ghost predicate Answered(from: nat, to: nat) { forall k: nat :: from <= k < to ==> !fails(k) }

    method Issue() returns (ok: bool)
      modifies this`issued
      ensures issued == old(issued) + 1 && ok == !fails(old(issued))
    {
      ok := !fails(issued);
      issued := issued + 1;
    }

    method RepoParents() returns (parents: map<Uuid, Uuid>)
      ensures parents == Parents(repos)
    {
      parents := map[];
      var i := 0;
      while i < |repos|
        invariant 0 <= i <= |repos|
        invariant parents == Parents(repos[..i])
      {
        assert repos[..i + 1][..i] == repos[..i];
        if !repos[i].deleted {
          parents := parents[repos[i].id := repos[i].parent];
        }
        i := i + 1;
      }
      assert repos[..i] == repos;
    }

    method MaxVersions() returns (versions: map<Pair, int>)
      ensures IsMaxVersions(rows, versions) && BoundsVersions(rows, versions)
    {
      versions := map[];
      var i := 0;
      while i < |rows|
        invariant 0 <= i <= |rows|
        invariant IsMaxVersions(rows[..i], versions)
      {
        var p := rows[i].Key();
        ghost var before := versions;
        if p !in versions || versions[p] < rows[i].version {
          versions := versions[p := rows[i].version];
        }
        assert rows[..i + 1] == rows[..i] + [rows[i]];
        assert rows[i] in rows[..i + 1];
        forall q | q in versions
          ensures exists r {:trigger r in rows[..i + 1]} ::
              r in rows[..i + 1] && r.Key() == q && r.version == versions[q]
        {
          if q in before && versions[q] == before[q] {
            var r :| r in rows[..i] && r.Key() == q && r.version == before[q];
            assert r in rows[..i + 1];
          }
        }
        i := i + 1;
      }
      assert rows[..i] == rows;
    }

    /** Every (repository, item) combination the query could report, once. */
    method NodePairs() returns (pairs: seq<Pair>)
      requires ValidTable(repos)
      ensures forall i, j :: 0 <= i < j < |pairs| ==> pairs[i] != pairs[j]
      ensures forall h, r :: 0 <= h < |repos| && r in rows ==> Pair(repos[h].id, r.item) in pairs
    {
      var items: seq<Uuid> := [];
      for i := 0 to |rows|
        invariant forall r :: r in rows[..i] ==> r.item in items
        invariant forall j, k :: 0 <= j < k < |items| ==> items[j] != items[k]
      {
        if rows[i].item !in items {
          items := items + [rows[i].item];
        }
      }
      pairs := [];
      for i := 0 to |repos|
        invariant forall j, k :: 0 <= j < k < |pairs| ==> pairs[j] != pairs[k]
        invariant forall p :: p in pairs ==> exists h :: 0 <= h < i && repos[h].id == p.repo
        invariant forall h, item :: 0 <= h < i && item in items ==> Pair(repos[h].id, item) in pairs
      {
        var own: seq<Pair> := [];
        for j := 0 to |items|
          invariant |own| == j && forall k :: 0 <= k < j ==> own[k] == Pair(repos[i].id, items[k])
        {
          own := own + [Pair(repos[i].id, items[j])];
        }
        forall item | item in items
          ensures Pair(repos[i].id, item) in own
        {
          var k :| 0 <= k < |items| && items[k] == item;
          assert own[k] == Pair(repos[i].id, item);
        }
        pairs := pairs + own;
      }
    }

    /** rollupViolations: every violating pair once, with the fields of its current row. */
    method RollupViolations() returns (vs: seq<RollupViolation>)
      requires ValidTable(repos)
      ensures ListsViolations(repos, Current(rows), vs)
      ensures ReportsMismatches(repos, Current(rows), vs)
    {
      hide CurrentUpTo, Current, ChildSum, Expected, Keys, ReportsMismatches;
      var cur := Current(rows);
      var pairs := NodePairs();
      vs := [];
      for i := 0 to |pairs|
        invariant forall k :: 0 <= k < |vs| ==>
            vs[k] == ViolationOf(repos, cur, vs[k].Key()) && ViolatedIn(repos, cur, vs[k].Key())
        invariant DistinctKeys(vs)
        invariant forall k :: 0 <= k < |vs| ==> vs[k].Key() in pairs[..i]
        invariant forall k :: 0 <= k < i && ViolatedIn(repos, cur, pairs[k]) ==> pairs[k] in Keys(vs)
      {
        if Violated(repos, Owns(cur), Quantities(cur), pairs[i]) {
          forall k | 0 <= k < |vs|
            ensures vs[k].Key() != pairs[i]
          {
            assert vs[k].Key() in pairs[..i];
            var l :| 0 <= l < i && pairs[..i][l] == vs[k].Key();
          }
          KeysAppend(vs, ViolationOf(repos, cur, pairs[i]));
          vs := vs + [ViolationOf(repos, cur, pairs[i])];
        }
      }
      forall p | ViolatedIn(repos, cur, p)
        ensures p in Keys(vs)
      {
        ViolatedItemHasRow(repos, rows, p);
        var h :| 0 <= h < |repos| && !repos[h].deleted && repos[h].id == p.repo;
        var r :| r in rows && r.item == p.item;
        assert Pair(repos[h].id, r.item) in pairs;
        var k :| 0 <= k < |pairs| && pairs[k] == p;
      }
      ListingMeans(repos, rows, vs);
    }

    /** The reading half of a round: the query, the record of what the first round cannot fix,
        and the choice of what this round corrects. */
    method Survey(parents: map<Uuid, Uuid>, plan0: RepairPlan, first: bool, ghost rows0: seq<StockRow>)
      returns (plan: RepairPlan, fixable: seq<RollupViolation>, ready: seq<RollupViolation>)
      requires ValidTable(repos) && parents == Parents(repos) && NONE !in parents
      requires Current(rows).Keys == Current(rows0).Keys
      requires if first then Current(rows) == Current(rows0) else Planned(repos, Current(rows0), plan0)
      ensures Planned(repos, Current(rows0), plan) && plan.corrective == plan0.corrective
      ensures |fixable| == 0 ==> Settled(repos, Owns(Current(rows)), Quantities(Current(rows)))
      ensures forall p :: p in Keys(fixable) <==> Fixable(repos, Owns(Current(rows)), Quantities(Current(rows)), p)
      ensures forall p :: p in Keys(ready) <==> Ready(repos, Owns(Current(rows)), Quantities(Current(rows)), p)
      ensures DistinctKeys(ready)
      ensures forall v :: v in ready ==> Prices(v, Current(rows), Targets(repos, Current(rows)))
    {
      plan := plan0;
      var violations := RollupViolations();
      if first {
        plan := plan.(initial := violations, unfixable := WithoutCurrentRow(violations));
        UnfixableAre(repos, Current(rows0), violations, plan.unfixable);
      }
      UnfixableHaveNoRow(repos, Current(rows), violations, Current(rows0), plan);
      fixable := WithCurrentRow(violations, plan.unfixable);
      ready := ReadyToCorrect(fixable, parents);
      ReadyRowsAreReady(repos, Current(rows), violations, fixable, ready);
      ReadyRowsArePriced(repos, Current(rows), ready);
      if |fixable| == 0 {
        assert Keys(fixable) == {};
      }
    }

    /** The insert loop of one round: one row per ready violation, in order. */
    method CorrectRound(ready: seq<RollupViolation>, versions: map<Pair, int>, plan: RepairPlan, ghost round: nat,
            ghost rows0: seq<StockRow>) returns (ok: bool, corrective: seq<StockRow>, bumped: map<Pair, int>)
      requires ValidTable(repos) && round < MAX_REPAIR_ROUNDS
      requires RepairState(repos, rows0, round, rows, versions, plan) && Planned(repos, Current(rows0), plan)
      requires GoesOn(repos, Owns(Current(rows)), Quantities(Current(rows)))
      requires forall p :: p in Keys(ready) <==> Ready(repos, Owns(Current(rows)), Quantities(Current(rows)), p)
      requires DistinctKeys(ready)
      requires forall v :: v in ready ==> Prices(v, Current(rows), Targets(repos, Current(rows)))
      modifies this`rows, this`issued
      ensures issued >= old(issued) && (ok <==> Answered(old(issued), issued))
      ensures ok ==> RepairState(repos, rows0, round + 1, rows, bumped, plan.(corrective := corrective))
      ensures OnlyCorrections(rows0, rows) && DistinctRows(rows[|rows0|..])
    {
      hide CurrentUpTo, Fixable, Ready, Targets, Corrects, RoundState, RepairState, OnlyCorrections, DistinctRows,
          Answered, GoesOn, Planned;
      ghost var start, before := Current(rows), rows;
      ghost var targets := Targets(repos, start);
      ok, corrective, bumped := true, plan.corrective, versions;
      NothingIssued();
      RoundStarts(repos, rows0, round, rows, versions, plan);
      assert Keys(ready[..0]) == {};
      for i := 0 to |ready|
        invariant RoundState(targets, rows0, start, plan.corrective, Keys(ready[..i]), rows, bumped, corrective)
        invariant DistinctRows(plan.corrective) && RowKeys(plan.corrective) !! Keys(ready) ==> DistinctRows(corrective)
        invariant issued >= old(issued) && Answered(old(issued), issued)
      {
        var v := ready[i];
        assert v in ready;
        RoundSoFar(repos, targets, rows0, round, before, versions, plan, Keys(ready), Keys(ready[..i]), rows, bumped,
            corrective);
        NotAmong(ready, i, ready[..i]);
        assert ready[..i + 1] == ready[..i] + [v];
        KeysAppend(ready[..i], v);
        CurrentIsHighest(before, v.Key());
        var row := StockRow(v.repo, v.item, bumped[v.Key()] + 1, v.expected, v.own, v.incoming, v.outgoing,
                            v.ownIncoming, v.ownOutgoing, v.createdBy, false);
        ok := Issue();
        OneMore(old(issued), issued - 1);
        if !ok {
          return;
        }
        RoundStateStep(targets, rows0, start, plan.corrective, Keys(ready[..i]), rows, bumped, corrective, v.Key(),
            row);
        RowKeysAppend(corrective, row);
        bumped := bumped[v.Key() := row.version];
        rows := rows + [row];
        corrective := corrective + [row];
      }
      assert ready[..|ready|] == ready;
      RepairStateStep(repos, rows0, round, before, versions, plan, Keys(ready), rows, bumped, corrective);
      OnlyCorrectionsAfter(repos, rows0, round + 1, rows, bumped, plan.(corrective := corrective));
    }

    /** The round loop of repairTenant, up to the ways it ends; every query and every insert is a
        statement that may fail. */
    method RunRounds()
      returns (result: RepairResult, ghost round: nat, ghost bumped: map<Pair, int>, ghost plan: RepairPlan)
      requires ValidTable(repos)
      modifies this`rows, this`issued
      ensures issued >= old(issued) && (result.Broken? <==> !Answered(old(issued), issued))
      ensures !result.Broken? ==>
        round <= MAX_REPAIR_ROUNDS && RepairState(repos, old(rows), round, rows, bumped, plan)
      ensures OnlyCorrections(old(rows), rows) && DistinctRows(rows[|old(rows)|..])
      ensures result.Repaired? ==>
        round < MAX_REPAIR_ROUNDS && result.plan == plan && Planned(repos, Current(old(rows)), plan)
      ensures result.Repaired? ==> Settled(repos, Owns(Current(rows)), Quantities(Current(rows)))
      ensures result.NotConverged? ==> round == MAX_REPAIR_ROUNDS
      ensures result.Stalled? ==>
        round < MAX_REPAIR_ROUNDS && Stuck(repos, Owns(Current(rows)), Quantities(Current(rows)))
    {
      ghost var rows0 := rows;
      NothingIssued();
      hide *;
      var current := RepairPlan([], [], {});
      bumped, plan, round := map[], current, 0;
      result := Broken;
      NoCorrections(rows);
      var ok := Issue();
      OneMore(old(issued), old(issued));
      if !ok {
        return;
      }
      var parents := RepoParents();
      ok := Issue();
      OneMore(old(issued), issued - 1);
      if !ok {
        return;
      }
      var versions := MaxVersions();
      RootIsNoRepository(repos);
      var k: nat := 0;
      RepairStarts(repos, rows, versions);
      while true
        invariant round == k <= MAX_REPAIR_ROUNDS
        invariant RepairState(repos, rows0, k, rows, versions, current)
        invariant k == 0 ==> rows == rows0
        invariant issued >= old(issued) && Answered(old(issued), issued) && result == Broken
        decreases MAX_REPAIR_ROUNDS - k
      {
        bumped, plan := versions, current;
        OnlyCorrectionsAfter(repos, rows0, k, rows, versions, current);
        if k >= MAX_REPAIR_ROUNDS {
          result := NotConverged;
          return;
        }
        ok := Issue();
        OneMore(old(issued), issued - 1);
        if !ok {
          return;
        }
        SurveyAllowed(repos, rows0, k, rows, versions, current);
        var next, fixable, ready := Survey(parents, current, k == 0, rows0);
        PlanUpdated(repos, rows0, k, rows, versions, current, next);
        current, plan := next, next;
        if |fixable| == 0 {
          result := Repaired(current);
          return;
        }
        if |ready| == 0 {
          NothingReady(repos, Current(rows), fixable, ready);
          result := Stalled;
          return;
        }
        SomethingReady(repos, Current(rows), ready);
        var corrective: seq<StockRow>;
        ghost var from := issued;
        ok, corrective, versions := CorrectRound(ready, versions, current, k, rows0);
        More(old(issued), from, issued);
        if !ok {
          return;
        }
        current := current.(corrective := corrective);
        k := k + 1;
        round := k;
      }
    }

    lemma {:induction false} NothingIssued()
      ensures forall k :: Answered(k, k)
    {
    }

    lemma {:induction false} OneMore(from: nat, to: nat)
      requires from <= to
      ensures Answered(from, to + 1) <==> Answered(from, to) && !fails(to)
    {
    }

    lemma {:induction false} More(from: nat, mid: nat, to: nat)
      requires from <= mid <= to
      ensures Answered(from, to) <==> Answered(from, mid) && Answered(mid, to)
    {
    }

    /** repairTenant.  rank and n are ghost: they only name the forest some of the promises are about. */
    method RepairTenant(ghost rank: map<Uuid, nat>, ghost n: nat) returns (result: RepairResult)
      requires ValidTable(repos)
      modifies this`rows, this`issued
      // It breaks off exactly when the database fails one of its statements.
      ensures issued >= old(issued) && (result.Broken? <==> !Answered(old(issued), issued))
      // Whatever the table and the outcome, the ledger only grows, by well-formed corrections and by
      // at most one for each pair.
      ensures OnlyCorrections(old(rows), rows) && DistinctRows(rows[|old(rows)|..])
      ensures result.Repaired? ==> CompletePlan(repos, old(rows), rows, result.plan)
      // Otherwise, whatever the table, how it ends is decided by the book.
      ensures !result.Broken? ==> (result.Repaired? <==> Converges(repos, old(rows)))
      ensures !result.Broken? ==> (result.Stalled? <==> GetsStuck(repos, old(rows)))
      // On a forest of any depth it never stalls, and success means that the recursive sums are
      // stored, by one row for each wrong pair and for no other.
      ensures Forest(repos, rank, n) ==> !result.Stalled?
      ensures Forest(repos, rank, n) && result.Repaired? ==> StoresRecursiveSums(repos, rank, n, old(rows), rows)
      ensures Forest(repos, rank, n) && result.Repaired? ==> StoresTotals(repos, old(rows), rows)
      ensures Forest(repos, rank, n) && result.Repaired? ==>
        OneRowPerWrongPair(repos, rank, n, old(rows), result.plan.corrective)
      // It succeeds when no path to a root holds more than 63 wrong pairs, and on chains of at most
      // 65 repositories only then.
      ensures Forest(repos, rank, n) && WrongPairsPerPathWithin(repos, rank, n, old(rows), MAX_REPAIR_ROUNDS - 1) ==>
        result.Repaired? || result.Broken?
      ensures Forest(repos, rank, n) && n <= STRETCH && !result.Broken? ==>
        (result.Repaired? <==> WrongPairsPerPathWithin(repos, rank, n, old(rows), MAX_REPAIR_ROUNDS - 1))
    {
      ghost var rows0 := rows;
      ghost var round, bumped, plan;
      result, round, bumped, plan := RunRounds();
      if result.Broken? {
        return;
      }
      OnlyCorrectionsAfter(repos, rows0, round, rows, bumped, plan);
      HowItEnds(repos, rows0, round, rows, result);
      hide *;
      if Forest(repos, rank, n) {
        ConvergesBounds(repos, rank, n, rows0);
        NeverStuck(repos, rank, n, rows0);
      }
      if result.Repaired? {
        RepairDone(repos, rank, n, rows0, round, rows, bumped, plan);
        if Forest(repos, rank, n) {
          PlanKeys(repos, rows0, rows, plan);
          TotalsStored(repos, rank, n, rows0, rows);
        }
      }
    }

    /** verifyAfterFix: every violation the repair answers for. */
    method VerifyAfterFix(preexisting: set<Pair>) returns (remaining: seq<RollupViolation>)
      requires ValidTable(repos)
      ensures forall p :: p in Keys(remaining) <==> ViolatedIn(repos, Current(rows), p) && p !in preexisting
    {
      hide CurrentUpTo, Current, ViolatedIn, ViolationOf;
      var all := RollupViolations();
      remaining := [];
      for i := 0 to |all|
        invariant forall v :: v in remaining <==> v in all[..i] && v.Key() !in preexisting
      {
        assert all[..i + 1] == all[..i] + [all[i]];
        if all[i].Key() !in preexisting {
          remaining := remaining + [all[i]];
        }
      }
      assert all[..|all|] == all;
      forall p
        ensures p in Keys(remaining) <==> ViolatedIn(repos, Current(rows), p) && p !in preexisting
      {
        if ViolatedIn(repos, Current(rows), p) {
          assert p in Keys(all);
        }
        if v :| v in all && v.Key() == p {
          var k :| 0 <= k < |all| && all[k] == v;
        }
      }
    }

    /** The transaction of the execute path, with the exit code it ends in; commits says whether
        the database accepts the commit, and any statement before it may fail. */
    method Fix(commits: bool, ghost rank: map<Uuid, nat>, ghost n: nat) returns (code: int)
      requires ValidTable(repos)
      modifies this`rows, this`issued
      ensures issued >= old(issued) && (!Answered(old(issued), issued) ==> code == 1)
      ensures code in {0, 1, 3}
      // Any other code than 0 leaves the ledger as it was.
      ensures code != 0 ==> rows == old(rows)
      // Code 0 leaves nothing but violations nobody could have corrected, and stores the sums.
      ensures code == 0 ==> OnlyCorrections(old(rows), rows) && OnlyOldRowlessViolations(repos, old(rows), rows)
      ensures code == 0 && Forest(repos, rank, n) ==> StoresRecursiveSums(repos, rank, n, old(rows), rows)
      ensures code == 0 && Forest(repos, rank, n) ==> StoresTotals(repos, old(rows), rows)
      // While the database answers, the code is decided by the books alone; what converging means is
      // in ConvergesBounds.
      ensures Answered(old(issued), issued) && Forest(repos, rank, n) ==>
        (code == 3 <==> Converges(repos, old(rows)) && exists p :: RepairUnbalances(repos, rank, n, old(rows), p))
      ensures Answered(old(issued), issued) && commits ==> (code == 1 <==> !Converges(repos, old(rows)))
      ensures Answered(old(issued), issued) && Forest(repos, rank, n) && n <= STRETCH && commits ==>
        (code == 1 <==> !WrongPairsPerPathWithin(repos, rank, n, old(rows), MAX_REPAIR_ROUNDS - 1))
    {
      NothingIssued();
      hide *;
      var begun := rows;
      var ok := Issue();
      OneMore(old(issued), old(issued));
      if !ok {
        return 1;
      }
      ghost var from := issued;
      var result := RepairTenant(rank, n);
      More(old(issued), from, issued);
      if !result.Repaired? {
        rows := begun;
        return 1;
      }
      var plan := result.plan;
      if |plan.corrective| == 0 {
        NothingWritten(repos, begun, rows, plan);
        if Forest(repos, rank, n) {
          NothingUnbalanced(repos, rank, n, begun);
        }
        rows := begun;
        return 0;
      }
      ok := Issue();
      OneMore(old(issued), issued - 1);
      if !ok {
        rows := begun;
        return 1;
      }
      var remaining := VerifyAfterFix(plan.unfixable);
      RemainingIffUnbalanced(repos, begun, rows, plan, remaining);
      if |remaining| > 0 {
        rows := begun;
        return 3;
      }
      if !commits {
        rows := begun;
        return 1;
      }
      code := 0;
    }
  }
}

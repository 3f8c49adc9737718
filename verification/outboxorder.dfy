/** Events of one transaction reach the stream in created_at order, as long as no fetch skips an open
    row that comes before one it returns; a fetch that does skip one can go on to break the order. */
module OutboxOrder {
  import opened Wrappers
  import opened OutboxTable
  import opened Outbox

  // ---- Invariants ----

  ghost predicate MarksKnown(txs: set<TxId>, marks: seq<Mark>) { forall m :: m in marks && m.Dead? ==> m.tx in txs }

  ghost predicate WorkerKnown(txs: set<TxId>, w: Worker) {
    w.Busy? ==> (forall g :: g in w.groups ==> g.tx in txs) && MarksKnown(txs, w.marks)
  }

  /** Every id and transaction in sight comes from an insert. */
  ghost predicate Known(s: State) {
    && s.rows.Keys <= s.born.Keys && s.deadTxs <= s.txs
    && (forall id :: id in s.born ==> s.born[id].tx in s.txs)
    && (forall p :: p in s.workers ==> WorkerKnown(s.txs, s.workers[p]))
  }

  /** A transaction is dead-lettered as a whole: none of its rows is open any more.  Until then each
      of its rows is open or already in the stream. */
  ghost predicate GroupsSettled(s: State) {
    && (forall id :: id in s.born && s.born[id].tx in s.deadTxs ==> !IsOpen(s.rows, id))
    && (forall id :: id in s.born && s.born[id].tx !in s.deadTxs ==> IsOpen(s.rows, id) || id in s.stream)
    && (forall id :: id in s.rows && id in s.born && s.rows[id].dead ==> s.born[id].tx in s.deadTxs)
  }

  /** The entries of a pending group in created_at order, all of its transaction and distinct. */
  ghost predicate Ascending(born: Births, g: Group) {
    && g.entries != []
    && (forall e :: e in g.entries ==> e.id in born && born[e.id].tx == g.tx)
    && (forall i, j :: 0 <= i < j < |g.entries| ==>
          g.entries[i].id != g.entries[j].id && born[g.entries[i].id].created <= born[g.entries[j].id].created)
  }

  /** What comes before an entry of a pending group and is not one of them is already in the stream. */
  ghost predicate EarlierInStream(born: Births, stream: seq<Id>, g: Group) {
    forall e, a :: e in g.entries && Precedes(born, a, e.id) && a !in IdsOf(g.entries) ==> a in stream
  }

  ghost predicate WorkerOrdered(s: State, w: Worker) {
    match w
    case Idle => true
    case Selected(_) => true
    case Busy(groups, _) => forall g :: g in groups ==> Ascending(s.born, g) && EarlierInStream(s.born, s.stream, g)
    case Draining(selected, acked) =>
        acked <= selected && forall id :: id in selected ==> id in s.born && s.born[id].tx in s.deadTxs
  }

  ghost predicate WorkersOrdered(s: State) { forall p :: p in s.workers ==> WorkerOrdered(s, s.workers[p]) }

  /** Whenever an event was stored, everything its transaction wrote before it already was. */
  ghost predicate StreamOrdered(born: Births, stream: seq<Id>) {
    forall j, a :: 0 <= j < |stream| && Precedes(born, a, stream[j]) ==> a in stream[..j]
  }

  ghost predicate StreamKnown(s: State) { forall id :: id in s.stream ==> id in s.born }

  ghost predicate OrderInv(s: State) {
    Known(s) && GroupsSettled(s) && WorkersOrdered(s) && StreamKnown(s) && StreamOrdered(s.born, s.stream)
        && Truthful(s)
  }

  // ---- Steps ----

  /** No step reopens a row. */
  lemma {:induction false} NotReopened(s: State, step: Step, maxRetries: nat, id: Id)
    requires Enabled(s, step, maxRetries, false) && id in s.born
    ensures IsOpen(After(s, step, maxRetries).rows, id) ==> IsOpen(s.rows, id)
  {
    if step.Persist? && step.commits && id in s.rows {
      ApplyAllSpec(s.rows, s.born, WorkerAt(s, step.p).marks, s.now);
      assert Marked(s.rows, s.born, WorkerAt(s, step.p).marks, After(s, step, maxRetries).rows, id);
    } else if step.Persist? {
      ApplyAllSpec(s.rows, s.born, WorkerAt(s, step.p).marks, s.now);
    }
  }

  lemma {:induction false} KnownStep(s: State, step: Step, maxRetries: nat)
    requires Known(s) && Enabled(s, step, maxRetries, false)
    ensures Known(After(s, step, maxRetries))
  {
    hide WorkerKnown, ApplyAll, Claim, Fetchable, FetchedIds, Selectable, NoneSkipped, HasOpen;
    var s' := After(s, step, maxRetries);
    forall q | q in s'.workers
      ensures WorkerKnown(s'.txs, s'.workers[q])
    {
      WorkerKnownStep(s, step, maxRetries, q);
    }
    match step
    case Persist(p, commits) =>
      ApplyAllSpec(s.rows, s.born, WorkerAt(s, p).marks, s.now);
      MarksKnownAt(s, p);
    case Fetch(_, groups, until) =>
      ClaimKeys(s.rows, FetchedIds(groups), until);
    case Insert(_) =>
    case Select(_, _) =>
    case Publish(_, _) =>
    case DrainSelect(_, _) =>
    case DrainPublish(_, _, _, _) =>
    case DrainCommit(_, _) =>
    case Sweep(_) =>
    case Tick(_) =>
    case Crash(_) =>
  }

  lemma {:induction false} ClaimKeys(rows: Rows, ids: set<Id>, until: int)
    ensures Claim(rows, ids, until).Keys == rows.Keys
  {
  }

  lemma {:induction false} MarksKnownAt(s: State, p: Pid)
    requires Known(s) && WorkerAt(s, p).Busy?
    ensures DeadIn(WorkerAt(s, p).marks) <= s.txs
  {
    assert WorkerKnown(s.txs, s.workers[p]);
  }

  lemma {:induction false} WorkerKnownStep(s: State, step: Step, maxRetries: nat, q: Pid)
    requires Known(s) && Enabled(s, step, maxRetries, false) && q in After(s, step, maxRetries).workers
    ensures WorkerKnown(After(s, step, maxRetries).txs, After(s, step, maxRetries).workers[q])
  {
    hide ApplyAll, Claim, Fetchable, Selectable, NoneSkipped, FetchedIds, DeadIn, HasOpen, WorkerKnown;
    var s' := After(s, step, maxRetries);
    if q in s.workers && s'.workers[q] == s.workers[q] {
      KnownLonger(s.txs, s'.txs, s.workers[q]);
    } else {
      ChangedWorkerKnown(s, step, maxRetries, q);
    }
  }

  lemma {:induction false} KnownLonger(txs: set<TxId>, more: set<TxId>, w: Worker)
    requires WorkerKnown(txs, w) && txs <= more
    ensures WorkerKnown(more, w)
  {
  }

  lemma {:induction false} ChangedWorkerKnown(s: State, step: Step, maxRetries: nat, q: Pid)
    requires Known(s) && Enabled(s, step, maxRetries, false) && q in After(s, step, maxRetries).workers
    requires !(q in s.workers && After(s, step, maxRetries).workers[q] == s.workers[q])
    ensures WorkerKnown(After(s, step, maxRetries).txs, After(s, step, maxRetries).workers[q])
  {
    hide ApplyAll, Claim, Fetchable, Selectable, NoneSkipped, FetchedIds, DeadIn, HasOpen, Published1;
    match step
    case Fetch(p, groups, _) =>
      FetchedKnown(s, groups);
    case Publish(p, outcome) =>
      PublishKnown(s, p, outcome, maxRetries);
    case Select(_, _) =>
    case Insert(_) =>
    case Persist(_, _) =>
    case DrainSelect(_, _) =>
    case DrainPublish(_, _, _, _) =>
    case DrainCommit(_, _) =>
    case Sweep(_) =>
    case Tick(_) =>
    case Crash(_) =>
  }

  lemma {:induction false} PublishKnown(s: State, p: Pid, outcome: Outcome, maxRetries: nat)
    requires Known(s) && Enabled(s, Step.Publish(p, outcome), maxRetries, false)
    ensures var s' := Published1(s, p, outcome, maxRetries);
      && s'.txs == s.txs && (forall q :: q != p && q in s'.workers ==> q in s.workers && s'.workers[q] == s.workers[q])
      && WorkerKnown(s.txs, WorkerAt(s', p))
  {
    assert WorkerKnown(s.txs, s.workers[p]) && WorkerAt(s, p).groups[0] in WorkerAt(s, p).groups;
  }

  lemma {:induction false} FetchedKnown(s: State, groups: seq<Group>)
    requires Known(s) && forall g :: g in groups ==> Fetchable(s.rows, s.born, g)
    ensures forall g :: g in groups ==> g.tx in s.txs
  {
    forall g | g in groups
      ensures g.tx in s.txs
    {
      assert g.entries[0] in g.entries;
    }
  }

  lemma {:induction false} GroupsSettledStep(s: State, step: Step, maxRetries: nat)
    requires OrderInv(s) && Enabled(s, step, maxRetries, true) && Enabled(s, step, maxRetries, false)
    ensures GroupsSettled(After(s, step, maxRetries))
  {
    hide StreamOrdered, StreamKnown, WorkerKnown, ApplyAll;
    match step
    case Persist(p, commits) =>
      PersistSettles(s, p, commits, maxRetries);
    case DrainCommit(p, commits) =>
      assert WorkerOrdered(s, WorkerAt(s, p));
    case Insert(births) =>
      InsertSettles(s, births, maxRetries);
    case _ =>
      OthersSettle(s, step, maxRetries);
  }

  lemma {:induction false} PersistSettles(s: State, p: Pid, commits: bool, maxRetries: nat)
    requires GroupsSettled(s) && Truthful(s) && s.rows.Keys <= s.born.Keys
        && Enabled(s, Persist(p, commits), maxRetries, false)
    ensures GroupsSettled(After(s, Persist(p, commits), maxRetries))
  {
    hide ApplyAll;
    var marks := WorkerAt(s, p).marks;
    var rows := ApplyAll(s.rows, s.born, marks, s.now);
    ApplyAllSpec(s.rows, s.born, marks, s.now);
    assert WorkerTruthful(s, WorkerAt(s, p));
    assert forall id :: id in s.rows ==> Marked(s.rows, s.born, marks, rows, id);
  }

  lemma {:induction false} InsertSettles(s: State, births: Births, maxRetries: nat)
    requires GroupsSettled(s) && Known(s) && Enabled(s, Insert(births), maxRetries, false)
    ensures GroupsSettled(After(s, Insert(births), maxRetries))
  {
    hide WorkerKnown;
    var s' := After(s, Insert(births), maxRetries);
    assert s'.stream == s.stream && s'.deadTxs == s.deadTxs;
    forall id | id in births
      ensures IsOpen(s'.rows, id) && s'.born[id].tx !in s'.deadTxs && !s'.rows[id].dead
    {
      assert id in s'.rows && s'.rows[id] == Row(0, None, None, false);
    }
    forall id | id in s.born
      ensures id !in births && s'.born[id] == s.born[id] && (IsOpen(s'.rows, id) <==> IsOpen(s.rows, id))
    {
    }
  }

  lemma {:induction false} OthersSettle(s: State, step: Step, maxRetries: nat)
    requires GroupsSettled(s) && NothingLost(s) && Enabled(s, step, maxRetries, false)
    requires !step.Persist? && !step.DrainCommit? && !step.Insert?
    ensures GroupsSettled(After(s, step, maxRetries))
  {
    hide GroupsSettled, Fetchable, FetchedIds, Selectable, NoneSkipped, HasOpen;
    SettledKept(s, After(s, step, maxRetries));
  }

  /** The same rows are open, no row has died, and the stream has not shrunk. */
  lemma {:induction false} SettledKept(s: State, s': State)
    requires GroupsSettled(s) && s'.born == s.born && s'.deadTxs == s.deadTxs && s.stream <= s'.stream
    requires forall id :: IsOpen(s'.rows, id) <==> IsOpen(s.rows, id)
    requires forall id :: id in s'.rows && s'.rows[id].dead ==> id in s.rows && s.rows[id].dead
    ensures GroupsSettled(s')
  {
  }

  lemma {:induction false} StreamStep(s: State, step: Step, maxRetries: nat)
    requires OrderInv(s) && Enabled(s, step, maxRetries, true) && Enabled(s, step, maxRetries, false)
    ensures StreamKnown(After(s, step, maxRetries))
    ensures StreamOrdered(After(s, step, maxRetries).born, After(s, step, maxRetries).stream)
  {
    hide GroupsSettled, Truthful;
    var s' := After(s, step, maxRetries);
    match step
    case Publish(p, outcome) =>
      var g := WorkerAt(s, p).groups[0];
      assert WorkerOrdered(s, WorkerAt(s, p));
      assert g.entries[0] in g.entries;
      FirstEntryNext(s, g);
      assert forall j :: 0 <= j < |s.stream| ==> s'.stream[..j] == s.stream[..j];
    case Insert(births) =>
      forall j, a | 0 <= j < |s.stream| && Precedes(s'.born, a, s.stream[j])
        ensures Precedes(s.born, a, s.stream[j])
      {
        assert s.stream[j] in s.stream;
      }
    case _ =>
  }

  lemma {:induction false} BeforeFirst(born: Births, g: Group, a: Id)
    requires Ascending(born, g) && Precedes(born, a, g.entries[0].id)
    ensures a !in IdsOf(g.entries) && born[a].tx == g.tx
  {
    assert g.entries[0] in g.entries;
    forall e | e in g.entries
      ensures e.id != a
    {
      var i :| 0 <= i < |g.entries| && g.entries[i] == e;
    }
  }

  /** Everything before a pending group's first entry is in the stream. */
  lemma {:induction false} FirstEntryNext(s: State, g: Group)
    requires Ascending(s.born, g) && EarlierInStream(s.born, s.stream, g)
    ensures forall a :: Precedes(s.born, a, g.entries[0].id) ==> a in s.stream
  {
    forall a | Precedes(s.born, a, g.entries[0].id)
      ensures a in s.stream
    {
      assert g.entries[0] in g.entries;
      BeforeFirst(s.born, g, a);
    }
  }

  lemma {:induction false} GroupKept(s: State, s': State, g: Group)
    requires Ascending(s.born, g) && EarlierInStream(s.born, s.stream, g) && g.tx in s.txs
    requires s.born.Keys <= s'.born.Keys && s.stream <= s'.stream
    requires forall id :: id in s.born ==> s'.born[id] == s.born[id]
    requires forall id :: id in s'.born && id !in s.born ==> s'.born[id].tx !in s.txs
    ensures Ascending(s'.born, g) && EarlierInStream(s'.born, s'.stream, g)
  {
  }

  lemma {:induction false} WorkerKept(s: State, s': State, w: Worker)
    requires WorkerOrdered(s, w) && WorkerKnown(s.txs, w)
    requires s.born.Keys <= s'.born.Keys && s.stream <= s'.stream && s.deadTxs <= s'.deadTxs
    requires forall id :: id in s.born ==> s'.born[id] == s.born[id]
    requires forall id :: id in s'.born && id !in s.born ==> s'.born[id].tx !in s.txs
    ensures WorkerOrdered(s', w)
  {
    if w.Busy? {
      forall g | g in w.groups
        ensures Ascending(s'.born, g) && EarlierInStream(s'.born, s'.stream, g)
      {
        GroupKept(s, s', g);
      }
    }
  }

  /** A group that skips nothing. */
  lemma {:induction false} FetchedGroup(s: State, g: Group)
    requires Known(s) && GroupsSettled(s) && Fetchable(s.rows, s.born, g) && NoneSkipped(s.rows, s.born, g)
    ensures Ascending(s.born, g) && EarlierInStream(s.born, s.stream, g)
  {
    assert g.entries[0] in g.entries;
    forall e, a | e in g.entries && Precedes(s.born, a, e.id) && a !in IdsOf(g.entries)
      ensures a in s.stream
    {
      assert IsOpen(s.rows, e.id);
    }
  }

  /** A group whose first entry has been stored. */
  lemma {:induction false} RestOfGroup(s: State, g: Group)
    requires Ascending(s.born, g) && EarlierInStream(s.born, s.stream, g) && |g.entries| > 1
    ensures Ascending(s.born, Group(g.tx, g.entries[1..]))
    ensures EarlierInStream(s.born, s.stream + [g.entries[0].id], Group(g.tx, g.entries[1..]))
  {
    var rest := Group(g.tx, g.entries[1..]);
    forall e, a | e in rest.entries && Precedes(s.born, a, e.id) && a !in IdsOf(rest.entries)
      ensures a in s.stream + [g.entries[0].id]
    {
      assert e in g.entries;
      if a in IdsOf(g.entries) {
        var x :| x in g.entries && x.id == a;
        assert x != g.entries[0] ==> x in rest.entries;
      }
    }
  }

  lemma {:induction false} WorkersOrderedStep(s: State, step: Step, maxRetries: nat)
    requires OrderInv(s) && Enabled(s, step, maxRetries, true) && Enabled(s, step, maxRetries, false)
    ensures WorkersOrdered(After(s, step, maxRetries))
  {
    hide StreamOrdered, Ascending, EarlierInStream, Fetchable, NoneSkipped, Truthful, StreamKnown;
    var s' := After(s, step, maxRetries);
    forall q | q in s'.workers
      ensures WorkerOrdered(s', s'.workers[q])
    {
      if q in s.workers && s'.workers[q] == s.workers[q] {
        WorkerKept(s, s', s.workers[q]);
      } else {
        ChangedWorkerOrdered(s, step, maxRetries, q);
      }
    }
  }

  lemma {:induction false} ChangedWorkerOrdered(s: State, step: Step, maxRetries: nat, q: Pid)
    requires OrderInv(s) && Enabled(s, step, maxRetries, true) && Enabled(s, step, maxRetries, false)
    requires q in After(s, step, maxRetries).workers
        && !(q in s.workers && After(s, step, maxRetries).workers[q] == s.workers[q])
    ensures WorkerOrdered(After(s, step, maxRetries), After(s, step, maxRetries).workers[q])
  {
    hide StreamOrdered, Ascending, EarlierInStream, Fetchable, NoneSkipped, Truthful, StreamKnown, ApplyAll,
        Claim, WorkerKnown, HasOpen, Selectable, FetchedIds, Published1, GroupsSettled;
    match step
    case Fetch(p, groups, _) =>
      FetchedGroups(s, groups);
    case Publish(p, outcome) =>
      OthersKept(s, p, outcome, maxRetries);
      PublishKeepsOrder(s, p, outcome, maxRetries);
    case DrainPublish(p, id, _, _) =>
      assert WorkerOrdered(s, s.workers[p]);
    case DrainSelect(p, ids) =>
      DrainedAreDead(s, ids);
    case Select(_, _) =>
    case Insert(_) =>
    case Persist(_, _) =>
    case DrainCommit(_, _) =>
    case Sweep(_) =>
    case Tick(_) =>
    case Crash(_) =>
  }

  lemma {:induction false} FetchedGroups(s: State, groups: seq<Group>)
    requires OrderInv(s)
    requires forall g :: g in groups ==> Fetchable(s.rows, s.born, g) && NoneSkipped(s.rows, s.born, g)
    ensures forall g :: g in groups ==> Ascending(s.born, g) && EarlierInStream(s.born, s.stream, g)
  {
    hide Fetchable, NoneSkipped, Known, GroupsSettled, Ascending, EarlierInStream;
    forall g | g in groups
      ensures Ascending(s.born, g) && EarlierInStream(s.born, s.stream, g)
    {
      FetchedGroup(s, g);
    }
  }

  /** A publish step changes its own worker only. */
  lemma {:induction false} OthersKept(s: State, p: Pid, outcome: Outcome, maxRetries: nat)
    requires Enabled(s, Step.Publish(p, outcome), maxRetries, false)
    ensures var s' := Published1(s, p, outcome, maxRetries);
      forall q :: q != p && q in s'.workers ==> q in s.workers && s'.workers[q] == s.workers[q]
    ensures p in Published1(s, p, outcome, maxRetries).workers
  {
  }

  lemma {:induction false} DrainedAreDead(s: State, ids: set<Id>)
    requires Known(s) && GroupsSettled(s)
    requires forall id :: id in ids ==> id in s.rows && s.rows[id].dead
    ensures forall id :: id in ids ==> id in s.born && s.born[id].tx in s.deadTxs
  {
  }

  lemma {:induction false} PublishKeepsOrder(s: State, p: Pid, outcome: Outcome, maxRetries: nat)
    requires OrderInv(s) && Enabled(s, Step.Publish(p, outcome), maxRetries, false)
    ensures WorkerOrdered(After(s, Step.Publish(p, outcome), maxRetries),
        WorkerAt(After(s, Step.Publish(p, outcome), maxRetries), p))
  {
    hide StreamOrdered, Ascending, EarlierInStream, Truthful, StreamKnown, GroupsSettled;
    var s' := After(s, Step.Publish(p, outcome), maxRetries);
    var w := WorkerAt(s, p);
    assert WorkerOrdered(s, w) && WorkerKnown(s.txs, w);
    forall g | g in w.groups
      ensures Ascending(s'.born, g) && EarlierInStream(s'.born, s'.stream, g)
    {
      GroupKept(s, s', g);
    }
    if |w.groups[0].entries| > 1 {
      RestOfGroup(s, w.groups[0]);
    }
  }

  lemma {:induction false} OrderInvStep(s: State, step: Step, maxRetries: nat)
    requires OrderInv(s) && Enabled(s, step, maxRetries, true) && Enabled(s, step, maxRetries, false)
    ensures OrderInv(After(s, step, maxRetries))
  {
    hide *;
    PartsOf(s);
    KnownStep(s, step, maxRetries);
    GroupsSettledStep(s, step, maxRetries);
    WorkersOrderedStep(s, step, maxRetries);
    StreamStep(s, step, maxRetries);
    TruthfulStep(s, step, maxRetries);
    OrderInvOf(After(s, step, maxRetries));
  }

  lemma {:induction false} PartsOf(s: State)
    requires OrderInv(s)
    ensures Known(s) && Truthful(s)
  {
  }

  lemma {:induction false} OrderInvOf(s: State)
    requires Known(s) && GroupsSettled(s) && WorkersOrdered(s) && StreamKnown(s) && StreamOrdered(s.born, s.stream)
        && Truthful(s)
    ensures OrderInv(s)
  {
  }

  lemma {:induction false} OrderHolds(run: seq<State>, steps: seq<Step>, maxRetries: nat, i: nat)
    requires IsRun(run, steps, maxRetries, true) && i <= |steps|
    ensures OrderInv(run[i])
  {
    if i > 0 {
      OrderHolds(run, steps, maxRetries, i - 1);
      OrderInvStep(run[i - 1], steps[i - 1], maxRetries);
    }
  }

  /** Events of a transaction are stored in created_at order, and at any moment those stored form a
      prefix of it: across crashes, overlapping pollers, lost acknowledgements and dead-lettering. */
  lemma {:induction false} StreamOrder(s: State, maxRetries: nat, j: nat, a: Id)
    requires Reachable(s, maxRetries, true) && j < |s.stream| && Precedes(s.born, a, s.stream[j])
    ensures a in s.stream[..j]
  {
    var run, steps :| IsRun(run, steps, maxRetries, true) && run[|steps|] == s;
    OrderHolds(run, steps, maxRetries, |steps|);
  }

  // ---- Skipping an earlier row breaks the order ----

  /** The two disordered ends of a stream: b is stored and what comes before it is not. */
  lemma {:induction false} StoredTooEarly(born: Births, stream: seq<Id>, a: Id, b: Id)
    requires Precedes(born, a, b) && a !in stream
    ensures !StreamOrdered(born, stream + [b])
  {
    var longer := stream + [b];
    assert longer[|stream|] == b && longer[..|stream|] == stream;
  }

  ghost predicate Disorders(s: State, maxRetries: nat, born: Births) {
    Reachable(s, maxRetries, false) && s.born == born && !StreamOrdered(s.born, s.stream)
  }

  /** The entries of a pending group up to the k-th are stored one after the other. */
  lemma {:induction false} StoresUpTo(s: State, p: Pid, maxRetries: nat, k: nat, a: Id)
    requires Reachable(s, maxRetries, false) && a !in s.stream
    requires WorkerAt(s, p).Busy? && WorkerAt(s, p).groups != [] && k < |WorkerAt(s, p).groups[0].entries|
    requires forall j :: 0 <= j <= k ==> WorkerAt(s, p).groups[0].entries[j].retry < maxRetries
    requires forall j :: 0 <= j < k ==> WorkerAt(s, p).groups[0].entries[j].id != a
    requires Precedes(s.born, a, WorkerAt(s, p).groups[0].entries[k].id)
    ensures exists s' :: Disorders(s', maxRetries, s.born)
    decreases k
  {
    hide Reachable, StreamOrdered;
    var entries := WorkerAt(s, p).groups[0].entries;
    var step := Step.Publish(p, Accepted);
    var s' := After(s, step, maxRetries);
    ReachableStep(s, step, maxRetries, false);
    if k == 0 {
      StoredTooEarly(s.born, s.stream, a, entries[0].id);
      assert Disorders(s', maxRetries, s.born);
    } else {
      assert WorkerAt(s', p).groups[0].entries == entries[1..];
      StoresUpTo(s', p, maxRetries, k - 1, a);
    }
  }

  /** A pending group comes to its turn when the publishes of those before it are refused. */
  lemma {:induction false} TurnComes(s: State, p: Pid, maxRetries: nat, i: nat, k: nat, a: Id)
    requires Reachable(s, maxRetries, false) && a !in s.stream
    requires WorkerAt(s, p).Busy? && i < |WorkerAt(s, p).groups| && k < |WorkerAt(s, p).groups[i].entries|
    requires forall g :: g in WorkerAt(s, p).groups ==> g.entries != []
    requires forall j :: 0 <= j <= k ==> WorkerAt(s, p).groups[i].entries[j].retry < maxRetries
    requires forall j :: 0 <= j < k ==> WorkerAt(s, p).groups[i].entries[j].id != a
    requires Precedes(s.born, a, WorkerAt(s, p).groups[i].entries[k].id)
    ensures exists s' :: Disorders(s', maxRetries, s.born)
    decreases i
  {
    hide Reachable, StreamOrdered, Disorders;
    if i == 0 {
      StoresUpTo(s, p, maxRetries, k, a);
    } else {
      var step := Step.Publish(p, Refused);
      var s' := After(s, step, maxRetries);
      ReachableStep(s, step, maxRetries, false);
      assert WorkerAt(s', p).groups == WorkerAt(s, p).groups[1..] && s'.stream == s.stream && s'.born == s.born;
      TurnComes(s', p, maxRetries, i - 1, k, a);
    }
  }

  /** Whatever a fetch skips, in any reachable state: unless the skipped row is in the stream already
      or the group is out of retries, some way to go on stores a later event of the transaction
      first. */
  lemma {:induction false} SkippingReorders(s: State, maxRetries: nat, p: Pid, groups: seq<Group>, until: int, i: nat,
          k: nat, a: Id)
    requires Reachable(s, maxRetries, false) && Enabled(s, Fetch(p, groups, until), maxRetries, false)
    requires i < |groups| && k < |groups[i].entries| && Precedes(s.born, a, groups[i].entries[k].id)
    requires a !in IdsOf(groups[i].entries) && a !in s.stream
    requires forall j :: 0 <= j <= k ==> groups[i].entries[j].retry < maxRetries
    ensures exists s' :: Disorders(s', maxRetries, s.born)
  {
    hide Reachable, StreamOrdered, Disorders;
    var step := Fetch(p, groups, until);
    var s' := After(s, step, maxRetries);
    ReachableStep(s, step, maxRetries, false);
    assert WorkerAt(s', p) == Busy(groups, []) && s'.born == s.born && s'.stream == s.stream;
    forall j | 0 <= j < k
      ensures groups[i].entries[j].id != a
    {
      assert groups[i].entries[j] in groups[i].entries;
    }
    TurnComes(s', p, maxRetries, i, k, a);
  }

  /** Such a fetch is reachable: the selector skips a locked row. */
  lemma {:induction false} PartialFetchReorders(maxRetries: nat)
    requires maxRetries > 0
    ensures exists s :: Reachable(s, maxRetries, false) && !StreamOrdered(s.born, s.stream)
  {
    var a, b, t, p := Id(1), Id(2), TxId(1), Pid(1);
    var g := Group(t, [Entry(b, 0)]);
    var s := TwoEvents(a, b, t, 2, p, maxRetries, false);
    assert g.entries[0] == Entry(b, 0) && Fetchable(s.rows, s.born, g);
    assert forall e :: e in g.entries ==> e.id == b;
    SkippingReorders(s, maxRetries, p, [g], 10, 0, 0, a);
    var s' :| Disorders(s', maxRetries, s.born);
  }

  /** Two events of one transaction, and p has picked it. */
  lemma {:induction false} TwoEvents(a: Id, b: Id, t: TxId, time: int, p: Pid, maxRetries: nat, inOrder: bool)
    returns (s: State)
    requires a != b && maxRetries > 0
    ensures Reachable(s, maxRetries, inOrder) && s.now == 0 && s.stream == []
    ensures s.born == map[a := Birth(t, 1), b := Birth(t, time)]
    ensures s.rows == map[a := Row(0, None, None, false), b := Row(0, None, None, false)]
    ensures s.workers == map[p := Selected({t})]
  {
    var births := map[a := Birth(t, 1), b := Birth(t, time)];
    var s1 := Inserted(births, maxRetries, inOrder);
    hide Reachable;
    assert s1.rows == map[a := Row(0, None, None, false), b := Row(0, None, None, false)];
    assert IsOpen(s1.rows, a) && HasOpen(s1.rows, s1.born, t);
    s := After(s1, Select(p, {t}), maxRetries);
    ReachableStep(s1, Select(p, {t}), maxRetries, inOrder);
  }

  lemma {:induction false} Inserted(births: Births, maxRetries: nat, inOrder: bool) returns (s: State)
    ensures Reachable(s, maxRetries, inOrder) && s.now == 0 && s.stream == [] && s.born == births && s.workers == map[]
    ensures s.rows == map id | id in births :: Row(0, None, None, false)
  {
    ReachableInit(maxRetries, inOrder);
    hide Reachable, IsRun;
    FirstInsert(births, maxRetries);
    s := After(INIT, Insert(births), maxRetries);
    hide *;
    ReachableStep(INIT, Insert(births), maxRetries, inOrder);
  }

  lemma {:induction false} FirstInsert(births: Births, maxRetries: nat)
    ensures forall inOrder :: Enabled(INIT, Insert(births), maxRetries, inOrder)
    ensures var s := After(INIT, Insert(births), maxRetries);
      && s.now == 0 && s.stream == [] && s.born == births && s.workers == map[]
      && s.rows == map id | id in births :: Row(0, None, None, false)
  {
    assert map[] + births == births;
  }
}

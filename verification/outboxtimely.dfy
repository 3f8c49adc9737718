/** The backoff of a transaction's events: what a poller fetches is due, as long as nothing happens to
    the transaction between the selector's two statements.  The first statement alone looks at the
    backoff; the second only asks which rows are open. */
module OutboxTimely {
  import opened Wrappers
  import opened OutboxTable
  import opened Outbox
  import opened OutboxOrder

  // ---- Invariants ----

  /** A row that has failed and is still open is the first open row of its transaction. */
  ghost predicate FailedIsFirst(s: State) {
    forall id, a :: IsOpen(s.rows, id) && s.rows[id].retry > 0 && Precedes(s.born, a, id) ==> !IsOpen(s.rows, a)
  }

  ghost predicate DoneWith(rows: Rows, marks: seq<Mark>, id: Id) { !IsOpen(rows, id) || Published(id) in marks }

  /** What a pending group leaves out ahead of its entries is done with. */
  ghost predicate EarlierDone(s: State, marks: seq<Mark>, g: Group) {
    forall e, a :: e in g.entries && Precedes(s.born, a, e.id) && a !in IdsOf(g.entries) ==> DoneWith(s.rows, marks, a)
  }

  /** So it is for every pending group, and for what comes before a failed entry. */
  ghost predicate WorkerTimely(s: State, w: Worker) {
    w.Busy? ==>
      && (forall g :: g in w.groups ==> EarlierDone(s, w.marks, g))
      && (forall id :: Failed(id) in w.marks ==> id in s.born)
      && (forall id, a :: Failed(id) in w.marks && Precedes(s.born, a, id) ==> DoneWith(s.rows, w.marks, a))
  }

  ghost predicate BackoffInv(s: State) {
    OrderInv(s) && FailedIsFirst(s) && forall p :: p in s.workers ==> WorkerTimely(s, s.workers[p])
  }

  lemma {:induction false} FailedIsFirstStep(s: State, step: Step, maxRetries: nat)
    requires BackoffInv(s) && Enabled(s, step, maxRetries, true) && Enabled(s, step, maxRetries, false)
    ensures FailedIsFirst(After(s, step, maxRetries))
  {
    hide GroupsSettled, WorkersOrdered, StreamOrdered, Truthful, ApplyAll, Fetchable, FetchedIds, NoneSkipped,
        Selectable, WorkerKnown;
    var s' := After(s, step, maxRetries);
    forall id, a | IsOpen(s'.rows, id) && s'.rows[id].retry > 0 && Precedes(s'.born, a, id)
      ensures !IsOpen(s'.rows, a)
    {
      assert id in s.born && Precedes(s.born, a, id);
      FailedLater(s, step, maxRetries, id, a);
    }
  }

  lemma {:induction false} FailedLater(s: State, step: Step, maxRetries: nat, id: Id, a: Id)
    requires BackoffInv(s) && Enabled(s, step, maxRetries, false) && Precedes(s.born, a, id)
    requires IsOpen(After(s, step, maxRetries).rows, id) && After(s, step, maxRetries).rows[id].retry > 0
    ensures !IsOpen(After(s, step, maxRetries).rows, a)
  {
    hide GroupsSettled, WorkersOrdered, StreamOrdered, Truthful, ApplyAll, Known, Fetchable, FetchedIds;
    NotReopened(s, step, maxRetries, id);
    NotReopened(s, step, maxRetries, a);
    if step.Persist? && step.commits {
      var marks := WorkerAt(s, step.p).marks;
      ApplyAllSpec(s.rows, s.born, marks, s.now);
      assert Marked(s.rows, s.born, marks, After(s, step, maxRetries).rows, id);
      if s.rows[id].retry == 0 && a in s.rows {
        assert WorkerTimely(s, s.workers[step.p]);
        assert DoneWith(s.rows, marks, a);
        assert Marked(s.rows, s.born, marks, After(s, step, maxRetries).rows, a);
      }
    }
  }

  lemma {:induction false} DoneStays(s: State, step: Step, maxRetries: nat, marks: seq<Mark>, id: Id)
    requires Enabled(s, step, maxRetries, false) && id in s.born && DoneWith(s.rows, marks, id)
    ensures DoneWith(After(s, step, maxRetries).rows, marks, id)
  {
    NotReopened(s, step, maxRetries, id);
  }

  lemma {:induction false} WorkerTimelyKept(s: State, step: Step, maxRetries: nat, q: Pid)
    requires BackoffInv(s) && Enabled(s, step, maxRetries, false) && q in s.workers
    ensures WorkerTimely(After(s, step, maxRetries), s.workers[q])
  {
    hide GroupsSettled, StreamOrdered, Truthful, ApplyAll, Fetchable, FetchedIds, DoneWith, FailedIsFirst, Claim,
        Ascending, EarlierInStream, EarlierDone;
    var s', w := After(s, step, maxRetries), s.workers[q];
    assert WorkerTimely(s, w) && WorkerKnown(s.txs, w) && WorkerOrdered(s, w);
    if w.Busy? {
      forall g | g in w.groups
        ensures EarlierDone(s', w.marks, g)
      {
        EarlierDoneKept(s, step, maxRetries, w.marks, g);
      }
      forall id, a | Failed(id) in w.marks && Precedes(s'.born, a, id)
        ensures DoneWith(s'.rows, w.marks, a)
      {
        assert a in s.born && Precedes(s.born, a, id);
        DoneStays(s, step, maxRetries, w.marks, a);
      }
    }
  }

  lemma {:induction false} EarlierDoneKept(s: State, step: Step, maxRetries: nat, marks: seq<Mark>, g: Group)
    requires Known(s) && Enabled(s, step, maxRetries, false) && EarlierDone(s, marks, g) && Ascending(s.born, g)
    ensures EarlierDone(After(s, step, maxRetries), marks, g)
  {
    hide ApplyAll, Fetchable, FetchedIds, DoneWith, Claim, WorkerKnown;
    var s' := After(s, step, maxRetries);
    forall e, a | e in g.entries && Precedes(s'.born, a, e.id) && a !in IdsOf(g.entries)
      ensures DoneWith(s'.rows, marks, a)
    {
      assert a in s.born && Precedes(s.born, a, e.id);
      DoneStays(s, step, maxRetries, marks, a);
    }
  }

  lemma {:induction false} PublishTimely(s: State, p: Pid, outcome: Outcome, maxRetries: nat)
    requires BackoffInv(s) && Enabled(s, Step.Publish(p, outcome), maxRetries, false)
    ensures WorkerTimely(After(s, Step.Publish(p, outcome), maxRetries),
        WorkerAt(After(s, Step.Publish(p, outcome), maxRetries), p))
  {
    hide GroupsSettled, StreamOrdered, Truthful, FailedIsFirst, Known, StreamKnown, EarlierInStream, EarlierDone,
        Ascending, DoneWith;
    var s' := After(s, Step.Publish(p, outcome), maxRetries);
    var w, w' := WorkerAt(s, p), WorkerAt(s', p);
    assert WorkerTimely(s, w) && WorkerOrdered(s, w);
    var g := w.groups[0];
    assert g in w.groups;
    forall h | h in w'.groups
      ensures EarlierDone(s', w'.marks, h)
    {
      if h in w.groups {
        MoreMarks(s, s', w.marks, w'.marks, h);
      } else {
        RestTimely(s, w.marks, g);
        MoreMarks(s, s', w'.marks, w'.marks, h);
      }
    }
    forall id | Failed(id) in w'.marks
      ensures id in s.born && forall a :: Precedes(s.born, a, id) ==> DoneWith(s'.rows, w'.marks, a)
    {
      if Failed(id) in w.marks {
        LongerMarks(s, w.marks, w'.marks, id);
      } else {
        EarlierThanFirst(s, w.marks, w'.marks, g);
      }
    }
  }

  lemma {:induction false} MoreMarks(s: State, s': State, marks: seq<Mark>, more: seq<Mark>, g: Group)
    requires EarlierDone(s, marks, g) && s'.rows == s.rows && s'.born == s.born && marks <= more
    ensures EarlierDone(s', more, g)
  {
  }

  lemma {:induction false} LongerMarks(s: State, marks: seq<Mark>, more: seq<Mark>, id: Id)
    requires marks <= more && forall a :: Precedes(s.born, a, id) ==> DoneWith(s.rows, marks, a)
    ensures forall a :: Precedes(s.born, a, id) ==> DoneWith(s.rows, more, a)
  {
  }

  lemma {:induction false} EarlierThanFirst(s: State, marks: seq<Mark>, more: seq<Mark>, g: Group)
    requires marks <= more && Ascending(s.born, g) && EarlierDone(s, marks, g)
    ensures g.entries[0].id in s.born
    ensures forall a :: Precedes(s.born, a, g.entries[0].id) ==> DoneWith(s.rows, more, a)
  {
    assert g.entries[0] in g.entries;
    forall a | Precedes(s.born, a, g.entries[0].id)
      ensures DoneWith(s.rows, more, a)
    {
      BeforeFirst(s.born, g, a);
      assert DoneWith(s.rows, marks, a);
    }
  }

  /** A group whose first entry is marked published. */
  lemma {:induction false} RestTimely(s: State, marks: seq<Mark>, g: Group)
    requires g.entries != [] && EarlierDone(s, marks, g)
    ensures EarlierDone(s, marks + [Published(g.entries[0].id)], Group(g.tx, g.entries[1..]))
  {
    var rest, more := Group(g.tx, g.entries[1..]), marks + [Published(g.entries[0].id)];
    forall e, a | e in rest.entries && Precedes(s.born, a, e.id) && a !in IdsOf(rest.entries)
      ensures DoneWith(s.rows, more, a)
    {
      assert e in g.entries;
      if a != g.entries[0].id {
        LeftOut(g, a);
        assert DoneWith(s.rows, marks, a);
      }
    }
  }

  lemma {:induction false} LeftOut(g: Group, id: Id)
    requires g.entries != [] && id !in IdsOf(g.entries[1..]) && id != g.entries[0].id
    ensures id !in IdsOf(g.entries)
  {
    forall e | e in g.entries
      ensures e.id != id
    {
      if e != g.entries[0] {
        assert e in g.entries[1..];
      }
    }
  }

  lemma {:induction false} FetchTimely(s: State, p: Pid, groups: seq<Group>, until: int, maxRetries: nat)
    requires Enabled(s, Fetch(p, groups, until), maxRetries, true)
        && Enabled(s, Fetch(p, groups, until), maxRetries, false)
    ensures WorkerTimely(After(s, Fetch(p, groups, until), maxRetries), Busy(groups, []))
  {
    hide Fetchable, FetchedIds, Selectable;
  }

  lemma {:induction false} BackoffInvStep(s: State, step: Step, maxRetries: nat)
    requires BackoffInv(s) && Enabled(s, step, maxRetries, true) && Enabled(s, step, maxRetries, false)
    ensures BackoffInv(After(s, step, maxRetries))
  {
    hide OrderInv, FailedIsFirst, WorkerTimely;
    var s' := After(s, step, maxRetries);
    OrderInvStep(s, step, maxRetries);
    FailedIsFirstStep(s, step, maxRetries);
    forall q | q in s'.workers
      ensures WorkerTimely(s', s'.workers[q])
    {
      if q in s.workers && s'.workers[q] == s.workers[q] {
        WorkerTimelyKept(s, step, maxRetries, q);
      } else {
        ChangedWorkerTimely(s, step, maxRetries, q);
      }
    }
  }

  lemma {:induction false} ChangedWorkerTimely(s: State, step: Step, maxRetries: nat, q: Pid)
    requires BackoffInv(s) && Enabled(s, step, maxRetries, true) && Enabled(s, step, maxRetries, false)
    requires q in After(s, step, maxRetries).workers
        && !(q in s.workers && After(s, step, maxRetries).workers[q] == s.workers[q])
    ensures WorkerTimely(After(s, step, maxRetries), After(s, step, maxRetries).workers[q])
  {
    hide BackoffInv, Claim, ApplyAll, EarlierDone;
    match step
    case Fetch(p, groups, until) =>
      FetchTimely(s, p, groups, until, maxRetries);
    case Publish(p, outcome) =>
      PublishTimely(s, p, outcome, maxRetries);
    case _ =>
  }

  lemma {:induction false} BackoffHolds(run: seq<State>, steps: seq<Step>, maxRetries: nat, i: nat)
    requires IsRun(run, steps, maxRetries, true) && i <= |steps|
    ensures BackoffInv(run[i])
  {
    if i > 0 {
      BackoffHolds(run, steps, maxRetries, i - 1);
      BackoffInvStep(run[i - 1], steps[i - 1], maxRetries);
    }
  }

  lemma {:induction false} ReachableBackoff(s: State, maxRetries: nat)
    requires Reachable(s, maxRetries, true)
    ensures BackoffInv(s)
  {
    var run, steps :| IsRun(run, steps, maxRetries, true) && run[|steps|] == s;
    BackoffHolds(run, steps, maxRetries, |steps|);
  }

  /** An open row with a positive retry count is the first open row of its group. */
  lemma {:induction false} FailedRowIsFirst(s: State, maxRetries: nat, id: Id, a: Id)
    requires Reachable(s, maxRetries, true) && IsOpen(s.rows, id) && s.rows[id].retry > 0 && Precedes(s.born, a, id)
    ensures !IsOpen(s.rows, a)
  {
    ReachableBackoff(s, maxRetries);
  }

  // ---- When a fetched group is timely ----

  predicate Due(rows: Rows, id: Id, now: int) {
    id in rows && (rows[id].next.None? || rows[id].next.value <= now)
  }

  /** The pass over the group drops it without publishing anything, or all its rows are due. */
  ghost predicate DroppedOrDue(s: State, g: Group, maxRetries: nat) {
    && g.entries != []
    && (g.entries[0].retry >= maxRetries || forall e :: e in g.entries ==> Due(s.rows, e.id, s.now))
  }

  /** The whole open group. */
  ghost predicate Whole(rows: Rows, born: Births, g: Group) {
    forall id :: IsOpen(rows, id) && id in born && born[id].tx == g.tx ==> id in IdsOf(g.entries)
  }

  /** The events of the transaction have distinct created_at. */
  ghost predicate DistinctTimes(born: Births, tx: TxId) {
    forall a, b :: a in born && b in born && a != b && born[a].tx == tx && born[b].tx == tx ==>
        born[a].created != born[b].created
  }

  lemma {:induction false} Timely(s: State, maxRetries: nat, g: Group)
    requires BackoffInv(s) && Fetchable(s.rows, s.born, g) && NoneSkipped(s.rows, s.born, g)
    requires DistinctTimes(s.born, g.tx) && Selectable(s.rows, s.born, g.tx, maxRetries, s.now)
    ensures DroppedOrDue(s, g, maxRetries)
  {
    hide OrderInv, WorkerTimely;
    assert g.entries[0] in g.entries;
    if g.entries[0].retry < maxRetries {
      forall e | e in g.entries
        ensures s.rows[e.id].retry < maxRetries
      {
        var i :| 0 <= i < |g.entries| && g.entries[i] == e;
        if i > 0 {
          assert Precedes(s.born, g.entries[0].id, e.id);
        }
      }
      forall id | IsOpen(s.rows, id) && id in s.born && s.born[id].tx == g.tx
        ensures s.rows[id].retry < maxRetries
      {
        NoneExhausted(s, maxRetries, g, id);
      }
    }
  }

  lemma {:induction false} NoneExhausted(s: State, maxRetries: nat, g: Group, id: Id)
    requires FailedIsFirst(s) && Fetchable(s.rows, s.born, g) && NoneSkipped(s.rows, s.born, g)
    requires DistinctTimes(s.born, g.tx) && IsOpen(s.rows, id) && id in s.born && s.born[id].tx == g.tx
    requires forall e :: e in g.entries ==> s.rows[e.id].retry < maxRetries
    ensures s.rows[id].retry < maxRetries
  {
    var first := g.entries[0];
    assert first in g.entries;
    if id !in IdsOf(g.entries) {
      assert Precedes(s.born, id, first.id) || Precedes(s.born, first.id, id);
    }
  }

  /** What a poller fetches is dropped or due if the transaction could still be selected at that
      moment; and, when the group is fetched whole, exactly then. */
  lemma {:induction false} FetchIsTimely(s: State, maxRetries: nat, p: Pid, groups: seq<Group>, until: int, g: Group)
    requires Reachable(s, maxRetries, true) && Enabled(s, Fetch(p, groups, until), maxRetries, true)
    requires Enabled(s, Fetch(p, groups, until), maxRetries, false) && g in groups && DistinctTimes(s.born, g.tx)
    ensures Selectable(s.rows, s.born, g.tx, maxRetries, s.now) ==> DroppedOrDue(s, g, maxRetries)
    ensures Whole(s.rows, s.born, g) ==>
        (Selectable(s.rows, s.born, g.tx, maxRetries, s.now) <==> DroppedOrDue(s, g, maxRetries))
  {
    hide Reachable, BackoffInv;
    ReachableBackoff(s, maxRetries);
    if Selectable(s.rows, s.born, g.tx, maxRetries, s.now) {
      Timely(s, maxRetries, g);
    } else if Whole(s.rows, s.born, g) {
      assert g.entries[0] in g.entries;
      assert g.entries[0].retry < maxRetries;
      var id :| IsOpen(s.rows, id) && id in s.born && s.born[id].tx == g.tx && HeldBack(s.rows[id], maxRetries, s.now);
      assert id in IdsOf(g.entries);
      assert !Due(s.rows, id, s.now);
    }
  }

  // ---- What may happen between the two statements ----

  predicate MarkOf(born: Births, m: Mark, tx: TxId) {
    match m
    case Published(id) => id in born && born[id].tx == tx
    case Failed(id) => id in born && born[id].tx == tx
    case Dead(t, _) => t == tx
  }

  /** A claim of the transaction, or marks on it, are committed. */
  ghost predicate Disturbs(s: State, step: Step, tx: TxId) {
    match step
    case Fetch(_, groups, _) => exists g :: g in groups && g.tx == tx
    case Persist(p, commits) =>
      commits && WorkerAt(s, p).Busy? && exists m :: m in WorkerAt(s, p).marks && MarkOf(s.born, m, tx)
    case _ => false
  }

  /** The transaction's open rows are the same in both states. */
  ghost predicate SameOpen(s: State, s': State, tx: TxId) {
    forall id :: id in s'.born && s'.born[id].tx == tx && (IsOpen(s.rows, id) || IsOpen(s'.rows, id)) ==>
        id in s.born && s.born[id] == s'.born[id] && id in s.rows && id in s'.rows && s.rows[id] == s'.rows[id]
  }

  lemma {:induction false} MarksElsewhere(rows: Rows, born: Births, marks: seq<Mark>, now: int, id: Id)
    requires id in rows && id in born && forall m :: m in marks ==> !MarkOf(born, m, born[id].tx)
    ensures id in ApplyAll(rows, born, marks, now) && ApplyAll(rows, born, marks, now)[id] == rows[id]
  {
    if marks != [] {
      MarksElsewhere(rows, born, marks[..|marks| - 1], now, id);
      assert marks[|marks| - 1] in marks;
    }
  }

  lemma {:induction false} Undisturbed(s: State, step: Step, maxRetries: nat, tx: TxId)
    requires OrderInv(s) && Enabled(s, step, maxRetries, false) && !Disturbs(s, step, tx) && tx in s.txs
    ensures SameOpen(s, After(s, step, maxRetries), tx)
    ensures s.now <= After(s, step, maxRetries).now && s.txs <= After(s, step, maxRetries).txs
  {
    hide OrderInv, ApplyAll, Selectable, NoneSkipped, HasOpen, Fetchable, Disturbs, Claim;
    PartsOf(s);
    BornKept(s, step, maxRetries);
    var s' := After(s, step, maxRetries);
    forall id | id in s'.born && s'.born[id].tx == tx && (IsOpen(s.rows, id) || IsOpen(s'.rows, id))
      ensures id in s.born && s.born[id] == s'.born[id] && id in s.rows && id in s'.rows && s.rows[id] == s'.rows[id]
    {
      assert id in s.born && s.born[id] == s'.born[id];
      RowUndisturbed(s, step, maxRetries, id);
    }
  }

  lemma {:induction false} RowUndisturbed(s: State, step: Step, maxRetries: nat, id: Id)
    requires OrderInv(s) && Enabled(s, step, maxRetries, false) && id in s.born
    requires !Disturbs(s, step, s.born[id].tx)
    requires IsOpen(s.rows, id) || IsOpen(After(s, step, maxRetries).rows, id)
    ensures id in s.rows && id in After(s, step, maxRetries).rows
        && s.rows[id] == After(s, step, maxRetries).rows[id]
  {
    hide StreamOrdered, Truthful, StreamKnown, ApplyAll, Selectable, WorkerKnown, NoneSkipped, HasOpen;
    NotReopened(s, step, maxRetries, id);
    match step
    case Fetch(_, groups, _) =>
      ClaimElsewhere(s, groups, id);
    case Persist(p, _) =>
      if step.commits {
        MarksElsewhere(s.rows, s.born, WorkerAt(s, p).marks, s.now, id);
      }
    case DrainCommit(p, _) =>
      assert WorkerOrdered(s, s.workers[p]);
    case Insert(_) =>
    case Select(_, _) =>
    case Publish(_, _) =>
    case DrainSelect(_, _) =>
    case DrainPublish(_, _, _, _) =>
    case Sweep(_) =>
    case Tick(_) =>
    case Crash(_) =>
  }

  lemma {:induction false} ClaimElsewhere(s: State, groups: seq<Group>, id: Id)
    requires id in s.born && forall g :: g in groups ==> g.tx != s.born[id].tx && Fetchable(s.rows, s.born, g)
    ensures id !in FetchedIds(groups)
  {
  }

  lemma {:induction false} SelectableKept(s: State, s': State, maxRetries: nat, tx: TxId)
    requires SameOpen(s, s', tx) && s.now <= s'.now && s.born.Keys <= s'.born.Keys
    requires forall id :: id in s.born ==> s'.born[id] == s.born[id]
    requires Selectable(s.rows, s.born, tx, maxRetries, s.now)
    ensures Selectable(s'.rows, s'.born, tx, maxRetries, s'.now)
  {
    if id :| IsOpen(s.rows, id) && id in s.born && s.born[id].tx == tx && s.rows[id].retry >= maxRetries {
      assert IsOpen(s'.rows, id);
    }
  }

  /** What a poller selected can still be selected at any later moment, if nothing disturbs the
      transaction in between. */
  lemma {:induction false} SelectionHolds(run: seq<State>, steps: seq<Step>, maxRetries: nat, i: nat, j: nat, p: Pid,
          txs: set<TxId>, tx: TxId)
    requires IsRun(run, steps, maxRetries, true) && i < j <= |steps| && steps[i] == Select(p, txs) && tx in txs
    requires forall k :: i < k < j ==> !Disturbs(run[k], steps[k], tx)
    ensures Selectable(run[j].rows, run[j].born, tx, maxRetries, run[j].now) && tx in run[j].txs
  {
    hide Selectable, HasOpen, Disturbs, SameOpen;
    if j == i + 1 {
      TxKnown(run, steps, maxRetries, i, p, txs, tx);
    } else {
      SelectionHolds(run, steps, maxRetries, i, j - 1, p, txs, tx);
      SelectionHoldsStep(run, steps, maxRetries, j - 1, tx);
    }
  }

  lemma {:induction false} SelectionHoldsStep(run: seq<State>, steps: seq<Step>, maxRetries: nat, k: nat, tx: TxId)
    requires IsRun(run, steps, maxRetries, true) && k < |steps| && !Disturbs(run[k], steps[k], tx)
    requires Selectable(run[k].rows, run[k].born, tx, maxRetries, run[k].now) && tx in run[k].txs
    ensures Selectable(run[k + 1].rows, run[k + 1].born, tx, maxRetries, run[k + 1].now) && tx in run[k + 1].txs
  {
    hide Selectable, Disturbs, OrderInv, SameOpen;
    var s, s' := run[k], run[k + 1];
    OrderHolds(run, steps, maxRetries, k);
    Undisturbed(s, steps[k], maxRetries, tx);
    BornKept(s, steps[k], maxRetries);
    SelectableKept(s, s', maxRetries, tx);
  }

  lemma {:induction false} BornKept(s: State, step: Step, maxRetries: nat)
    requires Enabled(s, step, maxRetries, false)
    ensures var s' := After(s, step, maxRetries);
      s.born.Keys <= s'.born.Keys && forall id :: id in s.born ==> s'.born[id] == s.born[id]
  {
    hide ApplyAll, Claim, Selectable, Fetchable;
  }

  lemma {:induction false} TxKnown(run: seq<State>, steps: seq<Step>, maxRetries: nat, i: nat, p: Pid, txs: set<TxId>,
          tx: TxId)
    requires IsRun(run, steps, maxRetries, true) && i < |steps| && steps[i] == Select(p, txs) && tx in txs
    ensures Selectable(run[i + 1].rows, run[i + 1].born, tx, maxRetries, run[i + 1].now) && tx in run[i + 1].txs
  {
    hide Selectable;
    OrderHolds(run, steps, maxRetries, i);
    var s := run[i];
    assert HasOpen(s.rows, s.born, tx);
    var id :| IsOpen(s.rows, id) && id in s.born && s.born[id].tx == tx;
  }

  /** In every run: a group fetched after its transaction was selected is dropped or due, unless a
      claim of it or marks on it were committed in between. */
  lemma {:induction false} UndisturbedFetchIsTimely(run: seq<State>, steps: seq<Step>, maxRetries: nat, i: nat, j: nat,
          p: Pid, txs: set<TxId>, groups: seq<Group>, until: int, g: Group)
    requires IsRun(run, steps, maxRetries, true) && i < j < |steps|
    requires steps[i] == Select(p, txs) && steps[j] == Fetch(p, groups, until) && g in groups && g.tx in txs
    requires forall k :: i < k < j ==> !Disturbs(run[k], steps[k], g.tx)
    requires DistinctTimes(run[j].born, g.tx)
    ensures DroppedOrDue(run[j], g, maxRetries)
  {
    hide Selectable, Disturbs, DroppedOrDue, DistinctTimes, BackoffInv;
    SelectionHolds(run, steps, maxRetries, i, j, p, txs, g.tx);
    BackoffHolds(run, steps, maxRetries, j);
    Timely(run[j], maxRetries, g);
  }

  /** A claim keeps every other poller from selecting the transaction while the lease lasts, unless a
      row is out of retries. */
  lemma {:induction false} ClaimHoldsBack(s: State, p: Pid, groups: seq<Group>, until: int, maxRetries: nat, g: Group)
    requires Enabled(s, Fetch(p, groups, until), maxRetries, false) && g in groups
    requires forall id :: IsOpen(s.rows, id) && id in s.born && s.born[id].tx == g.tx ==> s.rows[id].retry < maxRetries
    ensures var s' := After(s, Fetch(p, groups, until), maxRetries);
      forall time :: time < until ==> !Selectable(s'.rows, s'.born, g.tx, maxRetries, time)
  {
    var s' := After(s, Fetch(p, groups, until), maxRetries);
    var id := g.entries[0].id;
    assert g.entries[0] in g.entries && id in FetchedIds(groups);
    assert IsOpen(s'.rows, id) && forall time :: time < until ==> HeldBack(s'.rows[id], maxRetries, time);
  }

  /** So does a failure, until its backoff has passed. */
  lemma {:induction false} FailureHoldsBack(s: State, p: Pid, maxRetries: nat, id: Id)
    requires Enabled(s, Persist(p, true), maxRetries, false) && Failed(id) in WorkerAt(s, p).marks && id in s.born
    requires var s' := After(s, Persist(p, true), maxRetries);
      && IsOpen(s'.rows, id)
      && (forall a :: IsOpen(s'.rows, a) && a in s'.born && s'.born[a].tx == s.born[id].tx ==>
            s'.rows[a].retry < maxRetries)
    ensures var s' := After(s, Persist(p, true), maxRetries);
      && s'.rows[id].next.Some? && s'.rows[id].next.value > s'.now
      && forall time :: time < s'.rows[id].next.value ==>
        !Selectable(s'.rows, s'.born, s.born[id].tx, maxRetries, time)
  {
    hide ApplyAll;
    var s' := After(s, Persist(p, true), maxRetries);
    ApplyAllSpec(s.rows, s.born, WorkerAt(s, p).marks, s.now);
    assert id in s.rows && Marked(s.rows, s.born, WorkerAt(s, p).marks, s'.rows, id);
    FailedIsLater(s.rows, s.born, WorkerAt(s, p).marks, s.now, id);
    assert forall time :: time < s'.rows[id].next.value ==> HeldBack(s'.rows[id], maxRetries, time);
  }

  lemma {:induction false} FailedIsLater(rows: Rows, born: Births, marks: seq<Mark>, now: int, id: Id)
    requires id in rows && Failed(id) in marks
    ensures var after := ApplyAll(rows, born, marks, now);
      id in after && (after[id].Open() ==> after[id].next.Some? && after[id].next.value > now)
  {
    var n := |marks| - 1;
    ApplyAllSpec(rows, born, marks[..n], now);
    if marks[n] != Failed(id) {
      assert marks == marks[..n] + [marks[n]];
      FailedIsLater(rows, born, marks[..n], now, id);
    } else {
      BackoffPositive(ApplyAll(rows, born, marks[..n], now)[id].retry);
    }
  }

  lemma {:induction false} BackoffPositive(retry: nat)
    ensures Backoff(retry) >= 1 && Pow2(retry) >= 1
  {
    if retry > 0 {
      BackoffPositive(retry - 1);
    }
  }

  /** In every run: until the poller's claim is disturbed, the rows it fetched carry its own lease and
      no one else's backoff. */
  lemma {:induction false} LeaseStands(run: seq<State>, steps: seq<Step>, maxRetries: nat, i: nat, j: nat, p: Pid,
          groups: seq<Group>, until: int, g: Group, e: Entry)
    requires IsRun(run, steps, maxRetries, true) && i < j <= |steps| && steps[i] == Fetch(p, groups, until)
    requires g in groups && e in g.entries && forall k :: i < k < j ==> !Disturbs(run[k], steps[k], g.tx)
    ensures e.id in run[j].rows && IsOpen(run[j].rows, e.id)
    ensures run[j].rows[e.id] == run[i].rows[e.id].(next := Some(until))
  {
    hide Disturbs, Selectable, NoneSkipped;
    var s := run[j - 1];
    if j == i + 1 {
      assert e.id in FetchedIds(groups) && IsOpen(s.rows, e.id);
    } else {
      LeaseStands(run, steps, maxRetries, i, j - 1, p, groups, until, g, e);
      OrderHolds(run, steps, maxRetries, j - 1);
      BornThen(run, steps, maxRetries, true, i, j - 1, e.id);
      RowUndisturbed(s, steps[j - 1], maxRetries, e.id);
    }
  }

  lemma {:induction false} BornThen(run: seq<State>, steps: seq<Step>, maxRetries: nat, inOrder: bool, i: nat, j: nat,
          id: Id)
    requires IsRun(run, steps, maxRetries, inOrder) && i <= j <= |steps| && id in run[i].born
    ensures id in run[j].born && run[j].born[id] == run[i].born[id]
  {
    hide Enabled, After;
    if j > i {
      BornThen(run, steps, maxRetries, inOrder, i, j - 1, id);
      BornKept(run[j - 1], steps[j - 1], maxRetries);
    }
  }

  // ---- When a publish is ahead of a backoff ----

  /** Marks with a failure of the event are committed. */
  ghost predicate CommitsFailure(s: State, step: Step, id: Id) {
    step.Persist? && step.commits && WorkerAt(s, step.p).Busy? && Failed(id) in WorkerAt(s, step.p).marks
  }

  lemma {:induction false} MarksGrow(rows: Rows, born: Births, marks: seq<Mark>, now: int, id: Id)
    requires id in rows
    ensures var after := ApplyAll(rows, born, marks, now);
      && id in after && after[id].retry >= rows[id].retry
      && (after[id].retry > rows[id].retry <==> Failed(id) in marks)
  {
    if marks != [] {
      var n := |marks| - 1;
      assert marks == marks[..n] + [marks[n]];
      MarksGrow(rows, born, marks[..n], now, id);
    }
  }

  lemma {:induction false} RetryGrowsStep(s: State, step: Step, maxRetries: nat, id: Id)
    requires Known(s) && Enabled(s, step, maxRetries, false)
    requires id in s.born && id in After(s, step, maxRetries).rows
    ensures id in s.rows && After(s, step, maxRetries).rows[id].retry >= s.rows[id].retry
    ensures After(s, step, maxRetries).rows[id].retry > s.rows[id].retry <==> CommitsFailure(s, step, id)
  {
    hide ApplyAll, Fetchable, Selectable, NoneSkipped, HasOpen, FetchedIds, WorkerKnown;
    match step
    case Persist(p, commits) =>
      var marks := WorkerAt(s, p).marks;
      ApplyAllSpec(s.rows, s.born, marks, s.now);
      if id in s.rows {
        MarksGrow(s.rows, s.born, marks, s.now, id);
      }
    case Insert(_) =>
    case Select(_, _) =>
    case Fetch(_, _, _) =>
    case Publish(_, _) =>
    case DrainSelect(_, _) =>
    case DrainPublish(_, _, _, _) =>
    case DrainCommit(_, _) =>
    case Sweep(_) =>
    case Tick(_) =>
    case Crash(_) =>
  }

  lemma {:induction false} KnownHolds(run: seq<State>, steps: seq<Step>, maxRetries: nat, inOrder: bool, i: nat)
    requires IsRun(run, steps, maxRetries, inOrder) && i <= |steps|
    ensures Known(run[i])
  {
    hide Enabled, After;
    if i > 0 {
      KnownHolds(run, steps, maxRetries, inOrder, i - 1);
      KnownStep(run[i - 1], steps[i - 1], maxRetries);
    }
  }

  /** A failure of the event is committed from i until before j. */
  ghost predicate FailedBetween(run: seq<State>, steps: seq<Step>, id: Id, i: nat, j: nat) {
    exists k: nat :: i <= k < j && k < |steps| && k < |run| && CommitsFailure(run[k], steps[k], id)
  }

  lemma {:induction false} FailedBefore(run: seq<State>, steps: seq<Step>, id: Id, i: nat, j: nat)
    requires i < j && j <= |steps| && j <= |run|
    ensures FailedBetween(run, steps, id, i, j) <==>
      FailedBetween(run, steps, id, i, j - 1) || CommitsFailure(run[j - 1], steps[j - 1], id)
  {
    hide CommitsFailure;
  }

  /** In every run, partial fetches included: an event's retry count has grown exactly when a failure
      of it was committed in between. */
  lemma {:induction false} RetryGrows(run: seq<State>, steps: seq<Step>, maxRetries: nat, inOrder: bool, i: nat, j: nat,
          id: Id)
    requires IsRun(run, steps, maxRetries, inOrder) && i <= j <= |steps|
    requires id in run[i].born && id in run[j].rows
    ensures id in run[i].rows && run[j].rows[id].retry >= run[i].rows[id].retry
    ensures run[j].rows[id].retry > run[i].rows[id].retry <==> FailedBetween(run, steps, id, i, j)
    decreases j
  {
    hide Enabled, After, CommitsFailure, FailedBetween;
    if i == j {
      assert !FailedBetween(run, steps, id, i, j) by { NoneBetween(run, steps, id, i); }
    } else {
      KnownHolds(run, steps, maxRetries, inOrder, j - 1);
      BornThen(run, steps, maxRetries, inOrder, i, j - 1, id);
      RetryGrowsStep(run[j - 1], steps[j - 1], maxRetries, id);
      RetryGrows(run, steps, maxRetries, inOrder, i, j - 1, id);
      FailedBefore(run, steps, id, i, j);
    }
  }

  lemma {:induction false} NoneBetween(run: seq<State>, steps: seq<Step>, id: Id, i: nat)
    ensures !FailedBetween(run, steps, id, i, i)
  {
  }

  /** A publish of an open row that another poller has put on backoff since. */
  ghost predicate PublishesEarly(s: State, maxRetries: nat, p: Pid) {
    && Reachable(s, maxRetries, true) && Enabled(s, Step.Publish(p, Accepted), maxRetries, true)
    && var e := WorkerAt(s, p).groups[0].entries[0];
       e.retry < maxRetries && IsOpen(s.rows, e.id) && s.rows[e.id].retry > e.retry && !Due(s.rows, e.id, s.now)
  }

  /** In every run, exactly when: an event that was fetched and is next to be published is on a backoff
      that it was not fetched with, if and only if it was fetched with retries left, is open and not
      due, and a failure of it was committed since the fetch. */
  lemma {:induction false} PublishesEarlyIff(run: seq<State>, steps: seq<Step>, maxRetries: nat, i: nat, j: nat, p: Pid,
          groups: seq<Group>, until: int, g: Group, e: Entry)
    requires IsRun(run, steps, maxRetries, true) && i < j < |steps| && steps[i] == Fetch(p, groups, until)
    requires g in groups && e in g.entries
    requires steps[j] == Step.Publish(p, Accepted) && WorkerAt(run[j], p).groups[0].entries[0] == e
    ensures PublishesEarly(run[j], maxRetries, p) <==>
      e.retry < maxRetries && IsOpen(run[j].rows, e.id) && !Due(run[j].rows, e.id, run[j].now)
          && FailedBetween(run, steps, e.id, i + 1, j)
  {
    hide Reachable, After, Known, Selectable, NoneSkipped, FailedBetween, CommitsFailure;
    PrefixReachable(run, steps, maxRetries, true, j);
    FetchedAt(run, steps, maxRetries, i, p, groups, until, g, e);
    if IsOpen(run[j].rows, e.id) {
      BornThen(run, steps, maxRetries, true, i, i + 1, e.id);
      RetryGrows(run, steps, maxRetries, true, i + 1, j, e.id);
    }
  }

  /** The event's next_retry_at is the lease of some poller that fetched it from i until before j. */
  ghost predicate Leased(run: seq<State>, steps: seq<Step>, id: Id, i: nat, j: nat)
    requires j < |run| && id in run[j].rows
  {
    exists k: nat :: i <= k < j && k < |steps| && steps[k].Fetch? && id in FetchedIds(steps[k].groups)
      && run[j].rows[id].next == Some(steps[k].until)
  }

  /** A row that stays open is left alone, claimed, or marked failed. */
  lemma {:induction false} OpenRowStep(s: State, step: Step, maxRetries: nat, id: Id)
    requires Known(s) && Enabled(s, step, maxRetries, false) && id in s.born
    requires IsOpen(After(s, step, maxRetries).rows, id) && !CommitsFailure(s, step, id)
    ensures IsOpen(s.rows, id)
    ensures var next := After(s, step, maxRetries).rows[id].next;
      next == s.rows[id].next || (step.Fetch? && id in FetchedIds(step.groups) && next == Some(step.until))
  {
    hide ApplyAll, Fetchable, Selectable, NoneSkipped, HasOpen, FetchedIds, WorkerKnown;
    NotReopened(s, step, maxRetries, id);
    match step
    case Persist(p, _) =>
      if step.commits {
        ApplyAllSpec(s.rows, s.born, WorkerAt(s, p).marks, s.now);
        assert Marked(s.rows, s.born, WorkerAt(s, p).marks, After(s, step, maxRetries).rows, id);
        NextUnmarked(s.rows, s.born, WorkerAt(s, p).marks, s.now, id);
      }
    case Insert(_) =>
    case Select(_, _) =>
    case Fetch(_, _, _) =>
    case Publish(_, _) =>
    case DrainSelect(_, _) =>
    case DrainPublish(_, _, _, _) =>
    case DrainCommit(_, _) =>
    case Sweep(_) =>
    case Tick(_) =>
    case Crash(_) =>
  }

  lemma {:induction false} NextUnmarked(rows: Rows, born: Births, marks: seq<Mark>, now: int, id: Id)
    requires id in rows && Failed(id) !in marks && Published(id) !in marks
    ensures id in ApplyAll(rows, born, marks, now) && ApplyAll(rows, born, marks, now)[id].next == rows[id].next
  {
    if marks != [] {
      var n := |marks| - 1;
      assert marks == marks[..n] + [marks[n]];
      NextUnmarked(rows, born, marks[..n], now, id);
    }
  }

  /** Otherwise nothing but a lease stands on it: its own, or that of a poller that fetched it since. */
  lemma {:induction false} UnlessFailedLeased(run: seq<State>, steps: seq<Step>, maxRetries: nat, i: nat, j: nat,
          p: Pid, groups: seq<Group>, until: int, g: Group, e: Entry)
    requires IsRun(run, steps, maxRetries, true) && i < j <= |steps| && steps[i] == Fetch(p, groups, until)
    requires g in groups && e in g.entries
    requires IsOpen(run[j].rows, e.id) && !FailedBetween(run, steps, e.id, i + 1, j)
    ensures Leased(run, steps, e.id, i, j)
    decreases j
  {
    hide Enabled, After, Known, Fetchable, FailedBetween, CommitsFailure, Leased;
    if j == i + 1 {
      OwnLease(run, steps, maxRetries, i, p, groups, until, g, e);
    } else {
      FetchedAt(run, steps, maxRetries, i, p, groups, until, g, e);
      BornThen(run, steps, maxRetries, true, i, j - 1, e.id);
      KnownHolds(run, steps, maxRetries, true, j - 1);
      FailedBefore(run, steps, e.id, i + 1, j);
      OpenRowStep(run[j - 1], steps[j - 1], maxRetries, e.id);
      UnlessFailedLeased(run, steps, maxRetries, i, j - 1, p, groups, until, g, e);
      LeasedStill(run, steps, maxRetries, e.id, i, j);
    }
  }

  lemma {:induction false} OwnLease(run: seq<State>, steps: seq<Step>, maxRetries: nat, i: nat, p: Pid,
          groups: seq<Group>, until: int, g: Group, e: Entry)
    requires IsRun(run, steps, maxRetries, true) && i < |steps| && steps[i] == Fetch(p, groups, until)
    requires g in groups && e in g.entries && e.id in run[i + 1].rows
    ensures Leased(run, steps, e.id, i, i + 1)
  {
    hide Selectable, NoneSkipped;
    assert Fetchable(run[i].rows, run[i].born, g);
    assert run[i + 1] == After(run[i], steps[i], maxRetries);
    assert e.id in FetchedIds(steps[i].groups);
  }

  lemma {:induction false} LeasedStill(run: seq<State>, steps: seq<Step>, maxRetries: nat, id: Id, i: nat, j: nat)
    requires 0 < i + 1 < j <= |steps| && j < |run| && id in run[j].rows && id in run[j - 1].rows
    requires Leased(run, steps, id, i, j - 1)
    requires run[j].rows[id].next == run[j - 1].rows[id].next
      || (steps[j - 1].Fetch? && id in FetchedIds(steps[j - 1].groups)
          && run[j].rows[id].next == Some(steps[j - 1].until))
    ensures Leased(run, steps, id, i, j)
  {
    hide FetchedIds;
    if run[j].rows[id].next == run[j - 1].rows[id].next {
      var k: nat :| i <= k < j - 1 && k < |steps| && steps[k].Fetch? && id in FetchedIds(steps[k].groups)
        && run[j - 1].rows[id].next == Some(steps[k].until);
      assert run[j].rows[id].next == Some(steps[k].until);
    }
  }

  /** A fetched entry carries its row's retry count, and the fetch leaves that alone. */
  lemma {:induction false} FetchedAt(run: seq<State>, steps: seq<Step>, maxRetries: nat, i: nat, p: Pid,
          groups: seq<Group>, until: int, g: Group, e: Entry)
    requires IsRun(run, steps, maxRetries, true) && i < |steps| && steps[i] == Fetch(p, groups, until)
    requires g in groups && e in g.entries
    ensures e.id in run[i].born && e.id in run[i + 1].rows && run[i + 1].rows[e.id].retry == e.retry
  {
    hide Selectable, NoneSkipped, FetchedIds;
    assert Fetchable(run[i].rows, run[i].born, g);
    assert run[i + 1] == After(run[i], steps[i], maxRetries);
  }

  lemma {:induction false} PrefixReachable(run: seq<State>, steps: seq<Step>, maxRetries: nat, inOrder: bool, j: nat)
    requires IsRun(run, steps, maxRetries, inOrder) && j <= |steps|
    ensures Reachable(run[j], maxRetries, inOrder)
  {
    hide Enabled, After;
    var states, taken := run[..j + 1], steps[..j];
    assert IsRun(states, taken, maxRetries, inOrder) && states[|taken|] == run[j];
  }
}

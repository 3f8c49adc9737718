/** The outbox protocol: any number of pollers, drains and janitors over one table, with a crash
    possible between any two steps (events/outbox_handler.go, events/outbox_janitor.go).

    A database transaction is one step, with two exceptions.  A drain publishes between its select
    and its delete; its row locks are not modelled, which only allows more interleavings.  And the
    selector runs two statements at READ COMMITTED: the first picks transactions, the second reads
    and locks their open rows, and other pollers may commit in between.  A publish may be stored
    although its acknowledgement is lost, and a commit applied although an error is reported. */
module Outbox {
  import opened Wrappers
  import opened OutboxTable

  datatype Pid = Pid(token: int)

  datatype Group = Group(tx: TxId, entries: seq<Entry>)

  /** A poller keeps the transactions it picked until it fetches their rows, then the groups left to
      publish and the marks so far. */
  datatype Worker =
    | Idle
    | Selected(txs: set<TxId>)
    | Busy(groups: seq<Group>, marks: seq<Mark>)
    | Draining(selected: set<Id>, acked: set<Id>)

  /** born keeps every row ever inserted; stream and dlq what JetStream has stored; deadTxs the
      transactions ever dead-lettered; txs the transaction ids ever used. */
  datatype State = State(
    now: int, rows: Rows, born: Births, txs: set<TxId>,
    stream: seq<Id>, dlq: set<Id>, deadTxs: set<TxId>, workers: map<Pid, Worker>)

  function WorkerAt(s: State, p: Pid): Worker { if p in s.workers then s.workers[p] else Idle }

  datatype Step =
    | Insert(births: Births)
    | Select(p: Pid, txs: set<TxId>)
    | Fetch(p: Pid, groups: seq<Group>, until: int)
    | Publish(p: Pid, outcome: Outcome)
    | Persist(p: Pid, commits: bool)
    | DrainSelect(p: Pid, ids: set<Id>)
    | DrainPublish(p: Pid, id: Id, stored: bool, acked: bool)
    | DrainCommit(p: Pid, commits: bool)
    | Sweep(ids: set<Id>)
    | Tick(time: int)
    | Crash(p: Pid)

  ghost function IdsOf(entries: seq<Entry>): set<Id> { set e | e in entries :: e.id }

  ghost function FetchedIds(groups: seq<Group>): set<Id> { set g, e | g in groups && e in g.entries :: e.id }

  /** Open rows of one transaction in created_at order, as they stand in the table. */
  ghost predicate Fetchable(rows: Rows, born: Births, g: Group) {
    && g.entries != []
    && (forall e :: e in g.entries ==>
        IsOpen(rows, e.id) && e.id in born && born[e.id].tx == g.tx && rows[e.id].retry == e.retry)
    && (forall i, j :: 0 <= i < j < |g.entries| ==>
          g.entries[i].id != g.entries[j].id && born[g.entries[i].id].created <= born[g.entries[j].id].created)
  }

  /** No open row is left out that comes before one of the group. */
  ghost predicate NoneSkipped(rows: Rows, born: Births, g: Group) {
    forall e, a :: e in g.entries && IsOpen(rows, a) && Precedes(born, a, e.id) ==> a in IdsOf(g.entries)
  }

  ghost predicate HasOpen(rows: Rows, born: Births, tx: TxId) {
    exists id :: IsOpen(rows, id) && id in born && born[id].tx == tx
  }

  /** The selector's second statement returns open rows of the transactions the first one picked;
      with inOrder, it skips none that comes before one it returns. */
  ghost predicate Enabled(s: State, step: Step, maxRetries: nat, inOrder: bool) {
    match step
    case Insert(births) => births.Keys !! s.born.Keys && forall id :: id in births ==> births[id].tx !in s.txs
    case Select(p, txs) => WorkerAt(s, p) == Idle && forall tx :: tx in txs ==>
        HasOpen(s.rows, s.born, tx) && Selectable(s.rows, s.born, tx, maxRetries, s.now)
    case Fetch(p, groups, _) =>
      && WorkerAt(s, p).Selected?
      && (forall g :: g in groups ==> g.tx in WorkerAt(s, p).txs && Fetchable(s.rows, s.born, g))
      && (forall i, j :: 0 <= i < j < |groups| ==> groups[i].tx != groups[j].tx)
      && (inOrder ==> forall g :: g in groups ==> NoneSkipped(s.rows, s.born, g))
    case Publish(p, _) => WorkerAt(s, p).Busy? && WorkerAt(s, p).groups != [] && WorkerAt(s, p).groups[0].entries != []
    case Persist(p, _) => WorkerAt(s, p).Busy? && WorkerAt(s, p).groups == []
    case DrainSelect(p, ids) => WorkerAt(s, p) == Idle && forall id :: id in ids ==>
        id in s.rows && s.rows[id].dead && s.rows[id].published.None?
    case DrainPublish(p, id, stored, acked) =>
        WorkerAt(s, p).Draining? && id in WorkerAt(s, p).selected && (acked ==> stored)
    case DrainCommit(p, _) => WorkerAt(s, p).Draining?
    case Sweep(ids) => forall id :: id in ids ==>
        id in s.rows && s.rows[id].published.Some? && s.rows[id].published.value < s.now
    case Tick(time) => s.now <= time
    case Crash(p) => true
  }

  /** publishTransactionGroup, one entry at a time. */
  function Published1(s: State, p: Pid, outcome: Outcome, maxRetries: nat): State
    requires WorkerAt(s, p).Busy? && WorkerAt(s, p).groups != [] && WorkerAt(s, p).groups[0].entries != []
  {
    var w := WorkerAt(s, p);
    var g, others := w.groups[0], w.groups[1..];
    var e := g.entries[0];
    if e.retry >= maxRetries then
      s.(workers := s.workers[p := Busy(others, w.marks + [Dead(g.tx, |g.entries|)])])
    else match outcome
      case Accepted =>
        var left := if |g.entries| > 1 then [Group(g.tx, g.entries[1..])] + others else others;
        s.(stream := s.stream + [e.id], workers := s.workers[p := Busy(left, w.marks + [Published(e.id)])])
      case Refused => s.(workers := s.workers[p := Busy(others, w.marks + [Failed(e.id)])])
      case AckLost => s.(stream := s.stream + [e.id], workers := s.workers[p := Busy(others, w.marks + [Failed(e.id)])])
  }

  /** Publish steps of p until its first group is done with. */
  ghost function GroupDone(s: State, p: Pid, maxRetries: nat, outcome: Id -> Outcome): State
    requires WorkerAt(s, p).Busy? && WorkerAt(s, p).groups != [] && WorkerAt(s, p).groups[0].entries != []
    decreases |WorkerAt(s, p).groups[0].entries|
  {
    var g := WorkerAt(s, p).groups[0];
    var s' := Published1(s, p, outcome(g.entries[0].id), maxRetries);
    if |g.entries| > 1 && g.entries[0].retry < maxRetries && outcome(g.entries[0].id) == Accepted
    then GroupDone(s', p, maxRetries, outcome)
    else s'
  }

  function Advanced(s: State, p: Pid, groups: seq<Group>, marks: seq<Mark>, stored: seq<Id>): State {
    s.(stream := s.stream + stored, workers := s.workers[p := Busy(groups, marks)])
  }

  lemma {:induction false} AdvancedTwice(s: State, p: Pid, groups1: seq<Group>, marks1: seq<Mark>, a: seq<Id>,
          groups: seq<Group>, marks: seq<Mark>, b: seq<Id>)
    ensures Advanced(Advanced(s, p, groups1, marks1, a), p, groups, marks, b) == Advanced(s, p, groups, marks, a + b)
  {
    assert s.stream + a + b == s.stream + (a + b);
    assert s.workers[p := Busy(groups1, marks1)][p := Busy(groups, marks)] == s.workers[p := Busy(groups, marks)];
  }

  /** They come to what publishTransactionGroup computes: the loop is a run of protocol steps. */
  lemma {:induction false} GroupDoneIsPass(s: State, p: Pid, maxRetries: nat, outcome: Id -> Outcome)
    requires WorkerAt(s, p).Busy? && WorkerAt(s, p).groups != [] && WorkerAt(s, p).groups[0].entries != []
    ensures var w := WorkerAt(s, p);
      var g := w.groups[0];
      GroupDone(s, p, maxRetries, outcome) ==
        Advanced(s, p, w.groups[1..], w.marks + GroupMarks(g.tx, g.entries, maxRetries, outcome),
            GroupStored(g.entries, maxRetries, outcome))
    decreases |WorkerAt(s, p).groups[0].entries|
  {
    var w := WorkerAt(s, p);
    var g, e, others := w.groups[0], w.groups[0].entries[0], w.groups[1..];
    if e.retry < maxRetries && outcome(e.id) == Accepted {
      var rest := g.entries[1..];
      var marks, stored := GroupMarks(g.tx, rest, maxRetries, outcome), GroupStored(rest, maxRetries, outcome);
      Regroup(w.marks, Published(e.id), marks);
      if |g.entries| > 1 {
        hide GroupMarks, GroupStored;
        MarksAfter(g.tx, g.entries, 0, maxRetries, outcome);
        assert g.entries[0..] == g.entries;
        var left := [Group(g.tx, rest)] + others;
        var s' := Advanced(s, p, left, w.marks + [Published(e.id)], [e.id]);
        assert s' == Published1(s, p, Accepted, maxRetries) && left[1..] == others;
        GroupDoneIsPass(s', p, maxRetries, outcome);
        AdvancedTwice(s, p, left, w.marks + [Published(e.id)], [e.id], others, w.marks + [Published(e.id)] + marks,
            stored);
      } else {
        assert rest == [] && w.marks + [Published(e.id)] + [] == w.marks + [Published(e.id)];
        assert [e.id] + [] == [e.id];
      }
    } else {
      assert s.stream + [] == s.stream;
    }
  }

  ghost function DeadIn(marks: seq<Mark>): set<TxId> { set m | m in marks && m.Dead? :: m.tx }

  ghost function After(s: State, step: Step, maxRetries: nat): State
    requires Enabled(s, step, maxRetries, false)
  {
    match step
    case Insert(births) =>
      s.(rows := s.rows + map id | id in births :: Row(0, None, None, false),
         born := s.born + births, txs := s.txs + set id | id in births :: births[id].tx)
    case Select(p, txs) => s.(workers := s.workers[p := Selected(txs)])
    case Fetch(p, groups, until) =>
      s.(rows := Claim(s.rows, FetchedIds(groups), until), workers := s.workers[p := Busy(groups, [])])
    case Publish(p, outcome) => Published1(s, p, outcome, maxRetries)
    case Persist(p, commits) =>
      var marks := WorkerAt(s, p).marks;
      var s' := s.(workers := s.workers[p := Idle]);
      if commits then s'.(rows := ApplyAll(s.rows, s.born, marks, s.now), deadTxs := s.deadTxs + DeadIn(marks)) else s'
    case DrainSelect(p, ids) => s.(workers := s.workers[p := Draining(ids, {})])
    case DrainPublish(p, id, stored, acked) =>
      var w := WorkerAt(s, p);
      s.(dlq := if stored then s.dlq + {id} else s.dlq,
         workers := s.workers[p := if acked then w.(acked := w.acked + {id}) else w])
    case DrainCommit(p, commits) =>
      var w := WorkerAt(s, p);
      s.(rows := if commits then s.rows - w.acked else s.rows, workers := s.workers[p := Idle])
    case Sweep(ids) => s.(rows := s.rows - ids)
    case Tick(time) => s.(now := time)
    case Crash(p) => s.(workers := s.workers[p := Idle])
  }

  const INIT := State(0, map[], map[], {}, [], {}, {}, map[])

  ghost predicate IsRun(run: seq<State>, steps: seq<Step>, maxRetries: nat, inOrder: bool) {
    && |run| == |steps| + 1 && run[0] == INIT
    && forall i :: 0 <= i < |steps| ==>
      && Enabled(run[i], steps[i], maxRetries, inOrder) && Enabled(run[i], steps[i], maxRetries, false)
      && run[i + 1] == After(run[i], steps[i], maxRetries)
  }

  ghost predicate Reachable(s: State, maxRetries: nat, inOrder: bool) {
    exists run, steps :: IsRun(run, steps, maxRetries, inOrder) && run[|steps|] == s
  }

  lemma {:induction false} ReachableInit(maxRetries: nat, inOrder: bool)
    ensures Reachable(INIT, maxRetries, inOrder)
  {
    hide Enabled, After;
    var run, steps: seq<Step> := [INIT], [];
    assert IsRun(run, steps, maxRetries, inOrder) && run[|steps|] == INIT;
  }

  lemma {:induction false} ReachableStep(s: State, step: Step, maxRetries: nat, inOrder: bool)
    requires Reachable(s, maxRetries, inOrder)
    requires Enabled(s, step, maxRetries, inOrder) && Enabled(s, step, maxRetries, false)
    ensures Reachable(After(s, step, maxRetries), maxRetries, inOrder)
  {
    hide Enabled, After;
    var run, steps :| IsRun(run, steps, maxRetries, inOrder) && run[|steps|] == s;
    var longer := run + [After(s, step, maxRetries)];
    assert IsRun(longer, steps + [step], maxRetries, inOrder);
    assert longer[|steps + [step]|] == After(s, step, maxRetries);
  }

  // ---- What a batch of marks does ----

  lemma {:induction false} ApplyAllSpec(rows: Rows, born: Births, marks: seq<Mark>, now: int)
    ensures ApplyAll(rows, born, marks, now).Keys == rows.Keys
    ensures forall id :: id in rows ==> Marked(rows, born, marks, ApplyAll(rows, born, marks, now), id)
  {
    if marks != [] {
      hide Marked;
      ApplyAllSpec(rows, born, marks[..|marks| - 1], now);
      assert marks == marks[..|marks| - 1] + [marks[|marks| - 1]];
      forall id | id in rows
        ensures Marked(rows, born, marks, ApplyAll(rows, born, marks, now), id)
      {
        OneMoreMark(rows, born, marks[..|marks| - 1], marks[|marks| - 1],
            ApplyAll(rows, born, marks[..|marks| - 1], now), now, id);
      }
    }
  }

  lemma {:induction false} OneMoreMark(rows: Rows, born: Births, marks: seq<Mark>, mark: Mark, before: Rows, now: int,
          id: Id)
    requires Marked(rows, born, marks, before, id)
    ensures Marked(rows, born, marks + [mark], Apply(before, born, mark, now), id)
  {
    assert mark in marks + [mark];
    match mark
    case Published(_) =>
    case Failed(_) =>
    case Dead(tx, _) => assert tx in DeadIn(marks + [mark]);
  }

  ghost predicate Marked(rows: Rows, born: Births, marks: seq<Mark>, after: Rows, id: Id) {
    && id in rows && id in after
    && (after[id].published.Some? <==> rows[id].published.Some? || Published(id) in marks)
    && (after[id].dead ==> rows[id].dead || (id in born && born[id].tx in DeadIn(marks)))
    && (after[id].Open() <==>
        rows[id].Open() && Published(id) !in marks && !(id in born && born[id].tx in DeadIn(marks)))
    && (after[id].retry > rows[id].retry ==> Failed(id) in marks)
  }

  // ---- No loss ----

  ghost predicate WorkerTruthful(s: State, w: Worker) {
    match w
    case Idle => true
    case Selected(_) => true
    case Busy(_, marks) => forall id :: Published(id) in marks ==> id in s.stream
    case Draining(_, acked) => acked <= s.dlq
  }

  /** Every inserted row is still there, or the stream has it, or the DLQ has it; and a row marked
      published is in the stream. */
  ghost predicate NothingLost(s: State) {
    && (forall id :: id in s.born ==> id in s.rows || id in s.stream || id in s.dlq)
    && (forall id :: id in s.rows && s.rows[id].published.Some? ==> id in s.stream)
  }

  ghost predicate Truthful(s: State) {
    NothingLost(s) && forall p :: p in s.workers ==> WorkerTruthful(s, s.workers[p])
  }

  lemma {:induction false} NothingLostStep(s: State, step: Step, maxRetries: nat)
    requires Truthful(s) && Enabled(s, step, maxRetries, false)
    ensures NothingLost(After(s, step, maxRetries))
  {
    hide ApplyAll, Fetchable, FetchedIds;
    match step
    case Persist(p, commits) =>
      var marks := WorkerAt(s, p).marks;
      ApplyAllSpec(s.rows, s.born, marks, s.now);
      assert WorkerTruthful(s, WorkerAt(s, p));
      assert forall id :: id in s.rows ==> Marked(s.rows, s.born, marks, ApplyAll(s.rows, s.born, marks, s.now), id);
    case DrainCommit(p, _) =>
      assert WorkerTruthful(s, WorkerAt(s, p));
    case _ =>
  }

  lemma {:induction false} WorkerTruthfulStep(s: State, step: Step, maxRetries: nat, q: Pid)
    requires Truthful(s) && Enabled(s, step, maxRetries, false) && q in After(s, step, maxRetries).workers
    ensures WorkerTruthful(After(s, step, maxRetries), After(s, step, maxRetries).workers[q])
  {
    hide ApplyAll, Fetchable, FetchedIds, Claim, NothingLost, NoneSkipped, HasOpen, Selectable, Published1,
        MarkPublished, DeadIn;
    if q in s.workers {
      assert WorkerTruthful(s, s.workers[q]);
    }
    match step
    case Insert(_) =>
    case Select(_, _) =>
    case Fetch(_, _, _) =>
    case Publish(p, outcome) => PublishTruthful(s, p, outcome, maxRetries, q);
    case Persist(_, _) =>
    case DrainSelect(_, _) =>
    case DrainPublish(_, _, _, _) =>
    case DrainCommit(_, _) =>
    case Sweep(_) =>
    case Tick(_) =>
    case Crash(_) =>
  }

  lemma {:induction false} PublishTruthful(s: State, p: Pid, outcome: Outcome, maxRetries: nat, q: Pid)
    requires Truthful(s) && Enabled(s, Step.Publish(p, outcome), maxRetries, false)
    requires q in Published1(s, p, outcome, maxRetries).workers
    ensures WorkerTruthful(Published1(s, p, outcome, maxRetries), Published1(s, p, outcome, maxRetries).workers[q])
  {
    hide NothingLost;
    assert WorkerTruthful(s, s.workers[p]);
    if q in s.workers {
      assert WorkerTruthful(s, s.workers[q]);
    }
  }

  lemma {:induction false} TruthfulStep(s: State, step: Step, maxRetries: nat)
    requires Truthful(s) && Enabled(s, step, maxRetries, false)
    ensures Truthful(After(s, step, maxRetries))
  {
    hide Enabled, After, WorkerTruthful, NothingLost;
    NothingLostStep(s, step, maxRetries);
    forall q | q in After(s, step, maxRetries).workers
      ensures WorkerTruthful(After(s, step, maxRetries), After(s, step, maxRetries).workers[q])
    {
      WorkerTruthfulStep(s, step, maxRetries, q);
    }
  }

  /** No event is lost, in any run, with any partial fetches. */
  lemma {:induction false} NoLoss(run: seq<State>, steps: seq<Step>, maxRetries: nat, inOrder: bool, i: nat)
    requires IsRun(run, steps, maxRetries, inOrder) && i <= |steps|
    ensures Truthful(run[i])
  {
    if i > 0 {
      NoLoss(run, steps, maxRetries, inOrder, i - 1);
      TruthfulStep(run[i - 1], steps[i - 1], maxRetries);
    }
  }

  // ---- How a row leaves the table ----

  /** The drain that p is in has had this event acknowledged. */
  ghost predicate AckedSince(steps: seq<Step>, i: nat, p: Pid, id: Id) {
    exists j: nat :: j < i <= |steps|
        && (steps[j] == DrainPublish(p, id, true, true) || steps[j] == DrainPublish(p, id, false, true))
        && forall k :: j < k < i ==> !(steps[k].DrainSelect? && steps[k].p == p)
  }

  ghost predicate KeepsAcked(w: Worker, steps: seq<Step>, i: nat, p: Pid) {
    w.Draining? ==> forall id :: id in w.acked <==> AckedSince(steps, i, p, id)
  }

  lemma {:induction false} AckedMore(steps: seq<Step>, i: nat, p: Pid, id: Id)
    requires i < |steps|
    ensures AckedSince(steps, i + 1, p, id) <==>
      || (AckedSince(steps, i, p, id) && !(steps[i].DrainSelect? && steps[i].p == p))
      || (steps[i].DrainPublish? && steps[i].p == p && steps[i].id == id && steps[i].acked)
  {
    if AckedSince(steps, i, p, id) && !(steps[i].DrainSelect? && steps[i].p == p) {
      var j: nat :| j < i
        && (steps[j] == DrainPublish(p, id, true, true) || steps[j] == DrainPublish(p, id, false, true))
        && forall k :: j < k < i ==> !(steps[k].DrainSelect? && steps[k].p == p);
      assert forall k :: j < k < i + 1 ==> !(steps[k].DrainSelect? && steps[k].p == p);
    }
  }

  lemma {:induction false} DrainStep(s: State, step: Step, maxRetries: nat, p: Pid)
    requires Enabled(s, step, maxRetries, false)
    ensures var w := WorkerAt(After(s, step, maxRetries), p);
      && (step.DrainSelect? && step.p == p ==> w.Draining? && w.acked == {})
      && (w.Draining? && !(step.DrainSelect? && step.p == p) ==>
            && WorkerAt(s, p).Draining?
            && w.acked == WorkerAt(s, p).acked
                 + if step.DrainPublish? && step.p == p && step.acked then {step.id} else {})
  {
    hide ApplyAll, Fetchable, FetchedIds, Claim, NoneSkipped, HasOpen, Selectable, DeadIn;
  }

  lemma {:induction false} DrainsKeepAcked(run: seq<State>, steps: seq<Step>, maxRetries: nat, inOrder: bool, i: nat,
          p: Pid)
    requires IsRun(run, steps, maxRetries, inOrder) && i <= |steps|
    ensures KeepsAcked(WorkerAt(run[i], p), steps, i, p)
  {
    hide Enabled, After, AckedSince;
    if i > 0 {
      DrainsKeepAcked(run, steps, maxRetries, inOrder, i - 1, p);
      DrainStep(run[i - 1], steps[i - 1], maxRetries, p);
      forall id
        ensures AckedSince(steps, i, p, id) <==>
          || (AckedSince(steps, i - 1, p, id) && !(steps[i - 1].DrainSelect? && steps[i - 1].p == p))
          || (steps[i - 1].DrainPublish? && steps[i - 1].p == p && steps[i - 1].id == id && steps[i - 1].acked)
      {
        AckedMore(steps, i - 1, p, id);
      }
    }
  }

  lemma {:induction false} RowsAfter(s: State, step: Step, maxRetries: nat, id: Id)
    requires Enabled(s, step, maxRetries, false) && id in s.rows
    ensures id !in After(s, step, maxRetries).rows <==>
      || (step.Sweep? && id in step.ids)
      || (step.DrainCommit? && step.commits && id in WorkerAt(s, step.p).acked)
  {
    hide Fetchable, FetchedIds, NoneSkipped, HasOpen, Selectable, DeadIn, ApplyAll, Marked;
    if step.Persist? {
      ApplyAllSpec(s.rows, s.born, WorkerAt(s, step.p).marks, s.now);
    }
  }

  /** In every run a row leaves the table exactly when the janitor takes it, or a drain commits that has
      had it acknowledged in the dead-letter stream. */
  lemma {:induction false} RowLeaves(run: seq<State>, steps: seq<Step>, maxRetries: nat, inOrder: bool, i: nat, id: Id)
    requires IsRun(run, steps, maxRetries, inOrder) && i < |steps| && id in run[i].rows
    ensures id !in run[i + 1].rows <==>
      || (steps[i].Sweep? && id in steps[i].ids)
      || (steps[i].DrainCommit? && steps[i].commits && AckedSince(steps, i, steps[i].p, id))
  {
    hide After, AckedSince;
    if steps[i].DrainCommit? {
      DrainsKeepAcked(run, steps, maxRetries, inOrder, i, steps[i].p);
    }
    RowsAfter(run[i], steps[i], maxRetries, id);
  }
}

/** How long a failed event waits (outbox_helpers.go, markFailedQuery): the waits of one event, as the
    failures of its publishes are recorded in any run. */
module OutboxBackoff {
  import opened Wrappers
  import opened OutboxTable
  import opened Outbox
  import opened OutboxOrder
  import opened OutboxTimely

  // ---- The schedule ----

  /** The wait after n failures: one second at first, then twice as long each time, an hour at most. */
  function Schedule(n: nat): nat {
    if n == 0 then 1 else if 2 * Schedule(n - 1) < 3600 then 2 * Schedule(n - 1) else 3600
  }

  /** LEAST(POWER(2, retry_count), 3600) is that schedule. */
  lemma {:induction false} BackoffIsSchedule(n: nat)
    ensures Backoff(n) == Schedule(n) && 1 <= Schedule(n) <= 3600 && Pow2(n) >= Schedule(n)
    ensures Schedule(n) < 3600 ==> Pow2(n) == Schedule(n)
  {
    if n > 0 {
      BackoffIsSchedule(n - 1);
    }
  }

  // ---- One mark per event ----

  /** The event a mark is about. */
  function Subject(m: Mark): Option<Id> {
    match m
    case Published(id) => Some(id)
    case Failed(id) => Some(id)
    case Dead(_, _) => None
  }

  ghost predicate Unmarked(marks: seq<Mark>, id: Id) { forall m :: m in marks ==> Subject(m) != Some(id) }

  ghost predicate OncePerEvent(marks: seq<Mark>) {
    forall i, j :: 0 <= i < j < |marks| && Subject(marks[i]).Some? ==> Subject(marks[i]) != Subject(marks[j])
  }

  lemma {:induction false} OneMark(marks: seq<Mark>, m: Mark)
    requires OncePerEvent(marks) && (Subject(m).Some? ==> Unmarked(marks, Subject(m).value))
    ensures OncePerEvent(marks + [m])
  {
    forall i, j | 0 <= i < j < |marks| + 1 && Subject((marks + [m])[i]).Some?
      ensures Subject((marks + [m])[i]) != Subject((marks + [m])[j])
    {
      if j == |marks| {
        assert marks[i] in marks;
      }
    }
  }

  /** A mark that is not about the event leaves its count and its wait alone. */
  lemma {:induction false} OthersMark(rows: Rows, born: Births, marks: seq<Mark>, now: int, id: Id)
    requires id in rows && Unmarked(marks, id)
    ensures var after := ApplyAll(rows, born, marks, now);
      id in after && after[id].retry == rows[id].retry && after[id].next == rows[id].next
  {
    if marks != [] {
      var n := |marks| - 1;
      assert marks == marks[..n] + [marks[n]];
      assert marks[n] in marks;
      OthersMark(rows, born, marks[..n], now, id);
    }
  }

  /** A recorded failure counts once, and sets the wait for the failures there were before. */
  lemma {:induction false} FailureMark(rows: Rows, born: Births, marks: seq<Mark>, now: int, id: Id)
    requires id in rows && OncePerEvent(marks) && Failed(id) in marks
    ensures var after := ApplyAll(rows, born, marks, now);
      && id in after && after[id].retry == rows[id].retry + 1
      && after[id].next == Some(now + Schedule(rows[id].retry))
  {
    var n := |marks| - 1;
    var init := marks[..n];
    assert marks == init + [marks[n]];
    if marks[n] == Failed(id) {
      forall m | m in init
        ensures Subject(m) != Some(id)
      {
        var i :| 0 <= i < n && init[i] == m;
        assert marks[i] == m;
      }
      OthersMark(rows, born, init, now, id);
      BackoffIsSchedule(rows[id].retry);
    } else {
      assert Failed(id) in init;
      FailureMark(rows, born, init, now, id);
      var i :| 0 <= i < n && marks[i] == Failed(id);
      assert Subject(marks[n]) != Some(id);
    }
  }

  // ---- In every run a poller marks an event once ----

  ghost predicate GroupKnown(born: Births, g: Group) {
    && (forall e :: e in g.entries ==> e.id in born && born[e.id].tx == g.tx)
    && (forall i, j :: 0 <= i < j < |g.entries| ==> g.entries[i].id != g.entries[j].id)
  }

  ghost predicate ToMark(born: Births, marks: seq<Mark>, g: Group) {
    GroupKnown(born, g) && forall e :: e in g.entries ==> Unmarked(marks, e.id)
  }

  ghost predicate MarksBorn(born: Births, marks: seq<Mark>) {
    forall m :: m in marks && Subject(m).Some? ==> Subject(m).value in born
  }

  ghost predicate WorkerOnce(born: Births, w: Worker) {
    w.Busy? ==>
      && OncePerEvent(w.marks) && MarksBorn(born, w.marks)
      && (forall g :: g in w.groups ==> ToMark(born, w.marks, g))
      && (forall i, j :: 0 <= i < j < |w.groups| ==> w.groups[i].tx != w.groups[j].tx)
  }

  ghost predicate MarkedOnce(s: State) {
    s.rows.Keys <= s.born.Keys && forall p :: p in s.workers ==> WorkerOnce(s.born, s.workers[p])
  }

  lemma {:induction false} OnceStill(born: Births, later: Births, w: Worker)
    requires WorkerOnce(born, w) && born.Keys <= later.Keys && forall id :: id in born ==> later[id] == born[id]
    ensures WorkerOnce(later, w)
  {
  }

  lemma {:induction false} FetchOnce(s: State, p: Pid, groups: seq<Group>, until: int, maxRetries: nat)
    requires Enabled(s, Fetch(p, groups, until), maxRetries, false)
    ensures WorkerOnce(s.born, Busy(groups, []))
  {
    hide Selectable, HasOpen;
    forall g | g in groups
      ensures ToMark(s.born, [], g)
    {
      assert Fetchable(s.rows, s.born, g);
    }
  }

  /** Groups of other transactions are not about the event. */
  lemma {:induction false} OthersToMark(born: Births, marks: seq<Mark>, m: Mark, g: Group, h: Group)
    requires ToMark(born, marks, h) && GroupKnown(born, g) && g.tx != h.tx
    requires Subject(m).Some? ==> exists e :: e in g.entries && e.id == Subject(m).value
    ensures ToMark(born, marks + [m], h)
  {
    forall e | e in h.entries
      ensures Unmarked(marks + [m], e.id)
    {
      assert Unmarked(marks, e.id);
    }
  }

  lemma {:induction false} RestToMark(born: Births, marks: seq<Mark>, g: Group)
    requires g.entries != [] && ToMark(born, marks, g)
    ensures ToMark(born, marks + [Published(g.entries[0].id)], Group(g.tx, g.entries[1..]))
  {
    var rest := g.entries[1..];
    forall e | e in rest
      ensures e in g.entries && Unmarked(marks + [Published(g.entries[0].id)], e.id)
    {
      var i :| 0 <= i < |rest| && rest[i] == e;
      assert g.entries[i + 1] == e && Unmarked(marks, e.id);
    }
  }

  /** The first group is done with, and m is the mark about it. */
  lemma {:induction false} OthersOnce(born: Births, w: Worker, m: Mark)
    requires w.Busy? && WorkerOnce(born, w) && w.groups != [] && w.groups[0].entries != []
    requires m.Dead? || Subject(m) == Some(w.groups[0].entries[0].id)
    ensures WorkerOnce(born, Busy(w.groups[1..], w.marks + [m]))
  {
    hide ToMark, OncePerEvent, MarksBorn;
    var g, others := w.groups[0], w.groups[1..];
    assert g in w.groups;
    FirstToMark(born, w.marks, g, m);
    forall h | h in others
      ensures ToMark(born, w.marks + [m], h)
    {
      var j :| 0 <= j < |others| && others[j] == h;
      assert w.groups[j + 1] == h && h in w.groups;
      OthersToMark(born, w.marks, m, g, h);
    }
  }

  /** The group's first entry is published and others follow. */
  lemma {:induction false} RestOnce(born: Births, w: Worker)
    requires w.Busy? && WorkerOnce(born, w) && w.groups != [] && |w.groups[0].entries| > 1
    ensures var g := w.groups[0];
      WorkerOnce(born, Busy([Group(g.tx, g.entries[1..])] + w.groups[1..], w.marks + [Published(g.entries[0].id)]))
  {
    hide ToMark, OncePerEvent, MarksBorn;
    var g := w.groups[0];
    assert g in w.groups;
    OthersOnce(born, w, Published(g.entries[0].id));
    RestToMark(born, w.marks, g);
  }

  lemma {:induction false} PublishOnce(s: State, p: Pid, outcome: Outcome, maxRetries: nat)
    requires Enabled(s, Step.Publish(p, outcome), maxRetries, false) && WorkerOnce(s.born, WorkerAt(s, p))
    ensures WorkerOnce(s.born, Published1(s, p, outcome, maxRetries).workers[p])
  {
    hide WorkerOnce;
    var w := WorkerAt(s, p);
    var e := w.groups[0].entries[0];
    var m := if e.retry >= maxRetries then Dead(w.groups[0].tx, |w.groups[0].entries|)
             else if outcome.Accepted? then Published(e.id) else Failed(e.id);
    OthersOnce(s.born, w, m);
    if |w.groups[0].entries| > 1 {
      RestOnce(s.born, w);
    }
  }

  lemma {:induction false} FirstToMark(born: Births, marks: seq<Mark>, g: Group, m: Mark)
    requires g.entries != [] && ToMark(born, marks, g) && OncePerEvent(marks) && MarksBorn(born, marks)
    requires m.Dead? || Subject(m) == Some(g.entries[0].id)
    ensures OncePerEvent(marks + [m]) && MarksBorn(born, marks + [m]) && GroupKnown(born, g)
    ensures Subject(m).Some? ==> exists e :: e in g.entries && e.id == Subject(m).value
  {
    assert g.entries[0] in g.entries && Unmarked(marks, g.entries[0].id);
    OneMark(marks, m);
  }

  lemma {:induction false} MarkedOnceStep(s: State, step: Step, maxRetries: nat)
    requires MarkedOnce(s) && Enabled(s, step, maxRetries, false)
    ensures MarkedOnce(After(s, step, maxRetries))
  {
    hide WorkerOnce, Fetchable, Selectable, HasOpen, ApplyAll;
    var s' := After(s, step, maxRetries);
    RowsStayBorn(s, step, maxRetries);
    BornKept(s, step, maxRetries);
    forall q | q in s'.workers
      ensures WorkerOnce(s'.born, s'.workers[q])
    {
      if q in s.workers && s'.workers[q] == s.workers[q] {
        OnceStill(s.born, s'.born, s.workers[q]);
      } else {
        ChangedOnce(s, step, maxRetries, q);
      }
    }
  }

  lemma {:induction false} RowsStayBorn(s: State, step: Step, maxRetries: nat)
    requires s.rows.Keys <= s.born.Keys && Enabled(s, step, maxRetries, false)
    ensures After(s, step, maxRetries).rows.Keys <= After(s, step, maxRetries).born.Keys
  {
    hide Fetchable, Selectable, HasOpen, ApplyAll;
    if step.Persist? {
      ApplyAllSpec(s.rows, s.born, WorkerAt(s, step.p).marks, s.now);
    }
  }

  lemma {:induction false} ChangedOnce(s: State, step: Step, maxRetries: nat, q: Pid)
    requires MarkedOnce(s) && Enabled(s, step, maxRetries, false) && q in After(s, step, maxRetries).workers
    requires q !in s.workers || After(s, step, maxRetries).workers[q] != s.workers[q]
    ensures WorkerOnce(After(s, step, maxRetries).born, After(s, step, maxRetries).workers[q])
  {
    hide Fetchable, Selectable, HasOpen, ApplyAll, OncePerEvent, MarksBorn, ToMark, Published1;
    if step.Publish? {
      PublishOnce(s, step.p, step.outcome, maxRetries);
      OnlyPublisher(s, step.p, step.outcome, maxRetries);
    } else if step.Fetch? {
      FetchOnce(s, step.p, step.groups, step.until, maxRetries);
    }
  }

  lemma {:induction false} OnlyPublisher(s: State, p: Pid, outcome: Outcome, maxRetries: nat)
    requires Enabled(s, Step.Publish(p, outcome), maxRetries, false)
    ensures var s' := Published1(s, p, outcome, maxRetries);
      s'.born == s.born && forall q :: q in s'.workers && q != p ==> q in s.workers && s'.workers[q] == s.workers[q]
  {
  }

  lemma {:induction false} MarkedOnceHolds(run: seq<State>, steps: seq<Step>, maxRetries: nat, inOrder: bool, i: nat)
    requires IsRun(run, steps, maxRetries, inOrder) && i <= |steps|
    ensures MarkedOnce(run[i])
  {
    hide Enabled, After;
    if i > 0 {
      MarkedOnceHolds(run, steps, maxRetries, inOrder, i - 1);
      MarkedOnceStep(run[i - 1], steps[i - 1], maxRetries);
    }
  }

  // ---- Failures of one event in a run ----

  /** How many failures of the event have been committed. */
  ghost function Failures(run: seq<State>, steps: seq<Step>, i: nat, id: Id): nat
    requires i <= |steps| && i <= |run|
  {
    if i == 0 then 0
    else Failures(run, steps, i - 1, id) + if CommitsFailure(run[i - 1], steps[i - 1], id) then 1 else 0
  }

  /** An event is marked only once it is there. */
  lemma {:induction false} UnbornUnmarked(s: State, step: Step, maxRetries: nat, id: Id)
    requires MarkedOnce(s) && Enabled(s, step, maxRetries, false) && id !in s.born
    ensures !CommitsFailure(s, step, id)
  {
    hide ToMark, OncePerEvent;
    assert Subject(Failed(id)) == Some(id);
    assert step.Persist? && step.p in s.workers ==> WorkerOnce(s.born, s.workers[step.p]);
  }

  lemma {:induction false} UnbornNoFailures(run: seq<State>, steps: seq<Step>, maxRetries: nat, inOrder: bool, i: nat,
          id: Id)
    requires IsRun(run, steps, maxRetries, inOrder) && i <= |steps| && id !in run[i].born
    ensures Failures(run, steps, i, id) == 0
  {
    hide Enabled, After, CommitsFailure;
    if i > 0 {
      BornKept(run[i - 1], steps[i - 1], maxRetries);
      UnbornNoFailures(run, steps, maxRetries, inOrder, i - 1, id);
      MarkedOnceHolds(run, steps, maxRetries, inOrder, i - 1);
      UnbornUnmarked(run[i - 1], steps[i - 1], maxRetries, id);
    }
  }

  /** One step: a committed failure counts one and sets the wait; nothing else changes the count. */
  lemma {:induction false} CountStep(s: State, step: Step, maxRetries: nat, id: Id)
    requires MarkedOnce(s) && Known(s) && Enabled(s, step, maxRetries, false)
    requires id in s.born && id in After(s, step, maxRetries).rows
    ensures var after := After(s, step, maxRetries).rows[id];
      && id in s.rows
      && after.retry == s.rows[id].retry + (if CommitsFailure(s, step, id) then 1 else 0)
      && (CommitsFailure(s, step, id) ==> after.next == Some(s.now + Schedule(s.rows[id].retry)))
  {
    hide ApplyAll, Fetchable, Selectable, HasOpen, OncePerEvent, ToMark, MarksBorn;
    RetryGrowsStep(s, step, maxRetries, id);
    if CommitsFailure(s, step, id) {
      assert WorkerOnce(s.born, s.workers[step.p]);
      FailureMark(s.rows, s.born, WorkerAt(s, step.p).marks, s.now, id);
    }
  }

  lemma {:induction false} NewRow(s: State, step: Step, maxRetries: nat, id: Id)
    requires MarkedOnce(s) && Enabled(s, step, maxRetries, false)
    requires id !in s.born && id in After(s, step, maxRetries).rows
    ensures After(s, step, maxRetries).rows[id].retry == 0
  {
    hide ApplyAll, Fetchable, Selectable, HasOpen, WorkerOnce;
    if step.Persist? {
      ApplyAllSpec(s.rows, s.born, WorkerAt(s, step.p).marks, s.now);
    }
  }

  /** In every run, partial fetches included: retry_count is the number of committed failures. */
  lemma {:induction false} RetryIsFailures(run: seq<State>, steps: seq<Step>, maxRetries: nat, inOrder: bool, i: nat,
          id: Id)
    requires IsRun(run, steps, maxRetries, inOrder) && i <= |steps| && id in run[i].rows
    ensures run[i].rows[id].retry == Failures(run, steps, i, id)
  {
    hide Enabled, After, CommitsFailure, MarkedOnce, Known;
    if i > 0 {
      var s, step := run[i - 1], steps[i - 1];
      MarkedOnceHolds(run, steps, maxRetries, inOrder, i - 1);
      if id in s.born {
        KnownHolds(run, steps, maxRetries, inOrder, i - 1);
        CountStep(s, step, maxRetries, id);
        RetryIsFailures(run, steps, maxRetries, inOrder, i - 1, id);
      } else {
        NewRow(s, step, maxRetries, id);
        UnbornNoFailures(run, steps, maxRetries, inOrder, i - 1, id);
        UnbornUnmarked(s, step, maxRetries, id);
      }
    }
  }

  /** The seconds the event waits from step i on. */
  ghost function WaitFrom(run: seq<State>, i: nat, id: Id): int
    requires i + 1 < |run| && id in run[i + 1].rows && run[i + 1].rows[id].next.Some?
  {
    run[i + 1].rows[id].next.value - run[i].now
  }

  /** In every run: a failure that is committed makes the event wait as its place in the schedule says. */
  lemma {:induction false} WaitIsScheduled(run: seq<State>, steps: seq<Step>, maxRetries: nat, inOrder: bool, i: nat,
          id: Id)
    requires IsRun(run, steps, maxRetries, inOrder) && i < |steps| && id in run[i + 1].rows
    requires CommitsFailure(run[i], steps[i], id)
    ensures run[i + 1].rows[id].next.Some?
    ensures WaitFrom(run, i, id) == Schedule(Failures(run, steps, i, id))
  {
    hide Enabled, After, CommitsFailure, MarkedOnce, Known, Schedule;
    MarkedOnceHolds(run, steps, maxRetries, inOrder, i);
    if id in run[i].born {
      KnownHolds(run, steps, maxRetries, inOrder, i);
      CountStep(run[i], steps[i], maxRetries, id);
      RetryIsFailures(run, steps, maxRetries, inOrder, i, id);
    } else {
      UnbornUnmarked(run[i], steps[i], maxRetries, id);
    }
  }

  lemma {:induction false} FailuresBetween(run: seq<State>, steps: seq<Step>, i: nat, j: nat, id: Id)
    requires i <= j <= |steps| && j <= |run|
    ensures Failures(run, steps, j, id) >= Failures(run, steps, i, id)
    ensures !FailedBetween(run, steps, id, i, j) ==> Failures(run, steps, j, id) == Failures(run, steps, i, id)
    decreases j
  {
    hide CommitsFailure;
    if i < j {
      FailuresBetween(run, steps, i, j - 1, id);
      FailedBefore(run, steps, id, i, j);
    }
  }

  /** In every run, whatever claims come in between: the first failure of an event makes it wait one
      second, each further one twice as long as the one before it but no longer than an hour. */
  lemma {:induction false} WaitsDouble(run: seq<State>, steps: seq<Step>, maxRetries: nat, inOrder: bool, i: nat,
          j: nat, id: Id)
    requires IsRun(run, steps, maxRetries, inOrder) && i < j < |steps|
    requires id in run[i + 1].rows && id in run[j + 1].rows
    requires CommitsFailure(run[i], steps[i], id) && CommitsFailure(run[j], steps[j], id)
    ensures run[i + 1].rows[id].next.Some? && run[j + 1].rows[id].next.Some?
    ensures 1 <= WaitFrom(run, i, id) <= 3600 && 1 <= WaitFrom(run, j, id) <= 3600
    ensures !FailedBetween(run, steps, id, 0, i) ==> WaitFrom(run, i, id) == 1
    ensures !FailedBetween(run, steps, id, i + 1, j) ==>
      WaitFrom(run, j, id) == if 2 * WaitFrom(run, i, id) < 3600 then 2 * WaitFrom(run, i, id) else 3600
  {
    hide Enabled, After, CommitsFailure, FailedBetween, WaitFrom;
    WaitIsScheduled(run, steps, maxRetries, inOrder, i, id);
    WaitIsScheduled(run, steps, maxRetries, inOrder, j, id);
    BackoffIsSchedule(Failures(run, steps, i, id));
    BackoffIsSchedule(Failures(run, steps, j, id));
    FailuresBetween(run, steps, 0, i, id);
    FailuresBetween(run, steps, i + 1, j, id);
    assert Failures(run, steps, i + 1, id) == Failures(run, steps, i, id) + 1;
  }
}

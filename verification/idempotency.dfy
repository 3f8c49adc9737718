/** Idempotent mutations as a protocol: any number of requests, their retries and the janitor take
    steps over one database (gqltx/idempotency.go, gqltx/middleware.go, idempotency/precheck.go).

    A statement is one step.  The database makes an insert wait while another open transaction
    holds the same key, so an insert is enabled only when none does.  PreCheck may read any past
    state of the rows; ResolveRace reads the present one.  A commit may fail without having been
    applied, and may be applied although an error is reported. */
module Idempotency {

  /** The unique triple of idempotency key, tenant and user. */
  datatype Key = Key(token: int)
  datatype Checksum = Checksum(token: int)
  datatype Response = Response(token: int)
  datatype Pid = Pid(token: int)

  datatype Row = InFlight(sum: Checksum) | Committed(sum: Checksum, response: Response)

  datatype Reply =
    | Executed(response: Response)   // the mutation committed
    | Replayed(response: Response)   // 200 with the cached body
    | Mismatch                       // 422
    | Conflict                       // 409
    | Ghost                          // 500, the row vanished after a unique violation
    | CommitFailed                   // the commit reported an error; never retried
    | Failed                         // any other error, rolled back
    | Lost                           // the process died

  /** Where a request stands.  From Open to Marked it has a transaction of its own. */
  datatype Phase =
    | Arrived
    | Leased
    | Open
    | Holding
    | Marked(response: Response)
    | Racing
    | Done(reply: Reply)

  datatype Process = Process(key: Key, sum: Checksum, retries: nat, phase: Phase)

  datatype Event = Commit(key: Key, sum: Checksum, response: Response) | Prune(keys: set<Key>)

  type Rows = map<Key, Row>

  /** rows is what is committed, past every value rows has had, the present one last; held is the row
      each open transaction has written and not yet committed. */
  datatype State = State(rows: Rows, held: map<Pid, Row>, past: seq<Rows>, procs: map<Pid, Process>, log: seq<Event>)

  /** resolveExisting, for a row whose cached body decodes. */
  function ResolveExisting(row: Row, sum: Checksum): Reply {
    if row.sum != sum then Mismatch
    else if row.Committed? then Replayed(row.response)
    else Conflict
  }

  predicate HasRow(phase: Phase) { phase.Holding? || phase.Marked? }

  // ---- Steps ----

  datatype Step =
    | Arrive(p: Pid, key: Key, sum: Checksum, retries: nat)
    | PreCheck(p: Pid, seen: nat)
    | Begin(p: Pid)
    | Insert(p: Pid)
    | Mark(p: Pid, response: Response)
    | Abort(p: Pid, retryable: bool)
    | CommitTx(p: Pid, applied: bool, reported: bool)
    | ResolveRace(p: Pid)
    | Give(p: Pid, reply: Reply)
    | Janitor(keys: set<Key>)

  function At(s: State, p: Pid, phase: Phase): State
    requires p in s.procs
  {
    s.(procs := s.procs[p := s.procs[p].(phase := phase)])
  }

  /** The transaction is over: what it held is gone, or published. */
  function Closed(s: State, p: Pid): State { s.(held := s.held - {p}) }

  function WithRows(s: State, rows: Rows, event: Event): State {
    s.(rows := rows, past := s.past + [rows], log := s.log + [event])
  }

  ghost predicate Waits(s: State, p: Pid) {
    p in s.procs && exists q :: q in s.procs && q in s.held && q != p && s.procs[q].key == s.procs[p].key
  }

  ghost predicate Enabled(s: State, step: Step) {
    match step
    case Arrive(p, _, _, _) => p !in s.procs
    case PreCheck(p, seen) => p in s.procs && s.procs[p].phase == Arrived && seen < |s.past|
    case Begin(p) => p in s.procs && s.procs[p].phase == Leased
    case Insert(p) => p in s.procs && s.procs[p].phase == Open && !Waits(s, p)
    case Mark(p, _) => p in s.procs && p in s.held && s.procs[p].phase == Holding
    case Abort(p, _) => p in s.procs && (s.procs[p].phase == Open || s.procs[p].phase == Holding)
    case CommitTx(p, applied, reported) =>
        p in s.procs && p in s.held && s.procs[p].phase.Marked? && (reported ==> applied)
    case ResolveRace(p) => p in s.procs && s.procs[p].phase == Racing
    case Give(p, reply) => p in s.procs && !s.procs[p].phase.Done? && (reply == Failed || reply == Lost)
    case Janitor(keys) => keys <= s.rows.Keys && forall k :: k in keys ==> s.rows[k].Committed?
  }

  function After(s: State, step: Step): State
    requires Enabled(s, step)
  {
    match step
    case Arrive(p, key, sum, retries) => s.(procs := s.procs[p := Process(key, sum, retries, Arrived)])
    case PreCheck(p, seen) =>
      var proc := s.procs[p];
      At(s, p, if proc.key !in s.past[seen] then Leased else Done(ResolveExisting(s.past[seen][proc.key], proc.sum)))
    case Begin(p) => At(s, p, Open)
    case Insert(p) =>
      var proc := s.procs[p];
      if proc.key in s.rows then At(s, p, Racing)
      else At(s.(held := s.held[p := InFlight(proc.sum)]), p, Holding)
    case Mark(p, response) =>
      At(s.(held := s.held[p := Committed(s.held[p].sum, response)]), p, Marked(response))
    case Abort(p, retryable) =>
      // insertInFlight, persistIdempotencyResponse and handleFailure all roll back; with budget
      // left, a retryable error starts over with one retry less.
      var proc := s.procs[p];
      if retryable && proc.retries > 0
      then Closed(s, p).(procs := s.procs[p := proc.(retries := proc.retries - 1, phase := Leased)])
      else At(Closed(s, p), p, Done(Failed))
    case CommitTx(p, applied, reported) =>
      var proc := s.procs[p];
      var s' := At(Closed(s, p), p, Done(if reported then Executed(proc.phase.response) else CommitFailed));
      if applied
      then WithRows(s', s.rows[proc.key := s.held[p]], Commit(proc.key, proc.sum, proc.phase.response))
      else s'
    case ResolveRace(p) =>
      var proc := s.procs[p];
      At(s, p, Done(if proc.key !in s.rows then Ghost else ResolveExisting(s.rows[proc.key], proc.sum)))
    case Give(p, reply) => At(Closed(s, p), p, Done(reply))
    case Janitor(keys) => WithRows(s, s.rows - keys, Event.Prune(keys))
  }

  const INIT := State(map[], map[], [map[]], map[], [])

  /** The state after each prefix of a run. */
  ghost predicate IsRun(run: seq<State>, steps: seq<Step>) {
    && |run| == |steps| + 1 && run[0] == INIT
    && forall i :: 0 <= i < |steps| ==> Enabled(run[i], steps[i]) && run[i + 1] == After(run[i], steps[i])
  }

  ghost predicate Reachable(s: State) {
    exists run, steps :: IsRun(run, steps) && run[|steps|] == s
  }

  // ---- Counting ----

  function Commits(log: seq<Event>, k: Key): nat {
    if log == [] then 0
    else
      var last := log[|log| - 1];
      Commits(log[..|log| - 1], k) + if last.Commit? && last.key == k then 1 else 0
  }

  function Prunes(log: seq<Event>, k: Key): nat {
    if log == [] then 0
    else
      var last := log[|log| - 1];
      Prunes(log[..|log| - 1], k) + if last.Prune? && k in last.keys then 1 else 0
  }

  // ---- The invariant ----

  ghost predicate Logged(log: seq<Event>, k: Key, sum: Checksum, response: Response) {
    Commit(k, sum, response) in log
  }

  /** Every row ever visible was committed by the mutation whose response it holds. */
  ghost predicate RowsLogged(s: State) {
    && |s.past| > 0 && s.past[|s.past| - 1] == s.rows
    && forall i, k :: 0 <= i < |s.past| && k in s.past[i] ==>
      s.past[i][k].Committed? && Logged(s.log, k, s.past[i][k].sum, s.past[i][k].response)
  }

  /** A key is present exactly when its commits outnumber its prunes, and that is by one. */
  ghost predicate Balanced(s: State) {
    && (forall k :: Commits(s.log, k) == Prunes(s.log, k) + if k in s.rows then 1 else 0)
    && (forall k, n :: 0 <= n <= |s.log| ==>
        Prunes(s.log[..n], k) <= Commits(s.log[..n], k) <= Prunes(s.log[..n], k) + 1)
  }

  /** A process holds a row exactly while it is in a transaction that has inserted one: in flight
      until the response is cached, and from then on the row its commit will publish. */
  ghost predicate HeldBy(held: map<Pid, Row>, p: Pid, proc: Process) {
    match proc.phase
    case Holding => p in held && held[p] == InFlight(proc.sum)
    case Marked(response) => p in held && held[p] == Committed(proc.sum, response)
    case _ => p !in held
  }

  ghost predicate HoldsOwnRow(s: State) {
    s.held.Keys <= s.procs.Keys && forall p :: p in s.procs ==> HeldBy(s.held, p, s.procs[p])
  }

  /** A transaction's own row is for a key that is not committed, and no other transaction has one. */
  ghost predicate Exclusive(s: State) {
    && (forall p :: p in s.procs && HasRow(s.procs[p].phase) ==> s.procs[p].key !in s.rows)
    && (forall p, q ::
          p in s.procs && q in s.procs && p != q && HasRow(s.procs[p].phase) && HasRow(s.procs[q].phase) ==>
            s.procs[p].key != s.procs[q].key)
  }

  /** What each request has been told, or knows, is true of the log. */
  ghost predicate Honest(s: State) {
    forall p :: p in s.procs ==> Told(s.log, s.procs[p])
  }

  ghost predicate Told(log: seq<Event>, proc: Process) {
    match proc.phase
    case Racing => Commits(log, proc.key) > 0
    case Done(reply) =>
      (match reply
       case Executed(r) => Logged(log, proc.key, proc.sum, r)
       case Replayed(r) => Logged(log, proc.key, proc.sum, r)
       case Ghost => Prunes(log, proc.key) > 0
       case Conflict => false
       case _ => true)
    case _ => true
  }

  ghost predicate Inv(s: State) { RowsLogged(s) && Balanced(s) && Exclusive(s) && Honest(s) && HoldsOwnRow(s) }

  lemma {:induction false} BalancedAfter(s: State, rows: Rows, event: Event)
    requires Balanced(s)
    requires match event
             case Commit(k, _, _) => k !in s.rows && rows.Keys == s.rows.Keys + {k}
             case Prune(keys) => keys <= s.rows.Keys && rows.Keys == s.rows.Keys - keys
    ensures Balanced(WithRows(s, rows, event))
  {
    var s' := WithRows(s, rows, event);
    assert s'.log[..|s'.log| - 1] == s.log;
    forall k, n | 0 <= n <= |s'.log|
      ensures Prunes(s'.log[..n], k) <= Commits(s'.log[..n], k) <= Prunes(s'.log[..n], k) + 1
    {
      if n <= |s.log| {
        assert s'.log[..n] == s.log[..n];
      } else {
        assert s'.log[..n] == s'.log;
        assert s.log[..|s.log|] == s.log;
      }
    }
  }

  lemma {:induction false} ToldStill(log: seq<Event>, event: Event, proc: Process)
    requires Told(log, proc)
    ensures Told(log + [event], proc)
  {
    assert (log + [event])[..|log|] == log;
  }

  lemma {:induction false} RowsLoggedStep(s: State, step: Step)
    requires Inv(s) && Enabled(s, step)
    ensures RowsLogged(After(s, step))
  {
    hide Balanced, Exclusive, Honest, Commits, Prunes, Waits;
    var s' := After(s, step);
    if step.CommitTx? && step.applied {
      var proc := s.procs[step.p];
      assert HeldBy(s.held, step.p, proc);
      assert s'.log[|s.log|] == Commit(proc.key, proc.sum, proc.phase.response);
    }
    LoggedStill(s, s');
  }

  /** A longer log, and rows that are old ones or just logged. */
  lemma {:induction false} LoggedStill(s: State, s': State)
    requires RowsLogged(s) && (s'.past == s.past || s'.past == s.past + [s'.rows]) && s.log <= s'.log
    requires s'.past[|s'.past| - 1] == s'.rows
    requires forall k :: k in s'.rows ==>
      && s'.rows[k].Committed?
      && ((k in s.rows && s'.rows[k] == s.rows[k]) || Logged(s'.log, k, s'.rows[k].sum, s'.rows[k].response))
    ensures RowsLogged(s')
  {
    forall e | e in s.log
      ensures e in s'.log
    {
    }
    assert forall i :: 0 <= i < |s.past| ==> s'.past[i] == s.past[i];
  }

  lemma {:induction false} BalancedStep(s: State, step: Step)
    requires Inv(s) && Enabled(s, step)
    ensures Balanced(After(s, step))
  {
    hide RowsLogged, Honest, Balanced, Waits;
    match step
    case CommitTx(p, applied, _) =>
      if applied {
        var proc := s.procs[p];
        CommitIsNew(s, p);
        BalancedAfter(s, s.rows[proc.key := s.held[p]], Commit(proc.key, proc.sum, proc.phase.response));
        SameBalance(WithRows(s, s.rows[proc.key := s.held[p]], Commit(proc.key, proc.sum, proc.phase.response)),
            After(s, step));
      } else {
        SameBalance(s, After(s, step));
      }
    case Janitor(keys) =>
      BalancedAfter(s, s.rows - keys, Event.Prune(keys));
    case Arrive(_, _, _, _) => SameBalance(s, After(s, step));
    case PreCheck(_, _) => SameBalance(s, After(s, step));
    case Begin(_) => SameBalance(s, After(s, step));
    case Insert(_) => SameBalance(s, After(s, step));
    case Mark(_, _) => SameBalance(s, After(s, step));
    case Abort(_, _) => SameBalance(s, After(s, step));
    case ResolveRace(_) => SameBalance(s, After(s, step));
    case Give(_, _) => SameBalance(s, After(s, step));
  }

  lemma {:induction false} SameBalance(s: State, s': State)
    requires Balanced(s) && s'.log == s.log && s'.rows == s.rows
    ensures Balanced(s')
  {
    hide Commits, Prunes;
  }

  lemma {:induction false} CommitIsNew(s: State, p: Pid)
    requires Exclusive(s) && p in s.procs && HasRow(s.procs[p].phase)
    ensures s.procs[p].key !in s.rows
  {
  }

  lemma {:induction false} ExclusiveStep(s: State, step: Step)
    requires Inv(s) && Enabled(s, step)
    ensures Exclusive(After(s, step))
  {
    hide RowsLogged, Balanced, Honest, Waits, HoldsOwnRow, Exclusive;
    if step.Insert? {
      InsertExclusive(s, step.p);
    } else if step.Janitor? {
      ExclusiveKept(s, After(s, step), {});
    } else {
      ExclusiveKept(s, After(s, step), {step.p});
    }
  }

  /** No process gets a row, and a row that is published is that of a process which then has none. */
  lemma {:induction false} ExclusiveKept(s: State, s': State, movers: set<Pid>)
    requires Exclusive(s)
    requires forall q :: q in s'.procs && HasRow(s'.procs[q].phase) ==>
      q in s.procs && HasRow(s.procs[q].phase) && s'.procs[q].key == s.procs[q].key
    requires forall k :: k in s'.rows && k !in s.rows ==>
      exists p :: p in movers && p in s.procs && HasRow(s.procs[p].phase) && s.procs[p].key == k
        && !(p in s'.procs && HasRow(s'.procs[p].phase))
    ensures Exclusive(s')
  {
  }

  /** The insert waits for every transaction that holds a row under its key. */
  lemma {:induction false} InsertExclusive(s: State, p: Pid)
    requires Exclusive(s) && HoldsOwnRow(s) && Enabled(s, Insert(p))
    ensures Exclusive(After(s, Insert(p)))
  {
    forall q | q in s.procs && q != p && HasRow(s.procs[q].phase)
      ensures s.procs[q].key != s.procs[p].key
    {
      assert HeldBy(s.held, q, s.procs[q]);
    }
  }

  lemma {:induction false} HonestStep(s: State, step: Step)
    requires Inv(s) && Enabled(s, step)
    ensures Honest(After(s, step))
  {
    hide Exclusive, Waits, Commits, Prunes;
    var s' := After(s, step);
    forall p | p in s'.procs
      ensures Told(s'.log, s'.procs[p])
    {
      if p in s.procs && s'.procs[p] == s.procs[p] && s'.log != s.log {
        ToldStill(s.log, s'.log[|s.log|], s.procs[p]);
      }
      if step.CommitTx? && step.applied && step.p == p {
        assert s'.log[|s.log|] == Commit(s.procs[p].key, s.procs[p].sum, s.procs[p].phase.response);
      }
    }
  }

  lemma {:induction false} InvStep(s: State, step: Step)
    requires Inv(s) && Enabled(s, step)
    ensures Inv(After(s, step))
  {
    hide Enabled, After, RowsLogged, Balanced, Exclusive, Honest, HoldsOwnRow;
    RowsLoggedStep(s, step);
    BalancedStep(s, step);
    ExclusiveStep(s, step);
    HonestStep(s, step);
    HoldsOwnRowStep(s, step);
  }

  lemma {:induction false} HoldsOwnRowStep(s: State, step: Step)
    requires Inv(s) && Enabled(s, step)
    ensures HoldsOwnRow(After(s, step))
  {
    hide RowsLogged, Balanced, Exclusive, Honest, Waits;
    var s' := After(s, step);
    forall p | p in s'.procs
      ensures HeldBy(s'.held, p, s'.procs[p])
    {
      assert p in s.procs ==> HeldBy(s.held, p, s.procs[p]);
    }
  }

  lemma {:induction false} InvHolds(run: seq<State>, steps: seq<Step>, i: nat)
    requires IsRun(run, steps) && i <= |steps|
    ensures Inv(run[i])
  {
    if i == 0 {
      assert RowsLogged(INIT) && Balanced(INIT) && Exclusive(INIT) && Honest(INIT) && HoldsOwnRow(INIT);
    } else {
      InvHolds(run, steps, i - 1);
      InvStep(run[i - 1], steps[i - 1]);
    }
  }

  lemma {:induction false} ReachableInv(s: State)
    requires Reachable(s)
    ensures Inv(s)
  {
    var run, steps :| IsRun(run, steps) && run[|steps|] == s;
    InvHolds(run, steps, |steps|);
  }

  // ---- What the protocol promises ----

  /** At most once: at every moment of every run, a key's mutations committed so far number at most
      one more than its prunes so far, and its row is visible exactly when they do. */
  lemma {:induction false} AtMostOnce(s: State, k: Key, n: nat)
    requires Reachable(s) && n <= |s.log|
    ensures Commits(s.log[..n], k) <= Prunes(s.log[..n], k) + 1
    ensures k in s.rows <==> Commits(s.log, k) == Prunes(s.log, k) + 1
  {
    ReachableInv(s);
  }

  /** Every mutation writes an in-flight row, and nobody outside its transaction ever sees it, stale
      reads included: it is turned into a committed one before it is published, or rolled back.  So
      the 409 branch of resolveExisting is never taken. */
  lemma {:induction false} InFlightIsInvisible(s: State, i: nat, k: Key, p: Pid)
    requires Reachable(s) && i < |s.past| && p in s.procs
    ensures k in s.past[i] ==> s.past[i][k].Committed?
    ensures s.procs[p].phase != Done(Conflict)
    ensures p in s.held <==> HasRow(s.procs[p].phase)
    ensures p in s.held && s.held[p].InFlight? <==> s.procs[p].phase == Holding
    ensures s.procs[p].phase.Marked? ==> s.held[p] == Committed(s.procs[p].sum, s.procs[p].phase.response)
  {
    hide Balanced, Exclusive;
    ReachableInv(s);
    assert HeldBy(s.held, p, s.procs[p]) && Told(s.log, s.procs[p]);
  }

  /** What a request answered with success names a mutation that committed under its key with its
      own checksum. */
  ghost predicate Answered(s: State, p: Pid, response: Response) {
    p in s.procs && (s.procs[p].phase == Done(Executed(response)) || s.procs[p].phase == Done(Replayed(response)))
  }

  lemma {:induction false} AnswersCommitted(s: State, p: Pid, response: Response)
    requires Reachable(s) && Answered(s, p, response)
    ensures Logged(s.log, s.procs[p].key, s.procs[p].sum, response)
  {
    ReachableInv(s);
  }

  lemma {:induction false} CommitsFrom(log: seq<Event>, k: Key, i: nat, n: nat)
    requires i < n <= |log| && log[i].Commit? && log[i].key == k
    ensures Commits(log[..n], k) > Commits(log[..i], k)
    decreases n
  {
    assert log[..n][..n - 1] == log[..n - 1];
    if n - 1 > i {
      CommitsFrom(log, k, i, n - 1);
    }
  }

  lemma {:induction false} SomePrune(log: seq<Event>, k: Key, a: nat, b: nat) returns (h: nat)
    requires a <= b <= |log| && Prunes(log[..a], k) < Prunes(log[..b], k)
    ensures a <= h < b && log[h].Prune? && k in log[h].keys
    decreases b
  {
    assert b > 0 && log[..b][..b - 1] == log[..b - 1];
    if log[b - 1].Prune? && k in log[b - 1].keys {
      h := b - 1;
      if h < a {
        PrunesGrow(log, k, b, a);
      }
    } else {
      h := SomePrune(log, k, a, b - 1);
    }
  }

  lemma {:induction false} PrunesGrow(log: seq<Event>, k: Key, a: nat, b: nat)
    requires a <= b <= |log|
    ensures Prunes(log[..a], k) <= Prunes(log[..b], k)
    decreases b
  {
    if a < b {
      assert log[..b][..b - 1] == log[..b - 1];
      PrunesGrow(log, k, a, b - 1);
    }
  }

  /** Between two commits under one key, whatever their checksums, the key was pruned. */
  lemma {:induction false} PrunedBetweenCommits(s: State, i: nat, j: nat) returns (h: nat)
    requires Reachable(s) && i < j < |s.log|
    requires s.log[i].Commit? && s.log[j].Commit? && s.log[i].key == s.log[j].key
    ensures i < h < j && s.log[h].Prune? && s.log[i].key in s.log[h].keys
  {
    ReachableInv(s);
    var k := s.log[i].key;
    assert s.log[..i + 1][..i] == s.log[..i] && s.log[..j + 1][..j] == s.log[..j];
    assert Commits(s.log[..j + 1], k) == Commits(s.log[..j], k) + 1
        && Prunes(s.log[..j + 1], k) == Prunes(s.log[..j], k);
    assert Commits(s.log[..i + 1], k) == Commits(s.log[..i], k) + 1
        && Prunes(s.log[..i + 1], k) == Prunes(s.log[..i], k);
    CommitsFrom(s.log, k, i, j);
    CommitsGrow(s.log, k, i + 1, j);
    h := SomePrune(s.log, k, i + 1, j);
  }

  lemma {:induction false} CommitsGrow(log: seq<Event>, k: Key, a: nat, b: nat)
    requires a <= b <= |log|
    ensures Commits(log[..a], k) <= Commits(log[..b], k)
    decreases b
  {
    if a < b {
      assert log[..b][..b - 1] == log[..b - 1];
      CommitsGrow(log, k, a, b - 1);
    }
  }

  /** As long as a key has not been pruned, all requests under it that are answered with success
      are answered alike, and all had the same checksum. */
  lemma {:induction false} OneAnswer(s: State, p: Pid, q: Pid, a: Response, b: Response)
    requires Reachable(s) && Answered(s, p, a) && Answered(s, q, b) && s.procs[p].key == s.procs[q].key
    requires forall e :: e in s.log && e.Prune? ==> s.procs[p].key !in e.keys
    ensures a == b && s.procs[p].sum == s.procs[q].sum
  {
    AnswersCommitted(s, p, a);
    AnswersCommitted(s, q, b);
    var i :| 0 <= i < |s.log| && s.log[i] == Commit(s.procs[p].key, s.procs[p].sum, a);
    var j :| 0 <= j < |s.log| && s.log[j] == Commit(s.procs[q].key, s.procs[q].sum, b);
    if i < j {
      var h := PrunedBetweenCommits(s, i, j);
    } else if j < i {
      var h := PrunedBetweenCommits(s, j, i);
    }
  }

  /** While a key is committed, a request with another checksum is refused, and one with the same
      checksum replays: from the present rows, and after losing the insert. */
  lemma {:induction false} CommittedKeyDecides(s: State, p: Pid)
    requires Reachable(s) && p in s.procs && s.procs[p].key in s.rows
    ensures !HasRow(s.procs[p].phase) && |s.past| > 0 && s.rows[s.procs[p].key].Committed?
    ensures s.procs[p].phase == Arrived ==>
      After(s, PreCheck(p, |s.past| - 1)).procs[p].phase ==
          Done(ResolveExisting(s.rows[s.procs[p].key], s.procs[p].sum))
    ensures s.procs[p].phase == Open && !Waits(s, p) ==> After(s, Insert(p)).procs[p].phase == Racing
    ensures s.procs[p].phase == Racing ==>
      After(s, ResolveRace(p)).procs[p].phase == Done(ResolveExisting(s.rows[s.procs[p].key], s.procs[p].sum))
    ensures ResolveExisting(s.rows[s.procs[p].key], s.procs[p].sum) ==
      if s.rows[s.procs[p].key].sum == s.procs[p].sum then Replayed(s.rows[s.procs[p].key].response) else Mismatch
  {
    ReachableInv(s);
  }

  /** Were a row in flight to be seen under the request's own checksum, it would be answered 409. */
  lemma {:induction false} InFlightWouldConflict(s: State, p: Pid, i: nat, sum: Checksum)
    requires p in s.procs && i < |s.past|
    ensures s.procs[p].phase == Arrived && s.procs[p].key in s.past[i] && s.past[i][s.procs[p].key] == InFlight(sum) ==>
        After(s, PreCheck(p, i)).procs[p].phase == Done(if sum == s.procs[p].sum then Conflict else Mismatch)
    ensures s.procs[p].phase == Racing && s.procs[p].key in s.rows && s.rows[s.procs[p].key] == InFlight(sum) ==>
        After(s, ResolveRace(p)).procs[p].phase == Done(if sum == s.procs[p].sum then Conflict else Mismatch)
  {
  }

  /** The row can only vanish after a unique violation when the janitor pruned it. */
  lemma {:induction false} GhostMeansPruned(s: State, p: Pid)
    requires Reachable(s) && p in s.procs && s.procs[p].phase == Done(Ghost)
    ensures exists e :: e in s.log && e.Prune? && s.procs[p].key in e.keys
  {
    ReachableInv(s);
    var k := s.procs[p].key;
    assert Told(s.log, s.procs[p]);
    assert s.log[..0] == [] && s.log[..|s.log|] == s.log;
    var h := SomePrune(s.log, k, 0, |s.log|);
    assert s.log[h] in s.log;
  }

  // ---- What each reply means ----

  /** Some other mutation committed under the key. */
  ghost predicate OtherCommitted(log: seq<Event>, key: Key, sum: Checksum) {
    exists other, response :: other != sum && Logged(log, key, other, response)
  }

  /** The step of the request that ends it, and what it ends it with. */
  ghost predicate EndsWith(s: State, step: Step, p: Pid, reply: Reply)
    requires p in s.procs
  {
    var proc := s.procs[p];
    match reply
    case Executed(r) => step == CommitTx(p, true, true) && proc.phase == Marked(r)
    case CommitFailed => step == CommitTx(p, true, false) || step == CommitTx(p, false, false)
    case Replayed(r) => LooksUp(step, p) && Logged(s.log, proc.key, proc.sum, r)
    case Mismatch => LooksUp(step, p) && OtherCommitted(s.log, proc.key, proc.sum)
    case Ghost => step == ResolveRace(p) && proc.key !in s.rows
    case Failed => step == Give(p, Failed) || step == Abort(p, false) || (step == Abort(p, true) && proc.retries == 0)
    case Lost => step == Give(p, Lost)
    case Conflict => false
  }

  ghost predicate LooksUp(step: Step, p: Pid) {
    (step.PreCheck? && step.p == p) || step == ResolveRace(p)
  }

  lemma {:induction false} RowIsLogged(s: State, i: nat, k: Key)
    requires RowsLogged(s) && i < |s.past| && k in s.past[i]
    ensures s.past[i][k].Committed? && Logged(s.log, k, s.past[i][k].sum, s.past[i][k].response)
    ensures s.past[|s.past| - 1] == s.rows
  {
  }

  lemma {:induction false} EndsStep(s: State, step: Step, p: Pid)
    requires Inv(s) && Enabled(s, step) && p in s.procs && !s.procs[p].phase.Done?
    requires After(s, step).procs[p].phase.Done?
    ensures EndsWith(s, step, p, After(s, step).procs[p].phase.reply)
  {
    hide RowsLogged, Balanced, Exclusive, Honest, HoldsOwnRow, Waits;
    var proc := s.procs[p];
    if step.PreCheck? && step.p == p {
      RowIsLogged(s, step.seen, proc.key);
    } else if step.ResolveRace? && step.p == p {
      LastIsPresent(s);
      if proc.key in s.rows {
        RowIsLogged(s, |s.past| - 1, proc.key);
      }
    }
  }

  lemma {:induction false} LastIsPresent(s: State)
    requires RowsLogged(s)
    ensures |s.past| > 0 && s.past[|s.past| - 1] == s.rows
  {
  }

  /** A request that is over stays as it is; key and checksum never change. */
  lemma {:induction false} SameRequest(s: State, step: Step, p: Pid)
    requires Enabled(s, step) && p in s.procs
    ensures p in After(s, step).procs
    ensures After(s, step).procs[p].key == s.procs[p].key && After(s, step).procs[p].sum == s.procs[p].sum
    ensures s.procs[p].phase.Done? ==> After(s, step).procs[p] == s.procs[p]
    ensures s.log <= After(s, step).log
  {
    hide Waits;
  }

  /** Every reply in every run has its cause: the step that ended the request, and the state it was
      taken in.  In particular 422 says that another operation committed under the key, and a request
      that failed wrote nothing. */
  lemma {:induction false} ReplyHasCause(run: seq<State>, steps: seq<Step>, i: nat, p: Pid) returns (k: nat)
    requires IsRun(run, steps) && i <= |steps| && p in run[i].procs && run[i].procs[p].phase.Done?
    ensures k < i && p in run[k].procs && !run[k].procs[p].phase.Done?
    ensures run[k].procs[p].key == run[i].procs[p].key && run[k].procs[p].sum == run[i].procs[p].sum
    ensures EndsWith(run[k], steps[k], p, run[i].procs[p].phase.reply) && run[k].log <= run[i].log
  {
    hide Enabled, After, EndsWith, Inv;
    assert i > 0;
    ArrivesFirst(run[i - 1], steps[i - 1], p);
    SameRequest(run[i - 1], steps[i - 1], p);
    if run[i - 1].procs[p].phase.Done? {
      k := ReplyHasCause(run, steps, i - 1, p);
    } else {
      k := i - 1;
      InvHolds(run, steps, k);
      EndsStep(run[k], steps[k], p);
    }
  }

  lemma {:induction false} ArrivesFirst(s: State, step: Step, p: Pid)
    requires Enabled(s, step) && p in After(s, step).procs && After(s, step).procs[p].phase.Done?
    ensures p in s.procs
  {
    hide Waits;
  }

  predicate Moves(step: Step, p: Pid) { !step.Janitor? && step.p == p }

  /** A request that is not over stands where its last step has put it. */
  ghost predicate PhaseAfter(phase: Phase, step: Step, p: Pid) {
    match phase
    case Arrived => step.Arrive?
    case Leased => step.PreCheck? || step == Abort(p, true)
    case Open => step == Begin(p)
    case Holding => step == Insert(p)
    case Marked(response) => step == Mark(p, response)
    case Racing => step == Insert(p)
    case Done(_) => true
  }

  /** Step k is the last before step i that the request took. */
  ghost predicate LastMove(steps: seq<Step>, k: nat, i: nat, p: Pid) {
    k < i <= |steps| && Moves(steps[k], p) && forall j :: k < j < i ==> !Moves(steps[j], p)
  }

  lemma {:induction false} PhaseStep(s: State, step: Step, p: Pid)
    requires Enabled(s, step) && p in After(s, step).procs
    ensures Moves(step, p) ==> PhaseAfter(After(s, step).procs[p].phase, step, p)
    ensures !Moves(step, p) ==> p in s.procs && After(s, step).procs[p] == s.procs[p]
  {
    hide Waits;
  }

  /** In every run: arrived, leased, in a transaction, holding a row, marked or racing, a request is so
      because of the last step it took. */
  lemma {:induction false} PhaseHasCause(run: seq<State>, steps: seq<Step>, i: nat, p: Pid) returns (k: nat)
    requires IsRun(run, steps) && i <= |steps| && p in run[i].procs
    ensures LastMove(steps, k, i, p) && PhaseAfter(run[i].procs[p].phase, steps[k], p)
  {
    hide Enabled, After, PhaseAfter;
    assert i > 0;
    PhaseStep(run[i - 1], steps[i - 1], p);
    if Moves(steps[i - 1], p) {
      k := i - 1;
    } else {
      k := PhaseHasCause(run, steps, i - 1, p);
    }
  }

  /** In every reachable state: who is answered 422 reused the key of another operation. */
  lemma {:induction false} MismatchIsReuse(s: State, p: Pid)
    requires Reachable(s) && p in s.procs && s.procs[p].phase == Done(Mismatch)
    ensures OtherCommitted(s.log, s.procs[p].key, s.procs[p].sum)
  {
    var run: seq<State>, steps :| IsRun(run, steps) && run[|steps|] == s;
    var k := ReplyHasCause(run, steps, |steps|, p);
    var other, response :|
      other != s.procs[p].sum && Logged(run[k].log, s.procs[p].key, other, response);
    assert Logged(s.log, s.procs[p].key, other, response);
  }

  ghost predicate CommitStepOf(steps: seq<Step>, n: nat, p: Pid) {
    exists k: nat :: k < n && k < |steps| && steps[k].CommitTx? && steps[k].p == p
  }

  lemma {:induction false} CommitStepMore(steps: seq<Step>, n: nat, p: Pid)
    requires 0 < n <= |steps|
    ensures CommitStepOf(steps, n, p) <==>
      CommitStepOf(steps, n - 1, p) || (steps[n - 1].CommitTx? && steps[n - 1].p == p)
  {
  }

  ghost predicate TriedCommit(phase: Phase) {
    phase.Done? && (phase.reply.Executed? || phase.reply.CommitFailed?)
  }

  lemma {:induction false} TriesCommitStep(s: State, step: Step, p: Pid)
    requires Inv(s) && Enabled(s, step)
    ensures var before, after := s.procs, After(s, step).procs;
      (p in after && TriedCommit(after[p].phase)) <==>
        (p in before && TriedCommit(before[p].phase)) || (step.CommitTx? && step.p == p)
  {
    hide RowsLogged, Balanced, Exclusive, Honest, HoldsOwnRow, Waits;
    if p in s.procs && !s.procs[p].phase.Done? && After(s, step).procs[p].phase.Done? {
      EndsStep(s, step, p);
    }
  }

  /** In every run a request has tried to commit exactly if it is answered as executed or as a failed
      commit; so one that failed, replayed or was refused never did. */
  lemma {:induction false} CommitDecidesReply(run: seq<State>, steps: seq<Step>, i: nat, p: Pid)
    requires IsRun(run, steps) && i <= |steps|
    ensures CommitStepOf(steps, i, p) <==> p in run[i].procs && TriedCommit(run[i].procs[p].phase)
  {
    hide Enabled, After, Inv, TriedCommit, CommitStepOf;
    if i == 0 {
      NoCommitYet(steps, p);
    } else {
      CommitDecidesReply(run, steps, i - 1, p);
      InvHolds(run, steps, i - 1);
      TriesCommitStep(run[i - 1], steps[i - 1], p);
      CommitStepMore(steps, i, p);
    }
  }

  lemma {:induction false} NoCommitYet(steps: seq<Step>, p: Pid)
    ensures !CommitStepOf(steps, 0, p)
  {
  }

  // ---- Attempts ----

  /** How many transactions the request has begun. */
  function Begins(steps: seq<Step>, n: nat, p: Pid): nat
    requires n <= |steps|
  {
    if n == 0 then 0 else Begins(steps, n - 1, p) + if steps[n - 1] == Begin(p) then 1 else 0
  }

  predicate Waiting(phase: Phase) { phase.Arrived? || phase.Leased? }

  /** The budget a request came with. */
  ghost predicate CameWith(steps: seq<Step>, p: Pid, budget: nat) {
    exists k: nat, key, sum :: k < |steps| && steps[k] == Arrive(p, key, sum, budget)
  }

  lemma {:induction false} BudgetStep(s: State, step: Step, p: Pid)
    requires Enabled(s, step) && p in s.procs
    ensures p in After(s, step).procs
    ensures var before, after := s.procs[p], After(s, step).procs[p];
      && after.retries <= before.retries
      && (step == Begin(p) ==> Waiting(before.phase) && !Waiting(after.phase) && after.retries == before.retries)
      && (step != Begin(p) && Waiting(after.phase) && !Waiting(before.phase) ==> after.retries + 1 == before.retries)
      && (step != Begin(p) && !Waiting(after.phase) && Waiting(before.phase) ==> after.phase.Done?)
      && (before.phase.Done? ==> after == before)
  {
    hide Waits;
  }

  /** In every run a request begins at most one transaction more than it has retries. */
  lemma {:induction false} AttemptsWithinBudget(run: seq<State>, steps: seq<Step>, i: nat, p: Pid, budget: nat)
    requires IsRun(run, steps) && i <= |steps| && CameWith(steps, p, budget)
    ensures p !in run[i].procs ==> Begins(steps, i, p) == 0
    ensures p in run[i].procs ==>
      var proc := run[i].procs[p];
      proc.retries + Begins(steps, i, p) <= budget + if Waiting(proc.phase) then 0 else 1
  {
    hide After, Waits, Waiting;
    if i > 0 {
      AttemptsWithinBudget(run, steps, i - 1, p, budget);
      if p in run[i - 1].procs {
        BudgetStep(run[i - 1], steps[i - 1], p);
      } else if p in run[i].procs {
        ArrivedWith(run, steps, i - 1, p, budget);
      } else {
        assert steps[i - 1] != Begin(p);
      }
    }
  }

  lemma {:induction false} StaysKnown(run: seq<State>, steps: seq<Step>, i: nat, j: nat, p: Pid)
    requires IsRun(run, steps) && i <= j <= |steps| && p in run[i].procs
    ensures p in run[j].procs
  {
    hide Enabled, After;
    if i < j {
      StaysKnown(run, steps, i, j - 1, p);
      SameRequest(run[j - 1], steps[j - 1], p);
    }
  }

  lemma {:induction false} ArrivedWith(run: seq<State>, steps: seq<Step>, i: nat, p: Pid, budget: nat)
    requires IsRun(run, steps) && i < |steps| && CameWith(steps, p, budget)
    requires p !in run[i].procs && p in run[i + 1].procs
    ensures run[i + 1].procs[p].retries == budget && run[i + 1].procs[p].phase == Arrived && steps[i].Arrive?
  {
    hide Waits;
    var k: nat, key, sum :| k < |steps| && steps[k] == Arrive(p, key, sum, budget);
    assert Enabled(run[i], steps[i]) && run[i + 1] == After(run[i], steps[i]);
    assert Enabled(run[k], steps[k]) && run[k + 1] == After(run[k], steps[k]);
    if k < i {
      StaysKnown(run, steps, k + 1, i, p);
    } else if i < k {
      StaysKnown(run, steps, i + 1, k, p);
    }
  }

  // ---- Alone ----

  /** Taken one after the other from s these steps end in s'. */
  ghost predicate Leads(s: State, steps: seq<Step>, s': State)
    decreases |steps|
  {
    if steps == [] then s' == s else Enabled(s, steps[0]) && Leads(After(s, steps[0]), steps[1..], s')
  }

  lemma {:induction false} OneStepMore(s: State, step: Step, rest: seq<Step>, s': State)
    requires Enabled(s, step) && Leads(After(s, step), rest, s')
    ensures Leads(s, [step] + rest, s')
  {
    hide Enabled, After;
    assert ([step] + rest)[1..] == rest;
  }

  /** With a transaction of its own and a key that is free, the rest of a request goes through. */
  lemma {:induction false} OpenExecutes(s: State, p: Pid, response: Response, s': State)
    requires p in s.procs && s.procs[p].phase == Open && s.procs[p].key !in s.rows
    requires forall q :: q in s.held && q in s.procs ==> s.procs[q].key != s.procs[p].key
    requires var proc := s.procs[p]; var rows := s.rows[proc.key := Committed(proc.sum, response)];
      s' == State(rows, s.held - {p}, s.past + [rows], s.procs[p := proc.(phase := Done(Executed(response)))],
        s.log + [Commit(proc.key, proc.sum, response)])
    ensures Leads(s, [Insert(p)] + ([Mark(p, response)] + ([CommitTx(p, true, true)] + [])), s')
  {
    hide Leads;
    var proc := s.procs[p];
    var s1 := After(s, Insert(p));
    assert s1 == s.(held := s.held[p := InFlight(proc.sum)], procs := s.procs[p := proc.(phase := Holding)]);
    var s2 := After(s1, Mark(p, response));
    assert s2 == s.(held := s.held[p := Committed(proc.sum, response)],
                    procs := s.procs[p := proc.(phase := Marked(response))]);
    CommitEnds(s, s2, p, response, s');
    NoStep(s');
    OneStepMore(s2, CommitTx(p, true, true), [], s');
    OneStepMore(s1, Mark(p, response), [CommitTx(p, true, true)] + [], s');
    OneStepMore(s, Insert(p), [Mark(p, response)] + ([CommitTx(p, true, true)] + []), s');
  }

  lemma {:induction false} CommitEnds(s: State, s2: State, p: Pid, response: Response, s': State)
    requires p in s.procs
    requires s2 == s.(held := s.held[p := Committed(s.procs[p].sum, response)],
        procs := s.procs[p := s.procs[p].(phase := Marked(response))])
    requires var proc := s.procs[p]; var rows := s.rows[proc.key := Committed(proc.sum, response)];
      s' == State(rows, s.held - {p}, s.past + [rows], s.procs[p := proc.(phase := Done(Executed(response)))],
        s.log + [Commit(proc.key, proc.sum, response)])
    ensures Enabled(s2, CommitTx(p, true, true)) && After(s2, CommitTx(p, true, true)) == s'
  {
    assert s2.held - {p} == s.held - {p};
    assert s2.procs[p := s'.procs[p]] == s'.procs;
  }

  lemma {:induction false} NoStep(s: State)
    ensures Leads(s, [], s)
  {
  }

  /** The steps of a request that nothing gets in the way of. */
  function Undisturbed(p: Pid, key: Key, sum: Checksum, retries: nat, seen: nat, response: Response): seq<Step> {
    [Arrive(p, key, sum, retries)] + ([PreCheck(p, seen)] + ([Begin(p)]
    + ([Insert(p)] + ([Mark(p, response)] + ([CommitTx(p, true, true)] + [])))))
  }

  /** From any reachable state: under a key that no row has and no open transaction holds, a new request
      goes through, is answered with its own response, and leaves exactly its row and its commit. */
  lemma {:induction false} FreshKeyExecutes(s: State, p: Pid, key: Key, sum: Checksum, retries: nat,
          response: Response) returns (s': State)
    requires Reachable(s) && p !in s.procs && key !in s.rows
    requires forall q :: q in s.held && q in s.procs ==> s.procs[q].key != key
    ensures |s.past| > 0 && Leads(s, Undisturbed(p, key, sum, retries, |s.past| - 1, response), s')
    ensures p in s'.procs && s'.procs[p].phase == Done(Executed(response)) && s'.held == s.held - {p}
    ensures s'.rows == s.rows[key := Committed(sum, response)] && s'.log == s.log + [Commit(key, sum, response)]
  {
    ReachableInv(s);
    LastIsPresent(s);
    hide Inv, Leads, Waits, Enabled, After;
    var rest := [Insert(p)] + ([Mark(p, response)] + ([CommitTx(p, true, true)] + []));
    var s3 := s.(procs := s.procs[p := Process(key, sum, retries, Open)]);
    var rows := s.rows[key := Committed(sum, response)];
    s' := State(rows, s.held - {p}, s.past + [rows],
      s3.procs[p := Process(key, sum, retries, Done(Executed(response)))], s.log + [Commit(key, sum, response)]);
    OpenExecutes(s3, p, response, s');
    FreshKeyBegins(s, p, key, sum, retries, |s.past| - 1, rest, s');
  }

  /** A new request under a key it does not see begins a transaction. */
  lemma {:induction false} FreshKeyBegins(s: State, p: Pid, key: Key, sum: Checksum, retries: nat, seen: nat,
          rest: seq<Step>, s': State)
    requires p !in s.procs && seen < |s.past| && key !in s.past[seen]
    requires Leads(s.(procs := s.procs[p := Process(key, sum, retries, Open)]), rest, s')
    ensures Leads(s, [Arrive(p, key, sum, retries)] + ([PreCheck(p, seen)] + ([Begin(p)] + rest)), s')
  {
    hide Leads, Waits, HoldsOwnRow, Told;
    var s1 := s.(procs := s.procs[p := Process(key, sum, retries, Arrived)]);
    var s2 := s.(procs := s.procs[p := Process(key, sum, retries, Leased)]);
    assert s2.procs[p := Process(key, sum, retries, Open)] == s.procs[p := Process(key, sum, retries, Open)];
    OneStepMore(s2, Begin(p), rest, s');
    assert s1.procs[p := Process(key, sum, retries, Leased)] == s2.procs;
    OneStepMore(s1, PreCheck(p, seen), [Begin(p)] + rest, s');
    OneStepMore(s, Arrive(p, key, sum, retries), [PreCheck(p, seen)] + ([Begin(p)] + rest), s');
  }
}

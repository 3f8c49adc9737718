/** Concrete runs of the outbox protocol: what goes wrong when an assumption of the backoff theorems
    fails, and that each assumption is needed. */
module OutboxRuns {
  import opened Wrappers
  import opened OutboxTable
  import opened Outbox
  import opened OutboxOrder
  import opened OutboxTimely

  /** A fetch of a whole group, in order, that is neither dropped nor due. */
  ghost predicate FetchesEarly(s: State, maxRetries: nat, p: Pid, groups: seq<Group>, until: int, g: Group) {
    && Reachable(s, maxRetries, true) && Enabled(s, Fetch(p, groups, until), maxRetries, true)
    && g in groups && Whole(s.rows, s.born, g) && DistinctTimes(s.born, g.tx) && !DroppedOrDue(s, g, maxRetries)
  }

  /** One poller selects the transaction; another selects, claims and publishes it, is refused, and
      records the failure; then the first runs its second statement. */
  lemma {:induction false} StaleSelectionFetchesEarly(maxRetries: nat)
    requires maxRetries > 1
    ensures exists s, p, groups, until, g :: FetchesEarly(s, maxRetries, p, groups, until, g)
  {
    hide Reachable, Enabled, Fetchable, NoneSkipped, DroppedOrDue, Whole, DistinctTimes;
    var a, b, t, p, q := Id(1), Id(2), TxId(1), Pid(1), Pid(2);
    var s0 := TwoEvents(a, b, t, 2, p, maxRetries, true);
    var s := Refusal(s0, a, b, t, q, 10, maxRetries);
    var g := Group(t, [Entry(a, 1), Entry(b, 0)]);
    Pair(s, g, a, b, t);
    assert g.entries[0] == Entry(a, 1) && g.entries[0] in g.entries && !Due(s.rows, a, s.now);
    FetchesNotDue(s, maxRetries, g, t, p, g.entries[0]);
    assert FetchesEarly(s, maxRetries, p, [g], 20, g);
  }

  /** A poller outlives its lease; another one selects, publishes, is refused, and records the
      failure; then the first publishes what it had fetched. */
  lemma {:induction false} OutlivedLeasePublishesEarly(maxRetries: nat)
    requires maxRetries > 1
    ensures exists s, p :: PublishesEarly(s, maxRetries, p)
  {
    var a, b, t, p, q := Id(1), Id(2), TxId(1), Pid(1), Pid(2);
    var g := Group(t, [Entry(a, 0), Entry(b, 0)]);
    var s0 := TwoEvents(a, b, t, 2, p, maxRetries, true);
    var s1 := FetchesPair(s0, g, a, b, t, p, 10, maxRetries);
    var s2 := Later(s1, 11, maxRetries);
    var s := Refusal(s2, a, b, t, q, 30, maxRetries);
    hide Reachable, Due;
    assert WorkerAt(s, p) == Busy([g], []) by { hide *; }
    NotDue(s, p, g, a, b, maxRetries);
  }

  lemma {:induction false} NotDue(s: State, p: Pid, g: Group, a: Id, b: Id, maxRetries: nat)
    requires Reachable(s, maxRetries, true) && WorkerAt(s, p) == Busy([g], []) && maxRetries > 0
    requires g.entries == [Entry(a, 0), Entry(b, 0)]
    requires a in s.rows && s.rows[a] == Row(1, Some(s.now + 1), None, false)
    ensures PublishesEarly(s, maxRetries, p)
  {
    hide Reachable;
    assert [g][0].entries[0] == Entry(a, 0);
  }

  lemma {:induction false} Later(s: State, time: int, maxRetries: nat) returns (s': State)
    requires Reachable(s, maxRetries, true) && s.now <= time
    ensures Reachable(s', maxRetries, true) && s' == s.(now := time)
  {
    hide Reachable;
    s' := After(s, Tick(time), maxRetries);
    ReachableStep(s, Tick(time), maxRetries, true);
  }

  /** p has picked g's transaction; step disturbs it; at a later time p fetches g, which is due. */
  ghost predicate DisturbedYetTimely(s: State, step: Step, time: int, maxRetries: nat, p: Pid, g: Group) {
    && Reachable(s, maxRetries, true) && WorkerAt(s, p) == Selected({g.tx}) && Disturbs(s, step, g.tx)
    && Enabled(s, step, maxRetries, true) && Enabled(s, step, maxRetries, false)
    && var later := After(s, step, maxRetries).(now := time);
      && Enabled(later, Fetch(p, [g], time + 10), maxRetries, true) && Whole(later.rows, later.born, g)
      && DroppedOrDue(later, g, maxRetries)
  }

  /** A disturbance alone does not make a fetch early: the claim may have run out by then, its poller
      having stopped. */
  lemma {:induction false} ExpiredClaimIsTimely(maxRetries: nat)
    requires maxRetries > 0
    ensures exists s, step, time, p, g :: DisturbedYetTimely(s, step, time, maxRetries, p, g)
  {
    hide Reachable, Enabled, After;
    var a, b, t, p, q := Id(1), Id(2), TxId(1), Pid(1), Pid(2);
    var g := Group(t, [Entry(a, 0), Entry(b, 0)]);
    var s0 := TwoEvents(a, b, t, 2, p, maxRetries, true);
    var s := SelectsPair(s0, a, t, q, maxRetries);
    var claimed := FetchesPair(s, g, a, b, t, q, 10, maxRetries);
    var later := claimed.(now := 10);
    assert WorkerAt(later, p) == Selected({t});
    Pair(later, g, a, b, t);
    DueNow(later, g, p, t, maxRetries);
    Disturbing(s, Fetch(q, [g], 10), claimed, later, maxRetries, p, g);
  }

  lemma {:induction false} Disturbing(s: State, step: Step, next: State, later: State, maxRetries: nat, p: Pid,
          g: Group)
    requires Reachable(s, maxRetries, true) && WorkerAt(s, p) == Selected({g.tx})
    requires step.Fetch? && step.groups == [g]
    requires Enabled(s, step, maxRetries, true) && Enabled(s, step, maxRetries, false)
    requires next == After(s, step, maxRetries) && later == next.(now := later.now)
    requires Enabled(later, Fetch(p, [g], later.now + 10), maxRetries, true) && Whole(later.rows, later.born, g)
    requires DroppedOrDue(later, g, maxRetries)
    ensures DisturbedYetTimely(s, step, later.now, maxRetries, p, g)
  {
    hide Reachable, Enabled, After, Whole, DroppedOrDue;
    assert g in step.groups;
  }

  lemma {:induction false} DueNow(s: State, g: Group, p: Pid, t: TxId, maxRetries: nat)
    requires WorkerAt(s, p) == Selected({t}) && g.tx == t && g.entries != []
    requires Fetchable(s.rows, s.born, g) && NoneSkipped(s.rows, s.born, g)
    requires forall e :: e in g.entries ==> Due(s.rows, e.id, s.now)
    ensures Enabled(s, Fetch(p, [g], s.now + 10), maxRetries, true) && DroppedOrDue(s, g, maxRetries)
  {
    hide Fetchable, NoneSkipped, Due;
    assert g in [g];
  }

  /** With equal created_at: the first event is out of retries, which selects the transaction, and the
      other is returned ahead of it, under a lease that stands. */
  lemma {:induction false} TiesFetchEarly()
    ensures exists s: State, p: Pid, groups: seq<Group>, until: int, g: Group ::
        && Reachable(s, 1, true) && Enabled(s, Fetch(p, groups, until), 1, true) && g in groups
        && Selectable(s.rows, s.born, g.tx, 1, s.now) && !DroppedOrDue(s, g, 1)
  {
    hide Reachable, Enabled, Fetchable, NoneSkipped, DroppedOrDue, Whole, DistinctTimes;
    var a, b, t, p, q := Id(1), Id(2), TxId(1), Pid(1), Pid(2);
    var s0 := TwoEvents(a, b, t, 1, p, 1, true);
    var s := Refusal(s0, a, b, t, q, 10, 1);
    var g := Group(t, [Entry(b, 0), Entry(a, 1)]);
    assert TwoBorn(s.born, b, a, t);
    Pair(s, g, b, a, t);
    assert g.entries[0] == Entry(b, 0) && g.entries[0] in g.entries && !Due(s.rows, b, s.now);
    FetchesNotDue(s, 1, g, t, p, g.entries[0]);
    assert IsOpen(s.rows, a) && s.rows[a].retry >= 1;
    assert Enabled(s, Fetch(p, [g], 20), 1, true) && g in [g] && !DroppedOrDue(s, g, 1);
  }

  lemma {:induction false} FetchesNotDue(s: State, maxRetries: nat, g: Group, t: TxId, p: Pid, e: Entry)
    requires WorkerAt(s, p) == Selected({t}) && g.tx == t && e in g.entries && !Due(s.rows, e.id, s.now)
    requires Fetchable(s.rows, s.born, g) && NoneSkipped(s.rows, s.born, g) && g.entries[0].retry < maxRetries
    ensures Enabled(s, Fetch(p, [g], 20), maxRetries, true) && g in [g] && !DroppedOrDue(s, g, maxRetries)
  {
    hide Fetchable, NoneSkipped, Due;
  }

  /** Nothing but a and b, of one transaction, and a not later. */
  ghost predicate TwoBorn(born: Births, a: Id, b: Id, t: TxId) {
    && born.Keys == {a, b} && a != b && born[a].tx == t && born[b].tx == t
    && born[a].created <= born[b].created
  }

  /** Both rows are open and fetched together. */
  lemma {:induction false} Pair(s: State, g: Group, a: Id, b: Id, t: TxId)
    requires TwoBorn(s.born, a, b, t) && IsOpen(s.rows, a) && IsOpen(s.rows, b)
    requires g == Group(t, [Entry(a, s.rows[a].retry), Entry(b, s.rows[b].retry)])
    ensures Fetchable(s.rows, s.born, g) && Whole(s.rows, s.born, g) && NoneSkipped(s.rows, s.born, g)
    ensures s.born[a].created != s.born[b].created ==> DistinctTimes(s.born, t)
    ensures forall e :: e in g.entries ==> e.id == a || e.id == b
  {
    assert g.entries[0].id == a && g.entries[1].id == b;
    assert g.entries[0] in g.entries && g.entries[1] in g.entries;
    assert a in IdsOf(g.entries) && b in IdsOf(g.entries);
  }

  lemma {:induction false} ClaimsPair(rows: Rows, g: Group, a: Id, b: Id, until: int)
    requires rows.Keys == {a, b} && IsOpen(rows, a) && IsOpen(rows, b) && a != b
    requires g.entries == [Entry(a, rows[a].retry), Entry(b, rows[b].retry)]
    ensures Claim(rows, FetchedIds([g]), until)
         == map[a := rows[a].(next := Some(until)), b := rows[b].(next := Some(until))]
  {
    assert g.entries[0].id == a && g.entries[1].id == b && g in [g];
    assert g.entries[0] in g.entries && g.entries[1] in g.entries;
    assert a in FetchedIds([g]) && b in FetchedIds([g]);
  }

  lemma {:induction false} FetchesPair(s: State, g: Group, a: Id, b: Id, t: TxId, p: Pid, until: int, maxRetries: nat)
    returns (s': State)
    requires Reachable(s, maxRetries, true) && WorkerAt(s, p) == Selected({t})
    requires TwoBorn(s.born, a, b, t) && s.rows.Keys == {a, b}
    requires IsOpen(s.rows, a) && IsOpen(s.rows, b)
    requires g == Group(t, [Entry(a, s.rows[a].retry), Entry(b, s.rows[b].retry)])
    ensures Reachable(s', maxRetries, true)
    ensures Enabled(s, Fetch(p, [g], until), maxRetries, true) && Enabled(s, Fetch(p, [g], until), maxRetries, false)
    ensures s' == After(s, Fetch(p, [g], until), maxRetries)
    ensures s' == s.(rows := map[a := s.rows[a].(next := Some(until)), b := s.rows[b].(next := Some(until))],
                     workers := s.workers[p := Busy([g], [])])
  {
    hide Reachable, Fetchable, NoneSkipped, Claim, FetchedIds;
    Pair(s, g, a, b, t);
    ClaimsPair(s.rows, g, a, b, until);
    s' := After(s, Fetch(p, [g], until), maxRetries);
    ReachableStep(s, Fetch(p, [g], until), maxRetries, true);
  }

  lemma {:induction false} SelectsPair(s: State, a: Id, t: TxId, q: Pid, maxRetries: nat) returns (s': State)
    requires Reachable(s, maxRetries, true) && WorkerAt(s, q) == Idle
    requires IsOpen(s.rows, a) && a in s.born && s.born[a].tx == t
    requires forall id :: id in s.rows ==> Due(s.rows, id, s.now)
    ensures Reachable(s', maxRetries, true) && s' == s.(workers := s.workers[q := Selected({t})])
  {
    hide Reachable;
    assert HasOpen(s.rows, s.born, t);
    s' := After(s, Select(q, {t}), maxRetries);
    ReachableStep(s, Select(q, {t}), maxRetries, true);
  }

  /** q selects both events, fetches them, is refused the first and records it. */
  lemma {:induction false} Refusal(s: State, a: Id, b: Id, t: TxId, q: Pid, until: int, maxRetries: nat)
    returns (s': State)
    requires Reachable(s, maxRetries, true) && WorkerAt(s, q) == Idle && maxRetries > 0
    requires TwoBorn(s.born, a, b, t) && s.rows.Keys == {a, b}
    requires forall id :: id in s.rows ==> s.rows[id].Open() && s.rows[id].retry == 0 && Due(s.rows, id, s.now)
    ensures Reachable(s', maxRetries, true) && s'.now == s.now && s'.born == s.born
    ensures s'.rows == map[a := Row(1, Some(s.now + 1), None, false), b := Row(0, Some(until), None, false)]
    ensures s'.workers == s.workers[q := Idle]
  {
    hide Reachable, Enabled, After;
    var g := Group(t, [Entry(a, 0), Entry(b, 0)]);
    var s1 := SelectsPair(s, a, t, q, maxRetries);
    var s2 := FetchesPair(s1, g, a, b, t, q, until, maxRetries);
    s' := RefusalOf(s2, g, a, b, t, q, maxRetries);
    assert s'.workers == s.workers[q := Idle];
  }

  lemma {:induction false} RefusalOf(s: State, g: Group, a: Id, b: Id, t: TxId, q: Pid, maxRetries: nat)
    returns (s': State)
    requires Reachable(s, maxRetries, true) && a != b && maxRetries > 0
    requires g == Group(t, [Entry(a, 0), Entry(b, 0)]) && WorkerAt(s, q) == Busy([g], [])
    requires s.rows.Keys == {a, b} && s.rows[a].retry == 0
    ensures Reachable(s', maxRetries, true) && s'.now == s.now && s'.born == s.born
    ensures s'.rows == map[a := s.rows[a].(retry := 1, next := Some(s.now + 1)), b := s.rows[b]]
    ensures s'.workers == s.workers[q := Idle]
  {
    hide Reachable;
    assert [g][1..] == [];
    var s1 := After(s, Step.Publish(q, Refused), maxRetries);
    ReachableStep(s, Step.Publish(q, Refused), maxRetries, true);
    assert WorkerAt(s1, q) == Busy([], [Failed(a)]);
    s' := After(s1, Persist(q, true), maxRetries);
    ReachableStep(s1, Persist(q, true), maxRetries, true);
    assert [Failed(a)][..0] == [] && Pow2(0) == 1;
    assert ApplyAll(s1.rows, s1.born, [Failed(a)], s1.now) == MarkFailed(s1.rows, a, s1.now);
    assert s'.workers == s.workers[q := Idle];
  }
}

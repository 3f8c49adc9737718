/** The shared calls of the liveness cache (liveness/liveness.go): lookups of the same tenants collapse
    into one call, a call that fails stores nothing, and one that nothing overtakes stores its whole
    answer. */
module LivenessCalls {
  import opened Wrappers
  import opened Liveness

  // ---- One call per key ----

  predicate Running(net: Calls, k: CallId) { k in net.calls && !net.calls[k].phase.Finished? }

  /** The singleflight slots are those of the calls that have not returned. */
  ghost predicate SlotsAreRunning(net: Calls) {
    && (forall k :: Running(net, k) ==>
          var key := KeyOf(net.calls[k].ids, net.calls[k].gen);
          key in net.inflight && net.inflight[key] == k)
    && (forall key :: key in net.inflight ==>
          var k := net.inflight[key];
          Running(net, k) && KeyOf(net.calls[k].ids, net.calls[k].gen) == key)
  }

  lemma {:induction false} MovedSlots(net: Calls, k: CallId, phase: Phase)
    requires SlotsAreRunning(net) && Running(net, k) && !phase.Finished?
    ensures SlotsAreRunning(At(net, k, phase))
  {
    hide KeyOf;
    assert forall j :: Running(At(net, k, phase), j) <==> Running(net, j);
  }

  lemma {:induction false} LandedSlots(net: Calls, k: CallId)
    requires SlotsAreRunning(net) && Running(net, k)
    ensures SlotsAreRunning(Land(net, k))
  {
    hide KeyOf;
    assert forall j :: Running(Land(net, k), j) <==> Running(net, j) && j != k;
  }

  lemma {:induction false} JoinedSlots(net: Calls, c: CallerId, k: CallId)
    requires SlotsAreRunning(net) && c in net.callers && k !in net.calls
    ensures SlotsAreRunning(Join(net, c, k))
  {
    hide KeyOf;
    var key := KeyOf(net.callers[c].ids, net.callers[c].gen);
    if key in net.inflight {
      assert forall j :: Running(Join(net, c, k), j) <==> Running(net, j);
    } else {
      assert forall j :: Running(Join(net, c, k), j) <==> Running(net, j) || j == k;
    }
  }

  lemma {:induction false} SlotsStep(s: State, step: Step)
    requires SlotsAreRunning(s.net) && Enabled(s, step)
    ensures SlotsAreRunning(After(s, step).net)
  {
    hide SlotsAreRunning, KeyOf;
    match step
    case DoChan(c, k) => JoinedSlots(s.net, c, k);
    case Source(k, ok) =>
      MovedSlots(s.net, k, Answered(map t | t in s.net.calls[k].ids :: t in s.world.live, 0));
      LandedSlots(s.net, k);
    case Check(k) => MovedSlots(s.net, k, NetAfter(s, step).calls[k].phase);
    case Write(k) => MovedSlots(s.net, k, NetAfter(s, step).calls[k].phase);
    case Recheck(k) => MovedSlots(s.net, k, NetAfter(s, step).calls[k].phase);
    case Delete(k) => MovedSlots(s.net, k, NetAfter(s, step).calls[k].phase);
    case Return(k) => LandedSlots(s.net, k);
    case Capture(c, ids) => CallersOnly(s.net, After(s, step).net);
    case Change(_, _) =>
    case Lose(_) =>
    case EvictBump(_, _) =>
    case EvictDelete(_) =>
    case Expire(_) =>
  }

  lemma {:induction false} CallersOnly(net: Calls, next: Calls)
    requires SlotsAreRunning(net) && next.calls == net.calls && next.inflight == net.inflight
    ensures SlotsAreRunning(next)
  {
    assert forall j :: Running(next, j) <==> Running(net, j);
  }

  lemma {:induction false} SlotsHold(run: seq<State>, steps: seq<Step>, i: nat)
    requires IsRun(run, steps) && i <= |steps|
    ensures SlotsAreRunning(run[i].net)
  {
    hide Enabled, After;
    if i > 0 {
      SlotsHold(run, steps, i - 1);
      SlotsStep(run[i - 1], steps[i - 1]);
    }
  }

  /** In every run: while a call for these tenants of this generation is running, whoever asks for them
      joins it and no other is begun; otherwise a call of its own is. */
  lemma {:induction false} LookupsCollapse(run: seq<State>, steps: seq<Step>, i: nat, c: CallerId, k: CallId, j: CallId)
    requires IsRun(run, steps) && i < |steps| && steps[i] == DoChan(c, k) && c in run[i].net.callers
    ensures var net, next := run[i].net, run[i + 1].net;
      var caller := net.callers[c];
      && c in next.callers && next.callers[c].ids == caller.ids && next.callers[c].gen == caller.gen
      && (Running(net, j) && net.calls[j].gen == caller.gen && multiset(net.calls[j].ids) == multiset(caller.ids) ==>
            next.callers[c].call == Some(j) && next.calls == net.calls)
      && ((forall j :: Running(net, j) ==>
            net.calls[j].gen != caller.gen || multiset(net.calls[j].ids) != multiset(caller.ids)) ==>
            next.callers[c].call == Some(k) && next.calls == net.calls[k := Call(caller.gen, caller.ids, Started)])
  {
    SlotsHold(run, steps, i);
    var net := run[i].net;
    var key := KeyOf(net.callers[c].ids, net.callers[c].gen);
    assert Running(net, j) ==> KeyOf(net.calls[j].ids, net.calls[j].gen) in net.inflight;
    if key in net.inflight {
      assert Running(net, net.inflight[key]);
    }
  }

  // ---- Where a verdict comes from ----

  ghost predicate AnsweredBefore(steps: seq<Step>, i: nat, k: CallId) {
    exists j: nat :: j < i && j < |steps| && steps[j] == Source(k, true)
  }

  /** Past its start a call has had an answer, or has returned. */
  ghost predicate CallAnswered(net: Calls, k: CallId, answered: bool) {
    k in net.calls ==> net.calls[k].phase.Started? || net.calls[k].phase.Finished? || answered
  }

  lemma {:induction false} CallAnsweredStep(s: State, step: Step, k: CallId, answered: bool)
    requires CallAnswered(s.net, k, answered) && Enabled(s, step)
    ensures CallAnswered(After(s, step).net, k, answered || step == Source(k, true))
    ensures forall t :: t in After(s, step).cache && After(s, step).cache[t].writer == k ==>
      (t in s.cache && s.cache[t].writer == k) || (answered && step == Write(k))
  {
    hide KeyOf;
  }

  lemma {:induction false} AnsweredMore(steps: seq<Step>, i: nat, k: CallId)
    requires 0 < i <= |steps|
    ensures AnsweredBefore(steps, i, k) <==> AnsweredBefore(steps, i - 1, k) || steps[i - 1] == Source(k, true)
  {
  }

  /** In every run: a verdict in the cache was written by a call that the source answered; a call that it
      failed stores nothing. */
  lemma {:induction false} VerdictsAreAnswers(run: seq<State>, steps: seq<Step>, i: nat, k: CallId)
    requires IsRun(run, steps) && i <= |steps|
    ensures CallAnswered(run[i].net, k, AnsweredBefore(steps, i, k))
    ensures forall t :: t in run[i].cache && run[i].cache[t].writer == k ==> AnsweredBefore(steps, i, k)
  {
    hide Enabled, After, CallAnswered, AnsweredBefore;
    if i == 0 {
      NoCalls(run[0], k, AnsweredBefore(steps, 0, k));
    } else {
      VerdictsAreAnswers(run, steps, i - 1, k);
      CallAnsweredStep(run[i - 1], steps[i - 1], k, AnsweredBefore(steps, i - 1, k));
      AnsweredMore(steps, i, k);
    }
  }

  lemma {:induction false} NoCalls(s: State, k: CallId, answered: bool)
    requires s.net == Calls(map[], map[], map[])
    ensures CallAnswered(s.net, k, answered)
  {
  }

  // ---- When an eviction is under way ----

  ghost predicate Took(steps: seq<Step>, i: nat, step: Step) {
    exists j: nat :: j < i && j < |steps| && steps[j] == step
  }

  ghost predicate Bumped(steps: seq<Step>, i: nat, e: EvictId) {
    exists j: nat :: j < i && j < |steps| && steps[j].EvictBump? && steps[j].e == e
  }

  lemma {:induction false} EvictionSteps(steps: seq<Step>, i: nat, e: EvictId)
    requires 0 < i <= |steps|
    ensures Took(steps, i, EvictDelete(e)) <==> Took(steps, i - 1, EvictDelete(e)) || steps[i - 1] == EvictDelete(e)
    ensures Bumped(steps, i, e) <==>
      Bumped(steps, i - 1, e) || (steps[i - 1].EvictBump? && steps[i - 1].e == e)
  {
  }

  lemma {:induction false} EvictionStep(s: State, step: Step, e: EvictId)
    requires Enabled(s, step)
    ensures e in After(s, step).ev.begun <==> e in s.ev.begun || (step.EvictBump? && step.e == e)
    ensures e in After(s, step).ev.active <==>
      (e in s.ev.active && step != EvictDelete(e)) || (step.EvictBump? && step.e == e)
    ensures step == EvictDelete(e) ==> e in s.ev.begun
    ensures step.EvictBump? && step.e == e ==> e !in s.ev.begun
  {
    hide NetAfter, CacheAfter, WorldAfter;
  }

  /** In every run an eviction is under way exactly from its bump until its delete. */
  lemma {:induction false} ActiveUntilDelete(run: seq<State>, steps: seq<Step>, i: nat, e: EvictId)
    requires IsRun(run, steps) && i <= |steps|
    ensures e in run[i].ev.begun <==> Bumped(steps, i, e)
    ensures e in run[i].ev.active <==> Bumped(steps, i, e) && !Took(steps, i, EvictDelete(e))
    ensures Took(steps, i, EvictDelete(e)) ==> Bumped(steps, i, e)
  {
    hide Enabled, After, Took, Bumped;
    if i == 0 {
      NothingTaken(steps, e);
    } else {
      ActiveUntilDelete(run, steps, i - 1, e);
      EvictionStep(run[i - 1], steps[i - 1], e);
      EvictionSteps(steps, i, e);
    }
  }

  lemma {:induction false} NothingTaken(steps: seq<Step>, e: EvictId)
    ensures !Took(steps, 0, EvictDelete(e)) && !Bumped(steps, 0, e)
  {
  }

  // ---- A call left to itself ----

  /** Taken one after the other from s these steps end in s'. */
  ghost predicate Leads(s: State, steps: seq<Step>, s': State)
    decreases |steps|
  {
    if steps == [] then s' == s else Enabled(s, steps[0]) && Leads(After(s, steps[0]), steps[1..], s')
  }

  lemma {:induction false} OneStepMore(s: State, step: Step, rest: seq<Step>, s': State)
    requires Enabled(s, step) && Leads(After(s, step), rest, s')
    ensures Leads(s, [step] + rest, s')
  {
    hide Enabled, After;
    assert ([step] + rest)[1..] == rest;
  }

  /** The verdicts of ids[n..] stored, each as the call's. */
  function Stored(cache: map<Tenant, Verdict>, call: Call, live: map<Tenant, bool>, k: CallId, n: nat)
    : map<Tenant, Verdict>
    requires n <= |call.ids| && forall t :: t in call.ids ==> t in live
    decreases |call.ids| - n
  {
    if n == |call.ids| then cache
    else Stored(cache[call.ids[n] := Verdict(live[call.ids[n]], call.gen, k)], call, live, k, n + 1)
  }

  lemma {:induction false} StoredAre(cache: map<Tenant, Verdict>, call: Call, live: map<Tenant, bool>,
          k: CallId, n: nat, t: Tenant)
    requires n <= |call.ids| && forall t :: t in call.ids ==> t in live
    ensures var after := Stored(cache, call, live, k, n);
      && (t in call.ids[n..] ==> t in after && after[t] == Verdict(live[t], call.gen, k))
      && (t !in call.ids[n..] ==> (t in after <==> t in cache) && (t in cache ==> after[t] == cache[t]))
    decreases |call.ids| - n
  {
    if n < |call.ids| {
      StoredAre(cache[call.ids[n] := Verdict(live[call.ids[n]], call.gen, k)], call, live, k, n + 1, t);
      assert call.ids[n..] == [call.ids[n]] + call.ids[n + 1..];
    }
  }

  lemma {:induction false} StoreOne(s: State, k: CallId, live: map<Tenant, bool>, n: nat, rest: seq<Step>, s': State)
    requires k in s.net.calls && s.net.calls[k].phase == Answered(live, n) && n < |s.net.calls[k].ids|
    requires s.net.calls[k].ids[n] in live && s.net.calls[k].gen == s.ev.generation
    requires var t := s.net.calls[k].ids[n];
      Leads(s.(cache := s.cache[t := Verdict(live[t], s.net.calls[k].gen, k)],
            net := At(s.net, k, Answered(live, n + 1))), rest, s')
    ensures Leads(s, [Check(k)] + ([Write(k)] + ([Recheck(k)] + rest)), s')
  {
    hide Leads, KeyOf, Join, Land;
    var t := s.net.calls[k].ids[n];
    var s1 := s.(net := At(s.net, k, Checked(live, n)));
    var s2 := s.(cache := s.cache[t := Verdict(live[t], s.net.calls[k].gen, k)], net := At(s.net, k, Written(live, n)));
    var s3 := s2.(net := At(s.net, k, Answered(live, n + 1)));
    assert After(s, Check(k)) == s1;
    assert At(s1.net, k, Written(live, n)) == s2.net;
    assert After(s1, Write(k)) == s2;
    assert At(s2.net, k, Answered(live, n + 1)) == s3.net;
    assert After(s2, Recheck(k)) == s3;
    OneStepMore(s2, Recheck(k), rest, s');
    OneStepMore(s1, Write(k), [Recheck(k)] + rest, s');
    OneStepMore(s, Check(k), [Write(k)] + ([Recheck(k)] + rest), s');
  }

  lemma {:induction false} ReturnLeads(s: State, k: CallId, live: map<Tenant, bool>, n: nat)
    requires k in s.net.calls && s.net.calls[k].phase == Answered(live, n) && n >= |s.net.calls[k].ids|
    ensures Leads(s, [Return(k)], s.(net := Land(s.net, k)))
  {
    hide KeyOf;
    assert [Return(k)][1..] == [];
  }

  /** Left to itself a call stores the verdict of every tenant it asked for, and only those, and returns. */
  lemma {:induction false} QuietCallStores(s: State, k: CallId, live: map<Tenant, bool>, n: nat)
    returns (steps: seq<Step>, s': State)
    requires k in s.net.calls && s.net.calls[k].phase == Answered(live, n) && n <= |s.net.calls[k].ids|
    requires (forall t :: t in s.net.calls[k].ids ==> t in live) && s.net.calls[k].gen == s.ev.generation
    ensures Leads(s, steps, s') && s'.world == s.world && s'.ev == s.ev
    ensures s'.cache == Stored(s.cache, s.net.calls[k], live, k, n)
    ensures s'.net == Land(s.net, k)
    decreases |s.net.calls[k].ids| - n
  {
    hide Leads, KeyOf, After, Enabled, Land;
    var call := s.net.calls[k];
    if n == |call.ids| {
      steps, s' := [Return(k)], s.(net := Land(s.net, k));
      ReturnLeads(s, k, live, n);
    } else {
      var t := call.ids[n];
      var next := s.(cache := s.cache[t := Verdict(live[t], call.gen, k)], net := At(s.net, k, Answered(live, n + 1)));
      var rest;
      rest, s' := QuietCallStores(next, k, live, n + 1);
      steps := [Check(k)] + ([Write(k)] + ([Recheck(k)] + rest));
      StoreOne(s, k, live, n, rest, s');
      LandsAlike(s.net, k, Answered(live, n + 1));
      StoredMoved(next.cache, call, next.net.calls[k], live, k, n + 1);
    }
  }

  lemma {:induction false} LandsAlike(net: Calls, k: CallId, phase: Phase)
    requires k in net.calls
    ensures Land(At(net, k, phase), k) == Land(net, k)
  {
  }

  lemma {:induction false} StoredMoved(cache: map<Tenant, Verdict>, a: Call, b: Call, live: map<Tenant, bool>,
          k: CallId, n: nat)
    requires n <= |a.ids| && a.ids == b.ids && a.gen == b.gen && forall t :: t in a.ids ==> t in live
    ensures Stored(cache, a, live, k, n) == Stored(cache, b, live, k, n)
    decreases |a.ids| - n
  {
    if n < |a.ids| {
      StoredMoved(cache[a.ids[n] := Verdict(live[a.ids[n]], a.gen, k)], a, b, live, k, n + 1);
    }
  }

  /** One that an event has overtaken stores nothing more, and returns. */
  lemma {:induction false} OvertakenCallStoresNothing(s: State, k: CallId, live: map<Tenant, bool>, n: nat)
    returns (steps: seq<Step>)
    requires k in s.net.calls && s.net.calls[k].phase == Answered(live, n) && n <= |s.net.calls[k].ids|
    requires s.net.calls[k].gen != s.ev.generation
    ensures Leads(s, steps, s.(net := Land(s.net, k)))
    decreases |s.net.calls[k].ids| - n
  {
    hide Leads, KeyOf, Land;
    if n == |s.net.calls[k].ids| {
      steps := [Return(k)];
      ReturnLeads(s, k, live, n);
    } else {
      var next := s.(net := At(s.net, k, Answered(live, n + 1)));
      assert After(s, Check(k)) == next;
      var rest := OvertakenCallStoresNothing(next, k, live, n + 1);
      steps := [Check(k)] + rest;
      LandsAlike(s.net, k, Answered(live, n + 1));
      OneStepMore(s, Check(k), rest, s.(net := Land(s.net, k)));
    }
  }

  /** Whatever the others are at: who asks for tenants that no running call of this generation asks for
      can be answered, and then the cache holds what the source says of each of them. */
  lemma {:induction false} FreshCallStores(s: State, c: CallerId, k: CallId, ids: seq<Tenant>)
    returns (steps: seq<Step>, s': State)
    requires SlotsAreRunning(s.net) && c !in s.net.callers && k !in s.net.calls
    requires forall j :: Running(s.net, j) ==>
      s.net.calls[j].gen != s.ev.generation || multiset(s.net.calls[j].ids) != multiset(ids)
    ensures Leads(s, steps, s') && s'.world == s.world && s'.ev == s.ev
    ensures forall t :: t in ids ==>
      t in s'.cache && s'.cache[t] == Verdict(t in s.world.live, s.ev.generation, k)
    ensures forall t :: t !in ids ==> (t in s'.cache <==> t in s.cache) && (t in s.cache ==> s'.cache[t] == s.cache[t])
  {
    hide Leads, Stored;
    var live := map t | t in ids :: t in s.world.live;
    var s1 := After(s, Capture(c, ids));
    assert KeyOf(ids, s.ev.generation) !in s1.net.inflight;
    var s2 := After(s1, DoChan(c, k));
    var s3 := After(s2, Source(k, true));
    assert s3.net.calls[k] == Call(s.ev.generation, ids, Answered(live, 0));
    var rest;
    rest, s' := QuietCallStores(s3, k, live, 0);
    OneStepMore(s2, Source(k, true), rest, s');
    OneStepMore(s1, DoChan(c, k), [Source(k, true)] + rest, s');
    steps := [Capture(c, ids)] + ([DoChan(c, k)] + ([Source(k, true)] + rest));
    OneStepMore(s, Capture(c, ids), [DoChan(c, k)] + ([Source(k, true)] + rest), s');
    assert ids[0..] == ids;
    forall t
      ensures t in ids ==> t in s'.cache && s'.cache[t] == Verdict(live[t], s.ev.generation, k)
      ensures t !in ids ==> (t in s'.cache <==> t in s.cache) && (t in s.cache ==> s'.cache[t] == s.cache[t])
    {
      StoredAre(s3.cache, s3.net.calls[k], live, k, 0, t);
    }
  }

  // ---- One tenant after the other ----

  /** How often call k has begun to store a verdict, or dropped one, in the first i steps. */
  function Checks(steps: seq<Step>, i: nat, k: CallId): nat
    requires i <= |steps|
  {
    if i == 0 then 0 else Checks(steps, i - 1, k) + (if steps[i - 1] == Check(k) then 1 else 0)
  }

  /** The call has begun with its first n tenants, and is done with them or still at the last of them. */
  ghost predicate InTurn(net: Calls, k: CallId, n: nat) {
    if k !in net.calls then n == 0
    else
      match net.calls[k].phase
      case Started => n == 0
      case Answered(_, next) => n == next && n <= |net.calls[k].ids|
      case Checked(_, next) => n == next + 1 && n <= |net.calls[k].ids|
      case Written(_, next) => n == next + 1 && n <= |net.calls[k].ids|
      case Deleting(_, next) => n == next + 1 && n <= |net.calls[k].ids|
      case Finished => n == 0 || n == |net.calls[k].ids|
  }

  lemma {:induction false} InTurnStep(s: State, step: Step, k: CallId, n: nat)
    requires Enabled(s, step) && InTurn(s.net, k, n)
    ensures InTurn(After(s, step).net, k, n + (if step == Check(k) then 1 else 0))
    ensures step == Check(k) ==> n < |s.net.calls[k].ids| && NextTenant(s.net.calls[k]) == s.net.calls[k].ids[n]
    ensures step == Return(k) ==> n == |s.net.calls[k].ids|
  {
    hide KeyOf, CacheAfter, WorldAfter, EvictionsAfter;
  }

  /** In every run: a call takes the tenants it asked for in turn, each once, and returns after the last. */
  lemma {:induction false} TenantsInTurn(run: seq<State>, steps: seq<Step>, i: nat, k: CallId)
    requires IsRun(run, steps) && i <= |steps|
    ensures InTurn(run[i].net, k, Checks(steps, i, k))
    ensures i < |steps| && steps[i] == Check(k) ==>
      var ids := run[i].net.calls[k].ids;
      Checks(steps, i, k) < |ids| && NextTenant(run[i].net.calls[k]) == ids[Checks(steps, i, k)]
    ensures i < |steps| && steps[i] == Return(k) ==> Checks(steps, i, k) == |run[i].net.calls[k].ids|
  {
    hide InTurn, After;
    if i == 0 {
      NoTurns(run[0], k);
    } else {
      TenantsInTurn(run, steps, i - 1, k);
      InTurnStep(run[i - 1], steps[i - 1], k, Checks(steps, i - 1, k));
    }
    if i < |steps| {
      InTurnStep(run[i], steps[i], k, Checks(steps, i, k));
    }
  }

  lemma {:induction false} NoTurns(s: State, k: CallId)
    requires k !in s.net.calls
    ensures InTurn(s.net, k, 0)
  {
  }

  // ---- Who is live ----

  /** Step j is the last before step i that changed the tenant, and made it live or not. */
  ghost predicate LastWord(steps: seq<Step>, j: nat, i: nat, t: Tenant, live: bool) {
    && j < i <= |steps| && steps[j] == Change(t, live)
    && forall k :: j < k < i ==> steps[k] != Change(t, true) && steps[k] != Change(t, false)
  }

  ghost predicate Untouched(steps: seq<Step>, i: nat, t: Tenant) {
    i <= |steps| && forall k :: 0 <= k < i ==> steps[k] != Change(t, true) && steps[k] != Change(t, false)
  }

  /** In every run: a tenant is live if and only if its last change made it so, or it has had none and
      began so. */
  lemma {:induction false} LiveByLastChange(run: seq<State>, steps: seq<Step>, i: nat, t: Tenant)
    requires IsRun(run, steps) && i <= |steps|
    ensures Untouched(steps, i, t) ==> (t in run[i].world.live <==> t in run[0].world.live)
    ensures forall j: nat, live :: LastWord(steps, j, i, t, live) ==> (t in run[i].world.live <==> live)
    ensures Untouched(steps, i, t) || exists j: nat, live :: LastWord(steps, j, i, t, live)
  {
    hide Enabled, EvictionsAfter, CacheAfter, NetAfter;
    if i > 0 {
      LiveByLastChange(run, steps, i - 1, t);
      var step := steps[i - 1];
      if step == Change(t, true) {
        assert LastWord(steps, i - 1, i, t, true);
      } else if step == Change(t, false) {
        assert LastWord(steps, i - 1, i, t, false);
      } else {
        assert forall j: nat, live :: LastWord(steps, j, i, t, live) ==> LastWord(steps, j, i - 1, t, live);
        if !Untouched(steps, i - 1, t) {
          var j: nat, live :| LastWord(steps, j, i - 1, t, live);
          assert LastWord(steps, j, i, t, live);
        }
      }
    }
  }

  // ---- Whose event was lost ----

  predicate Bumps(step: Step, t: Tenant) { step.EvictBump? && step.tenant == t }

  /** An event of the tenant was lost, and no eviction of it has begun since. */
  ghost predicate LostSince(steps: seq<Step>, i: nat, t: Tenant) {
    exists j: nat :: j < i <= |steps| && steps[j] == Lose(t) && forall k :: j < k < i ==> !Bumps(steps[k], t)
  }

  lemma {:induction false} LostMore(steps: seq<Step>, i: nat, t: Tenant)
    requires i < |steps|
    ensures LostSince(steps, i + 1, t) <==> steps[i] == Lose(t) || (LostSince(steps, i, t) && !Bumps(steps[i], t))
  {
    hide Bumps;
    if LostSince(steps, i, t) && !Bumps(steps[i], t) {
      var j: nat :| j < i && steps[j] == Lose(t) && forall k :: j < k < i ==> !Bumps(steps[k], t);
      assert forall k :: j < k < i + 1 ==> !Bumps(steps[k], t);
    }
  }

  lemma {:induction false} LostStep(world: World, step: Step, t: Tenant)
    ensures t in WorldAfter(world, step).lost <==> step == Lose(t) || (t in world.lost && !Bumps(step, t))
  {
  }

  /** In every run: a tenant is excused exactly from a lost event until an eviction. */
  lemma {:induction false} LostUntilEvicted(run: seq<State>, steps: seq<Step>, i: nat, t: Tenant)
    requires IsRun(run, steps) && i <= |steps| && t !in run[0].world.lost
    ensures t in run[i].world.lost <==> LostSince(steps, i, t)
  {
    hide Enabled, EvictionsAfter, CacheAfter, NetAfter, WorldAfter, Bumps;
    if i == 0 {
      assert !LostSince(steps, 0, t);
    } else {
      hide LostSince;
      LostUntilEvicted(run, steps, i - 1, t);
      assert run[i].world == WorldAfter(run[i - 1].world, steps[i - 1]);
      LostStep(run[i - 1].world, steps[i - 1], t);
      LostMore(steps, i - 1, t);
    }
  }

  // ---- Events and generations ----

  function Changes(steps: seq<Step>, i: nat, t: Tenant): nat
    requires i <= |steps|
  {
    if i == 0 then 0
    else Changes(steps, i - 1, t) + (if steps[i - 1].Change? && steps[i - 1].tenant == t then 1 else 0)
  }

  function Losses(steps: seq<Step>, i: nat, t: Tenant): nat
    requires i <= |steps|
  {
    if i == 0 then 0 else Losses(steps, i - 1, t) + (if steps[i - 1] == Lose(t) then 1 else 0)
  }

  function BumpsOf(steps: seq<Step>, i: nat, t: Tenant): nat
    requires i <= |steps|
  {
    if i == 0 then 0 else BumpsOf(steps, i - 1, t) + (if Bumps(steps[i - 1], t) then 1 else 0)
  }

  function AllBumps(steps: seq<Step>, i: nat): nat
    requires i <= |steps|
  {
    if i == 0 then 0 else AllBumps(steps, i - 1) + (if steps[i - 1].EvictBump? then 1 else 0)
  }

  /** In every run the generation is the number of evictions begun. */
  lemma {:induction false} GenerationCountsEvictions(run: seq<State>, steps: seq<Step>, i: nat)
    requires IsRun(run, steps) && i <= |steps|
    ensures run[i].ev.generation == AllBumps(steps, i)
  {
    hide Enabled, WorldAfter, CacheAfter, NetAfter;
    if i > 0 {
      GenerationCountsEvictions(run, steps, i - 1);
    }
  }

  lemma {:induction false} EventStep(world: World, step: Step, t: Tenant)
    requires step.Lose? ==> step.tenant in world.pending
    ensures step.Change? && step.tenant == t ==> WorldAfter(world, step).pending[t] == world.pending[t] + 1
    ensures step == Lose(t) ==> WorldAfter(world, step).pending[t] == world.pending[t] - 1
    ensures Bumps(step, t) ==>
      world.pending[t] <= WorldAfter(world, step).pending[t] + 1 <= world.pending[t] + 1
    ensures !(step.Change? && step.tenant == t) && step != Lose(t) && !Bumps(step, t) ==>
      WorldAfter(world, step).pending[t] == world.pending[t]
  {
  }

  /** In every run each change of a tenant leaves one event, which is waiting, lost or applied; an event
      applied again takes none away. */
  lemma {:induction false} EventsAddUp(run: seq<State>, steps: seq<Step>, i: nat, t: Tenant)
    requires IsRun(run, steps) && i <= |steps|
    ensures var changes := run[0].world.pending[t] + Changes(steps, i, t);
      && run[i].world.pending[t] + Losses(steps, i, t) <= changes
      && changes <= run[i].world.pending[t] + Losses(steps, i, t) + BumpsOf(steps, i, t)
  {
    hide EvictionsAfter, CacheAfter, NetAfter, WorldAfter, Bumps;
    if i > 0 {
      EventsAddUp(run, steps, i - 1, t);
      EventStep(run[i - 1].world, steps[i - 1], t);
      assert run[i].world == WorldAfter(run[i - 1].world, steps[i - 1]);
    }
  }

  // ---- What others do between two operations of a lookup ----

  /** What others stored or dropped last is what they leave. */
  lemma {:induction false} LastOtherDecides(kv: map<Tenant, bool>, ops: seq<Other>, op: Other, t: Tenant)
    ensures var after := Interleaved(kv, ops + [op]);
      && (op.Stores? ==> op.tenant in after && after[op.tenant] == op.live)
      && (!op.Stores? ==> op.tenant !in after)
      && (t != op.tenant ==>
            (t in after <==> t in Interleaved(kv, ops)) && (t in after ==> after[t] == Interleaved(kv, ops)[t]))
    ensures Interleaved(kv, []) == kv
  {
    assert (ops + [op])[..|ops|] == ops;
  }

  lemma {:induction false} SomeEviction(ops: seq<Other>)
    ensures EvictionsIn(ops) > 0 <==> exists i :: 0 <= i < |ops| && ops[i].Evicts?
  {
    if ops != [] {
      SomeEviction(ops[..|ops| - 1]);
      assert ops[|ops| - 1].Evicts? ==> exists i :: 0 <= i < |ops| && ops[i].Evicts?;
    }
  }

  lemma {:induction false} OneMoreEviction(ops: seq<Other>, op: Other)
    ensures EvictionsIn(ops + [op]) == EvictionsIn(ops) + if op.Evicts? then 1 else 0
  {
    assert (ops + [op])[..|ops|] == ops;
  }
}

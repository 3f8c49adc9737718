/** The tenant liveness cache (liveness/liveness.go): lookups, evictions and changes of the tenants
    themselves interleave freely, one atomic load, store or delete at a time.

    A source answers for all tenants of a call from one moment.  Lifecycle events are delivered in
    any order and any time after the change they report, may be repeated, and may be lost. */
module Liveness {
  import opened Wrappers

  datatype Tenant = Tenant(token: int)
  datatype CallId = CallId(token: int)
  datatype CallerId = CallerId(token: int)
  datatype EvictId = EvictId(token: int)

  /** A cached verdict, with the call that wrote it and the generation that call had captured. */
  datatype Verdict = Verdict(live: bool, gen: nat, writer: CallId)

  /** The singleflight key: the tenants in any order, and the generation. */
  datatype MissKey = MissKey(ids: multiset<Tenant>, gen: nat)

  /** A shared call.  From Answered on it has the source's answer and is about to store the verdict
      of ids[next], one atomic operation per phase. */
  datatype Phase =
    | Started
    | Answered(live: map<Tenant, bool>, next: nat)
    | Checked(live: map<Tenant, bool>, next: nat)
    | Written(live: map<Tenant, bool>, next: nat)
    | Deleting(live: map<Tenant, bool>, next: nat)
    | Finished

  datatype Call = Call(gen: nat, ids: seq<Tenant>, phase: Phase)

  /** A caller has captured a generation and, once it joined, waits on a call. */
  datatype Caller = Caller(ids: seq<Tenant>, gen: nat, call: Option<CallId>)

  /** An Evict between its bump and its delete; bump is the generation it made. */
  datatype Eviction = Eviction(tenant: Tenant, bump: nat)

  /** The tenant table, the lifecycle events not yet applied, and the tenants an event of which was
      lost since their last eviction. */
  datatype World = World(live: set<Tenant>, pending: multiset<Tenant>, lost: set<Tenant>)
  {
    /** Not every change of the tenant has reached the cache. */
    predicate Unapplied(t: Tenant) { t in pending || t in lost }
  }

  /** The generation counter, every eviction ever begun, and those between their bump and their
      delete. */
  datatype Evictions = Evictions(generation: nat, begun: map<EvictId, Eviction>, active: set<EvictId>)

  /** Shared calls, the singleflight slots, and the callers. */
  datatype Calls = Calls(calls: map<CallId, Call>, inflight: map<MissKey, CallId>, callers: map<CallerId, Caller>)

  datatype State = State(world: World, ev: Evictions, cache: map<Tenant, Verdict>, net: Calls)

  datatype Step =
    | Change(tenant: Tenant, nowLive: bool)
    | Lose(tenant: Tenant)
    | EvictBump(e: EvictId, tenant: Tenant)
    | EvictDelete(e: EvictId)
    | Expire(tenant: Tenant)
    | Capture(c: CallerId, ids: seq<Tenant>)
    | DoChan(c: CallerId, k: CallId)
    | Source(k: CallId, ok: bool)
    | Check(k: CallId)
    | Write(k: CallId)
    | Recheck(k: CallId)
    | Delete(k: CallId)
    | Return(k: CallId)

  predicate InPhase(s: State, k: CallId) {
    k in s.net.calls && !s.net.calls[k].phase.Started? && !s.net.calls[k].phase.Finished?
  }

  predicate HasNext(call: Call) { !call.phase.Started? && !call.phase.Finished? && call.phase.next < |call.ids| }

  function NextTenant(call: Call): Tenant
    requires HasNext(call)
  {
    call.ids[call.phase.next]
  }

  predicate Enabled(s: State, step: Step) {
    match step
    case Change(_, _) => true
    case Lose(t) => t in s.world.pending
    case EvictBump(e, _) => e !in s.ev.begun
    case EvictDelete(e) => e in s.ev.active && e in s.ev.begun
    case Expire(_) => true
    case Capture(c, _) => c !in s.net.callers
    case DoChan(c, k) => c in s.net.callers && s.net.callers[c].call.None? && k !in s.net.calls
    case Source(k, _) => k in s.net.calls && s.net.calls[k].phase.Started?
    case Check(k) => k in s.net.calls && s.net.calls[k].phase.Answered? && HasNext(s.net.calls[k])
    case Write(k) =>
      k in s.net.calls && s.net.calls[k].phase.Checked? && HasNext(s.net.calls[k])
          && NextTenant(s.net.calls[k]) in s.net.calls[k].phase.live
    case Recheck(k) => k in s.net.calls && s.net.calls[k].phase.Written? && HasNext(s.net.calls[k])
    case Delete(k) => k in s.net.calls && s.net.calls[k].phase.Deleting? && HasNext(s.net.calls[k])
    case Return(k) => k in s.net.calls && s.net.calls[k].phase.Answered? && !HasNext(s.net.calls[k])
  }

  function At(net: Calls, k: CallId, phase: Phase): Calls
    requires k in net.calls
  {
    Calls(net.calls[k := net.calls[k].(phase := phase)], net.inflight, net.callers)
  }

  function KeyOf(ids: seq<Tenant>, gen: nat): MissKey { MissKey(multiset(ids), gen) }

  /** The call returns and its slot is freed. */
  function Land(net: Calls, k: CallId): Calls
    requires k in net.calls
  {
    Calls(net.calls[k := net.calls[k].(phase := Finished)],
        net.inflight - {KeyOf(net.calls[k].ids, net.calls[k].gen)}, net.callers)
  }

  /** DoChan: join the call in flight under the key, or start k. */
  function Join(net: Calls, c: CallerId, k: CallId): Calls
    requires c in net.callers
  {
    var caller := net.callers[c];
    var key := KeyOf(caller.ids, caller.gen);
    if key in net.inflight
    then Calls(net.calls, net.inflight, net.callers[c := Caller(caller.ids, caller.gen, Some(net.inflight[key]))])
    else Calls(net.calls[k := Call(caller.gen, caller.ids, Started)], net.inflight[key := k],
               net.callers[c := Caller(caller.ids, caller.gen, Some(k))])
  }

  function NetAfter(s: State, step: Step): Calls
    requires Enabled(s, step)
  {
    match step
    case Capture(c, ids) => Calls(s.net.calls, s.net.inflight, s.net.callers[c := Caller(ids, s.ev.generation, None)])
    case DoChan(c, k) => Join(s.net, c, k)
    case Source(k, ok) =>
      if ok then At(s.net, k, Answered(map t | t in s.net.calls[k].ids :: t in s.world.live, 0)) else Land(s.net, k)
    case Check(k) =>
      var call := s.net.calls[k];
      At(s.net, k, if call.gen == s.ev.generation then Checked(call.phase.live, call.phase.next)
          else Answered(call.phase.live, call.phase.next + 1))
    case Write(k) => At(s.net, k, Written(s.net.calls[k].phase.live, s.net.calls[k].phase.next))
    case Recheck(k) =>
      var call := s.net.calls[k];
      At(s.net, k, if call.gen == s.ev.generation then Answered(call.phase.live, call.phase.next + 1)
          else Deleting(call.phase.live, call.phase.next))
    case Delete(k) => At(s.net, k, Answered(s.net.calls[k].phase.live, s.net.calls[k].phase.next + 1))
    case Return(k) => Land(s.net, k)
    case _ => s.net
  }

  function CacheAfter(s: State, step: Step): map<Tenant, Verdict>
    requires Enabled(s, step)
  {
    match step
    case EvictDelete(e) => s.cache - {s.ev.begun[e].tenant}
    case Expire(t) => s.cache - {t}
    case Write(k) =>
      var call := s.net.calls[k];
      s.cache[NextTenant(call) := Verdict(call.phase.live[NextTenant(call)], call.gen, k)]
    case Delete(k) => s.cache - {NextTenant(s.net.calls[k])}
    case _ => s.cache
  }

  function EvictionsAfter(ev: Evictions, step: Step): Evictions {
    match step
    case EvictBump(e, t) =>
      Evictions(ev.generation + 1, ev.begun[e := Eviction(t, ev.generation + 1)], ev.active + {e})
    case EvictDelete(e) => Evictions(ev.generation, ev.begun, ev.active - {e})
    case _ => ev
  }

  function WorldAfter(world: World, step: Step): World {
    match step
    case Change(t, nowLive) =>
      World(if nowLive then world.live + {t} else world.live - {t}, world.pending + multiset{t}, world.lost)
    case Lose(t) => World(world.live, world.pending - multiset{t}, world.lost + {t})
    case EvictBump(_, t) => World(world.live, world.pending - multiset{t}, world.lost - {t})
    case _ => world
  }

  function After(s: State, step: Step): State
    requires Enabled(s, step)
  {
    State(WorldAfter(s.world, step), EvictionsAfter(s.ev, step), CacheAfter(s, step), NetAfter(s, step))
  }

  ghost predicate IsRun(run: seq<State>, steps: seq<Step>) {
    && |run| == |steps| + 1
    && run[0].ev == Evictions(0, map[], {}) && run[0].cache == map[] && run[0].net == Calls(map[], map[], map[])
    && forall i :: 0 <= i < |steps| ==> Enabled(run[i], steps[i]) && run[i + 1] == After(run[i], steps[i])
  }

  ghost predicate Reachable(s: State) { exists run, steps :: IsRun(run, steps) && run[|steps|] == s }

  // ---- The invariant ----

  /** The call is between writing t's verdict and having checked or undone it. */
  ghost predicate InWindow(s: State, k: CallId, t: Tenant) {
    k in s.net.calls && (s.net.calls[k].phase.Written? || s.net.calls[k].phase.Deleting?) && HasNext(s.net.calls[k])
        && NextTenant(s.net.calls[k]) == t
  }

  /** An eviction that bumped past gen has not deleted yet. */
  ghost predicate EvictionAhead(s: State, t: Tenant, gen: nat) {
    exists e :: e in s.ev.active && e in s.ev.begun && s.ev.begun[e].tenant == t && s.ev.begun[e].bump > gen
  }

  ghost predicate Generations(s: State) { BoundedGenerations(s) && WritersKnown(s) }

  ghost predicate BoundedGenerations(s: State) {
    && (forall k :: k in s.net.calls ==> s.net.calls[k].gen <= s.ev.generation)
    && (forall c :: c in s.net.callers ==> s.net.callers[c].gen <= s.ev.generation)
    && s.ev.active <= s.ev.begun.Keys && (forall e :: e in s.ev.begun ==> s.ev.begun[e].bump <= s.ev.generation)
  }

  ghost predicate WritersKnown(s: State) {
    forall t :: t in s.cache ==>
        s.cache[t].writer in s.net.calls && s.cache[t].gen == s.net.calls[s.cache[t].writer].gen
  }

  /** A call whose answer has been overtaken by a change has been overtaken by its event, or the
      event is still to come. */
  ghost predicate AnswerGood(s: State, call: Call) {
    !call.phase.Started? && !call.phase.Finished? ==>
      && (forall t :: t in call.ids <==> t in call.phase.live)
      && forall t :: t in call.phase.live && call.phase.live[t] != (t in s.world.live) ==>
          s.world.Unapplied(t) || call.gen != s.ev.generation
  }

  ghost predicate AnswersGood(s: State) { forall k :: k in s.net.calls ==> AnswerGood(s, s.net.calls[k]) }

  ghost predicate VerdictGood(s: State, t: Tenant)
    requires t in s.cache
  {
    CoherentOrClosing(s, t) && GuardedOrClosing(s, t)
  }

  /** A verdict that is no longer true is about to go. */
  ghost predicate CoherentOrClosing(s: State, t: Tenant)
    requires t in s.cache
  {
    s.cache[t].live != (t in s.world.live) ==>
      s.world.Unapplied(t) || EvictionAhead(s, t, s.cache[t].gen)
          || (InWindow(s, s.cache[t].writer, t) && s.cache[t].gen != s.ev.generation)
  }

  /** A verdict looked up before an eviction of its tenant is about to go: that eviction has not
      deleted yet, or the lookup has not checked yet or is about to undo it. */
  ghost predicate GuardedOrClosing(s: State, t: Tenant)
    requires t in s.cache
  {
    forall e :: e in s.ev.begun && s.ev.begun[e].tenant == t && s.cache[t].gen < s.ev.begun[e].bump ==>
      e in s.ev.active || InWindow(s, s.cache[t].writer, t)
  }

  ghost predicate VerdictsGood(s: State) { forall t :: t in s.cache ==> VerdictGood(s, t) }

  /** Callers share a call only within one generation and one tenant set. */
  ghost predicate Sharing(net: Calls) {
    && (forall key :: key in net.inflight ==>
          net.inflight[key] in net.calls
              && KeyOf(net.calls[net.inflight[key]].ids, net.calls[net.inflight[key]].gen) == key)
    && (forall c :: c in net.callers && net.callers[c].call.Some? ==> SharesCall(net, net.callers[c]))
  }

  ghost predicate SharesCall(net: Calls, caller: Caller)
    requires caller.call.Some?
  {
    && caller.call.value in net.calls
    && KeyOf(net.calls[caller.call.value].ids, net.calls[caller.call.value].gen) == KeyOf(caller.ids, caller.gen)
  }

  ghost predicate Inv(s: State) { Generations(s) && AnswersGood(s) && VerdictsGood(s) && Sharing(s.net) }

  lemma {:induction false} BoundedGenerationsStep(s: State, step: Step)
    requires Inv(s) && Enabled(s, step)
    ensures BoundedGenerations(After(s, step))
  {
    hide AnswersGood, VerdictsGood, Sharing, WritersKnown;
    match step
    case Change(_, _) =>
    case Lose(_) =>
    case EvictBump(_, _) =>
    case EvictDelete(_) =>
    case Expire(_) =>
    case Capture(_, _) =>
    case DoChan(_, _) =>
    case Source(_, _) =>
    case Check(_) =>
    case Write(_) =>
    case Recheck(_) =>
    case Delete(_) =>
    case Return(_) =>
  }

  lemma {:induction false} WritersKnownStep(s: State, step: Step)
    requires Inv(s) && Enabled(s, step)
    ensures WritersKnown(After(s, step))
  {
    hide AnswersGood, VerdictsGood, Sharing, BoundedGenerations;
    match step
    case Change(_, _) =>
    case Lose(_) =>
    case EvictBump(_, _) =>
    case EvictDelete(_) =>
    case Expire(_) =>
    case Capture(_, _) =>
    case DoChan(_, _) =>
    case Source(_, _) =>
    case Check(_) =>
    case Write(_) =>
    case Recheck(_) =>
    case Delete(_) =>
    case Return(_) =>
  }

  /** Nothing happens to the tenants or the generation, and the call keeps what it was answered. */
  lemma {:induction false} AnswerKept(s: State, s': State, call: Call, next: Call)
    requires AnswerGood(s, call) && s'.world == s.world && s'.ev.generation == s.ev.generation
    requires next.gen == call.gen && next.ids == call.ids
    requires next.phase.Started? || next.phase.Finished?
      || (!call.phase.Started? && !call.phase.Finished? && next.phase.live == call.phase.live)
    ensures AnswerGood(s', next)
  {
  }

  lemma {:induction false} AnswerAfterEvent(s: State, step: Step, call: Call)
    requires Enabled(s, step) && AnswerGood(s, call) && call.gen <= s.ev.generation
    requires step.Change? || step.Lose? || step.EvictBump?
    ensures AnswerGood(After(s, step), call)
  {
    hide NetAfter, CacheAfter;
    match step
    case Change(_, _) =>
    case Lose(_) =>
    case EvictBump(_, _) =>
  }

  lemma {:induction false} AnswerNew(s: State, k: CallId, ok: bool)
    requires Enabled(s, Source(k, ok))
    ensures AnswerGood(After(s, Source(k, ok)), After(s, Source(k, ok)).net.calls[k])
  {
  }

  lemma {:induction false} AnswerGoodStep(s: State, step: Step, k: CallId)
    requires Enabled(s, step) && k in s.net.calls && AnswerGood(s, s.net.calls[k])
        && s.net.calls[k].gen <= s.ev.generation
    ensures k in After(s, step).net.calls && AnswerGood(After(s, step), After(s, step).net.calls[k])
  {
    hide AnswerGood, CacheAfter, KeyOf;
    var call := s.net.calls[k];
    if step.Change? || step.Lose? || step.EvictBump? {
      AnswerAfterEvent(s, step, call);
    } else if step.Source? && step.k == k {
      AnswerNew(s, k, step.ok);
    } else {
      CallKept(s, step, k);
      AnswerKept(s, After(s, step), call, After(s, step).net.calls[k]);
    }
  }

  lemma {:induction false} CallKept(s: State, step: Step, k: CallId)
    requires Enabled(s, step) && k in s.net.calls && !(step.Source? && step.k == k)
    ensures k in After(s, step).net.calls
    ensures var call, next := s.net.calls[k], After(s, step).net.calls[k];
      && next.gen == call.gen && next.ids == call.ids
      && (next == call || next.phase.Finished?
          || (!call.phase.Started? && !call.phase.Finished? && !next.phase.Started?
              && next.phase.live == call.phase.live))
  {
    hide CacheAfter, KeyOf, WorldAfter, EvictionsAfter;
  }

  lemma {:induction false} AnswersGoodStep(s: State, step: Step)
    requires Inv(s) && Enabled(s, step)
    ensures AnswersGood(After(s, step))
  {
    hide VerdictsGood, Sharing;
    var s' := After(s, step);
    forall k | k in s'.net.calls
      ensures AnswerGood(s', s'.net.calls[k])
    {
      if k in s.net.calls {
        AnswerGoodStep(s, step, k);
      } else {
        assert s'.net.calls[k].phase.Started?;
      }
    }
  }

  lemma {:induction false} AtSharing(net: Calls, k: CallId, phase: Phase)
    requires Sharing(net) && k in net.calls
    ensures Sharing(At(net, k, phase)) && Sharing(Land(net, k))
  {
  }

  lemma {:induction false} JoinSharing(net: Calls, c: CallerId, k: CallId)
    requires Sharing(net) && c in net.callers && k !in net.calls
    ensures Sharing(Join(net, c, k))
  {
    var caller := net.callers[c];
    var key := KeyOf(caller.ids, caller.gen);
    if key in net.inflight {
      CallerSharing(net, c, Caller(caller.ids, caller.gen, Some(net.inflight[key])));
    } else {
      StartSharing(net, k, caller.ids, caller.gen);
      var started := Calls(net.calls[k := Call(caller.gen, caller.ids, Started)], net.inflight[key := k], net.callers);
      CallerSharing(started, c, Caller(caller.ids, caller.gen, Some(k)));
    }
  }

  lemma {:induction false} CallerSharing(net: Calls, c: CallerId, caller: Caller)
    requires Sharing(net) && (caller.call.Some? ==> SharesCall(net, caller))
    ensures Sharing(Calls(net.calls, net.inflight, net.callers[c := caller]))
  {
  }

  lemma {:induction false} StartSharing(net: Calls, k: CallId, ids: seq<Tenant>, gen: nat)
    requires Sharing(net) && k !in net.calls
    ensures Sharing(Calls(net.calls[k := Call(gen, ids, Started)], net.inflight[KeyOf(ids, gen) := k], net.callers))
  {
    hide KeyOf;
  }

  lemma {:induction false} SharingStep(s: State, step: Step)
    requires Inv(s) && Enabled(s, step)
    ensures Sharing(After(s, step).net)
  {
    hide VerdictsGood, AnswersGood, Generations, Sharing;
    match step
    case Capture(c, ids) => CallerSharing(s.net, c, Caller(ids, s.ev.generation, None));
    case DoChan(c, k) => JoinSharing(s.net, c, k);
    case Source(k, ok) => AtSharing(s.net, k, Answered(map t | t in s.net.calls[k].ids :: t in s.world.live, 0));
    case Check(k) => AtSharing(s.net, k, NetAfter(s, step).calls[k].phase);
    case Write(k) => AtSharing(s.net, k, NetAfter(s, step).calls[k].phase);
    case Recheck(k) => AtSharing(s.net, k, NetAfter(s, step).calls[k].phase);
    case Delete(k) => AtSharing(s.net, k, NetAfter(s, step).calls[k].phase);
    case Return(k) => AtSharing(s.net, k, Finished);
    case Change(_, _) =>
    case Lose(_) =>
    case EvictBump(_, _) =>
    case EvictDelete(_) =>
    case Expire(_) =>
  }

  lemma {:induction false} BumpCoherent(s: State, e: EvictId, u: Tenant, t: Tenant)
    requires Inv(s) && Enabled(s, EvictBump(e, u)) && t in s.cache && CoherentOrClosing(s, t)
    ensures CoherentOrClosing(After(s, EvictBump(e, u)), t)
  {
    hide Sharing, GuardedOrClosing;
    assert e in After(s, EvictBump(e, u)).ev.active;
    EvictionsKept(s, After(s, EvictBump(e, u)), t);
  }

  lemma {:induction false} WriteCoherent(s: State, step: Step, k: CallId, t: Tenant)
    requires Inv(s) && step == Write(k) && Enabled(s, step) && t in After(s, step).cache
    requires t in s.cache ==> CoherentOrClosing(s, t)
    ensures CoherentOrClosing(After(s, step), t)
  {
    hide Sharing, GuardedOrClosing;
    assert AnswerGood(s, s.net.calls[k]);
  }

  lemma {:induction false} CoherentStep(s: State, step: Step, t: Tenant)
    requires Inv(s) && Enabled(s, step) && t in After(s, step).cache
    ensures CoherentOrClosing(After(s, step), t)
  {
    hide Sharing, GuardedOrClosing, EvictionAhead;
    if t in s.cache {
      assert VerdictGood(s, t);
    }
    match step
    case EvictBump(e, u) => BumpCoherent(s, e, u, t);
    case EvictDelete(e) => EvictionsKept(s, After(s, step), t);
    case Write(k) => WriteCoherent(s, step, k, t);
    case Change(_, _) => EvictionsKept(s, After(s, step), t);
    case Lose(_) => EvictionsKept(s, After(s, step), t);
    case Expire(_) => EvictionsKept(s, After(s, step), t);
    case Capture(_, _) => EvictionsKept(s, After(s, step), t);
    case DoChan(_, _) => EvictionsKept(s, After(s, step), t);
    case Source(_, _) => EvictionsKept(s, After(s, step), t);
    case Check(_) => EvictionsKept(s, After(s, step), t);
    case Recheck(_) => EvictionsKept(s, After(s, step), t);
    case Delete(_) => EvictionsKept(s, After(s, step), t);
    case Return(_) => EvictionsKept(s, After(s, step), t);
  }

  lemma {:induction false} GuardedStep(s: State, step: Step, t: Tenant)
    requires Inv(s) && Enabled(s, step) && t in After(s, step).cache
    ensures GuardedOrClosing(After(s, step), t)
  {
    hide Sharing, CoherentOrClosing, EvictionAhead, AnswersGood;
    if t in s.cache {
      assert VerdictGood(s, t);
    }
    match step
    case EvictBump(_, _) =>
    case EvictDelete(_) =>
    case Write(_) =>
    case Change(_, _) =>
    case Lose(_) =>
    case Expire(_) =>
    case Capture(_, _) =>
    case DoChan(_, _) =>
    case Source(_, _) =>
    case Check(_) =>
    case Recheck(_) =>
    case Delete(_) =>
    case Return(_) =>
  }

  lemma {:induction false} EvictionsKept(s: State, s': State, t: Tenant)
    requires forall e :: e in s.ev.active && e in s.ev.begun && s.ev.begun[e].tenant == t ==>
      e in s'.ev.active && e in s'.ev.begun && s'.ev.begun[e] == s.ev.begun[e]
    ensures forall gen :: EvictionAhead(s, t, gen) ==> EvictionAhead(s', t, gen)
  {
    forall gen | EvictionAhead(s, t, gen)
      ensures EvictionAhead(s', t, gen)
    {
      var e :| e in s.ev.active && e in s.ev.begun && s.ev.begun[e].tenant == t && s.ev.begun[e].bump > gen;
      assert e in s'.ev.active;
    }
  }

  lemma {:induction false} InvStep(s: State, step: Step)
    requires Inv(s) && Enabled(s, step)
    ensures Inv(After(s, step))
  {
    BoundedGenerationsStep(s, step);
    WritersKnownStep(s, step);
    AnswersGoodStep(s, step);
    SharingStep(s, step);
    hide CoherentOrClosing, GuardedOrClosing, Generations, AnswersGood, Sharing;
    forall t | t in After(s, step).cache
      ensures VerdictGood(After(s, step), t)
    {
      CoherentStep(s, step, t);
      GuardedStep(s, step, t);
    }
  }

  lemma {:induction false} InvHolds(run: seq<State>, steps: seq<Step>, i: nat)
    requires IsRun(run, steps) && i <= |steps|
    ensures Inv(run[i])
  {
    if i > 0 {
      InvHolds(run, steps, i - 1);
      InvStep(run[i - 1], steps[i - 1]);
    }
  }

  lemma {:induction false} ReachableInv(s: State)
    requires Reachable(s)
    ensures Inv(s)
  {
    var run, steps :| IsRun(run, steps) && run[|steps|] == s;
    InvHolds(run, steps, |steps|);
  }

  // ---- What the cache promises ----

  /** A cached verdict disagrees with the tenant only while an event about the tenant is still to be
      applied or was lost since its last eviction, an eviction begun since the lookup is between its
      bump and its delete, or the lookup that wrote it is between its write and its re-check or
      delete. */
  lemma {:induction false} Coherent(s: State, t: Tenant)
    requires Reachable(s) && t in s.cache && s.cache[t].live != (t in s.world.live)
    ensures s.world.Unapplied(t) || EvictionAhead(s, t, s.cache[t].gen) || InWindow(s, s.cache[t].writer, t)
  {
    ReachableInv(s);
    assert VerdictGood(s, t);
  }

  /** A verdict whose lookup captured its generation before an eviction of the tenant stays only
      while that very eviction, or that lookup, has one operation left to undo it. */
  lemma {:induction false} StaleVerdictIsClosing(s: State, t: Tenant, e: EvictId)
    requires Reachable(s) && t in s.cache
    requires e in s.ev.begun && s.ev.begun[e].tenant == t && s.cache[t].gen < s.ev.begun[e].bump
    ensures e in s.ev.active || InWindow(s, s.cache[t].writer, t)
    ensures e in s.ev.active ==> t !in After(s, EvictDelete(e)).cache
    ensures InWindow(s, s.cache[t].writer, t) && s.net.calls[s.cache[t].writer].phase.Written? ==>
      After(s, Recheck(s.cache[t].writer)).net.calls[s.cache[t].writer].phase.Deleting?
    ensures InWindow(s, s.cache[t].writer, t) && s.net.calls[s.cache[t].writer].phase.Deleting? ==>
      t !in After(s, Delete(s.cache[t].writer)).cache
  {
    ReachableInv(s);
    assert VerdictGood(s, t);
  }

  /** A caller shares only a call for the same tenants that captured the same generation; so one
      that arrives after an eviction never gets an answer begun before it. */
  lemma {:induction false} NoStaleSharing(s: State, c: CallerId, e: EvictId)
    requires Reachable(s) && c in s.net.callers && s.net.callers[c].call.Some?
    ensures s.net.callers[c].call.value in s.net.calls
    ensures var call := s.net.calls[s.net.callers[c].call.value];
      && call.gen == s.net.callers[c].gen && multiset(call.ids) == multiset(s.net.callers[c].ids)
      && (e in s.ev.begun && s.net.callers[c].gen >= s.ev.begun[e].bump ==> call.gen >= s.ev.begun[e].bump)
  {
    ReachableInv(s);
  }

  /** What a call in flight would store about a tenant is true, or an event about the tenant is still
      to be applied or was lost, or the call has been overtaken and will store nothing. */
  lemma {:induction false} AnswerTrueOrOvertaken(s: State, k: CallId, t: Tenant)
    requires Reachable(s) && InPhase(s, k) && t in s.net.calls[k].ids
    ensures t in s.net.calls[k].phase.live
    ensures s.net.calls[k].phase.live[t] == (t in s.world.live) || s.world.Unapplied(t)
        || s.net.calls[k].gen < s.ev.generation
  {
    ReachableInv(s);
    assert AnswerGood(s, s.net.calls[k]);
  }

  // ---- One lookup ----

  /** What the shared call came to for one caller. */
  datatype Outcome = Disabled(tenants: set<Tenant>) | SourceError | WaitTimedOut

  function Verdicts(ids: seq<Tenant>, disabled: set<Tenant>): map<Tenant, bool> { map t | t in ids :: t !in disabled }

  /** What a lookup has to store: the source's verdicts of the tenants that were not cached. */
  function Answer(ids: seq<Tenant>, cached: map<Tenant, bool>, outcome: Outcome): map<Tenant, bool> {
    map t | t in ids && t !in cached && outcome.Disabled? :: t !in outcome.tenants
  }

  lemma {:induction false} OneMoreVerdict(kv: map<Tenant, bool>, ids: seq<Tenant>, i: nat, disabled: set<Tenant>)
    requires i < |ids|
    ensures kv + Verdicts(ids[..i + 1], disabled) == (kv + Verdicts(ids[..i], disabled))[ids[i] := ids[i] !in disabled]
  {
    assert ids[..i + 1] == ids[..i] + [ids[i]];
  }

  predicate Unchanged(before: map<Tenant, bool>, after: map<Tenant, bool>, t: Tenant) {
    t in before && t in after && after[t] == before[t]
  }

  /** An operation of another goroutine: an eviction, a verdict stored by another lookup, or an entry
      that another lookup undoes or that expires. */
  datatype Other = Evicts(tenant: Tenant) | Stores(tenant: Tenant, live: bool) | Drops(tenant: Tenant)

  /** What the others do in each gap between two operations of a call. */
  type Gaps = nat -> seq<Other>

  function OneOther(kv: map<Tenant, bool>, op: Other): map<Tenant, bool> {
    if op.Stores? then kv[op.tenant := op.live] else kv - {op.tenant}
  }

  function Interleaved(kv: map<Tenant, bool>, ops: seq<Other>): map<Tenant, bool> {
    if ops == [] then kv else OneOther(Interleaved(kv, ops[..|ops| - 1]), ops[|ops| - 1])
  }

  function EvictionsIn(ops: seq<Other>): nat {
    if ops == [] then 0 else EvictionsIn(ops[..|ops| - 1]) + if ops[|ops| - 1].Evicts? then 1 else 0
  }

  /** Another lookup stored this verdict in one of the gaps. */
  ghost predicate StoredIn(gaps: Gaps, from: nat, to: nat, t: Tenant, live: bool) {
    exists g: nat :: from <= g < to && Stores(t, live) in gaps(g)
  }

  predicate Quiet(gaps: Gaps, from: nat, to: nat) { forall g: nat :: from <= g < to ==> gaps(g) == [] }

  /** What others leave is what was there or what one of them stored. */
  lemma {:induction false} InterleavedFrom(kv: map<Tenant, bool>, ops: seq<Other>, t: Tenant)
    requires t in Interleaved(kv, ops)
    ensures Unchanged(kv, Interleaved(kv, ops), t) || Stores(t, Interleaved(kv, ops)[t]) in ops
  {
    if ops != [] {
      var init := ops[..|ops| - 1];
      assert ops == init + [ops[|ops| - 1]];
      if t in Interleaved(kv, init) {
        InterleavedFrom(kv, init, t);
      }
    }
  }

  /** An entry is an old one, the verdict in hand, or another lookup's. */
  ghost predicate Explained(before: map<Tenant, bool>, after: map<Tenant, bool>, own: map<Tenant, bool>, gaps: Gaps,
          from: nat, to: nat, t: Tenant)
    requires t in after
  {
    Unchanged(before, after, t) || Unchanged(own, after, t) || StoredIn(gaps, from, to, t, after[t])
  }

  lemma {:induction false} ExplainedAfter(before: map<Tenant, bool>, kv: map<Tenant, bool>, own: map<Tenant, bool>,
          gaps: Gaps, from: nat, g: nat)
    requires from <= g && forall t :: t in kv ==> Explained(before, kv, own, gaps, from, g, t)
    ensures forall t :: t in Interleaved(kv, gaps(g)) ==>
      Explained(before, Interleaved(kv, gaps(g)), own, gaps, from, g + 1, t)
  {
    var after := Interleaved(kv, gaps(g));
    forall t | t in after
      ensures Explained(before, after, own, gaps, from, g + 1, t)
    {
      InterleavedFrom(kv, gaps(g), t);
      if Unchanged(kv, after, t) {
        assert Explained(before, kv, own, gaps, from, g, t);
      }
    }
  }

  lemma {:induction false} AllExplained(kv: map<Tenant, bool>, own: map<Tenant, bool>, gaps: Gaps, from: nat)
    ensures forall t :: t in kv ==> Explained(kv, kv, own, gaps, from, from, t)
  {
  }

  lemma {:induction false} WrittenExplained(before: map<Tenant, bool>, kv: map<Tenant, bool>, after: map<Tenant, bool>,
          t: Tenant, live: bool, gaps: Gaps, from: nat, to: nat)
    requires after == kv[t := live] && forall u :: u in kv ==> Explained(before, kv, map[t := live], gaps, from, to, u)
    ensures forall u :: u in after ==> Explained(before, after, map[t := live], gaps, from, to, u)
  {
    forall u | u in after
      ensures Explained(before, after, map[t := live], gaps, from, to, u)
    {
      if u != t {
        assert Explained(before, kv, map[t := live], gaps, from, to, u);
      }
    }
  }

  lemma {:induction false} FewerExplained(before: map<Tenant, bool>, kv: map<Tenant, bool>, fewer: map<Tenant, bool>,
          own: map<Tenant, bool>, gaps: Gaps, from: nat, to: nat, later: nat)
    requires to <= later && forall t :: t in kv ==> Explained(before, kv, own, gaps, from, to, t)
    requires forall t :: t in fewer ==> Unchanged(kv, fewer, t)
    ensures forall t :: t in fewer ==> Explained(before, fewer, own, gaps, from, later, t)
  {
    forall t | t in fewer
      ensures Explained(before, fewer, own, gaps, from, later, t)
    {
      assert Explained(before, kv, own, gaps, from, to, t);
    }
  }

  /** One verdict more, within the gaps of the whole call. */
  lemma {:induction false} ExplainedThen(before: map<Tenant, bool>, kv1: map<Tenant, bool>, kv: map<Tenant, bool>,
          own: map<Tenant, bool>, m: Tenant, gaps: Gaps, from: nat, g: nat, to: nat)
    requires from <= g && g + 3 <= to && m in own
    requires forall t :: t in kv1 ==> Explained(before, kv1, own, gaps, from, to, t)
    requires forall t :: t in kv ==> Explained(kv1, kv, map[m := own[m]], gaps, g, g + 3, t)
    ensures forall t :: t in kv ==> Explained(before, kv, own, gaps, from, to, t)
  {
    forall t | t in kv
      ensures Explained(before, kv, own, gaps, from, to, t)
    {
      assert Explained(kv1, kv, map[m := own[m]], gaps, g, g + 3, t);
      if Unchanged(kv1, kv, t) {
        assert Explained(before, kv1, own, gaps, from, to, t);
      }
    }
  }

  lemma {:induction false} StoredThen(before: map<Tenant, bool>, kv1: map<Tenant, bool>, kv: map<Tenant, bool>,
          own: map<Tenant, bool>, gaps: Gaps, g: nat, to: nat)
    requires g <= to && (forall t :: t in kv1 ==> Explained(before, kv1, own, gaps, 0, to, t))
    requires forall t :: t in kv ==> Explained(kv1, kv, own, gaps, 1, g, t)
    ensures forall t :: t in kv ==> Explained(before, kv, own, gaps, 0, to, t)
  {
    forall t | t in kv
      ensures Explained(before, kv, own, gaps, 0, to, t)
    {
      assert Explained(kv1, kv, own, gaps, 1, g, t);
      if Unchanged(kv1, kv, t) {
        assert Explained(before, kv1, own, gaps, 0, to, t);
      }
    }
  }

  lemma {:induction false} QuietKeeps(kv: map<Tenant, bool>, gaps: Gaps, g: nat, from: nat, to: nat)
    requires from <= g && g + 3 <= to
    ensures Quiet(gaps, from, to) ==> Interleaved(kv, gaps(g)) == kv && Interleaved(kv, gaps(g + 1)) == kv
    ensures Quiet(gaps, from, to) ==> EvictionsIn(gaps(g)) == 0 && EvictionsIn(gaps(g + 1)) == 0
  {
  }

  class Cache {
    var kv: map<Tenant, bool>
    var generation: nat

    constructor ()
      ensures kv == map[] && generation == 0
    {
      kv, generation := map[], 0;
    }

    method Evict(t: Tenant)
      modifies this
      ensures kv == old(kv) - {t} && generation == old(generation) + 1
    {
      generation := generation + 1;
      kv := kv - {t};
    }

    /** What other goroutines do in the meantime. */
    method Meanwhile(ops: seq<Other>)
      modifies this
      ensures kv == Interleaved(old(kv), ops) && generation == old(generation) + EvictionsIn(ops)
    {
      for i := 0 to |ops|
        invariant kv == Interleaved(old(kv), ops[..i]) && generation == old(generation) + EvictionsIn(ops[..i])
      {
        assert ops[..i + 1][..i] == ops[..i];
        match ops[i] {
          case Evicts(t) => Evict(t);
          case Stores(t, live) => kv := kv[t := live];
          case Drops(t) => kv := kv - {t};
        }
      }
      assert ops[..|ops|] == ops;
    }

    /** setFromLookup, with what others do between its operations: before the write, between the write
        and the re-check, and before the delete.  The verdict is left exactly if no event comes in
        until the re-check. */
    method SetFromLookup(gen: nat, t: Tenant, live: bool, gaps: Gaps, at: nat)
      modifies this
      ensures old(generation) != gen ==> kv == old(kv) && generation == old(generation)
      ensures old(generation) == gen && EvictionsIn(gaps(at)) + EvictionsIn(gaps(at + 1)) == 0 ==>
        generation == gen && kv == Interleaved(Interleaved(old(kv), gaps(at))[t := live], gaps(at + 1))
      ensures old(generation) == gen && EvictionsIn(gaps(at)) + EvictionsIn(gaps(at + 1)) > 0 ==>
        generation > gen && t !in kv
      ensures forall u :: u in kv ==> Explained(old(kv), kv, map[t := live], gaps, at, at + 3, u)
    {
      if generation != gen {
        return;
      }
      hide Interleaved, EvictionsIn, Explained;
      ghost var kv0, own := kv, map[t := live];
      AllExplained(kv0, own, gaps, at);
      Meanwhile(gaps(at));
      ExplainedAfter(kv0, kv0, own, gaps, at, at);
      ghost var kv1 := kv;
      kv := kv[t := live];
      WrittenExplained(kv0, kv1, kv, t, live, gaps, at, at + 1);
      ghost var kv2 := kv;
      Meanwhile(gaps(at + 1));
      ExplainedAfter(kv0, kv2, own, gaps, at, at + 1);
      ghost var kv3 := kv;
      if generation != gen {
        Meanwhile(gaps(at + 2));
        ExplainedAfter(kv0, kv3, own, gaps, at, at + 2);
        FewerExplained(kv0, kv, kv - {t}, own, gaps, at, at + 3, at + 3);
        kv := kv - {t};
      } else {
        FewerExplained(kv0, kv, kv, own, gaps, at, at + 2, at + 3);
      }
    }

    /** The verdicts of one shared call.  Nothing is left but old entries, the answer's verdicts and
        what others stored; with nobody else at work, exactly the answer's verdicts are added; and
        after an event that came first, nothing is. */
    method Store(misses: seq<Tenant>, disabled: set<Tenant>, gen: nat, gaps: Gaps, at: nat)
      modifies this
      ensures generation >= old(generation)
      ensures old(generation) != gen ==> kv == old(kv) && generation == old(generation)
      ensures forall t :: t in kv ==> Explained(old(kv), kv, Verdicts(misses, disabled), gaps, at, at + 3 * |misses|, t)
      ensures old(generation) == gen && Quiet(gaps, at, at + 3 * |misses|) ==>
        generation == gen && kv == old(kv) + Verdicts(misses, disabled)
    {
      ghost var kv0, own, end := kv, Verdicts(misses, disabled), at + 3 * |misses|;
      assert misses[..0] == [] && kv + Verdicts([], disabled) == kv;
      AllExplained(kv0, own, gaps, at);
      FewerExplained(kv0, kv0, kv0, own, gaps, at, at, end);
      for i := 0 to |misses|
        invariant generation >= old(generation)
        invariant old(generation) != gen ==> kv == old(kv) && generation == old(generation)
        invariant forall t :: t in kv ==> Explained(kv0, kv, own, gaps, at, end, t)
        invariant old(generation) == gen && Quiet(gaps, at, end) ==>
          generation == gen && kv == old(kv) + Verdicts(misses[..i], disabled)
      {
        hide Explained;
        OneMoreVerdict(old(kv), misses, i, disabled);
        ghost var kv1 := kv;
        var live := misses[i] !in disabled;
        assert own[misses[i]] == live;
        SetFromLookup(gen, misses[i], live, gaps, at + 3 * i);
        ExplainedThen(kv0, kv1, kv, own, misses[i], gaps, at, at + 3 * i, end);
        QuietKeeps(kv1[misses[i] := live], gaps, at + 3 * i, at, end);
        QuietKeeps(kv1, gaps, at + 3 * i, at, end);
      }
      assert misses[..|misses|] == misses;
    }

    /** LookupTenants, with the source's outcome and what others do once the cached verdicts are read:
        in gap 0 until the answer comes, then between the operations that store it.  Cached verdicts
        win; without an answer every other tenant is reported not live and nothing is stored. */
    method LookupTenants(ids: seq<Tenant>, outcome: Outcome, gaps: Gaps) returns (live: map<Tenant, bool>, ok: bool)
      modifies this
      ensures forall t :: t in live <==> t in ids
      ensures ok <==> outcome.Disabled? || forall t :: t in ids ==> t in old(kv)
      ensures forall t :: t in ids ==>
        live[t] == (if t in old(kv) then old(kv)[t] else outcome.Disabled? && t !in outcome.tenants)
      ensures forall t :: t in kv ==> Explained(old(kv), kv, Answer(ids, old(kv), outcome), gaps, 0, 1 + 3 * |ids|, t)
      ensures Quiet(gaps, 0, 1 + 3 * |ids|) ==> kv == old(kv) + Answer(ids, old(kv), outcome)
      ensures Quiet(gaps, 0, 1 + 3 * |ids|) ==>
        && (forall t :: t in kv <==> t in old(kv) || (t in ids && outcome.Disabled?))
        && (forall t :: t in kv ==> kv[t] == if t in old(kv) then old(kv)[t] else t !in outcome.tenants)
    {
      live := map[];
      var misses: seq<Tenant> := [];
      for i := 0 to |ids|
        invariant forall t :: t in live ==> t in old(kv) && live[t] == old(kv)[t]
        invariant forall t :: t in misses ==> t in ids && t !in old(kv)
        invariant forall t :: t in ids[..i] <==> t in live || t in misses
        invariant |misses| <= i && kv == old(kv) && generation == old(generation)
      {
        assert ids[..i + 1] == ids[..i] + [ids[i]];
        if ids[i] in kv {
          live := live[ids[i] := kv[ids[i]]];
        } else {
          misses := misses + [ids[i]];
        }
      }
      assert ids[..|ids|] == ids;
      ghost var kv0, own, end := kv, Answer(ids, kv, outcome), 1 + 3 * |ids|;
      AllExplained(kv0, own, gaps, 0);
      if |misses| == 0 {
        FewerExplained(kv0, kv0, kv0, own, gaps, 0, 0, end);
        assert own == map[];
        return live, true;
      }
      assert misses[0] in misses;
      var gen := generation;
      Meanwhile(gaps(0));
      ExplainedAfter(kv0, kv0, own, gaps, 0, 0);
      FewerExplained(kv0, kv, kv, own, gaps, 0, 1, end);
      if outcome.Disabled? {
        ghost var kv1 := kv;
        assert own == Verdicts(misses, outcome.tenants);
        Store(misses, outcome.tenants, gen, gaps, 1);
        StoredThen(kv0, kv1, kv, own, gaps, 1 + 3 * |misses|, end);
      }
      live := Report(ids, misses, outcome, live, old(kv));
      ok := outcome.Disabled?;
    }

    /** The verdicts of the misses, in the caller. */
    method Report(ids: seq<Tenant>, misses: seq<Tenant>, outcome: Outcome, cached: map<Tenant, bool>,
            ghost before: map<Tenant, bool>) returns (live: map<Tenant, bool>)
      requires forall t :: t in cached ==> t in before && cached[t] == before[t]
      requires forall t :: t in misses ==> t in ids && t !in before
      requires forall t :: t in ids <==> t in cached || t in misses
      ensures forall t :: t in live <==> t in ids
      ensures forall t :: t in ids ==>
          live[t] == (if t in before then before[t] else outcome.Disabled? && t !in outcome.tenants)
    {
      live := cached;
      for i := 0 to |misses|
        invariant forall t :: t in live <==> t in cached || t in misses[..i]
        invariant forall t :: t in live ==>
          live[t] == (if t in before then before[t] else outcome.Disabled? && t !in outcome.tenants)
      {
        assert misses[..i + 1] == misses[..i] + [misses[i]];
        live := live[misses[i] := outcome.Disabled? && misses[i] !in outcome.tenants];
      }
      assert misses[..|misses|] == misses;
    }
  }
}

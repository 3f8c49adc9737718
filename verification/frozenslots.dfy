/** Why bindings are frozen (dataindex/validatehook.go, dataindex/hook.go): the versions of one slug
    change and a row is written at any time between, and still every slot the row fills answers to
    the meaning the slot has now. */
module FrozenSlots {
  import opened Wrappers
  import opened DataIndex
  import opened Projection

  type Data = Option<map<Segment, Payload>>

  /** A row of the lineage: the version it belongs to, and what that version bound when the row was
      last projected. */
  datatype Row = Row(version: Option<nat>, data: Data, slots: Slots, under: Bindings)

  datatype State = State(versions: seq<Version>, row: Row)

  /** A save is that of an accepted version; a write leaves whatever slots the hook left. */
  datatype Step =
    | Save(i: nat, stored: Version)
    | Write(version: Option<nat>, data: Data, slots: Slots)

  function BoundBy(versions: seq<Version>, version: Option<nat>): Bindings {
    if version.Some? && version.value < |versions| then versions[version.value].bindings else map[]
  }

  /** What DataTypes.SaveVersion accepts, and what IndexedRow.Mutate leaves. */
  ghost predicate Enabled(pools: map<Entity, set<Slot>>, s: State, step: Step) {
    match step
    case Save(i, v) =>
      && i <= |s.versions| && (i < |s.versions| ==> s.versions[i].entity == v.entity)
      && (v.entity in pools ==> Keeps(v.bindings, Union(s.versions)) && OneNamePerSlot(v.bindings))
      && (v.entity !in pools ==> v.bindings == map[])
    case Write(version, data, slots) => InStep(slots, BoundBy(s.versions, version), data)
  }

  function After(s: State, step: Step): State
    requires step.Save? ==> step.i <= |s.versions|
  {
    match step
    case Save(i, v) => s.(versions := Stored(s.versions, i, v))
    case Write(version, data, slots) => s.(row := Row(version, data, slots, BoundBy(s.versions, version)))
  }

  const INIT := State([], Row(None, None, map[], map[]))

  ghost predicate IsHistory(pools: map<Entity, set<Slot>>, run: seq<State>, steps: seq<Step>) {
    && |run| == |steps| + 1 && run[0] == INIT
    && forall i :: 0 <= i < |steps| ==> Enabled(pools, run[i], steps[i]) && run[i + 1] == After(run[i], steps[i])
  }

  ghost predicate Inv(pools: map<Entity, set<Slot>>, s: State) {
    && Lineage(s.versions, pools)
    && Keeps(BoundBy(s.versions, s.row.version), s.row.under)
    && Keeps(Union(s.versions), s.row.under)
    && InStep(s.row.slots, s.row.under, s.row.data)
  }

  lemma {:induction false} BoundWithin(versions: seq<Version>, pools: map<Entity, set<Slot>>, version: Option<nat>)
    requires Lineage(versions, pools)
    ensures Keeps(Union(versions), BoundBy(versions, version)) && OneNamePerSlot(BoundBy(versions, version))
  {
    hide Union;
    var bs := BoundBy(versions, version);
    assert Keeps(Union(versions), bs);
    forall m, n | m in bs && n in bs && bs[m].slot == bs[n].slot
      ensures m == n
    {
      assert Union(versions)[m] == bs[m] && Union(versions)[n] == bs[n];
    }
  }

  /** What the row's version binds only grows. */
  lemma {:induction false} BoundGrows(pools: map<Entity, set<Slot>>, s: State, i: nat, v: Version)
    requires Inv(pools, s) && Enabled(pools, s, Save(i, v))
    ensures Keeps(BoundBy(Stored(s.versions, i, v), s.row.version), s.row.under)
  {
    hide Union, InStep;
    if s.row.version == Some(i) && i < |s.versions| {
      if v.entity in pools {
        KeepsMore(v.bindings, Union(s.versions), s.row.under);
      } else {
        assert s.versions[i].bindings == map[];
      }
    }
  }

  lemma {:induction false} InvStep(pools: map<Entity, set<Slot>>, s: State, step: Step)
    requires Inv(pools, s) && Enabled(pools, s, step)
    ensures Inv(pools, After(s, step)) && Keeps(Union(After(s, step).versions), Union(s.versions))
  {
    hide Union, Lineage, InStep, BoundBy, Keeps, OneNamePerSlot, Stored;
    match step
    case Save(i, v) =>
      LineageStep(s.versions, pools, i, v);
      BoundGrows(pools, s, i, v);
      KeepsMore(Union(After(s, step).versions), Union(s.versions), s.row.under);
    case Write(version, _, _) =>
      BoundWithin(s.versions, pools, version);
      KeepsItself(BoundBy(s.versions, version));
      KeepsItself(Union(s.versions));
  }

  lemma {:induction false} InvHolds(pools: map<Entity, set<Slot>>, run: seq<State>, steps: seq<Step>, i: nat)
    requires IsHistory(pools, run, steps) && i <= |steps|
    ensures Inv(pools, run[i])
  {
    hide Enabled, After;
    if i > 0 {
      InvHolds(pools, run, steps, i - 1);
      InvStep(pools, run[i - 1], steps[i - 1]);
    }
  }

  /** What a name is bound to at one time of a history it is bound to ever after. */
  lemma {:induction false} BoundForGood(pools: map<Entity, set<Slot>>, run: seq<State>, steps: seq<Step>, i: nat,
          j: nat)
    requires IsHistory(pools, run, steps) && i <= j <= |steps|
    ensures Keeps(Union(run[j].versions), Union(run[i].versions))
    decreases j
  {
    hide Enabled, After, Union, Keeps, Inv;
    if i == j {
      KeepsItself(Union(run[i].versions));
    } else {
      BoundForGood(pools, run, steps, i, j - 1);
      InvHolds(pools, run, steps, j - 1);
      InvStep(pools, run[j - 1], steps[j - 1]);
      KeepsMore(Union(run[j].versions), Union(run[j - 1].versions), Union(run[i].versions));
    }
  }

  /** In every history: whatever name is bound to a slot now, a row that fills the slot holds there
      the projection of its data under that binding, however long ago and under whatever version it
      was written; and each slot a row fills is bound to exactly one name. */
  lemma {:induction false} SlotsKeepMeaning(pools: map<Entity, set<Slot>>, run: seq<State>, steps: seq<Step>, i: nat,
          slot: Slot)
    requires IsHistory(pools, run, steps) && i <= |steps| && slot in run[i].row.slots
    ensures var bound := Union(run[i].versions);
      && Bound(bound, slot)
      && (forall n :: n in bound && bound[n].slot == slot ==> Holds(run[i].row.slots, bound[n], run[i].row.data))
      && (forall m, n :: m in bound && n in bound && bound[m].slot == slot && bound[n].slot == slot ==> m == n)
  {
    hide Union, Holds;
    InvHolds(pools, run, steps, i);
    var s := run[i];
    var bound := Union(s.versions);
    var n :| n in s.row.under && s.row.under[n].slot == slot;
    assert n in bound && bound[n] == s.row.under[n] && bound[n].slot == slot;
  }

  /** A row just written holds the projection of its data in every slot its version binds, and nothing in
      any other; one without a version holds nothing. */
  lemma {:induction false} RowsFollowVersion(pools: map<Entity, set<Slot>>, run: seq<State>, steps: seq<Step>, i: nat,
          version: Option<nat>, data: Data, slots: Slots)
    requires IsHistory(pools, run, steps) && i < |steps| && steps[i] == Write(version, data, slots)
    ensures run[i + 1].row.slots == slots && run[i + 1].row.data == data
    ensures version.Some? && version.value < |run[i].versions| ==>
      && (forall n :: n in run[i].versions[version.value].bindings ==>
            Holds(slots, run[i].versions[version.value].bindings[n], data))
      && (forall slot :: slot in slots ==> Bound(run[i].versions[version.value].bindings, slot))
    ensures version.None? ==> slots == map[]
  {
    assert Enabled(pools, run[i], steps[i]) && run[i + 1] == After(run[i], steps[i]);
  }

  /** A row written under its version as it stands answers to every name bound by it, and what the
      hook asks of the bindings it is given holds at any time. */
  lemma {:induction false} WriteIsAllowed(pools: map<Entity, set<Slot>>, run: seq<State>, steps: seq<Step>, i: nat,
          version: Option<nat>)
    requires IsHistory(pools, run, steps) && i <= |steps|
    ensures Keeps(BoundBy(run[i].versions, run[i].row.version), run[i].row.under)
    ensures OneNamePerSlot(BoundBy(run[i].versions, version)) && OneNamePerSlot(run[i].row.under)
  {
    hide Union, InStep;
    InvHolds(pools, run, steps, i);
    BoundWithin(run[i].versions, pools, version);
    BoundWithin(run[i].versions, pools, run[i].row.version);
    var bs, under := BoundBy(run[i].versions, run[i].row.version), run[i].row.under;
    assert forall n :: n in under ==> bs[n] == under[n];
  }
}

/** The datatype cache (json-schema/cache.go): an id slot per row and a slug slot for the latest
    version, fed by events in any order and any number of times.

    A row's slug and version never change: versions are append-only.  Update writes the id slot and
    then the slug slot, Delete tombstones the id slot, looks at the slug slot, fetches and settles
    it; anything may happen in between. */
module Datatypes {
  import opened Wrappers

  datatype Id = Id(token: int)
  datatype Slug = Slug(token: int)
  datatype Pid = Pid(token: int)

  /** A cached copy of a row; Slug stands for the (slug, tenant) pair, deleted for deleted_at. */
  datatype DataType = DataType(id: Id, slug: Slug, version: int, deleted: bool)

  datatype Slots = Slots(ids: map<Id, DataType>, slugs: map<Slug, DataType>)

  /** What a fetch from management may come back with. */
  datatype Fetched = NotFound | Found(row: DataType) | Failed

  // ---- The writes ----

  predicate Tombstoned(s: Slots, id: Id) { id in s.ids && s.ids[id].deleted }

  /** Update's first write: a tombstone wins. */
  predicate IdApproves(s: Slots, dt: DataType) { !Tombstoned(s, dt.id) }

  /** Update's second write: a higher version wins. */
  predicate SlugApproves(s: Slots, dt: DataType) { dt.slug !in s.slugs || s.slugs[dt.slug].version <= dt.version }

  function SlugWritten(s: Slots, dt: DataType): Slots {
    if SlugApproves(s, dt) then Slots(s.ids, s.slugs[dt.slug := dt]) else s
  }

  function Updated(s: Slots, dt: DataType): Slots {
    if dt.deleted || !IdApproves(s, dt) then s
    else SlugWritten(Slots(s.ids[dt.id := dt], s.slugs), dt)
  }

  function TombstoneOf(dt: DataType): DataType { DataType(dt.id, dt.slug, dt.version, true) }

  function WithTombstone(s: Slots, dt: DataType): Slots { Slots(s.ids[dt.id := TombstoneOf(dt)], s.slugs) }

  /** The slot already points at a newer version. */
  predicate NewerInSlot(s: Slots, dt: DataType) {
    dt.slug in s.slugs && s.slugs[dt.slug].id != dt.id && s.slugs[dt.slug].version > dt.version
  }

  /** tombstoneSlugSlot. */
  function SlugTombstoned(s: Slots, dt: DataType): Slots {
    if dt.slug in s.slugs && s.slugs[dt.slug].id == dt.id then Slots(s.ids, s.slugs[dt.slug := TombstoneOf(dt)]) else s
  }

  /** deleteSlugSlotUnlessNewer. */
  function SlugDropped(s: Slots, dt: DataType): Slots {
    if dt.slug in s.slugs && (s.slugs[dt.slug].id == dt.id || s.slugs[dt.slug].version <= dt.version)
    then Slots(s.ids, s.slugs - {dt.slug})
    else s
  }

  /** The rest of Delete once its fetch is back. */
  function Promoted(s: Slots, dt: DataType, fetched: Fetched): Slots {
    match fetched
    case Failed => SlugTombstoned(s, dt)
    case NotFound => SlugDropped(s, dt)
    case Found(row) => if row.deleted then SlugDropped(s, dt) else Updated(SlugDropped(s, dt), row)
  }

  function Deleted(s: Slots, dt: DataType, fetched: Fetched): Slots {
    var t := WithTombstone(s, dt);
    if NewerInSlot(t, dt) then t else Promoted(t, dt, fetched)
  }

  // ---- The protocol ----

  /** The slug and version of every row. */
  type Home = map<Id, (Slug, int)>

  /** A Delete in progress: the id slot is tombstoned; Checked has found no newer version and is
      fetching; Dropped has cleared the slot and has a successor to promote. */
  datatype Deleting = Begun(row: DataType) | Checked(row: DataType) | Dropped(next: DataType)

  /** Blind is a delete whose event carried no slug: it tombstones the id slot and cannot tell which
      slug slot shows the row.
      updates holds the rows whose id slot is written and whose slug slot is not, yet. */
  datatype State = State(slots: Slots, deletes: map<Pid, Deleting>, updates: map<Pid, DataType>)

  datatype Step =
    | WriteId(p: Pid, row: DataType)
    | WriteSlug(p: Pid)
    | Begin(p: Pid, row: DataType)
    | Check(p: Pid)
    | Settle(p: Pid, fetched: Fetched)
    | Promote(p: Pid)
    | Blind(row: DataType)

  /** Every copy of a row carries its slug and version. */
  ghost predicate Consistent(home: Home, row: DataType) { row.id in home && home[row.id] == (row.slug, row.version) }

  predicate IdleAt(s: State, p: Pid) { p !in s.deletes && p !in s.updates }

  ghost predicate Enabled(home: Home, s: State, step: Step) {
    match step
    case WriteId(p, row) => IdleAt(s, p) && Consistent(home, row)
    case WriteSlug(p) => p in s.updates
    case Begin(p, row) => IdleAt(s, p) && Consistent(home, row)
    case Check(p) => p in s.deletes && s.deletes[p].Begun?
    case Settle(p, fetched) =>
        p in s.deletes && s.deletes[p].Checked? && (fetched.Found? ==> Consistent(home, fetched.row))
    case Promote(p) => p in s.deletes && s.deletes[p].Dropped?
    case Blind(_) => true
  }

  /** The first half of Update; a refused write ends it. */
  function IdWritten(s: State, p: Pid, row: DataType): State {
    if row.deleted || !IdApproves(s.slots, row) then s
    else State(Slots(s.slots.ids[row.id := row], s.slots.slugs), s.deletes, s.updates[p := row])
  }

  function Settled(s: State, p: Pid, row: DataType, fetched: Fetched): State {
    match fetched
    case Failed => State(SlugTombstoned(s.slots, row), s.deletes - {p}, s.updates)
    case NotFound => State(SlugDropped(s.slots, row), s.deletes - {p}, s.updates)
    case Found(next) =>
      State(SlugDropped(s.slots, row), if next.deleted then s.deletes - {p} else s.deletes[p := Dropped(next)],
            s.updates)
  }

  function After(home: Home, s: State, step: Step): State
    requires Enabled(home, s, step)
  {
    match step
    case WriteId(p, row) => IdWritten(s, p, row)
    case WriteSlug(p) => State(SlugWritten(s.slots, s.updates[p]), s.deletes, s.updates - {p})
    case Begin(p, row) => State(WithTombstone(s.slots, row), s.deletes[p := Begun(row)], s.updates)
    case Check(p) =>
      var row := s.deletes[p].row;
      State(s.slots, if NewerInSlot(s.slots, row) then s.deletes - {p} else s.deletes[p := Checked(row)], s.updates)
    case Settle(p, fetched) => Settled(s, p, s.deletes[p].row, fetched)
    case Promote(p) => IdWritten(State(s.slots, s.deletes - {p}, s.updates), p, s.deletes[p].next)
    case Blind(row) => State(WithTombstone(s.slots, row), s.deletes, s.updates)
  }

  const INIT := State(Slots(map[], map[]), map[], map[])

  ghost predicate IsRun(home: Home, run: seq<State>, steps: seq<Step>) {
    && |run| == |steps| + 1 && run[0] == INIT
    && forall i :: 0 <= i < |steps| ==> Enabled(home, run[i], steps[i]) && run[i + 1] == After(home, run[i], steps[i])
  }

  // ---- The methods are runs of these steps ----

  /** The slots after the two steps of one Update with nothing in between. */
  ghost function UpdateSteps(home: Home, s: State, p: Pid, row: DataType): Slots
    requires IdleAt(s, p) && Consistent(home, row)
  {
    var written := After(home, s, WriteId(p, row));
    if p !in written.updates then written.slots else After(home, written, WriteSlug(p)).slots
  }

  lemma {:induction false} UpdateIsSteps(home: Home, s: State, p: Pid, row: DataType)
    requires IdleAt(s, p) && Consistent(home, row)
    ensures UpdateSteps(home, s, p, row) == Updated(s.slots, row)
  {
  }

  /** The slots after the steps of one Delete with nothing in between. */
  ghost function DeleteSteps(home: Home, s: State, p: Pid, row: DataType, fetched: Fetched): Slots
    requires IdleAt(s, p) && Consistent(home, row) && (fetched.Found? ==> Consistent(home, fetched.row))
  {
    var checked := After(home, After(home, s, Begin(p, row)), Check(p));
    if p !in checked.deletes then checked.slots
    else
      var settled := After(home, checked, Settle(p, fetched));
      if p !in settled.deletes then settled.slots
      else
        var promoted := After(home, settled, Promote(p));
        if p !in promoted.updates then promoted.slots else After(home, promoted, WriteSlug(p)).slots
  }

  /** They come to what the method computes. */
  lemma {:induction false} DeleteIsSteps(home: Home, s: State, p: Pid, row: DataType, fetched: Fetched)
    requires IdleAt(s, p) && Consistent(home, row) && (fetched.Found? ==> Consistent(home, fetched.row))
    ensures DeleteSteps(home, s, p, row, fetched) == Deleted(s.slots, row, fetched)
  {
    hide SlugWritten, SlugDropped, SlugTombstoned, NewerInSlot;
    var begun := After(home, s, Begin(p, row));
    assert begun.deletes[p] == Begun(row) && begun.slots == WithTombstone(s.slots, row);
  }

  // ---- Deletion is final in the id slot ----

  lemma {:induction false} TombstoneStays(home: Home, s: State, step: Step, id: Id)
    requires Enabled(home, s, step) && Tombstoned(s.slots, id)
    ensures Tombstoned(After(home, s, step).slots, id)
  {
  }

  /** Once seen deleted, a row is never live again in its id slot, whatever arrives afterwards. */
  lemma {:induction false} DeletedForGood(home: Home, run: seq<State>, steps: seq<Step>, i: nat, j: nat, id: Id)
    requires IsRun(home, run, steps) && i <= j <= |steps| && Tombstoned(run[i].slots, id)
    ensures Tombstoned(run[j].slots, id)
    decreases j
  {
    hide Enabled, After;
    if i < j {
      DeletedForGood(home, run, steps, i, j - 1, id);
      TombstoneStays(home, run[j - 1], steps[j - 1], id);
    }
  }

  // ---- Invariants ----

  /** A delete of the row by p that has not reached the slug slot yet. */
  predicate Deletes(s: State, p: Pid, id: Id) { p in s.deletes && !s.deletes[p].Dropped? && s.deletes[p].row.id == id }

  ghost predicate BeingDeleted(s: State, id: Id) { exists p :: Deletes(s, p, id) }

  ghost predicate SlotsConsistent(home: Home, slots: Slots) {
    && (forall id :: id in slots.ids ==> slots.ids[id].id == id)
    && (forall k :: k in slots.slugs ==> Consistent(home, slots.slugs[k]) && slots.slugs[k].slug == k)
  }

  ghost predicate DeletingConsistent(home: Home, slots: Slots, d: Deleting) {
    match d
    case Dropped(next) => Consistent(home, next)
    case _ => Consistent(home, d.row) && Tombstoned(slots, d.row.id)
  }

  ghost predicate RowsConsistent(home: Home, s: State) {
    && SlotsConsistent(home, s.slots)
    && s.deletes.Keys !! s.updates.Keys
    && (forall p :: p in s.deletes ==> DeletingConsistent(home, s.slots, s.deletes[p]))
    && (forall p :: p in s.updates ==> Consistent(home, s.updates[p]) && !s.updates[p].deleted)
  }

  lemma {:induction false} SlotsConsistentStep(home: Home, s: State, step: Step)
    requires RowsConsistent(home, s) && Enabled(home, s, step)
    ensures SlotsConsistent(home, After(home, s, step).slots)
  {
    match step
    case Check(p) => assert DeletingConsistent(home, s.slots, s.deletes[p]);
    case Settle(p, _) => assert DeletingConsistent(home, s.slots, s.deletes[p]);
    case WriteId(_, _) =>
    case WriteSlug(_) =>
    case Begin(_, _) =>
    case Promote(p) => assert DeletingConsistent(home, s.slots, s.deletes[p]);
    case Blind(_) =>
  }

  lemma {:induction false} RowsConsistentStep(home: Home, s: State, step: Step)
    requires RowsConsistent(home, s) && Enabled(home, s, step)
    ensures RowsConsistent(home, After(home, s, step))
  {
    hide SlotsConsistent, SlugTombstoned, SlugDropped, SlugWritten;
    var s' := After(home, s, step);
    SlotsConsistentStep(home, s, step);
    forall p | p in s'.deletes
      ensures DeletingConsistent(home, s'.slots, s'.deletes[p])
    {
      if p in s.deletes {
        assert DeletingConsistent(home, s.slots, s.deletes[p]);
        if !s.deletes[p].Dropped? {
          TombstoneStays(home, s, step, s.deletes[p].row.id);
        }
      }
    }
  }

  lemma {:induction false} RowsConsistentHolds(home: Home, run: seq<State>, steps: seq<Step>, i: nat)
    requires IsRun(home, run, steps) && i <= |steps|
    ensures RowsConsistent(home, run[i])
  {
    hide Enabled, After;
    if i > 0 {
      RowsConsistentHolds(home, run, steps, i - 1);
      RowsConsistentStep(home, run[i - 1], steps[i - 1]);
    }
  }

  // ---- The overlap of a delete with an update ----

  /** p writes the id slot of the row at step a, and its slug write is still to come in run[d]. */
  ghost predicate Pending(run: seq<State>, p: Pid, id: Id, a: nat, d: nat) {
    && a < d < |run| && p !in run[a].updates
    && forall m :: a < m <= d ==> p in run[m].updates && run[m].updates[p].id == id
  }

  /** q begins to delete the row at step b and takes its slug step at c. */
  ghost predicate DeletedIn(run: seq<State>, steps: seq<Step>, q: Pid, id: Id, b: nat, c: nat) {
    && b < c < |steps| && c + 1 < |run| && steps[b].Begin? && steps[b].p == q && steps[b].row.id == id
    && (forall m :: b < m <= c ==> Deletes(run[m], q, id)) && !Deletes(run[c + 1], q, id)
  }

  predicate IsBlind(step: Step, id: Id) { step.Blind? && step.row.id == id }

  /** A delete of the row begins after p's id write and takes its slug step, if it has one, before
      step d, with p's slug write still to come. */
  ghost predicate Overtaken(run: seq<State>, steps: seq<Step>, p: Pid, id: Id, d: nat) {
    || (exists q, a: nat, b: nat, c: nat ::
        a < b && c < d && Pending(run, p, id, a, d) && DeletedIn(run, steps, q, id, b, c))
    || (exists a: nat, b: nat :: a < b < d && b < |steps| && Pending(run, p, id, a, d) && IsBlind(steps[b], id))
  }

  lemma {:induction false} PendingSince(home: Home, run: seq<State>, steps: seq<Step>, p: Pid, d: nat) returns (a: nat)
    requires IsRun(home, run, steps) && d <= |steps| && p in run[d].updates
    ensures Pending(run, p, run[d].updates[p].id, a, d)
    ensures !Tombstoned(run[a + 1].slots, run[d].updates[p].id)
  {
    RowsConsistentHolds(home, run, steps, d - 1);
    assert run[d] == After(home, run[d - 1], steps[d - 1]);
    if p in run[d - 1].updates {
      a := PendingSince(home, run, steps, p, d - 1);
    } else {
      a := d - 1;
    }
  }

  ghost predicate Begins(run: seq<State>, steps: seq<Step>, b: nat, id: Id) {
    && b < |steps| && b + 1 < |run| && steps[b].Begin? && steps[b].row.id == id
    && Deletes(run[b + 1], steps[b].p, id)
  }

  lemma {:induction false} TombstonedAt(home: Home, s: State, step: Step, id: Id)
    requires Enabled(home, s, step) && !Tombstoned(s.slots, id) && Tombstoned(After(home, s, step).slots, id)
    ensures IsBlind(step, id) || (step.Begin? && step.row.id == id && Deletes(After(home, s, step), step.p, id))
  {
  }

  /** A row is tombstoned by a delete that begins or by one without a slug. */
  lemma {:induction false} TombstonedBy(home: Home, run: seq<State>, steps: seq<Step>, id: Id, i: nat, j: nat)
    returns (b: nat)
    requires IsRun(home, run, steps) && i <= j <= |steps|
    requires !Tombstoned(run[i].slots, id) && Tombstoned(run[j].slots, id)
    ensures i <= b < j && (IsBlind(steps[b], id) || Begins(run, steps, b, id))
  {
    hide Enabled, After, Tombstoned, Deletes;
    if Tombstoned(run[j - 1].slots, id) {
      b := TombstonedBy(home, run, steps, id, i, j - 1);
    } else {
      b := j - 1;
      TombstonedAt(home, run[b], steps[b], id);
    }
  }

  /** A delete that is no longer in progress has taken its slug step. */
  lemma {:induction false} SlugStepTaken(run: seq<State>, q: Pid, id: Id, i: nat, j: nat) returns (c: nat)
    requires i <= j < |run| && Deletes(run[i], q, id) && !Deletes(run[j], q, id)
    ensures i <= c < j && !Deletes(run[c + 1], q, id) && forall m :: i <= m <= c ==> Deletes(run[m], q, id)
    decreases j - i
  {
    if Deletes(run[i + 1], q, id) {
      c := SlugStepTaken(run, q, id, i + 1, j);
    } else {
      c := i;
    }
  }

  /** While a slug write is to come, the row is tombstoned with no delete in progress only if a
      delete has overtaken it. */
  lemma {:induction false} OvertakenIfOrphaned(home: Home, run: seq<State>, steps: seq<Step>, p: Pid, d: nat)
    requires IsRun(home, run, steps) && d <= |steps| && p in run[d].updates
    requires Tombstoned(run[d].slots, run[d].updates[p].id) && !BeingDeleted(run[d], run[d].updates[p].id)
    ensures Overtaken(run, steps, p, run[d].updates[p].id, d)
  {
    hide Enabled, After, Tombstoned, Deletes;
    var id := run[d].updates[p].id;
    var a := PendingSince(home, run, steps, p, d);
    var b := TombstonedBy(home, run, steps, id, a + 1, d);
    if Begins(run, steps, b, id) {
      var q := steps[b].p;
      assert !Deletes(run[d], q, id);
      var c := SlugStepTaken(run, q, id, b + 1, d);
      assert DeletedIn(run, steps, q, id, b, c);
    }
  }

  // ---- When a live copy stays behind ----

  /** The slug slot shows the row as live although the row is deleted and no delete is on its way to
      the slot. */
  ghost predicate Orphaned(s: State, k: Slug, id: Id) {
    && Tombstoned(s.slots, id) && !BeingDeleted(s, id)
    && k in s.slots.slugs && s.slots.slugs[k].id == id && !s.slots.slugs[k].deleted
  }

  /** The slug step of a delete leaves no live copy of its row in the slot. */
  lemma {:induction false} SlugStepClears(home: Home, s: State, step: Step, q: Pid, k: Slug, id: Id)
    requires RowsConsistent(home, s) && Enabled(home, s, step) && Deletes(s, q, id)
    requires !Deletes(After(home, s, step), q, id)
    ensures var slugs := After(home, s, step).slots.slugs; !(k in slugs && slugs[k].id == id && !slugs[k].deleted)
  {
    assert DeletingConsistent(home, s.slots, s.deletes[q]);
    assert step.p == q && (step.Check? || step.Settle?);
    SlotsConsistentStep(home, s, step);
  }

  /** The slug write that put the copy where it is. */
  lemma {:induction false} WrittenBy(home: Home, run: seq<State>, steps: seq<Step>, k: Slug, id: Id, j: nat)
    returns (d: nat)
    requires IsRun(home, run, steps) && j <= |steps|
    requires k in run[j].slots.slugs && run[j].slots.slugs[k].id == id && !run[j].slots.slugs[k].deleted
    ensures d < j && steps[d].WriteSlug? && run[d].updates[steps[d].p].id == id
    ensures forall m :: d < m <= j ==>
        k in run[m].slots.slugs && run[m].slots.slugs[k].id == id && !run[m].slots.slugs[k].deleted
  {
    var slugs := run[j - 1].slots.slugs;
    if k in slugs && slugs[k].id == id && !slugs[k].deleted {
      d := WrittenBy(home, run, steps, k, id, j - 1);
    } else {
      d := j - 1;
      WritesLive(home, run[d], steps[d], k, id);
    }
  }

  lemma {:induction false} WritesLive(home: Home, s: State, step: Step, k: Slug, id: Id)
    requires Enabled(home, s, step)
    requires var slugs := After(home, s, step).slots.slugs; k in slugs && slugs[k].id == id && !slugs[k].deleted
    requires !(k in s.slots.slugs && s.slots.slugs[k].id == id && !s.slots.slugs[k].deleted)
    ensures step.WriteSlug? && s.updates[step.p].id == id
  {
  }

  /** In every run: no slug slot shows a deleted row as live once its deletes are through, unless the
      slug write that put it there was overtaken by a delete of the row, or the row was deleted by
      an event without its slug. */
  lemma {:induction false} NoLiveCopy(home: Home, run: seq<State>, steps: seq<Step>, j: nat, k: Slug, id: Id)
    requires IsRun(home, run, steps) && j <= |steps|
    requires forall p, d :: 0 <= d < j && steps[d] == WriteSlug(p) ==> !Overtaken(run, steps, p, id, d)
    requires forall b :: 0 <= b < j ==> !IsBlind(steps[b], id)
    ensures !Orphaned(run[j], k, id)
  {
    hide Enabled, After, Tombstoned, Deletes, Overtaken;
    if Orphaned(run[j], k, id) {
      var d := WrittenBy(home, run, steps, k, id, j);
      var p := steps[d].p;
      assert steps[d] == WriteSlug(p);
      SameDeletes(home, run, steps, d, id);
      if Tombstoned(run[d + 1].slots, id) {
        if BeingDeleted(run[d + 1], id) {
          var q :| Deletes(run[d + 1], q, id);
          ClearedSince(home, run, steps, q, k, id, d + 1, j);
        } else {
          OvertakenIfOrphaned(home, run, steps, p, d);
        }
      } else {
        var b := TombstonedBy(home, run, steps, id, d + 1, j);
        ClearedSince(home, run, steps, steps[b].p, k, id, b + 1, j);
      }
    }
  }

  lemma {:induction false} SameDeletes(home: Home, run: seq<State>, steps: seq<Step>, d: nat, id: Id)
    requires IsRun(home, run, steps) && d < |steps| && steps[d].WriteSlug?
    ensures Tombstoned(run[d + 1].slots, id) <==> Tombstoned(run[d].slots, id)
    ensures BeingDeleted(run[d + 1], id) <==> BeingDeleted(run[d], id)
    ensures steps[d].p in run[d].updates
  {
    assert run[d + 1] == After(home, run[d], steps[d]);
    assert run[d + 1].deletes == run[d].deletes;
    if BeingDeleted(run[d + 1], id) {
      var q :| Deletes(run[d + 1], q, id);
      assert Deletes(run[d], q, id);
    } else if BeingDeleted(run[d], id) {
      var q :| Deletes(run[d], q, id);
      assert Deletes(run[d + 1], q, id);
    }
  }

  /** A delete in progress at i and not at j has cleared the slot in between. */
  lemma {:induction false} ClearedSince(home: Home, run: seq<State>, steps: seq<Step>, q: Pid, k: Slug, id: Id, i: nat,
          j: nat)
    requires IsRun(home, run, steps) && i <= j <= |steps| && Deletes(run[i], q, id) && !BeingDeleted(run[j], id)
    ensures exists m ::
      i < m <= j && !(k in run[m].slots.slugs && run[m].slots.slugs[k].id == id && !run[m].slots.slugs[k].deleted)
  {
    hide Enabled, After, Deletes;
    var c := SlugStepTaken(run, q, id, i, j);
    RowsConsistentHolds(home, run, steps, c);
    SlugStepClears(home, run[c], steps[c], q, k, id);
  }

  /** A delete without the slug leaves the live copy it finds. */
  lemma {:induction false} BlindDeleteOrphans(home: Home, s: State, row: DataType, k: Slug)
    requires RowsConsistent(home, s)
    ensures Orphaned(After(home, s, Blind(row)), k, row.id) <==>
      !BeingDeleted(s, row.id) && k in s.slots.slugs && s.slots.slugs[k].id == row.id && !s.slots.slugs[k].deleted
  {
    var s' := After(home, s, Blind(row));
    assert forall q :: Deletes(s', q, row.id) <==> Deletes(s, q, row.id);
  }

  /** In every run, exactly when: a slug write leaves an orphaned live copy if and only if it is
      approved, no delete of the row is in progress, and a delete has overtaken it. */
  lemma {:induction false} SlugWriteOrphans(home: Home, run: seq<State>, steps: seq<Step>, d: nat, p: Pid)
    requires IsRun(home, run, steps) && d < |steps| && steps[d] == WriteSlug(p) && p in run[d].updates
    ensures var row := run[d].updates[p];
      Orphaned(run[d + 1], row.slug, row.id) <==>
        SlugApproves(run[d].slots, row) && !BeingDeleted(run[d], row.id) && Overtaken(run, steps, p, row.id, d)
  {
    hide Enabled, Overtaken, BeingDeleted, Tombstoned, Consistent;
    var row := run[d].updates[p];
    SameDeletes(home, run, steps, d, row.id);
    RowsConsistentHolds(home, run, steps, d);
    assert run[d + 1].slots == SlugWritten(run[d].slots, row);
    if Orphaned(run[d + 1], row.slug, row.id) {
      OvertakenIfOrphaned(home, run, steps, p, d);
      if !SlugApproves(run[d].slots, row) {
        NotApproved(home, run[d].slots, row);
      }
    } else if Overtaken(run, steps, p, row.id, d) {
      OvertakenIsTombstoned(home, run, steps, p, row.id, d);
    }
  }

  /** Rows of one id share a version, so a slot that refuses the row shows another one. */
  lemma {:induction false} NotApproved(home: Home, slots: Slots, row: DataType)
    requires SlotsConsistent(home, slots) && Consistent(home, row) && !SlugApproves(slots, row)
    ensures slots.slugs[row.slug].id != row.id
  {
  }

  lemma {:induction false} BlindTombstones(home: Home, s: State, row: DataType)
    ensures Tombstoned(After(home, s, Blind(row)).slots, row.id)
  {
  }

  lemma {:induction false} OvertakenIsTombstoned(home: Home, run: seq<State>, steps: seq<Step>, p: Pid, id: Id, d: nat)
    requires IsRun(home, run, steps) && d <= |steps| && Overtaken(run, steps, p, id, d)
    ensures Tombstoned(run[d].slots, id)
  {
    hide Enabled, Tombstoned;
    if a: nat, b: nat :| a < b < d && b < |steps| && Pending(run, p, id, a, d) && IsBlind(steps[b], id) {
      BlindTombstones(home, run[b], steps[b].row);
      DeletedForGood(home, run, steps, b + 1, d, id);
    } else {
      hide After;
      var q, a: nat, b: nat, c: nat :|
        a < b && c < d && Pending(run, p, id, a, d) && DeletedIn(run, steps, q, id, b, c);
      assert Deletes(run[b + 1], q, id);
      RowsConsistentHolds(home, run, steps, b + 1);
      assert DeletingConsistent(home, run[b + 1].slots, run[b + 1].deletes[q]);
      DeletedForGood(home, run, steps, b + 1, d, id);
    }
  }

  /** The smallest such run, for any live row: its update writes the id slot; a delete runs through;
      then the update writes the slug slot. */
  lemma {:induction false} SplitUpdateResurrects(row: DataType)
    requires !row.deleted
    ensures exists home, run, steps :: IsRun(home, run, steps) && Orphaned(run[|steps|], row.slug, row.id)
  {
    var home: Home := map[row.id := (row.slug, row.version)];
    var p, q := Pid(1), Pid(2);
    var steps := [WriteId(p, row), Begin(q, row), Check(q), Settle(q, NotFound), WriteSlug(p)];
    var s1 := State(Slots(map[row.id := row], map[]), map[], map[p := row]);
    var dead := Slots(map[row.id := TombstoneOf(row)], map[]);
    var s2 := State(dead, map[q := Begun(row)], map[p := row]);
    var s3 := State(dead, map[q := Checked(row)], map[p := row]);
    var s4 := State(dead, map[], map[p := row]);
    var s5 := State(Slots(dead.ids, map[row.slug := row]), map[], map[]);
    assert s1 == After(home, INIT, steps[0]) && s2 == After(home, s1, steps[1]) && s3 == After(home, s2, steps[2]);
    assert s4 == After(home, s3, steps[3]) && s5 == After(home, s4, steps[4]);
    var run := [INIT, s1, s2, s3, s4, s5];
    assert IsRun(home, run, steps) && run[|steps|] == s5;
  }

  // ---- Updates alone ----

  /** The row has arrived and is still to be written to its slug slot. */
  ghost predicate ToCome(s: State, row: DataType) { exists p :: p in s.updates && s.updates[p] == row }

  /** The rows that arrived in the first i steps. */
  ghost predicate Arrived(steps: seq<Step>, i: nat, row: DataType) {
    exists m, p :: 0 <= m < i && m < |steps| && steps[m] == WriteId(p, row) && !row.deleted
  }

  predicate ArrivesAt(step: Step, row: DataType) { step.WriteId? && step.row == row && !row.deleted }

  ghost predicate UpdatesOnly(steps: seq<Step>) {
    forall m :: 0 <= m < |steps| ==> steps[m].WriteId? || steps[m].WriteSlug?
  }

  predicate Outversioned(slots: Slots, row: DataType) {
    row.slug in slots.slugs && row.version <= slots.slugs[row.slug].version
  }

  ghost predicate Latest(s: State, steps: seq<Step>, i: nat) {
    && s.deletes == map[] && (forall id :: id in s.slots.ids ==> !Tombstoned(s.slots, id))
    && (forall row :: Arrived(steps, i, row) ==> ToCome(s, row) || Outversioned(s.slots, row))
    && (forall p :: p in s.updates ==> Arrived(steps, i, s.updates[p]))
    && (forall k :: k in s.slots.slugs ==> Arrived(steps, i, s.slots.slugs[k]) && s.slots.slugs[k].slug == k)
  }

  lemma {:induction false} ArrivedNext(steps: seq<Step>, i: nat, row: DataType)
    requires i < |steps|
    ensures Arrived(steps, i + 1, row) <==> Arrived(steps, i, row) || ArrivesAt(steps[i], row)
  {
    if ArrivesAt(steps[i], row) {
      assert steps[i] == WriteId(steps[i].p, row);
    }
  }

  lemma {:induction false} LatestStep(home: Home, s: State, steps: seq<Step>, i: nat)
    requires i < |steps| && Latest(s, steps, i) && Enabled(home, s, steps[i])
    requires steps[i].WriteId? || steps[i].WriteSlug?
    ensures Latest(After(home, s, steps[i]), steps, i + 1)
  {
    hide Arrived;
    var s' := After(home, s, steps[i]);
    forall row
      ensures Arrived(steps, i + 1, row) <==> Arrived(steps, i, row) || ArrivesAt(steps[i], row)
    {
      ArrivedNext(steps, i, row);
    }
    forall row | Arrived(steps, i + 1, row)
      ensures ToCome(s', row) || Outversioned(s'.slots, row)
    {
      if Arrived(steps, i, row) && ToCome(s, row) {
        var p :| p in s.updates && s.updates[p] == row;
        assert p in s'.updates ==> s'.updates[p] == row;
      } else if !Arrived(steps, i, row) {
        assert s'.updates[steps[i].p] == row;
      }
    }
    forall p | p in s'.updates
      ensures Arrived(steps, i + 1, s'.updates[p])
    {
      assert (p in s.updates && s'.updates[p] == s.updates[p]) || ArrivesAt(steps[i], s'.updates[p]);
    }
    forall k | k in s'.slots.slugs
      ensures Arrived(steps, i + 1, s'.slots.slugs[k])
    {
      if !(k in s.slots.slugs && s'.slots.slugs[k] == s.slots.slugs[k]) {
        assert s'.slots.slugs[k] == s.updates[steps[i].p] && Arrived(steps, i, s.updates[steps[i].p]);
      }
    }
  }

  lemma {:induction false} LatestHolds(home: Home, run: seq<State>, steps: seq<Step>, i: nat)
    requires IsRun(home, run, steps) && UpdatesOnly(steps) && i <= |steps|
    ensures Latest(run[i], steps, i)
  {
    hide Enabled, After;
    if i > 0 {
      LatestHolds(home, run, steps, i - 1);
      hide Latest;
      LatestStep(home, run[i - 1], steps, i - 1);
    }
  }

  /** With updates only, in any order, repeated and interleaved: once none is in progress, a slug slot
      holds the highest version that has arrived under its slug. */
  lemma {:induction false} HighestVersionWins(home: Home, run: seq<State>, steps: seq<Step>, k: Slug)
    requires IsRun(home, run, steps) && UpdatesOnly(steps) && run[|steps|].updates == map[]
    ensures var slugs := run[|steps|].slots.slugs;
      && (k in slugs <==> exists row :: Arrived(steps, |steps|, row) && row.slug == k)
      && (k in slugs ==> Arrived(steps, |steps|, slugs[k]) && slugs[k].slug == k)
      && forall row :: Arrived(steps, |steps|, row) && row.slug == k ==> row.version <= slugs[k].version
  {
    hide Arrived;
    LatestHolds(home, run, steps, |steps|);
    forall row | Arrived(steps, |steps|, row) && row.slug == k
      ensures Outversioned(run[|steps|].slots, row)
    {
      assert !ToCome(run[|steps|], row);
    }
  }

  // ---- What an update and a delete leave in the slots ----

  /** An update of a live row: the id slot takes it unless it holds a tombstone, and then the slug slot
      does unless it holds a higher version; all other slots stay. */
  lemma {:induction false} UpdateWrites(s: Slots, dt: DataType)
    requires !dt.deleted
    ensures var after := Updated(s, dt);
      var dead, newer := Tombstoned(s, dt.id), dt.slug in s.slugs && s.slugs[dt.slug].version > dt.version;
      && (dead ==> after == s)
      && (!dead ==> after.ids == s.ids[dt.id := dt])
      && (!dead ==> after.slugs == if newer then s.slugs else s.slugs[dt.slug := dt])
    ensures forall row: DataType :: row.deleted ==> Updated(s, row) == s
  {
  }

  /** The fetched row is live and not known to be deleted, once the deleted one is. */
  predicate Succeeds(s: Slots, dt: DataType, fetched: Fetched) {
    fetched.Found? && !fetched.row.deleted && fetched.row.id != dt.id && !Tombstoned(s, fetched.row.id)
  }

  /** The slug slot shows another row of a higher version. */
  predicate ShowsNewer(s: Slots, dt: DataType) {
    dt.slug in s.slugs && s.slugs[dt.slug].version > dt.version && s.slugs[dt.slug].id != dt.id
  }

  /** A delete: the id slot is a tombstone from then on.  A newer version in the slug slot stays; and
      otherwise the slot shows the row as deleted if no successor could be asked for, the live
      successor if there is one that has not been deleted, and nothing without one. */
  lemma {:induction false} DeleteSettles(s: Slots, dt: DataType, fetched: Fetched)
    requires fetched.Found? && !fetched.row.deleted ==> fetched.row.slug == dt.slug
    ensures var after := Deleted(s, dt, fetched);
      && Tombstoned(after, dt.id)
      && (forall id :: id != dt.id && !(fetched.Found? && id == fetched.row.id) ==>
            (id in after.ids <==> id in s.ids) && (id in s.ids ==> after.ids[id] == s.ids[id]))
      && (forall slug :: slug != dt.slug ==>
            (slug in after.slugs <==> slug in s.slugs) && (slug in s.slugs ==> after.slugs[slug] == s.slugs[slug]))
      && if ShowsNewer(s, dt) then after.slugs == s.slugs
         else if fetched.Failed? then
           if dt.slug in s.slugs && s.slugs[dt.slug].id == dt.id
           then after.slugs == s.slugs[dt.slug := DataType(dt.id, dt.slug, dt.version, true)]
           else after.slugs == s.slugs
         else if Succeeds(s, dt, fetched) then
           dt.slug in after.slugs && after.slugs[dt.slug] == fetched.row
               && fetched.row.id in after.ids && after.ids[fetched.row.id] == fetched.row
         else dt.slug !in after.slugs
  {
    hide Promoted, NewerInSlot;
    var t := WithTombstone(s, dt);
    NewerMeans(t, dt);
    if !NewerInSlot(t, dt) {
      PromotedSettles(t, dt, fetched);
    }
  }

  lemma {:induction false} NewerMeans(s: Slots, dt: DataType)
    ensures NewerInSlot(s, dt) <==>
      dt.slug in s.slugs && s.slugs[dt.slug].id != dt.id && s.slugs[dt.slug].version > dt.version
  {
  }

  lemma {:induction false} PromotedSettles(s: Slots, dt: DataType, fetched: Fetched)
    requires fetched.Found? && !fetched.row.deleted ==> fetched.row.slug == dt.slug
    requires !NewerInSlot(s, dt) && Tombstoned(s, dt.id)
    ensures var after := Promoted(s, dt, fetched);
      var own := dt.slug in s.slugs && s.slugs[dt.slug].id == dt.id;
      && (fetched.Failed? ==> after == Slots(s.ids,
            if own then s.slugs[dt.slug := DataType(dt.id, dt.slug, dt.version, true)] else s.slugs))
      && (fetched.Found? && !fetched.row.deleted && !Tombstoned(s, fetched.row.id) ==>
            after == Slots(s.ids[fetched.row.id := fetched.row], (s.slugs - {dt.slug})[dt.slug := fetched.row]))
      && (!fetched.Failed? && !(fetched.Found? && !fetched.row.deleted && !Tombstoned(s, fetched.row.id)) ==>
            after == Slots(s.ids, s.slugs - {dt.slug}))
  {
    assert SlugDropped(s, dt) == Slots(s.ids, s.slugs - {dt.slug}) by {
      if dt.slug !in s.slugs {
        assert s.slugs - {dt.slug} == s.slugs;
      }
    }
  }

  // ---- The cache itself ----

  class DataTypesCache {
    var slots: Slots

    constructor ()
      ensures slots == Slots(map[], map[])
    {
      slots := Slots(map[], map[]);
    }

    method Update(dt: DataType)
      modifies this
      ensures slots == Updated(old(slots), dt)
    {
      if dt.deleted {
        return;
      }
      if dt.id in slots.ids && slots.ids[dt.id].deleted {
        return;
      }
      slots := Slots(slots.ids[dt.id := dt], slots.slugs);
      if dt.slug !in slots.slugs || slots.slugs[dt.slug].version <= dt.version {
        slots := Slots(slots.ids, slots.slugs[dt.slug := dt]);
      }
    }

    /** Delete; slugged says whether the event carried the slug. */
    method Delete(dt: DataType, slugged: bool, fetched: Fetched)
      modifies this
      ensures slots == if slugged then Deleted(old(slots), dt, fetched) else WithTombstone(old(slots), dt)
      ensures Tombstoned(slots, dt.id)
    {
      slots := Slots(slots.ids[dt.id := TombstoneOf(dt)], slots.slugs);
      if !slugged {
        return;
      }
      if dt.slug in slots.slugs && slots.slugs[dt.slug].id != dt.id && slots.slugs[dt.slug].version > dt.version {
        return;
      }
      if fetched.Failed? {
        if dt.slug in slots.slugs && slots.slugs[dt.slug].id == dt.id {
          slots := Slots(slots.ids, slots.slugs[dt.slug := TombstoneOf(dt)]);
        }
        return;
      }
      if dt.slug in slots.slugs && (slots.slugs[dt.slug].id == dt.id || slots.slugs[dt.slug].version <= dt.version) {
        slots := Slots(slots.ids, slots.slugs - {dt.slug});
      }
      if fetched.Found? && !fetched.row.deleted {
        Update(fetched.row);
      }
    }

    /** ReadByID: a tombstone answers without a fetch, and so does a hit the caller's tenant may not
        see; a miss is filled through Update. */
    method ReadByID(id: Id, visible: bool, fetched: Fetched) returns (r: Option<DataType>)
      requires fetched.Found? ==> fetched.row.id == id
      modifies this
      ensures old(Tombstoned(slots, id)) ==> r == None && slots == old(slots)
      ensures id in old(slots).ids && !old(slots).ids[id].deleted ==>
          r == (if visible then Some(old(slots).ids[id]) else None) && slots == old(slots)
      ensures id !in old(slots).ids ==>
        if fetched.Found? && !fetched.row.deleted
        then r == Some(fetched.row) && slots == Updated(old(slots), fetched.row)
        else r == None && slots == old(slots)
    {
      if id in slots.ids {
        if slots.ids[id].deleted || !visible {
          return None;
        }
        return Some(slots.ids[id]);
      }
      if !fetched.Found? || fetched.row.deleted {
        return None;
      }
      Update(fetched.row);
      r := Some(fetched.row);
    }
  }
}

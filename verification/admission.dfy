/** The admission limiter (admission/admission.go): one slot per distinct limited field of an
    operation, taken and handed back one channel operation at a time, with any number of operations,
    panics and repeated handler calls interleaved. */
module Admission {
  import opened Wrappers

  datatype Field = Field(token: int)
  datatype Pid = Pid(token: int)

  datatype Phase =
    | Acquiring(next: nat)   // in acquire, before fields[next]
    | Building               // admitted, the response handler not built yet
    | Built                  // the response handler exists
    | Releasing              // handing slots back
    | Over

  /** took and gave count every slot the operation ever took and handed back; fired is the sync.Once. */
  datatype Operation = Operation(fields: seq<Field>, phase: Phase, held: set<Field>, took: multiset<Field>,
      gave: multiset<Field>, fired: bool)

  datatype State = State(caps: map<Field, nat>, occupied: map<Field, nat>, ops: map<Pid, Operation>)

  datatype Step =
    | Start(p: Pid, fields: seq<Field>)
    | Take(p: Pid)
    | Admit(p: Pid)
    | Build(p: Pid, panics: bool)
    | Call(p: Pid)
    | CallAgain(p: Pid)
    | Give(p: Pid, field: Field)
    | Finish(p: Pid)

  ghost predicate Enabled(s: State, step: Step) {
    match step
    case Start(p, _) => p !in s.ops
    case Take(p) => p in s.ops && s.ops[p].phase.Acquiring? && s.ops[p].phase.next < |s.ops[p].fields|
    case Admit(p) => p in s.ops && s.ops[p].phase == Acquiring(|s.ops[p].fields|)
    case Build(p, _) => p in s.ops && s.ops[p].phase == Building
    case Call(p) => p in s.ops && s.ops[p].phase == Built && !s.ops[p].fired
    case CallAgain(p) => p in s.ops && s.ops[p].fired
    case Give(p, field) => p in s.ops && s.ops[p].phase == Releasing && field in s.ops[p].held
    case Finish(p) => p in s.ops && s.ops[p].phase == Releasing && s.ops[p].held == {}
  }

  function Occupied(s: State, f: Field): nat { if f in s.occupied then s.occupied[f] else 0 }

  function Taking(op: Operation, f: Field): Operation
    requires op.phase.Acquiring?
  {
    Operation(op.fields, Acquiring(op.phase.next + 1), op.held + {f}, op.took + multiset{f}, op.gave, op.fired)
  }

  function Giving(op: Operation, f: Field): Operation {
    Operation(op.fields, op.phase, op.held - {f}, op.took, op.gave + multiset{f}, op.fired)
  }

  ghost function After(s: State, step: Step): State
    requires Enabled(s, step)
  {
    match step
    case Start(p, fields) => s.(ops := s.ops[p := Operation(fields, Acquiring(0), {}, multiset{}, multiset{}, false)])
    case Take(p) =>
      var op := s.ops[p];
      var f := op.fields[op.phase.next];
      if f !in s.caps || f in op.held then
        // Not limited, or a repeat: an alias costs nothing extra.
        s.(ops := s.ops[p := op.(phase := Acquiring(op.phase.next + 1))])
      else if Occupied(s, f) < s.caps[f] then
        s.(occupied := s.occupied[f := Occupied(s, f) + 1],
           ops := s.ops[p := Taking(op, f)])
      else
        // Full: refused, and what it took is handed back.
        s.(ops := s.ops[p := op.(phase := Releasing)])
    case Admit(p) => s.(ops := s.ops[p := s.ops[p].(phase := Building)])
    case Build(p, panics) => s.(ops := s.ops[p := s.ops[p].(phase := if panics then Releasing else Built)])
    case Call(p) => s.(ops := s.ops[p := s.ops[p].(phase := Releasing, fired := true)])
    case CallAgain(p) => s
    case Give(p, f) =>
      var op := s.ops[p];
      s.(occupied := s.occupied[f := if Occupied(s, f) > 0 then Occupied(s, f) - 1 else 0],
         ops := s.ops[p := Giving(op, f)])
    case Finish(p) => s.(ops := s.ops[p := s.ops[p].(phase := Over)])
  }

  ghost predicate IsRun(run: seq<State>, steps: seq<Step>) {
    && |run| == |steps| + 1 && run[0].occupied == map[] && run[0].ops == map[]
    && forall i :: 0 <= i < |steps| ==> Enabled(run[i], steps[i]) && run[i + 1] == After(run[i], steps[i])
  }

  ghost predicate Reachable(s: State) { exists run, steps :: IsRun(run, steps) && run[|steps|] == s }

  // ---- Conservation ----

  ghost function Holders(ops: map<Pid, Operation>, f: Field): set<Pid> { set p | p in ops && f in ops[p].held }

  ghost predicate Conserved(s: State) {
    forall f :: Occupied(s, f) == |Holders(s.ops, f)|
  }

  ghost predicate WithinCaps(s: State) {
    forall f :: Occupied(s, f) <= if f in s.caps then s.caps[f] else 0
  }

  /** What an operation took and has not handed back is what it holds, each field at most once; the
      handler has fired only once the slots are going or gone. */
  ghost predicate Accounted(op: Operation) {
    && op.took == op.gave + multiset(op.held)
    && (forall f :: op.took[f] <= 1)
    && (op.phase.Acquiring? || op.phase.Building? || op.phase.Built? ==> op.gave == multiset{} && !op.fired)
    && (op.phase.Over? ==> op.held == {})
  }

  ghost predicate Inv(s: State) {
    Conserved(s) && WithinCaps(s) && forall p :: p in s.ops ==> Accounted(s.ops[p])
  }

  lemma {:induction false} HoldersMore(ops: map<Pid, Operation>, p: Pid, op: Operation, f: Field)
    requires p in ops ==> f !in ops[p].held
    ensures f in op.held ==> |Holders(ops[p := op], f)| == |Holders(ops, f)| + 1
    ensures f !in op.held ==> |Holders(ops[p := op], f)| == |Holders(ops, f)|
  {
    if f in op.held {
      assert Holders(ops[p := op], f) == Holders(ops, f) + {p};
    } else {
      assert Holders(ops[p := op], f) == Holders(ops, f);
    }
  }

  lemma {:induction false} HoldersLess(ops: map<Pid, Operation>, p: Pid, op: Operation, f: Field)
    requires p in ops && f in ops[p].held
    ensures f !in op.held ==> |Holders(ops[p := op], f)| == |Holders(ops, f)| - 1 && |Holders(ops, f)| > 0
    ensures f in op.held ==> |Holders(ops[p := op], f)| == |Holders(ops, f)|
  {
    assert p in Holders(ops, f);
    if f in op.held {
      assert Holders(ops[p := op], f) == Holders(ops, f);
    } else {
      assert Holders(ops[p := op], f) == Holders(ops, f) - {p};
    }
  }

  lemma {:induction false} ConservedStep(s: State, step: Step)
    requires Inv(s) && Enabled(s, step)
    ensures Conserved(After(s, step)) && WithinCaps(After(s, step))
  {
    forall f
      ensures Occupied(After(s, step), f) == |Holders(After(s, step).ops, f)|
      ensures Occupied(After(s, step), f) <= if f in s.caps then s.caps[f] else 0
    {
      ConservedFor(s, step, f);
    }
  }

  lemma {:induction false} ConservedFor(s: State, step: Step, f: Field)
    requires Inv(s) && Enabled(s, step)
    ensures Occupied(After(s, step), f) == |Holders(After(s, step).ops, f)|
    ensures Occupied(After(s, step), f) <= if f in s.caps then s.caps[f] else 0
  {
    hide Accounted, Holders, Occupied, Taking, Giving;
    match step
    case Start(p, fields) =>
      HoldersMore(s.ops, p, Operation(fields, Acquiring(0), {}, multiset{}, multiset{}, false), f);
      OccupiedKept(s, After(s, step), f);
    case Take(p) => TakeConserves(s, p, f);
    case Give(p, field) => GiveConserves(s, p, field, f);
    case Admit(p) => SameHolders(s, After(s, step), p, f);
    case Build(p, _) => SameHolders(s, After(s, step), p, f);
    case Call(p) => SameHolders(s, After(s, step), p, f);
    case CallAgain(p) => SameHolders(s, After(s, step), p, f);
    case Finish(p) => SameHolders(s, After(s, step), p, f);
  }

  lemma {:induction false} OccupiedKept(s: State, s': State, f: Field)
    requires s'.occupied == s.occupied
    ensures Occupied(s', f) == Occupied(s, f)
  {
  }

  /** A step that leaves the operation's slots alone. */
  lemma {:induction false} SameHolders(s: State, s': State, p: Pid, f: Field)
    requires Inv(s) && p in s.ops && p in s'.ops && s'.ops[p].held == s.ops[p].held
    requires s'.ops == s.ops[p := s'.ops[p]] && s'.occupied == s.occupied
    ensures Occupied(s', f) == |Holders(s'.ops, f)|
    ensures Occupied(s', f) <= if f in s.caps then s.caps[f] else 0
  {
    hide Accounted, Occupied;
    OccupiedKept(s, s', f);
    assert Holders(s'.ops, f) == Holders(s.ops, f);
  }

  lemma {:induction false} TakeConserves(s: State, p: Pid, f: Field)
    requires Inv(s) && Enabled(s, Take(p))
    ensures Occupied(After(s, Take(p)), f) == |Holders(After(s, Take(p)).ops, f)|
    ensures Occupied(After(s, Take(p)), f) <= if f in s.caps then s.caps[f] else 0
  {
    hide Accounted, Holders;
    var op := s.ops[p];
    var taken := op.fields[op.phase.next];
    if taken !in s.caps || taken in op.held || Occupied(s, taken) >= s.caps[taken] {
      SameHolders(s, After(s, Take(p)), p, f);
    } else if f == taken {
      HoldersMore(s.ops, p, Taking(op, taken), f);
    } else {
      HoldersUnless(s.ops, p, Taking(op, taken), f);
    }
  }

  lemma {:induction false} GiveConserves(s: State, p: Pid, given: Field, f: Field)
    requires Inv(s) && Enabled(s, Give(p, given))
    ensures Occupied(After(s, Give(p, given)), f) == |Holders(After(s, Give(p, given)).ops, f)|
    ensures Occupied(After(s, Give(p, given)), f) <= if f in s.caps then s.caps[f] else 0
  {
    hide Accounted, Holders;
    if f == given {
      HoldersLess(s.ops, p, Giving(s.ops[p], given), f);
    } else {
      HoldersUnless(s.ops, p, Giving(s.ops[p], given), f);
    }
  }

  /** A field the operation holds before and after, or neither. */
  lemma {:induction false} HoldersUnless(ops: map<Pid, Operation>, p: Pid, op: Operation, f: Field)
    requires p in ops && (f in op.held <==> f in ops[p].held)
    ensures |Holders(ops[p := op], f)| == |Holders(ops, f)|
  {
    assert Holders(ops[p := op], f) == Holders(ops, f);
  }

  lemma {:induction false} TakingAccounted(op: Operation, f: Field)
    requires Accounted(op) && op.phase.Acquiring? && f !in op.held
    ensures Accounted(Taking(op, f))
  {
    assert op.took[f] == 0;
    assert multiset(op.held + {f}) == multiset(op.held) + multiset{f};
  }

  lemma {:induction false} GivingAccounted(op: Operation, f: Field)
    requires Accounted(op) && op.phase.Releasing? && f in op.held
    ensures Accounted(Giving(op, f))
  {
    assert multiset(op.held) == multiset(op.held - {f}) + multiset{f};
  }

  /** A step that only moves the operation to its next phase. */
  lemma {:induction false} PhaseAccounted(op: Operation, next: Operation)
    requires Accounted(op) && !op.phase.Over? && (next.phase.Over? ==> op.held == {})
    requires next.held == op.held && next.took == op.took && next.gave == op.gave
    requires next.phase.Releasing? || next.phase.Over? || (next.fired == op.fired && !op.phase.Releasing?)
    ensures Accounted(next)
  {
  }

  lemma {:induction false} AccountedStep(s: State, step: Step, p: Pid)
    requires Inv(s) && Enabled(s, step) && p in After(s, step).ops
    ensures Accounted(After(s, step).ops[p])
  {
    hide Conserved, WithinCaps, Accounted, Taking, Giving, Occupied;
    if p in s.ops && After(s, step).ops[p] == s.ops[p] {
      return;
    }
    match step
    case Start(_, fields) => StartAccounted(fields);
    case Take(_) => TakeAccounted(s, p);
    case Give(_, f) => GivingAccounted(s.ops[p], f);
    case Admit(_) => PhaseAccounted(s.ops[p], After(s, step).ops[p]);
    case Build(_, _) => PhaseAccounted(s.ops[p], After(s, step).ops[p]);
    case Call(_) => PhaseAccounted(s.ops[p], After(s, step).ops[p]);
    case CallAgain(_) =>
    case Finish(_) => PhaseAccounted(s.ops[p], After(s, step).ops[p]);
  }

  lemma {:induction false} StartAccounted(fields: seq<Field>)
    ensures Accounted(Operation(fields, Acquiring(0), {}, multiset{}, multiset{}, false))
  {
  }

  lemma {:induction false} TakeAccounted(s: State, p: Pid)
    requires Inv(s) && Enabled(s, Take(p))
    ensures Accounted(After(s, Take(p)).ops[p])
  {
    hide Conserved, WithinCaps, Accounted, Taking, Occupied;
    var op := s.ops[p];
    var f := op.fields[op.phase.next];
    if f in op.held {
      PhaseAccounted(op, op.(phase := Acquiring(op.phase.next + 1)));
    } else {
      TakingAccounted(op, f);
      PhaseAccounted(op, op.(phase := Acquiring(op.phase.next + 1)));
      PhaseAccounted(op, op.(phase := Releasing));
    }
  }

  lemma {:induction false} InvHolds(run: seq<State>, steps: seq<Step>, i: nat)
    requires IsRun(run, steps) && i <= |steps|
    ensures Inv(run[i])
  {
    if i == 0 {
      assert forall f :: Holders(run[0].ops, f) == {};
    } else {
      InvHolds(run, steps, i - 1);
      ConservedStep(run[i - 1], steps[i - 1]);
      forall p | p in run[i].ops
        ensures Accounted(run[i].ops[p])
      {
        AccountedStep(run[i - 1], steps[i - 1], p);
      }
    }
  }

  lemma {:induction false} ReachableInv(s: State)
    requires Reachable(s)
    ensures Inv(s)
  {
    var run, steps :| IsRun(run, steps) && run[|steps|] == s;
    InvHolds(run, steps, |steps|);
  }

  /** In every run a field's occupancy is the number of operations holding it, and never above its
      cap; so draining a slot one holds never blocks. */
  lemma {:induction false} OccupancyIsHolders(s: State, f: Field)
    requires Reachable(s)
    ensures Occupied(s, f) == |Holders(s.ops, f)|
    ensures f in s.caps ==> Occupied(s, f) <= s.caps[f]
    ensures forall p :: p in s.ops && f in s.ops[p].held ==> Occupied(s, f) > 0
  {
    ReachableInv(s);
    forall p | p in s.ops && f in s.ops[p].held
      ensures Occupied(s, f) > 0
    {
      assert p in Holders(s.ops, f);
    }
  }

  /** A step leaves an operation that is over as it is. */
  lemma {:induction false} OverStays(s: State, step: Step, p: Pid)
    requires Enabled(s, step) && p in s.ops && s.ops[p].phase == Over
    ensures p in After(s, step).ops && After(s, step).ops[p] == s.ops[p]
  {
    hide Occupied, Taking, Giving;
    match step
    case Start(_, _) =>
    case Take(_) =>
    case Admit(_) =>
    case Build(_, _) =>
    case Call(_) =>
    case CallAgain(_) =>
    case Give(_, _) =>
    case Finish(_) =>
  }

  // ---- Counting what happens in a run ----

  predicate Gives(step: Step, p: Pid, f: Field) { step.Give? && step.p == p && step.field == f }

  /** How often p hands back a slot of f in the first n steps. */
  function GivesOf(steps: seq<Step>, n: nat, p: Pid, f: Field): nat
    requires n <= |steps|
  {
    if n == 0 then 0 else GivesOf(steps, n - 1, p, f) + if Gives(steps[n - 1], p, f) then 1 else 0
  }

  predicate Releases(step: Step, p: Pid) { step.Call? && step.p == p }

  /** How often p's handler sets off a release in the first n steps. */
  function ReleasesOf(steps: seq<Step>, n: nat, p: Pid): nat
    requires n <= |steps|
  {
    if n == 0 then 0 else ReleasesOf(steps, n - 1, p) + if Releases(steps[n - 1], p) then 1 else 0
  }

  lemma {:induction false} GaveStep(s: State, step: Step, p: Pid, f: Field)
    requires Enabled(s, step) && p in s.ops
    ensures p in After(s, step).ops
    ensures After(s, step).ops[p].gave[f] == s.ops[p].gave[f] + if Gives(step, p, f) then 1 else 0
    ensures After(s, step).ops[p].fired <==> s.ops[p].fired || Releases(step, p)
    ensures Releases(step, p) ==> !s.ops[p].fired
  {
    hide Occupied;
    match step
    case Start(_, _) =>
    case Take(_) =>
    case Admit(_) =>
    case Build(_, _) =>
    case Call(_) =>
    case CallAgain(_) =>
    case Give(_, _) =>
    case Finish(_) =>
  }

  /** What an operation gave is what its steps handed back, and it has fired exactly if a call of its
      handler set off a release, which happens once at most. */
  lemma {:induction false} GaveIsCounted(run: seq<State>, steps: seq<Step>, n: nat, p: Pid, f: Field)
    requires IsRun(run, steps) && n <= |steps|
    ensures p in run[n].ops ==> run[n].ops[p].gave[f] == GivesOf(steps, n, p, f)
    ensures p in run[n].ops ==> ReleasesOf(steps, n, p) == if run[n].ops[p].fired then 1 else 0
    ensures p !in run[n].ops ==> GivesOf(steps, n, p, f) == 0 && ReleasesOf(steps, n, p) == 0
  {
    hide Occupied, Taking, Giving;
    if n > 0 {
      GaveIsCounted(run, steps, n - 1, p, f);
      if p in run[n - 1].ops {
        GaveStep(run[n - 1], steps[n - 1], p, f);
      }
    }
  }

  /** In every run: an operation hands back exactly what it took, each field once, whether refused,
      panicked or answered; and for the rest of the run it neither takes nor hands back anything,
      however often its handler is called again. */
  lemma {:induction false} ReleasedOnce(run: seq<State>, steps: seq<Step>, i: nat, j: nat, p: Pid)
    requires IsRun(run, steps) && i <= j <= |steps| && p in run[i].ops && run[i].ops[p].phase == Over
    ensures var op := run[i].ops[p];
      && op.took == op.gave && p in run[j].ops && run[j].ops[p] == op
      && (forall f :: GivesOf(steps, j, p, f) == op.took[f] <= 1)
      && ReleasesOf(steps, j, p) <= 1
    decreases j
  {
    hide Accounted, Conserved, WithinCaps, After, Enabled;
    OverForGood(run, steps, i, j, p);
    InvHolds(run, steps, i);
    OverIsAccounted(run[i].ops[p]);
    forall f
      ensures GivesOf(steps, j, p, f) == run[i].ops[p].took[f] && ReleasesOf(steps, j, p) <= 1
    {
      GaveIsCounted(run, steps, j, p, f);
    }
    GaveIsCounted(run, steps, j, p, Field(0));
  }

  lemma {:induction false} OverForGood(run: seq<State>, steps: seq<Step>, i: nat, j: nat, p: Pid)
    requires IsRun(run, steps) && i <= j <= |steps| && p in run[i].ops && run[i].ops[p].phase == Over
    ensures p in run[j].ops && run[j].ops[p] == run[i].ops[p]
    decreases j
  {
    hide After, Enabled;
    if i < j {
      OverForGood(run, steps, i, j - 1, p);
      OverStays(run[j - 1], steps[j - 1], p);
    }
  }

  lemma {:induction false} OverIsAccounted(op: Operation)
    requires Accounted(op) && op.phase == Over
    ensures op.took == op.gave && forall f :: op.gave[f] <= 1
  {
  }

  // ---- acquire and release ----

  class Limiter {
    const caps: map<Field, nat>
    var occupied: map<Field, nat>

    constructor (caps: map<Field, nat>)
      ensures this.caps == caps && occupied == map f | f in caps :: 0
    {
      this.caps := caps;
      occupied := map f | f in caps :: 0;
    }

    ghost predicate Valid()
      reads this
    {
      occupied.Keys == caps.Keys && forall f :: f in caps ==> occupied[f] <= caps[f]
    }

    /** acquire: a slot of every distinct limited field, or the first field that is full; what was
        taken until then is returned either way. */
    method Acquire(fields: seq<Field>) returns (taken: seq<Field>, full: Option<Field>)
      requires Valid()
      modifies this`occupied
      ensures Valid()
      ensures forall i, j :: 0 <= i < j < |taken| ==> taken[i] != taken[j]
      ensures forall f :: f in taken ==> f in fields && f in caps
      ensures forall f :: f in caps ==> occupied[f] == old(occupied)[f] + if f in taken then 1 else 0
      ensures full.None? ==> forall f :: f in fields && f in caps ==> f in taken
      ensures full.Some? ==> exists i ::
        0 <= i < |fields| && fields[i] == full.value && (forall f :: f in taken <==> f in fields[..i] && f in caps)
      ensures full.Some? ==>
          full.value in fields && full.value in caps && full.value !in taken
          && old(occupied)[full.value] == caps[full.value]
    {
      taken := [];
      for i := 0 to |fields|
        invariant Valid()
        invariant forall h, j :: 0 <= h < j < |taken| ==> taken[h] != taken[j]
        invariant forall f :: f in taken <==> f in fields[..i] && f in caps
        invariant forall f :: f in caps ==> occupied[f] == old(occupied)[f] + if f in taken then 1 else 0
      {
        assert fields[..i + 1] == fields[..i] + [fields[i]];
        var f := fields[i];
        if f !in caps || f in taken {
          continue;
        }
        if occupied[f] == caps[f] {
          assert fields[i] == f;
          return taken, Some(f);
        }
        occupied := occupied[f := occupied[f] + 1];
        taken := taken + [f];
      }
      assert fields[..|fields|] == fields;
      full := None;
    }

    /** release: undoes an acquire. */
    method Release(taken: seq<Field>)
      requires Valid() && (forall i, j :: 0 <= i < j < |taken| ==> taken[i] != taken[j])
      requires forall f :: f in taken ==> f in caps && occupied[f] > 0
      modifies this`occupied
      ensures Valid()
      ensures forall f :: f in caps ==> occupied[f] == old(occupied)[f] - if f in taken then 1 else 0
    {
      for i := 0 to |taken|
        invariant Valid()
        invariant forall f :: f in caps ==> occupied[f] == old(occupied)[f] - if f in taken[..i] then 1 else 0
      {
        assert taken[..i + 1] == taken[..i] + [taken[i]];
        assert taken[i] in taken && taken[i] !in taken[..i];
        occupied := occupied[taken[i] := occupied[taken[i]] - 1];
      }
      assert taken[..|taken|] == taken;
    }

    /** A refused operation leaves every slot as it found it; an admitted one holds one slot of each
        limited field it names. */
    method Enter(fields: seq<Field>) returns (admitted: bool, taken: seq<Field>)
      requires Valid()
      modifies this`occupied
      ensures Valid()
      ensures !admitted ==> occupied == old(occupied) && taken == []
      ensures !admitted ==> exists f :: f in fields && f in caps && old(occupied)[f] == caps[f]
      ensures admitted ==> forall f :: f in caps ==> occupied[f] == old(occupied)[f] + if f in fields then 1 else 0
      ensures admitted ==> forall f :: f in taken <==> f in fields && f in caps
    {
      var full;
      taken, full := Acquire(fields);
      if full.Some? {
        Release(taken);
        assert occupied == old(occupied);
        return false, [];
      }
      admitted := true;
    }
  }
}

/** The life of one operation in the admission limiter (admission/admission.go): what it holds at each
    stage, what brings it there, and that handing back always completes. */
module AdmissionLife {
  import opened Wrappers
  import opened Admission

  // ---- What it holds ----

  /** The limited ones among these fields. */
  function Limited(caps: map<Field, nat>, fields: seq<Field>): set<Field> { set f | f in fields && f in caps }

  /** While it acquires it holds the limited fields it has come past; admitted, all it names. */
  ghost predicate HoldsLimited(caps: map<Field, nat>, op: Operation) {
    match op.phase
    case Acquiring(n) => n <= |op.fields| && op.held == Limited(caps, op.fields[..n]) && !op.fired
    case Building => op.held == Limited(caps, op.fields) && !op.fired
    case Built => op.held == Limited(caps, op.fields) && !op.fired
    case Releasing => op.held <= Limited(caps, op.fields)
    case Over => op.held == {}
  }

  lemma {:induction false} LimitedMore(caps: map<Field, nat>, fields: seq<Field>, n: nat)
    requires n < |fields|
    ensures Limited(caps, fields[..n + 1]) ==
        Limited(caps, fields[..n]) + if fields[n] in caps then {fields[n]} else {}
    ensures Limited(caps, fields[..n]) <= Limited(caps, fields)
  {
    assert fields[..n + 1] == fields[..n] + [fields[n]];
  }

  lemma {:induction false} OthersStep(s: State, step: Step, p: Pid)
    requires Enabled(s, step)
    ensures After(s, step).caps == s.caps
    ensures step.p != p ==>
      (p in After(s, step).ops <==> p in s.ops) && (p in s.ops ==> After(s, step).ops[p] == s.ops[p])
  {
    hide Occupied, Taking, Giving;
  }

  lemma {:induction false} HoldsLimitedStep(s: State, step: Step, p: Pid)
    requires Enabled(s, step) && p in After(s, step).ops
    requires p in s.ops ==> HoldsLimited(s.caps, s.ops[p])
    ensures After(s, step).caps == s.caps && HoldsLimited(s.caps, After(s, step).ops[p])
  {
    OthersStep(s, step, p);
    if step.p == p {
      OwnHoldsLimited(s, step);
    }
  }

  lemma {:induction false} OwnHoldsLimited(s: State, step: Step)
    requires Enabled(s, step) && step.p in After(s, step).ops
    requires step.p in s.ops ==> HoldsLimited(s.caps, s.ops[step.p])
    ensures HoldsLimited(s.caps, After(s, step).ops[step.p])
  {
    hide Limited, Occupied, Taking;
    match step
    case Start(_, fields) => NoneLimited(s.caps, fields);
    case Take(p) => TakeHoldsLimited(s, p);
    case Admit(p) => assert s.ops[p].fields[..|s.ops[p].fields|] == s.ops[p].fields;
    case Build(_, _) =>
    case Call(_) =>
    case CallAgain(_) =>
    case Give(_, _) =>
    case Finish(_) =>
  }

  lemma {:induction false} TakeHoldsLimited(s: State, p: Pid)
    requires Enabled(s, Take(p)) && HoldsLimited(s.caps, s.ops[p])
    ensures HoldsLimited(s.caps, After(s, Take(p)).ops[p])
  {
    hide Limited, Occupied;
    LimitedMore(s.caps, s.ops[p].fields, s.ops[p].phase.next);
  }

  lemma {:induction false} NoneLimited(caps: map<Field, nat>, fields: seq<Field>)
    ensures Limited(caps, fields[..0]) == {}
  {
  }

  /** In every run an admitted operation holds a slot of exactly the limited fields it names, one each
      however often it names them; one that is still acquiring, of those it has come past. */
  lemma {:induction false} AdmittedHoldsAll(run: seq<State>, steps: seq<Step>, i: nat, p: Pid)
    requires IsRun(run, steps) && i <= |steps| && p in run[i].ops
    ensures run[i].caps == run[0].caps && HoldsLimited(run[i].caps, run[i].ops[p])
  {
    hide Enabled, After, HoldsLimited;
    assert i > 0;
    if p in run[i - 1].ops {
      AdmittedHoldsAll(run, steps, i - 1, p);
    } else {
      SameCaps(run, steps, i - 1);
    }
    HoldsLimitedStep(run[i - 1], steps[i - 1], p);
  }

  lemma {:induction false} SameCaps(run: seq<State>, steps: seq<Step>, i: nat)
    requires IsRun(run, steps) && i <= |steps|
    ensures run[i].caps == run[0].caps
  {
    hide Enabled;
    if i > 0 {
      SameCaps(run, steps, i - 1);
    }
  }

  // ---- What brings it there ----

  /** A slot is asked for that is neither the operation's own nor free. */
  ghost predicate Refused(s: State, step: Step, p: Pid) {
    && step == Take(p) && Enabled(s, step)
    && var f := s.ops[p].fields[s.ops[p].phase.next];
       f in s.caps && f !in s.ops[p].held && Occupied(s, f) >= s.caps[f]
  }

  /** The operation is refused, its handler cannot be built, or its handler is called. */
  ghost predicate SetsOff(s: State, step: Step, p: Pid) {
    Refused(s, step, p) || step == Build(p, true) || step == Call(p)
  }

  ghost predicate Took(steps: seq<Step>, i: nat, step: Step) {
    exists k: nat :: k < i && k < |steps| && steps[k] == step
  }

  ghost predicate WasSetOff(run: seq<State>, steps: seq<Step>, i: nat, p: Pid) {
    exists k: nat :: k < i && k < |steps| && k < |run| && SetsOff(run[k], steps[k], p)
  }

  ghost predicate InPhases(s: State, p: Pid, phases: set<Phase>) { p in s.ops && s.ops[p].phase in phases }

  lemma {:induction false} TookMore(steps: seq<Step>, i: nat, step: Step)
    requires 0 < i <= |steps|
    ensures Took(steps, i, step) <==> Took(steps, i - 1, step) || steps[i - 1] == step
  {
  }

  lemma {:induction false} SetOffMore(run: seq<State>, steps: seq<Step>, i: nat, p: Pid)
    requires 0 < i <= |steps| && i <= |run|
    ensures WasSetOff(run, steps, i, p) <==> WasSetOff(run, steps, i - 1, p) || SetsOff(run[i - 1], steps[i - 1], p)
  {
    hide SetsOff;
  }

  /** The phase as the steps so far make it. */
  ghost predicate LivesBy(s: State, p: Pid, admitted: bool, built: bool, failed: bool, setOff: bool, finished: bool) {
    && (admitted <==> InPhases(s, p, {Building, Built}) || (p in s.ops && (built || failed)))
    && (InPhases(s, p, {Building}) <==> admitted && !built && !failed)
    && (InPhases(s, p, {Built}) <==> built && !setOff)
    && (InPhases(s, p, {Releasing, Over}) <==> setOff)
    && (InPhases(s, p, {Over}) <==> finished)
    && (admitted || setOff ==> p in s.ops)
    && ((built || failed) ==> admitted) && (failed ==> setOff) && !(built && failed)
  }

  lemma {:induction false} LifeStep(s: State, step: Step, p: Pid, admitted: bool, built: bool, failed: bool,
          setOff: bool, finished: bool)
    requires Enabled(s, step) && LivesBy(s, p, admitted, built, failed, setOff, finished)
    requires p in s.ops ==> HoldsLimited(s.caps, s.ops[p])
    ensures LivesBy(After(s, step), p, admitted || step == Admit(p), built || step == Build(p, false),
        failed || step == Build(p, true), setOff || SetsOff(s, step, p), finished || step == Finish(p))
  {
    if step.p != p {
      hide After, Enabled, HoldsLimited;
      OthersStep(s, step, p);
    } else {
      OwnLifeStep(s, step, admitted, built, failed, setOff, finished);
    }
  }

  lemma {:induction false} OwnLifeStep(s: State, step: Step, admitted: bool, built: bool, failed: bool, setOff: bool,
          finished: bool)
    requires Enabled(s, step) && LivesBy(s, step.p, admitted, built, failed, setOff, finished)
    requires step.p in s.ops ==> HoldsLimited(s.caps, s.ops[step.p])
    ensures LivesBy(After(s, step), step.p, admitted || step.Admit?, built || (step.Build? && !step.panics),
        failed || (step.Build? && step.panics), setOff || SetsOff(s, step, step.p), finished || step.Finish?)
  {
    hide Limited, Occupied, Taking, Giving;
    match step
    case Start(_, _) =>
    case Take(_) => TakenPhase(s, step.p);
    case Admit(_) =>
    case Build(_, _) =>
    case Call(_) =>
    case CallAgain(_) =>
    case Give(_, f) => GivenPhase(s, step.p, f);
    case Finish(_) =>
  }

  lemma {:induction false} TakenPhase(s: State, p: Pid)
    requires Enabled(s, Take(p))
    ensures var op := After(s, Take(p)).ops[p];
      if Refused(s, Take(p), p) then op.phase == Releasing else op.phase.Acquiring?
  {
  }

  lemma {:induction false} GivenPhase(s: State, p: Pid, f: Field)
    requires Enabled(s, Give(p, f))
    ensures After(s, Give(p, f)).ops[p].phase == Releasing
  {
  }

  lemma {:induction false} LifeOf(run: seq<State>, steps: seq<Step>, i: nat, p: Pid)
    requires IsRun(run, steps) && i <= |steps|
    ensures LivesBy(run[i], p, Took(steps, i, Admit(p)), Took(steps, i, Build(p, false)),
        Took(steps, i, Build(p, true)), WasSetOff(run, steps, i, p), Took(steps, i, Finish(p)))
  {
    hide Enabled, After, LivesBy, SetsOff, Took, WasSetOff;
    if i == 0 {
      NothingYet(run, steps, p);
    } else {
      LifeOf(run, steps, i - 1, p);
      if p in run[i - 1].ops {
        AdmittedHoldsAll(run, steps, i - 1, p);
      }
      LifeStep(run[i - 1], steps[i - 1], p, Took(steps, i - 1, Admit(p)), Took(steps, i - 1, Build(p, false)),
          Took(steps, i - 1, Build(p, true)), WasSetOff(run, steps, i - 1, p), Took(steps, i - 1, Finish(p)));
      TookMore(steps, i, Admit(p));
      TookMore(steps, i, Build(p, false));
      TookMore(steps, i, Build(p, true));
      TookMore(steps, i, Finish(p));
      SetOffMore(run, steps, i, p);
    }
  }

  lemma {:induction false} NothingYet(run: seq<State>, steps: seq<Step>, p: Pid)
    requires IsRun(run, steps)
    ensures LivesBy(run[0], p, Took(steps, 0, Admit(p)), Took(steps, 0, Build(p, false)),
        Took(steps, 0, Build(p, true)), WasSetOff(run, steps, 0, p), Took(steps, 0, Finish(p)))
  {
  }

  /** In every run, exactly when: an operation is handing back or over if and only if it was refused a
      slot, its handler panicked while it was built, or its handler was called; it can be called if and
      only if its handler was built and has not been called; and it is over if and only if it has
      handed everything back. */
  lemma {:induction false} PhaseHasCause(run: seq<State>, steps: seq<Step>, i: nat, p: Pid)
    requires IsRun(run, steps) && i <= |steps|
    ensures InPhases(run[i], p, {Releasing, Over}) <==> WasSetOff(run, steps, i, p)
    ensures Enabled(run[i], Call(p)) <==> Took(steps, i, Build(p, false)) && !WasSetOff(run, steps, i, p)
    ensures Enabled(run[i], Build(p, true)) <==>
      Took(steps, i, Admit(p)) && !Took(steps, i, Build(p, false)) && !Took(steps, i, Build(p, true))
    ensures InPhases(run[i], p, {Over}) <==> Took(steps, i, Finish(p))
  {
    hide Took, WasSetOff;
    LifeOf(run, steps, i, p);
    if p in run[i].ops {
      AdmittedHoldsAll(run, steps, i, p);
    }
  }

  // ---- Handing back completes ----

  /** Taken one after the other from s these steps end in s'. */
  ghost predicate Leads(s: State, steps: seq<Step>, s': State)
    decreases |steps|
  {
    if steps == [] then s' == s else Enabled(s, steps[0]) && Leads(After(s, steps[0]), steps[1..], s')
  }

  lemma {:induction false} OneStepMore(s: State, step: Step, rest: seq<Step>, s': State)
    requires Enabled(s, step) && Leads(After(s, step), rest, s')
    ensures Leads(s, [step] + rest, s')
  {
    hide Enabled, After;
    assert ([step] + rest)[1..] == rest;
  }

  lemma {:induction false} GiveOne(s: State, p: Pid, f: Field, other: Field)
    requires Enabled(s, Give(p, f)) && Occupied(s, f) > 0
    ensures var s' := After(s, Give(p, f));
      && p in s'.ops && s'.ops[p].phase == Releasing && s'.ops[p].held == s.ops[p].held - {f}
      && (forall q :: q != p ==> (q in s'.ops <==> q in s.ops) && (q in s.ops ==> s'.ops[q] == s.ops[q]))
      && Occupied(s', other) == Occupied(s, other) - (if other == f then 1 else 0)
  {
  }

  lemma {:induction false} FinishOne(s: State, p: Pid, s': State)
    requires Enabled(s, Finish(p)) && s' == After(s, Finish(p))
    ensures Leads(s, [Finish(p)], s') && p in s'.ops && s'.ops[p].phase == Over && s'.occupied == s.occupied
    ensures forall q :: q != p ==> (q in s'.ops <==> q in s.ops) && (q in s.ops ==> s'.ops[q] == s.ops[q])
  {
    assert [Finish(p)][1..] == [];
  }

  /** Whatever the others do or do not do: an operation that hands back can go on by its own steps to
      its end, each slot it held is free again, and nothing else has changed. */
  lemma {:induction false} HandsBackAll(s: State, p: Pid) returns (steps: seq<Step>, s': State)
    requires Inv(s) && p in s.ops && s.ops[p].phase == Releasing
    ensures Leads(s, steps, s') && p in s'.ops && s'.ops[p].phase == Over
    ensures forall q :: q != p ==> (q in s'.ops <==> q in s.ops) && (q in s.ops ==> s'.ops[q] == s.ops[q])
    ensures forall f :: Occupied(s', f) == Occupied(s, f) - (if f in s.ops[p].held then 1 else 0)
    decreases s.ops[p].held
  {
    hide Leads, After, Occupied, Accounted, Conserved, WithinCaps;
    if s.ops[p].held == {} {
      s' := After(s, Finish(p));
      steps := [Finish(p)];
      FinishOne(s, p, s');
      forall f
        ensures Occupied(s', f) == Occupied(s, f)
      {
        OccupiedKept(s, s', f);
      }
    } else {
      var f :| f in s.ops[p].held;
      HeldIsOccupied(s, p, f);
      var next := After(s, Give(p, f));
      forall g
        ensures Occupied(next, g) == Occupied(s, g) - (if g == f then 1 else 0)
      {
        GiveOne(s, p, f, g);
      }
      GiveOne(s, p, f, f);
      InvStep(s, Give(p, f));
      var rest;
      rest, s' := HandsBackAll(next, p);
      steps := [Give(p, f)] + rest;
      OneStepMore(s, Give(p, f), rest, s');
    }
  }

  lemma {:induction false} HeldIsOccupied(s: State, p: Pid, f: Field)
    requires Inv(s) && p in s.ops && f in s.ops[p].held
    ensures Occupied(s, f) > 0
  {
    assert p in Holders(s.ops, f);
    assert Occupied(s, f) == |Holders(s.ops, f)|;
  }

  lemma {:induction false} InvStep(s: State, step: Step)
    requires Inv(s) && Enabled(s, step)
    ensures Inv(After(s, step))
  {
    hide Conserved, WithinCaps, Accounted, After;
    ConservedStep(s, step);
    forall p | p in After(s, step).ops
      ensures Accounted(After(s, step).ops[p])
    {
      AccountedStep(s, step, p);
    }
  }
}

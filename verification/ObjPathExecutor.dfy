/** The executor that follows a schedule of null and non-null results. */
module ObjPathExecutor {
  import opened Wrappers
  import opened Instructions
  import opened ObjState
  import opened ObjHelpers
  import opened ObjSemantics
  import opened ObjSafeExecutor

  datatype PathChoice = NonNull | AsNull

  /** The new state, if there is one, and the choices left. */
  datatype PathStep = PathStep(next: Option<State>, rest: seq<PathChoice>)

  /** A nullable helper consumes the first choice of the schedule; an empty schedule means non-null. */
  function ExecHelperPath(st0: State, spec: HelperSpec, sched: seq<PathChoice>): PathStep {
    var st := ApplyEffect(st0, spec.effect);
    var rest := if sched == [] then [] else sched[1..];
    var asNull := sched != [] && sched[0].AsNull?;
    match spec.ret
    case RetMapPtr =>
      PathStep(Some(if asNull then st.SetReg(0, Null) else Populate(ReturnMapPtr(st), st.nextMapId)), rest)
    case RetRingBufPtr =>
      PathStep(Some(if asNull then st.SetReg(0, Null) else ReturnRingBufPtr(st)), rest)
    case RetScalar => PathStep(Some(st.SetReg(0, Scalar(0))), sched)
    case RetErrorCode => PathStep(Some(st.SetReg(0, Scalar(0))), sched)
  }

  function ExecInsnPath(st: State, insn: Insn, sched: seq<PathChoice>): PathStep {
    if insn.CallHelper? then
      var spec := GetHelperSpec(insn.helper);
      if spec.None? then PathStep(None, sched) else ExecHelperPath(st, spec.value, sched)
    else PathStep(ExecInsn(st, insn), sched)
  }

  function ExecProgramPath(st: State, prog: Program, fuel: nat, sched: seq<PathChoice>): Option<State>
    decreases fuel
  {
    if fuel == 0 then None
    else
      var insn := Fetch(prog, st.pc);
      if insn.None? then None
      else if insn.value.Halt? then Some(st)
      else
        var step := ExecInsnPath(st, insn.value, sched);
        if step.next.None? then None else ExecProgramPath(step.next.value, prog, fuel - 1, step.rest)
  }

  predicate AllNonNull(sched: seq<PathChoice>) {
    forall i :: 0 <= i < |sched| ==> sched[i].NonNull?
  }

  lemma NonNullStep(st: State, insn: Insn, sched: seq<PathChoice>)
    requires AllNonNull(sched)
    ensures ExecInsnPath(st, insn, sched).next == ExecInsn(st, insn) && AllNonNull(ExecInsnPath(st, insn, sched).rest)
  {
    hide GetHelperSpec, ApplyEffect, Populate;
  }

  /** A schedule without nulls, of whatever length, follows the plain executor: it may be empty or run out. */
  lemma {:induction false} NonNullSchedule(st: State, prog: Program, fuel: nat, sched: seq<PathChoice>)
    requires AllNonNull(sched)
    ensures ExecProgramPath(st, prog, fuel, sched) == ExecProgram(st, prog, fuel)
    decreases fuel
  {
    hide ExecInsn, ExecInsnPath, AllNonNull;
    if fuel > 0 {
      var insn := Fetch(prog, st.pc);
      if insn.Some? && !insn.value.Halt? {
        NonNullStep(st, insn.value, sched);
        var step := ExecInsnPath(st, insn.value, sched);
        if step.next.Some? {
          NonNullSchedule(step.next.value, prog, fuel - 1, step.rest);
        }
      }
    }
  }

  /** Choices beyond the fuel are never consulted. */
  lemma {:induction false} UnusedChoices(st: State, prog: Program, fuel: nat, sched: seq<PathChoice>,
          more: seq<PathChoice>)
    requires fuel <= |sched| && sched <= more
    ensures ExecProgramPath(st, prog, fuel, more) == ExecProgramPath(st, prog, fuel, sched)
    decreases fuel
  {
    hide ExecInsn, ExecInsnPath;
    if fuel > 0 {
      var insn := Fetch(prog, st.pc);
      if insn.Some? && !insn.value.Halt? {
        SameChoice(st, insn.value, sched, more);
        var step := ExecInsnPath(st, insn.value, sched);
        if step.next.Some? {
          UnusedChoices(step.next.value, prog, fuel - 1, step.rest, ExecInsnPath(st, insn.value, more).rest);
        }
      }
    }
  }

  lemma SameChoice(st: State, insn: Insn, sched: seq<PathChoice>, more: seq<PathChoice>)
    requires 0 < |sched| && sched <= more
    ensures ExecInsnPath(st, insn, more).next == ExecInsnPath(st, insn, sched).next
    ensures ExecInsnPath(st, insn, sched).rest <= ExecInsnPath(st, insn, more).rest
    ensures |sched| - 1 <= |ExecInsnPath(st, insn, sched).rest|
  {
    hide GetHelperSpec, ApplyEffect, Populate;
  }

  ghost predicate SatisfiesPath(prog: Program, spec: BpfSpec, sched: seq<PathChoice>) {
    forall init: State :: spec.pre(init) ==> PostHolds(spec, ExecProgramPath(StartOf(init), prog, |prog|, sched))
  }

  /** What is proved along a schedule without nulls is true of the plain executor, and conversely. */
  lemma PathSound(prog: Program, spec: BpfSpec, sched: seq<PathChoice>)
    requires AllNonNull(sched)
    ensures SatisfiesPath(prog, spec, sched) <==> Satisfies(prog, spec)
  {
    hide ExecProgramPath, ExecProgram, AllNonNull;
    forall init: State
      ensures ExecProgramPath(StartOf(init), prog, |prog|, sched) == ExecProgram(StartOf(init), prog, |prog|)
    {
      NonNullSchedule(StartOf(init), prog, |prog|, sched);
    }
  }
}

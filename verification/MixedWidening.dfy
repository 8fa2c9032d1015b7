/** An accepted loop whose widening keeps a scalar where a pointer arrives, so that a run leaves the loop with a pointer
    in a register the checker takes for the constant zero. */
module MixedWidening {
  import opened Wrappers
  import opened Words
  import opened Tnums
  import opened Instructions
  import opened HelperTable
  import opened RegStates
  import opened WideningProofs
  import opened AbstractStates
  import opened ControlFlow
  import opened Transfer
  import opened Certificates
  import opened Exploration
  import opened DepthFirst
  import opened Machine
  import opened AluSoundness
  import opened AcceptedPrograms

  /** r2 is zero before the loop and the frame pointer after one round of it; the loop ends when r0 is zero. */
  function Mixed(): Program {
    [Insn(Call, 0, 5),
     Insn(Alu64(MOV, FromImm), 0, 0).(dst := 2),
     Insn(Jmp64(JEQ, FromImm), 3, 0),
     Insn(Alu64(MOV, FromReg), 0, 0).(dst := 2, src := 10),
     Insn(Alu64(MOV, FromImm), 0, 0),
     Insn(JmpJa, -4, 0),
     Insn(Alu64(MOV, FromReg), 0, 0).(src := 2),
     Insn(Exit, 0, 0)]
  }

  // --- The states ---

  /** What the loop head makes of an unknown r0 and a zero one. */
  function Either(): RegState { ScalarUnknown().Widen(Zero()) }

  function MixedRegs(r0: RegState, r2: RegState): Regs { Holding(r0, r2, UninitReg()) }

  function MixedAt(pc: nat, r0: RegState, r2: RegState): Config { Config(pc, MixedRegs(r0, r2), EmptyFrame()) }

  lemma MixedTargets()
    ensures Target(Mixed(), 2, 3) == Some(6) && Target(Mixed(), 5, -4) == Some(2) && IsLoopHead(Mixed(), 2)
    ensures IsTarget(Mixed(), 2, 3, 6) && IsTarget(Mixed(), 5, -4, 2)
  {
    var prog := Mixed();
    assert RawPc(prog, 2) == 2;
    assert RawPc(prog, 4) == 4;
    assert RawPc(prog, 6) == 6;
    assert IsTarget(prog, 2, 3, 6) && IsTarget(prog, 5, -4, 2);
    TargetUnique(prog, 2, 3, 6, Target(prog, 2, 3).value);
    TargetUnique(prog, 5, -4, 2, Target(prog, 5, -4).value);
    assert JumpsBack(prog, 5, 2);
  }

  lemma CallStep(relocs: map<nat, Reloc>)
    ensures Step(Mixed(), relocs, EntryConfig(), 0) == Continues(MixedAt(1, ScalarUnknown(), UninitReg()))
  {
    hide AluResult, RefineBranch, LoadResult, StoreResult, WideLoad, StepAlu, StepBranch, CheckExit;
  }

  lemma MoveSteps(relocs: map<nat, Reloc>, r0: RegState, r2: RegState)
    requires r0.kind.Scalar? && !r2.kind.Uninit?
    ensures Step(Mixed(), relocs, MixedAt(1, r0, UninitReg()), 0) == Continues(MixedAt(2, r0, Zero()))
    ensures Step(Mixed(), relocs, MixedAt(3, r0, r2), 0) == Continues(MixedAt(4, r0, FramePointer(0)))
    ensures Step(Mixed(), relocs, MixedAt(4, r0, r2), 0) == Continues(MixedAt(5, Zero(), r2))
    ensures Step(Mixed(), relocs, MixedAt(6, r0, r2), 0) == Continues(MixedAt(7, r2, r2))
  {
    hide ImmOperand, ScalarValue, EmptyFrame, LoadResult, StoreResult, WideLoad, RefineBranch;
  }

  lemma JumpSteps(relocs: map<nat, Reloc>, r0: RegState, r2: RegState)
    requires r0.kind.Scalar?
    ensures Step(Mixed(), relocs, MixedAt(2, r0, r2), 0) == Splits(MixedAt(6, Zero(), r2), MixedAt(3, r0, r2))
    ensures Step(Mixed(), relocs, MixedAt(5, r0, r2), 0) == Continues(MixedAt(2, r0, r2))
    ensures Step(Mixed(), relocs, MixedAt(7, r0, r2), 0).Exits?
  {
    hide ImmOperand, ScalarValue, EmptyFrame, LoadResult, StoreResult, WideLoad, AluResult, Target, U;
    MixedTargets();
  }

  lemma EitherIsUnknown()
    ensures Either().kind.Scalar? && Either().IsSubstateOf(ScalarUnknown())
  {
    hide U, Or, And, JoinMask, B;
    WithinUnknown(Either().tnum);
  }

  /** At the second arrival the loop head keeps the zero that r2 held before the loop. */
  lemma HeadWidens()
    ensures WidenRegs(MixedRegs(ScalarUnknown(), Zero()), MixedRegs(Zero(), FramePointer(0)))
         == MixedRegs(Either(), Zero())
    ensures WidenFrame(EmptyFrame(), EmptyFrame()) == EmptyFrame()
    ensures !RegsWithin(MixedRegs(Zero(), FramePointer(0)), MixedRegs(ScalarUnknown(), Zero()))
  {
    hide RegState.Hull, RegState.Refined, ImmOperand, U, S;
    assert !MixedRegs(Zero(), FramePointer(0))[2].IsSubstateOf(MixedRegs(ScalarUnknown(), Zero())[2]);
  }

  lemma EitherIsWithin()
    ensures RegsWithin(MixedRegs(Either(), Zero()), MixedRegs(ScalarUnknown(), Zero()))
    ensures FrameWithin(EmptyFrame(), EmptyFrame())
  {
    hide RegState.IsSubstateOf, ScalarUnknown, Either;
    EitherIsUnknown();
    SubsumesItself(MixedAt(3, Zero(), Zero()));
    var a, b, c := MixedRegs(Either(), Zero()), MixedRegs(ScalarUnknown(), Zero()), MixedRegs(Zero(), Zero());
    forall i | 0 <= i < 11
      ensures a[i].IsSubstateOf(b[i])
    {
      assert c[i].IsSubstateOf(c[i]);
    }
  }

  // --- The exploration ---

  ghost function MixedTrace(): seq<Visit> {
    [Visit(EntryConfig(), 0), Visit(MixedAt(1, ScalarUnknown(), UninitReg()), 0),
     Visit(MixedAt(2, ScalarUnknown(), Zero()), 0),
     Visit(MixedAt(3, ScalarUnknown(), Zero()), 0), Visit(MixedAt(4, ScalarUnknown(), FramePointer(0)), 0),
     Visit(MixedAt(5, Zero(), FramePointer(0)), 0), Visit(MixedAt(2, Either(), Zero()), 0),
     Visit(MixedAt(6, Zero(), Zero()), 0),
     Visit(MixedAt(7, Zero(), Zero()), 0)]
  }

  lemma ZeroIsScalar()
    ensures Zero().kind.Scalar? && ScalarUnknown().kind.Scalar? && FramePointer(0).kind.FramePtr?
    ensures Either().kind.Scalar?
  {
    EitherIsUnknown();
    hide ImmOperand, S, U, Either;
  }

  /** After the first round of the loop, back at its head. */
  ghost function SecondArrival(): Progress {
    Progress(Some(MixedAt(2, Zero(), FramePointer(0))), [MixedAt(6, Zero(), Zero())],
             [Only(EntryConfig()), Only(MixedAt(1, ScalarUnknown(), UninitReg())),
              Only(MixedAt(2, ScalarUnknown(), Zero())),
              Only(MixedAt(3, ScalarUnknown(), Zero())), Only(MixedAt(4, ScalarUnknown(), FramePointer(0))),
                    Only(MixedAt(5, Zero(), FramePointer(0))),
              [], []],
             0, 6, MixedTrace()[..6])
  }

  /** Into the loop, */
  lemma FirstRound(relocs: map<nat, Reloc>)
    ensures var p := Along(Mixed(), MixedTrace(), 5, [MixedAt(6, Zero(), Zero())]);
            p.Fits(Mixed()) && Explore(Mixed(), relocs, Begun(Mixed())) == Explore(Mixed(), relocs, p)
  {
    hide Step, EmptyFrame, EntryConfig, ScalarValue, RegState.Widen, ImmOperand, MixedRegs, Explore, Zero, FramePointer;
    hide Either;
    hide ScalarUnknown;
    hide Along;
    var prog, t, later := Mixed(), MixedTrace(), MixedAt(6, Zero(), Zero());
    ZeroIsScalar();
    EntryIsFirst();
    AtStart(prog, t);
    CallStep(relocs);
    MoveSteps(relocs, ScalarUnknown(), Zero());
    MoveSteps(relocs, ScalarUnknown(), FramePointer(0));
    JumpSteps(relocs, ScalarUnknown(), Zero());
    assert [] + [later] == [later];
    AlongNext(prog, relocs, t, 0, [], Continues(t[1].at));
    AlongNext(prog, relocs, t, 1, [], Continues(t[2].at));
    AlongNext(prog, relocs, t, 2, [], Splits(later, t[3].at));
    AlongNext(prog, relocs, t, 3, [later], Continues(t[4].at));
    AlongNext(prog, relocs, t, 4, [later], Continues(t[5].at));
  }

  /** and back to its head. */
  lemma BackToHead(relocs: map<nat, Reloc>)
    ensures SecondArrival().Fits(Mixed())
    ensures Explore(Mixed(), relocs, Begun(Mixed())) == Explore(Mixed(), relocs, SecondArrival())
  {
    hide Step, EmptyFrame, EntryConfig, ScalarValue, RegState.Widen, ImmOperand, MixedRegs, Explore, Zero, FramePointer;
    hide Either;
    hide ScalarUnknown;
    var prog, t, later := Mixed(), MixedTrace(), MixedAt(6, Zero(), Zero());
    ZeroIsScalar();
    EntryIsFirst();
    FirstRound(relocs);
    JumpSteps(relocs, Zero(), FramePointer(0));
    assert t[..6] == t[..5] + [t[5]];
    assert SecondArrival().explored == Along(prog, t, 5, [later]).explored[5 := Only(t[5].at)];
    OneVisit(prog, relocs, Along(prog, t, 5, [later]), SecondArrival(), Continues(MixedAt(2, Zero(), FramePointer(0))));
  }

  /** What is remembered once the loop head was widened. */
  ghost function Settled(): seq<seq<Explored>> {
    SecondArrival().explored[2 := Only(MixedAt(2, Either(), Zero()))]
  }

  lemma HeadVisit(relocs: map<nat, Reloc>)
    ensures var q := Progress(Some(MixedAt(3, Either(), Zero())),
                              [MixedAt(6, Zero(), Zero()), MixedAt(6, Zero(), Zero())], Settled(),
              0, 7,
                              MixedTrace()[..7]);
            q.Fits(Mixed()) && Explore(Mixed(), relocs, SecondArrival()) == Explore(Mixed(), relocs, q)
  {
    hide Step, EmptyFrame, EntryConfig, ScalarValue, RegState.Widen, ImmOperand, MixedRegs, Explore, Zero, FramePointer;
    hide Either;
    hide ScalarUnknown, WidenRegs, WidenFrame, RegsWithin, IsLoopHead, FrameWithin;
    var prog, p, c := Mixed(), SecondArrival(), MixedAt(2, Zero(), FramePointer(0));
    ZeroIsScalar();
    MixedTargets();
    HeadWidens();
    JumpSteps(relocs, Either(), Zero());
    BackToHead(relocs);
    assert forall e :: e in p.explored[2] ==> e == Explored(MixedRegs(ScalarUnknown(), Zero()), EmptyFrame());
    VisitsNext(prog, relocs, p);
    assert Widened(prog, p.explored, c) == MixedAt(2, Either(), Zero());
    assert Only(MixedAt(2, ScalarUnknown(), Zero()))[0 := Explored(MixedRegs(Either(), Zero()), EmptyFrame())]
        == Only(MixedAt(2, Either(), Zero()));
    assert p.trace + [Visit(MixedAt(2, Either(), Zero()), 0)] == MixedTrace()[..7];
    assert p.backtrack + [MixedAt(6, Zero(), Zero())] == [MixedAt(6, Zero(), Zero()), MixedAt(6, Zero(), Zero())];
  }

  lemma LastRounds(relocs: map<nat, Reloc>)
    ensures var last := Explore(Mixed(), relocs, SecondArrival()); last.trace == MixedTrace() && last.visited == 11
  {
    hide Step, EmptyFrame, EntryConfig, ScalarValue, RegState.Widen, ImmOperand, MixedRegs, Explore, Zero, FramePointer;
    hide Either;
    hide ScalarUnknown, RegsWithin, FrameWithin;
    var prog, t, later := Mixed(), MixedTrace(), MixedAt(6, Zero(), Zero());
    ZeroIsScalar();
    HeadVisit(relocs);
    EitherIsWithin();
    MoveSteps(relocs, Zero(), Zero());
    JumpSteps(relocs, Zero(), Zero());
    SubsumesItself(later);
    BackToHead(relocs);
    var p7 := Progress(Some(MixedAt(3, Either(), Zero())), [later, later], Settled(), 0, 7, t[..7]);
    var p8 := Progress(Some(later), [later], Settled(), 0, 8, t[..7]);
    var p9 := Progress(Some(MixedAt(7, Zero(), Zero())), [later], Settled()[6 := Only(later)], 0, 9, t[..8]);
    var p10 := Progress(None, [later], p9.explored[7 := Only(MixedAt(7, Zero(), Zero()))], 0, 10, t);
    var p11 := p10.(current := Some(later), backtrack := []);
    assert Dominates(p7.explored[3][0], MixedRegs(Either(), Zero()), EmptyFrame());
    Resumes(prog, relocs, p7, p8);
    OneVisit(prog, relocs, p8, p9, Continues(MixedAt(7, Zero(), Zero())));
    OneVisit(prog, relocs, p9, p10, Exits);
    Resumes(prog, relocs, p10, p11);
    assert Dominates(p11.explored[6][0], later.regs, later.frame);
    ResumesFrom(prog, relocs, p11, p11.(visited := 11));
  }

  lemma MixedIsClean(relocs: map<nat, Reloc>)
    ensures NoFailure(Mixed(), relocs, Visited(MixedTrace())) && ReachesExit(Mixed(), MixedTrace())
  {
    hide Step, EmptyFrame, EntryConfig, ScalarValue, RegState.Widen, ImmOperand, MixedRegs, Zero, FramePointer, Either;
    hide ScalarUnknown;
    ZeroIsScalar();
    EntryIsFirst();
    CallStep(relocs);
    MoveSteps(relocs, ScalarUnknown(), Zero());
    MoveSteps(relocs, ScalarUnknown(), FramePointer(0));
    MoveSteps(relocs, Zero(), Zero());
    JumpSteps(relocs, ScalarUnknown(), Zero());
    JumpSteps(relocs, Zero(), FramePointer(0));
    JumpSteps(relocs, Either(), Zero());
    JumpSteps(relocs, Zero(), Zero());
    assert Visit(MixedAt(7, Zero(), Zero()), 0) in MixedTrace();
  }

  // --- A run ---

  /** A clock value of one keeps the loop going once; `v` is what the frame pointer holds. */
  function MixedRun(values: Values): seq<State> {
    var zero, v := ImmOperand(0, true), values[10];
    var head, back := values[0 := 1][2 := zero], values[0 := zero][2 := v];
    [State(0, values), State(1, values[0 := 1]), State(2, head), State(3, head), State(4, values[0 := 1][2 := v]),
     State(5, back), State(2, back), State(6, back), State(7, back[0 := v])]
  }

  lemma MovesRun(relocated: set<nat>, regs: Values)
    ensures Steps(Mixed(), relocated, State(1, regs), State(2, regs[2 := ImmOperand(0, true)]))
    ensures Steps(Mixed(), relocated, State(3, regs), State(4, regs[2 := regs[10]]))
    ensures Steps(Mixed(), relocated, State(4, regs), State(5, regs[0 := ImmOperand(0, true)]))
    ensures Steps(Mixed(), relocated, State(6, regs), State(7, regs[0 := regs[2]]))
  {
    hide ImmOperand, Steps;
    MoveRuns(Mixed(), relocated, State(1, regs), FromImm);
    MoveRuns(Mixed(), relocated, State(3, regs), FromReg);
    MoveRuns(Mixed(), relocated, State(4, regs), FromImm);
    MoveRuns(Mixed(), relocated, State(6, regs), FromReg);
  }

  lemma JumpsRun(relocated: set<nat>, regs: Values)
    ensures regs[0] != ImmOperand(0, true) ==> Steps(Mixed(), relocated, State(2, regs), State(3, regs))
    ensures regs[0] == ImmOperand(0, true) ==> Steps(Mixed(), relocated, State(2, regs), State(6, regs))
    ensures Steps(Mixed(), relocated, State(5, regs), State(2, regs))
    ensures Steps(Mixed(), relocated, State(0, regs), State(1, regs[0 := 1]))
  {
    hide ImmOperand, IsTarget;
    MixedTargets();
  }

  lemma MixedRuns(relocs: map<nat, Reloc>, values: Values)
    ensures IsRun(Mixed(), relocs.Keys, MixedRun(values))
  {
    hide ImmOperand, Steps;
    ImmediateZero();
    var run, zero := MixedRun(values), ImmOperand(0, true);
    var head, out := values[0 := 1][2 := zero], values[0 := 1][2 := values[10]];
    assert head[2 := head[10]] == out && out[0 := zero] == values[0 := zero][2 := values[10]];
    JumpsRun(relocs.Keys, values);
    MovesRun(relocs.Keys, values[0 := 1]);
    JumpsRun(relocs.Keys, head);
    MovesRun(relocs.Keys, head);
    MovesRun(relocs.Keys, out);
    JumpsRun(relocs.Keys, run[5].regs);
    MovesRun(relocs.Keys, run[7].regs);
    forall i | 0 <= i < 8
      ensures Steps(Mixed(), relocs.Keys, run[i], run[i + 1])
    {
      assert i in {0, 1, 2, 3, 4, 5, 6, 7};
    }
  }

  lemma MixedAccepted(relocs: map<nat, Reloc>)
    ensures Accepts(Mixed(), relocs, MixedTrace())
  {
    hide Explore, NoFailure, ReachesExit, Accepts, EntryConfig, EmptyFrame, MixedRegs, Zero, Either;
    BackToHead(relocs);
    LastRounds(relocs);
    MixedIsClean(relocs);
    EndsAccepted(Mixed(), relocs, Explore(Mixed(), relocs, SecondArrival()));
  }

  lemma NowhereInMixed(regs: Values)
    ensures regs[2] != 0 ==> NowhereRepresented(MixedTrace(), State(6, regs))
    ensures regs[0] != 0 ==> NowhereRepresented(MixedTrace(), State(7, regs))
  {
    hide ImmOperand, EntryConfig, EmptyFrame, Zero, Either, FramePointer, ScalarUnknown, RegState.Contains;
    EntryIsFirst();
    if regs[2] != 0 {
      OnlyZero(regs[2]);
      assert !Admits(MixedRegs(Zero(), Zero())[2], regs[2]);
    }
    if regs[0] != 0 {
      OnlyZero(regs[0]);
      assert !Admits(MixedRegs(Zero(), Zero())[0], regs[0]);
    }
  }

  /** The program is accepted; a run leaves the loop with the frame pointer in r2, which every state visited there takes
      for zero, and returns it. */
  lemma AcceptedButMixed(relocs: map<nat, Reloc>, values: Values)
    requires values[10] != 0
    ensures Accepts(Mixed(), relocs, MixedTrace()) && IsRun(Mixed(), relocs.Keys, MixedRun(values))
    ensures NowhereRepresented(MixedTrace(), MixedRun(values)[7])
    ensures var last := MixedRun(values)[8];
            Mixed()[last.pc].opcode.Exit? && last.regs[0] == values[10] && NowhereRepresented(MixedTrace(), last)
  {
    hide Accepts, IsRun, ImmOperand, MixedTrace, NowhereRepresented;
    MixedAccepted(relocs);
    MixedRuns(relocs, values);
    NowhereInMixed(MixedRun(values)[7].regs);
    NowhereInMixed(MixedRun(values)[8].regs);
  }

  lemma OnlyZero(v: bv64)
    requires v != 0
    ensures Zero().kind.Scalar? && !Zero().Contains(v)
  {
    hide U, ImmOperand, Member;
    ImmediateZero();
    KnownMembers(Tnum.Constant(0), v);
  }
}

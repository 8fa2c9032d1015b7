/** Accepted programs that mark the limits of acceptance, each with the visits the checker really makes: programs whose
    values leave the states visited, and programs whose control leaves the instructions visited. */
module AcceptedPrograms {
  import opened Wrappers
  import opened Words
  import opened Tnums
  import TnumProofs
  import opened Instructions
  import opened HelperTable
  import opened RegStates
  import opened WideningProofs
  import opened AbstractStates
  import opened ControlFlow
  import opened Transfer
  import opened Certificates
  import opened Exploration
  import opened DepthFirst
  import opened Machine
  import opened AluSoundness
  import opened OffsetForms
  import opened ValueSoundness
  import ScalarPrograms

  function Insn(opcode: Opcode, offset: I16, imm: I32): BpfInsn {
    BpfInsn(opcode, 0, 0, offset, imm, None)
  }

  /** Each visit of an accepted program at `pc` leaves out some value that these registers hold. */
  ghost predicate NowhereRepresented(trace: seq<Visit>, s: State) {
    forall v :: v in trace && v.at.pc == s.pc ==> !Represents(v.at.regs, s.regs)
  }

  // --- States and steps that several programs go through ---

  function Zero(): RegState { ScalarValue(ImmOperand(0, true)) }

  function FramePointer(offset: I64): RegState { AnyValue(FramePtr(offset)) }

  /** r0, r2 and r6 hold something, and beside them only the frame pointer. */
  function Holding(r0: RegState, r2: RegState, r6: RegState): Regs {
    var u := UninitReg();
    [r0, u, r2, u, u, u, r6, u, u, u, FramePointer(0)]
  }

  lemma ImmediateZero()
    ensures ImmOperand(0, true) == 0 && U(ImmOperand(0, true)) == 0
  {
    hide U, B;
    ImmediateValue(0, true);
    UZero(ImmOperand(0, true));
  }

  lemma WithinUnknown(t: Tnum)
    ensures t.Within(Tnum.Unknown())
  {}

  lemma FrameArgument()
    ensures MovePointer(FramePtr(0), Some(S(ImmOperand(-8, true)))) == FramePtr(-8)
  {
    hide U, B;
    CastsAgree(0, -8);
  }

  /** Adding an immediate to a frame pointer. */
  lemma FrameAdd(regs: Regs, insn: BpfInsn)
    requires regs[insn.dst].kind == FramePtr(0)
    ensures AluResult(regs, insn, ADD, FromImm, true)
         == Success(AnyValue(MovePointer(FramePtr(0), Some(S(ImmOperand(insn.imm, true))))))
  {
    hide ImmOperand, S, U, MovePointer, DivisorMayBeZero, ShiftTooFar, ScalarResult;
  }

  // --- Values the visited states leave out: 64-bit addition ---

  /** Read a clock, add one, return. */
  function ClockProgram(): Program {
    [Insn(Call, 0, 5), Insn(Alu64(ADD, FromImm), 0, 1), Insn(Exit, 0, 0)]
  }

  lemma UnknownPlus(s: Tnum)
    ensures Tnum.Unknown().Add(s).mask == 0xFFFF_FFFF_FFFF_FFFF
  {
    hide Plus;
    MaskOfUnknown(Plus(0, s.value), Plus(Plus(0, s.value), Plus(0xFFFF_FFFF_FFFF_FFFF, s.mask)), s.mask);
  }

  lemma MaskOfUnknown(low: bv64, high: bv64, m: bv64)
    ensures SumMask(low, high, 0xFFFF_FFFF_FFFF_FFFF, m) == 0xFFFF_FFFF_FFFF_FFFF
  {}

  lemma AllUnknown()
    ensures !SignClear(0xFFFF_FFFF_FFFF_FFFF)
  {}

  /** The sum of an unknown 64-bit value and a constant is given contradictory bounds. */
  lemma SumIsEmpty(s: Tnum, v: bv64)
    ensures !ScalarResult(ADD, Tnum.Unknown(), s, true).Contains(v)
  {
    hide SignClear, FromTracked, RegState.Contains, Tnum.Add, Disjoint;
    UnknownPlus(s);
    AllUnknown();
    TnumProofs.AddWellFormed(Tnum.Unknown(), s);
    UnknownSignIsEmpty(Tnum.Unknown().Add(s), v);
  }

  /** The states the checker passes through. */
  function AfterClock(): Config {
    Config(1, AfterCall(EntryRegs(), ScalarUnknown()), EmptyFrame())
  }

  function ClockSum(): RegState {
    ScalarResult(ADD, Tnum.Unknown(), Tnum.Constant(ImmOperand(1, true)), true)
  }

  function AfterSum(): Config {
    Config(2, AfterClock().regs[0 := ClockSum()], EmptyFrame())
  }

  lemma ClockCall(relocs: map<nat, Reloc>)
    ensures Follows(ClockProgram(), relocs, Visit(EntryConfig(), 0), Visit(AfterClock(), 0))
  {
    hide AluResult, RefineBranch, LoadResult, StoreResult, WideLoad, StepAlu, StepBranch, CheckExit;
  }

  lemma ClockAdd(relocs: map<nat, Reloc>)
    ensures Follows(ClockProgram(), relocs, Visit(AfterClock(), 0), Visit(AfterSum(), 0))
  {
    hide ScalarResult, ImmOperand, RefineBranch, LoadResult, StoreResult, WideLoad, StepCall, StepBranch, CheckExit;
  }

  lemma ClockExit(relocs: map<nat, Reloc>)
    ensures Step(ClockProgram(), relocs, AfterSum(), 0).Exits?
  {
    hide ScalarResult, ImmOperand, AluResult, RefineBranch, LoadResult, StoreResult, WideLoad, StepCall, StepBranch;
    hide StepAlu;
    AluOnlyKind();
  }

  lemma AluOnlyKind()
    ensures ClockSum().kind.Scalar?
  {
    hide ScalarTnum, U, Low, ImmOperand, Or;
  }

  ghost function ClockTrace(): seq<Visit> {
    [Visit(EntryConfig(), 0), Visit(AfterClock(), 0), Visit(AfterSum(), 0)]
  }

  /** The program is accepted, and yet no run's value at the exit lies in the state visited there: the side condition on
      64-bit arithmetic cannot be dropped. */
  lemma AcceptedButUncovered(relocs: map<nat, Reloc>, values: Values)
    ensures Accepts(ClockProgram(), relocs, ClockTrace()) && NowhereRepresented(ClockTrace(), State(2, values))
  {
    hide Step, Follows, Accepts, ScalarResult, ImmOperand, RegState.Contains, EntryConfig;
    var prog, trace := ClockProgram(), ClockTrace();
    ClockCall(relocs);
    ClockAdd(relocs);
    ClockExit(relocs);
    EntryIsFirst();
    assert forall i :: 0 <= i < 2 ==> Follows(prog, relocs, trace[i], trace[i + 1]);
    StraightIsAccepted(prog, relocs, trace);
    SumIsEmpty(Tnum.Constant(ImmOperand(1, true)), values[0]);
    AluOnlyKind();
    assert !Represents(AfterSum().regs, values);
  }

  // --- Values the visited states leave out: sign-extending moves ---

  /** Move 0x80, sign-extend its low byte, return. */
  function ExtendProgram(): Program {
    [Insn(Alu64(MOV, FromImm), 0, 0x80), Insn(Alu64(MOV, FromReg), 8, 0), Insn(Exit, 0, 0)]
  }

  function Moved(pc: nat, imm: I32): Config {
    Config(pc, EntryRegs()[0 := ScalarValue(ImmOperand(imm, true))], EmptyFrame())
  }

  ghost function ExtendTrace(): seq<Visit> {
    [Visit(EntryConfig(), 0), Visit(Moved(1, 0x80), 0), Visit(Moved(2, 0x80), 0)]
  }

  lemma ExtendSteps(relocs: map<nat, Reloc>)
    ensures Step(ExtendProgram(), relocs, EntryConfig(), 0) == Continues(Moved(1, 0x80))
    ensures Step(ExtendProgram(), relocs, Moved(1, 0x80), 0) == Continues(Moved(2, 0x80))
    ensures Step(ExtendProgram(), relocs, Moved(2, 0x80), 0).Exits?
  {
    hide ImmOperand, S, U, RefineBranch, LoadResult, StoreResult, WideLoad, StepCall, StepBranch, EntryRegs;
    EntryKinds();
  }

  lemma EntryKinds()
    ensures !EntryRegs()[10].kind.Uninit? && forall r: RegId :: r != 1 && r != 10 ==> EntryRegs()[r] == UninitReg()
  {}

  function ExtendRun(values: Values): seq<State> {
    var x := ImmOperand(0x80, true);
    [State(0, values), State(1, values[0 := x]), State(2, values[0 := ExtendedLow(x, 0x100)])]
  }

  /** The program is accepted, and each of its runs returns a value outside the state visited at the exit. */
  lemma AcceptedButExtended(relocs: map<nat, Reloc>, values: Values)
    ensures Accepts(ExtendProgram(), relocs, ExtendTrace())
    ensures IsRun(ExtendProgram(), relocs.Keys, ExtendRun(values))
              && NowhereRepresented(ExtendTrace(), ExtendRun(values)[2])
  {
    hide Step, Accepts, ScalarValue, ImmOperand, EntryConfig, EntryRegs, EmptyFrame, RegState.Contains, ExtendedLow;
    var prog, trace := ExtendProgram(), ExtendTrace();
    ExtendSteps(relocs);
    EntryIsFirst();
    assert forall i :: 0 <= i < 2 ==> Follows(prog, relocs, trace[i], trace[i + 1]);
    StraightIsAccepted(prog, relocs, trace);
    ExtendRuns(relocs, values);
    ExtendedIsOutside();
    assert !Admits(Moved(2, 0x80).regs[0], ExtendRun(values)[2].regs[0]);
  }

  lemma ExtendRuns(relocs: map<nat, Reloc>, values: Values)
    ensures IsRun(ExtendProgram(), relocs.Keys, ExtendRun(values))
  {
    hide ImmOperand, FromSigned, SignedBelow;
    var run := ExtendRun(values);
    MoveRuns(ExtendProgram(), relocs.Keys, run[0], FromImm);
    assert Steps(ExtendProgram(), relocs.Keys, run[1], run[2]);
  }

  lemma ExtendedIsOutside()
    ensures var x := ImmOperand(0x80, true);
            ScalarValue(x).kind.Scalar? && !ScalarValue(x).Contains(ExtendedLow(x, 0x100))
  {
    hide U, B, Member, ExtendedLow;
    var x := ImmOperand(0x80, true);
    CastsAgree(x, 0x80);
    KeptBySignExtension(x, 0x100);
    KnownMembers(Tnum.Constant(x), ExtendedLow(x, 0x100));
  }

  // --- Control that leaves the instructions visited ---

  /** A branch to an instruction that falls through past the end. */
  function OpenEnded(): Program {
    [Insn(Jmp64(JEQ, FromImm), 2, 0).(dst := 1), Insn(Alu64(MOV, FromImm), 0, 0), Insn(Exit, 0, 0),
     Insn(Alu64(MOV, FromImm), 0, 0)]
  }

  function AtEntry(pc: nat): Config { Config(pc, EntryRegs(), EmptyFrame()) }

  ghost function OpenTrace(): seq<Visit> {
    [Visit(AtEntry(0), 0), Visit(AtEntry(1), 0), Visit(Moved(2, 0), 0), Visit(AtEntry(3), 0)]
  }

  lemma OpenTargets()
    ensures Target(OpenEnded(), 0, 2) == Some(3) && IsPath(OpenEnded(), [0, 3, 4])
  {
    var prog := OpenEnded();
    assert RawPc(prog, 1) == 1;
    assert RawPc(prog, 2) == 2;
    assert IsTarget(prog, 0, 2, 3);
    TargetUnique(prog, 0, 2, 3, Target(prog, 0, 2).value);
    assert Edge(prog, 0, 3) && Edge(prog, 3, 4);
  }

  lemma OpenSteps(relocs: map<nat, Reloc>)
    ensures Step(OpenEnded(), relocs, AtEntry(0), 0) == Splits(AtEntry(3), AtEntry(1))
    ensures Step(OpenEnded(), relocs, AtEntry(1), 0) == Continues(Moved(2, 0))
    ensures Step(OpenEnded(), relocs, AtEntry(3), 0) == Continues(Moved(4, 0))
    ensures Step(OpenEnded(), relocs, Moved(2, 0), 0).Exits?
  {
    hide LoadResult, StoreResult, WideLoad, StepCall, ImmOperand, Refine64, U, S, Target;
    OpenTargets();
  }

  /** The program is accepted, and one of its paths runs off the end. */
  lemma AcceptedButOpenEnded(relocs: map<nat, Reloc>)
    ensures Accepts(OpenEnded(), relocs, OpenTrace())
    ensures IsPath(OpenEnded(), [0, 3, 4]) && |OpenEnded()| == 4
  {
    hide Step, Accepts, ScalarValue, ImmOperand, EntryRegs, EmptyFrame, Explore;
    var prog, trace := OpenEnded(), OpenTrace();
    OpenTargets();
    OpenSteps(relocs);
    var p0 := Begun(prog);
    var p1 := Progress(Some(AtEntry(1)), [AtEntry(3)], [Only(AtEntry(0)), [], [], []], 0, 1, trace[..1]);
    var p2 := Progress(Some(Moved(2, 0)), [AtEntry(3)], [Only(AtEntry(0)), Only(AtEntry(1)), [], []], 0, 2, trace[..2]);
    var p3 := Progress(None, [AtEntry(3)], [Only(AtEntry(0)), Only(AtEntry(1)), Only(Moved(2, 0)), []], 0, 3,
          trace[..3]);
    var p4 := p3.(current := Some(AtEntry(3)), backtrack := []);
    var p5 := Progress(None, [], [Only(AtEntry(0)), Only(AtEntry(1)), Only(Moved(2, 0)), Only(AtEntry(3))], 0, 4,
          trace);
    OneVisit(prog, relocs, p0, p1, Splits(AtEntry(3), AtEntry(1)));
    OneVisit(prog, relocs, p1, p2, Continues(Moved(2, 0)));
    OneVisit(prog, relocs, p2, p3, Exits);
    Resumes(prog, relocs, p3, p4);
    OneVisit(prog, relocs, p4, p5, Continues(Moved(4, 0)));
    ResumesFrom(prog, relocs, p5, p5);
    assert trace[2] in trace;
    EndsAccepted(prog, relocs, p5);
  }

  /** A 32-bit unconditional jump: the offset leads to the next instruction, the immediate past it. */
  function FarJump(): Program {
    [Insn(Alu64(MOV, FromImm), 0, 0), Insn(Jmp32(JA, FromImm), 0, 1), Insn(Exit, 0, 0), Insn(Exit, 0, 0)]
  }

  ghost function FarTrace(): seq<Visit> {
    [Visit(AtEntry(0), 0), Visit(Moved(1, 0), 0), Visit(Moved(2, 0), 0)]
  }

  function FarRun(values: Values): seq<State> {
    var after := values[0 := ImmOperand(0, true)];
    [State(0, values), State(1, after), State(3, after)]
  }

  lemma FarTargets()
    ensures Target(FarJump(), 1, 0) == Some(2) && IsTarget(FarJump(), 1, 1, 3)
  {
    var prog := FarJump();
    assert RawPc(prog, 1) == 1;
    assert RawPc(prog, 2) == 2;
    assert RawPc(prog, 3) == 3;
    assert IsTarget(prog, 1, 0, 2);
    TargetUnique(prog, 1, 0, 2, Target(prog, 1, 0).value);
  }

  lemma FarSteps(relocs: map<nat, Reloc>)
    ensures Step(FarJump(), relocs, AtEntry(0), 0) == Continues(Moved(1, 0))
    ensures Step(FarJump(), relocs, Moved(1, 0), 0) == Splits(Moved(2, 0), Moved(2, 0))
    ensures Step(FarJump(), relocs, Moved(2, 0), 0).Exits?
  {
    hide LoadResult, StoreResult, WideLoad, StepCall, ImmOperand, RefineBranch, U, S, Target;
    FarTargets();
    JumpKeepsRegs(Moved(1, 0).regs, EmptyFrame(), FarJump()[1], FromImm, true);
  }

  lemma FarRuns(relocs: map<nat, Reloc>, values: Values)
    ensures IsRun(FarJump(), relocs.Keys, FarRun(values))
  {
    hide ImmOperand, IsTarget;
    FarTargets();
    var run := FarRun(values);
    MoveRuns(FarJump(), relocs.Keys, run[0], FromImm);
    assert Steps(FarJump(), relocs.Keys, run[1], run[2]);
  }

  /** The program is accepted, and each of its runs goes to an instruction that the checker never looked at. */
  lemma AcceptedButElsewhere(relocs: map<nat, Reloc>, values: Values)
    ensures Accepts(FarJump(), relocs, FarTrace()) && IsRun(FarJump(), relocs.Keys, FarRun(values))
    ensures forall v :: v in FarTrace() ==> v.at.pc != FarRun(values)[2].pc
  {
    hide Step, Accepts, ScalarValue, ImmOperand, EntryRegs, EmptyFrame, Explore, RegsWithin, FrameWithin;
    var prog, trace := FarJump(), FarTrace();
    FarSteps(relocs);
    FarRuns(relocs, values);
    var p0 := Begun(prog);
    var p1 := Progress(Some(Moved(1, 0)), [], [Only(AtEntry(0)), [], [], []], 0, 1, trace[..1]);
    var p2 := Progress(Some(Moved(2, 0)), [Moved(2, 0)], [Only(AtEntry(0)), Only(Moved(1, 0)), [], []], 0, 2,
          trace[..2]);
    var p3 := Progress(None, [Moved(2, 0)], [Only(AtEntry(0)), Only(Moved(1, 0)), Only(Moved(2, 0)), []], 0, 3, trace);
    var p4 := p3.(current := Some(Moved(2, 0)), backtrack := []);
    OneVisit(prog, relocs, p0, p1, Continues(Moved(1, 0)));
    OneVisit(prog, relocs, p1, p2, Splits(Moved(2, 0), Moved(2, 0)));
    OneVisit(prog, relocs, p2, p3, Exits);
    Resumes(prog, relocs, p3, p4);
    SubsumesItself(Moved(2, 0));
    assert Dominates(p4.explored[2][0], Moved(2, 0).regs, Moved(2, 0).frame);
    ResumesFrom(prog, relocs, p4, p4.(visited := 4));
    assert trace[2] in trace;
    EndsAccepted(prog, relocs, p4.(visited := 4));
  }

  // --- A program all the theorems apply to ---

  function ConstantProgram(): Program {
    [Insn(Alu64(MOV, FromImm), 0, 0), Insn(Exit, 0, 0)]
  }

  lemma ConstantSteps(relocs: map<nat, Reloc>)
    ensures Step(ConstantProgram(), relocs, EntryConfig(), 0) == Continues(Moved(1, 0))
    ensures Step(ConstantProgram(), relocs, Moved(1, 0), 0).Exits?
  {
    hide ImmOperand, S, U, RefineBranch, LoadResult, StoreResult, WideLoad, StepCall, StepBranch, EntryRegs;
    hide CanRead;
  }

  /** The smallest scalar program: accepted, so the value theorem applies to it. */
  lemma SmallestScalarProgram()
    ensures Accepts(ConstantProgram(), map[], [Visit(EntryConfig(), 0), Visit(Moved(1, 0), 0)])
    ensures ScalarPrograms.IsScalarProgram(ConstantProgram(), map[])
  {
    hide Step, ScalarValue, ImmOperand, EntryRegs, EmptyFrame, Accepts, EntryConfig;
    var prog, trace := ConstantProgram(), [Visit(EntryConfig(), 0), Visit(Moved(1, 0), 0)];
    ConstantSteps(map[]);
    EntryIsFirst();
    assert Follows(prog, map[], trace[0], trace[1]);
    StraightIsAccepted(prog, map[], trace);
  }
}

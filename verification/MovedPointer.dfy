/** An accepted program that moves the frame pointer by a number of which the checker knows nothing, and stores there.
  */
module MovedPointer {
  import opened Words
  import opened Addresses
  import opened Tnums
  import opened Instructions
  import opened HelperTable
  import opened RegStates
  import opened AbstractStates
  import opened ControlFlow
  import opened Transfer
  import opened Certificates
  import opened DepthFirst
  import opened Machine
  import opened AcceptedPrograms
  import opened AddressClaims
  import opened PointerAddresses

  /** Read a clock, add it to the frame pointer, store eight bytes below. */
  function Moving(): Program {
    [Insn(Call, 0, 5),
     Insn(Alu64(MOV, FromReg), 0, 0).(dst := 2, src := 10),
     Insn(Alu64(ADD, FromReg), 0, 0).(dst := 2, src := 0),
     Insn(St(W64), -8, 0).(dst := 2),
     Insn(Alu64(MOV, FromImm), 0, 0),
     Insn(Exit, 0, 0)]
  }

  function MovingAt(pc: nat, r0: RegState, r2: RegState): Config {
    Config(pc, Holding(r0, r2, UninitReg()), EmptyFrame())
  }

  function Written(): Frame { AbstractStates.MarkWritten(ClearSpill(EmptyFrame(), -8), -8, 8) }

  function WrittenAt(pc: nat, r0: RegState): Config {
    Config(pc, Holding(r0, FramePointer(0), UninitReg()), Written())
  }

  ghost function MovingTrace(): seq<Visit> {
    var su := ScalarUnknown();
    [Visit(EntryConfig(), 0), Visit(MovingAt(1, su, UninitReg()), 0), Visit(MovingAt(2, su, FramePointer(0)), 0),
     Visit(MovingAt(3, su, FramePointer(0)), 0), Visit(WrittenAt(4, su), 0), Visit(WrittenAt(5, Zero()), 0)]
  }

  lemma CallStep(relocs: map<nat, Reloc>)
    ensures Step(Moving(), relocs, EntryConfig(), 0) == Continues(MovingAt(1, ScalarUnknown(), UninitReg()))
  {
    hide AluResult, RefineBranch, LoadResult, StoreResult, WideLoad, StepAlu, StepBranch, CheckExit;
  }

  lemma CopyStep(relocs: map<nat, Reloc>, r0: RegState)
    ensures Step(Moving(), relocs, MovingAt(1, r0, UninitReg()), 0) == Continues(MovingAt(2, r0, FramePointer(0)))
  {
    hide LoadResult, StoreResult, RefineBranch, StepCall, EmptyFrame, WideLoad;
  }

  /** The offset is reset to zero. */
  lemma AddStep(relocs: map<nat, Reloc>)
    ensures Step(Moving(), relocs, MovingAt(2, ScalarUnknown(), FramePointer(0)), 0)
         == Continues(MovingAt(3, ScalarUnknown(), FramePointer(0)))
  {
    hide LoadResult, StoreResult, RefineBranch, StepCall, EmptyFrame, WideLoad, ScalarResult, S, U;
  }

  lemma StoreStep(relocs: map<nat, Reloc>, r0: RegState)
    ensures Step(Moving(), relocs, MovingAt(3, r0, FramePointer(0)), 0) == Continues(WrittenAt(4, r0))
  {
    hide LoadResult, RefineBranch, StepCall, EmptyFrame, WideLoad, AluResult, AbstractStates.MarkWritten, ClearSpill;
  }

  lemma LastSteps(relocs: map<nat, Reloc>, r0: RegState)
    ensures Step(Moving(), relocs, WrittenAt(4, r0), 0) == Continues(WrittenAt(5, Zero()))
    ensures Step(Moving(), relocs, WrittenAt(5, Zero()), 0).Exits?
  {
    hide LoadResult, StoreResult, RefineBranch, StepCall, WideLoad, ImmOperand, S, U, Written;
  }

  lemma MovingAccepted(relocs: map<nat, Reloc>)
    ensures Accepts(Moving(), relocs, MovingTrace())
  {
    hide Step, Accepts, EntryConfig, MovingAt, WrittenAt, ScalarUnknown, FramePointer, Zero;
    var prog, trace := Moving(), MovingTrace();
    CallStep(relocs);
    CopyStep(relocs, ScalarUnknown());
    AddStep(relocs);
    StoreStep(relocs, ScalarUnknown());
    LastSteps(relocs, ScalarUnknown());
    EntryIsFirst();
    PcsAre();
    assert forall i :: 0 <= i < 5 ==> Follows(prog, relocs, trace[i], trace[i + 1]);
    StraightIsAccepted(prog, relocs, trace);
  }

  lemma OnlyThere()
    ensures forall v :: v in MovingTrace() && v.at.pc == 3 ==> v.at == MovingAt(3, ScalarUnknown(), FramePointer(0))
  {
    hide MovingAt, WrittenAt, ScalarUnknown, FramePointer, Zero, EntryConfig;
    PcsAre();
  }

  lemma PcsAre()
    ensures forall i :: 0 <= i < 6 ==> MovingTrace()[i].at.pc == i
  {
    hide EntryRegs, EmptyFrame, Holding, Written;
  }

  /** The clock reads `x`. */
  function MovingRun(values: Values, x: bv64): seq<State> {
    var read := values[0 := x];
    var copied := read[2 := values[10]];
    [State(0, values), State(1, read), State(2, copied), State(3, copied[2 := Plus(values[10], x)])]
  }

  lemma MovingRuns(relocs: map<nat, Reloc>, values: Values, x: bv64)
    ensures IsRun(Moving(), relocs.Keys, MovingRun(values, x))
  {
    hide Plus;
    var prog, run := Moving(), MovingRun(values, x);
    MoveRuns(prog, relocs.Keys, run[1], FromReg);
    AluRuns(prog, relocs.Keys, run[2], ADD, FromReg);
    assert Steps(prog, relocs.Keys, run[0], run[1]);
  }

  lemma NotWhereItSays(values: Values, x: bv64, calls: map<nat, Region>)
    requires x != 0
    ensures !HoldAddresses(MovingAt(3, ScalarUnknown(), FramePointer(0)).regs, MovingRun(values, x)[3].regs,
                           EntryBases(values), calls)
  {
    hide AddressAt, Plus, EmptyFrame, ScalarUnknown;
    AddressZero(values[10]);
    MovesAway(values[10], x);
    assert !HoldsAddress(AddressOf(FramePointer(0).kind), Plus(values[10], x), EntryBases(values), calls);
    assert MovingRun(values, x)[3].regs[2] == Plus(values[10], x);
    assert Holding(ScalarUnknown(), FramePointer(0), UninitReg())[2] == FramePointer(0);
  }

  lemma MovesAway(y: bv64, x: bv64)
    requires x != 0
    ensures Plus(y, x) != y
  {}

  /** The state after the addition is nowhere as the checker says. */
  ghost predicate NowhereHeld(trace: seq<Visit>, s: State, bases: Bases, calls: map<nat, Region>) {
    forall v :: v in trace && v.at.pc == s.pc ==> !HoldAddresses(v.at.regs, s.regs, bases, calls)
  }

  /** The program is accepted. Its runs store at any distance from the frame, while the state visited there claims the
      address eight bytes below the frame's end. */
  lemma AcceptedButMoved(relocs: map<nat, Reloc>, values: Values, x: bv64, calls: map<nat, Region>)
    returns (run: seq<State>)
    ensures Accepts(Moving(), relocs, MovingTrace()) && IsRun(Moving(), relocs.Keys, run) && |run| == 4
    ensures run[3].pc == 3 && run[3].regs[2] == Plus(run[0].regs[10], x)
    ensures x != 0 ==> NowhereHeld(MovingTrace(), run[3], EntryBases(run[0].regs), calls)
  {
    hide Accepts, IsRun, HoldAddresses, Plus, MovingAt, MovingTrace;
    MovingAccepted(relocs);
    MovingRuns(relocs, values, x);
    OnlyThere();
    run := MovingRun(values, x);
    if x != 0 {
      NotWhereItSays(values, x, calls);
    }
  }
}

/** An accepted program that uses a null result: pruning takes a slot where a null was stored for one where a checked
  pointer was spilled. */
module SpilledNull {
  import opened Wrappers
  import opened Words
  import opened Addresses
  import opened Tnums
  import opened Instructions
  import opened HelperTable
  import opened RegStates
  import opened AbstractStates
  import opened ControlFlow
  import opened Transfer
  import opened Certificates
  import opened Exploration
  import opened DepthFirst
  import opened Machine
  import opened AcceptedPrograms
  import opened NullRuns
  import opened NullSafety

  /** The result of a lookup is checked; the pointer is stored through r7, or else the null, as a number. Either way
      what lies there is then reloaded and used. */
  function Spilling(): Program {
    [Insn(Alu64(MOV, FromReg), 0, 0).(dst := 7, src := 10),
     Insn(Alu64(ADD, FromImm), 0, -8).(dst := 7),
     Insn(Alu64(MOV, FromReg), 0, 0).(dst := 2, src := 7),
     Insn(Alu64(MOV, FromImm), 0, 0).(dst := 1),
     Insn(Call, 0, 1),
     Insn(Jmp64(JEQ, FromImm), 2, 0),
     Insn(Stx(W64), 0, 0).(dst := 7),
     Insn(JmpJa, 2, 0),
     Insn(Alu32(MOV, FromReg), 0, 0),
     Insn(Stx(W64), 0, 0).(dst := 7),
     Insn(Alu64(MOV, FromImm), 0, 0),
     Insn(Ldx(W64), 0, 0).(dst := 3, src := 7),
     Insn(Ldx(W64), 0, 0).(src := 3),
     Insn(Exit, 0, 0)]
  }

  // --- The states ---

  function Found(): RegType { MapValuePtr(0, 0, DEFAULT_MAP_VALUE_SIZE, 4) }

  /** The unchecked result of the lookup, and the pointer or the number it turns out to be. */
  function Unchecked(): RegState { AnyValue(PtrOrNull(Found(), Some(4), 0)) }

  function Pointer(): RegState { AnyValue(Found()) }

  function Number(): RegState { Truncated(NullReg()) }

  function Early(pc: nat, r1: RegState, r2: RegState, r7: RegState): Config {
    var u := UninitReg();
    Config(pc, [u, r1, r2, u, u, u, u, r7, u, u, FramePointer(0)], EmptyFrame())
  }

  /** After the call. */
  function Late(pc: nat, r0: RegState, r3: RegState, frame: Frame): Config {
    Config(pc, LateRegs(r0, r3), frame)
  }

  function LateRegs(r0: RegState, r3: RegState): Regs {
    var u := UninitReg();
    [r0, u, u, r3, u, u, u, FramePointer(-8), u, u, FramePointer(0)]
  }

  function Checked(): Frame { AbstractStates.Spill(EmptyFrame(), -8, Pointer()) }

  function Cleared(): Frame { AbstractStates.MarkWritten(ClearSpill(EmptyFrame(), -8), -8, 8) }

  lemma FramesAre()
    ensures Checked().spills == map[-8 := Pointer()] && Cleared().spills == map[] && EmptyFrame().spills == map[]
    ensures Checked().init == Cleared().init
  {
    hide Touches;
  }

  // --- The steps ---

  lemma SpillingTargets()
    ensures Target(Spilling(), 5, 2) == Some(8) && Target(Spilling(), 7, 2) == Some(10)
    ensures IsTarget(Spilling(), 5, 2, 8)
  {
    var prog := Spilling();
    assert RawPc(prog, 2) == 2;
    assert RawPc(prog, 4) == 4;
    assert RawPc(prog, 6) == 6 && RawPc(prog, 5) == 5;
    assert RawPc(prog, 8) == 8 && RawPc(prog, 7) == 7;
    assert RawPc(prog, 10) == 10;
    assert IsTarget(prog, 5, 2, 8) && IsTarget(prog, 7, 2, 10);
    TargetUnique(prog, 5, 2, 8, Target(prog, 5, 2).value);
    TargetUnique(prog, 7, 2, 10, Target(prog, 7, 2).value);
  }

  lemma EarlySteps(relocs: map<nat, Reloc>)
    ensures var c, u, f, f8 := AnyValue(CtxPtr(0)), UninitReg(), FramePointer(0), FramePointer(-8);
            && Step(Spilling(), relocs, EntryConfig(), 0) == Continues(Early(1, c, u, f))
            && Step(Spilling(), relocs, Early(2, c, u, f8), 0) == Continues(Early(3, c, f8, f8))
            && Step(Spilling(), relocs, Early(3, c, f8, f8), 0) == Continues(Early(4, Zero(), f8, f8))
  {
    hide LoadResult, StoreResult, RefineBranch, StepCall, EmptyFrame, ImmOperand, MovePointer, S, U, ScalarValue;
  }

  lemma AddStep(relocs: map<nat, Reloc>, r1: RegState)
    ensures Step(Spilling(), relocs, Early(1, r1, UninitReg(), FramePointer(0)), 0)
         == Continues(Early(2, r1, UninitReg(), FramePointer(-8)))
  {
    hide LoadResult, StoreResult, RefineBranch, StepCall, EmptyFrame, ImmOperand, MovePointer, S, U, AluResult;
    FrameArgument();
    FrameAdd(Early(1, r1, UninitReg(), FramePointer(0)).regs, Spilling()[1]);
  }

  const LOOKUP: HelperSpec := HelperSpec(RetMapPtr, [MapPtr, PtrToMapKey])

  lemma LookupAccepts()
    ensures GetHelper(1) == Some(LOOKUP) && !FillsBuffer(LOOKUP)
    ensures ArgError(LOOKUP.args, Early(4, Zero(), FramePointer(-8), FramePointer(-8)).regs, 0).None?
  {
    hide S, U, ImmOperand;
  }

  lemma LookupStep(relocs: map<nat, Reloc>)
    ensures Step(Spilling(), relocs, Early(4, Zero(), FramePointer(-8), FramePointer(-8)), 0)
         == Continues(Late(5, Unchecked(), UninitReg(), EmptyFrame()))
    ensures NextId(Spilling()[4], 0) == 1
  {
    hide AluResult, RefineBranch, LoadResult, StoreResult, WideLoad, StepAlu, StepBranch, CheckExit, EmptyFrame;
    hide Zero, GetHelper, ArgError, FillsBuffer;
    LookupAccepts();
  }

  lemma NothingResolved(learned: RegType)
    ensures ResolveSpills(EmptyFrame(), 0, learned) == EmptyFrame()
  {}

  lemma NullCheckStep(relocs: map<nat, Reloc>)
    ensures Step(Spilling(), relocs, Late(5, Unchecked(), UninitReg(), EmptyFrame()), 1)
         == Splits(Late(8, NullReg(), UninitReg(), EmptyFrame()), Late(6, Pointer(), UninitReg(), EmptyFrame()))
  {
    hide LoadResult, StoreResult, WideLoad, AluResult, Target, ImmOperand, U, ResolveSpills, EmptyFrame;
    SpillingTargets();
    ImmediateZero();
    NothingResolved(Null);
    NothingResolved(Found());
    assert ResolveRegs(LateRegs(Unchecked(), UninitReg()), 0, Null) == LateRegs(NullReg(), UninitReg());
    assert ResolveRegs(LateRegs(Unchecked(), UninitReg()), 0, Found()) == LateRegs(Pointer(), UninitReg());
  }

  lemma StoreSteps(relocs: map<nat, Reloc>)
    ensures Step(Spilling(), relocs, Late(6, Pointer(), UninitReg(), EmptyFrame()), 1)
         == Continues(Late(7, Pointer(), UninitReg(), Checked()))
    ensures Step(Spilling(), relocs, Late(9, Number(), UninitReg(), EmptyFrame()), 1)
         == Continues(Late(10, Number(), UninitReg(), Cleared()))
  {
    hide AluResult, RefineBranch, LoadResult, WideLoad, StepAlu, StepBranch, CheckExit, EmptyFrame, StepCall;
    hide AbstractStates.MarkWritten, AbstractStates.Spill, AbstractStates.ClearSpill, InRegion, Low;
  }

  lemma MoveSteps(relocs: map<nat, Reloc>, r0: RegState, frame: Frame)
    ensures Step(Spilling(), relocs, Late(8, NullReg(), UninitReg(), frame), 1)
         == Continues(Late(9, Number(), UninitReg(), frame))
    ensures Step(Spilling(), relocs, Late(7, r0, UninitReg(), frame), 1)
         == Continues(Late(10, r0, UninitReg(), frame))
    ensures Step(Spilling(), relocs, Late(10, r0, UninitReg(), frame), 1)
         == Continues(Late(11, Zero(), UninitReg(), frame))
  {
    hide LoadResult, StoreResult, WideLoad, RefineBranch, StepCall, ImmOperand, ScalarValue, Target, Truncated;
    SpillingTargets();
  }

  lemma SlotTouched(k: nat)
    requires k < 8
    ensures Touches(-8, 8, 504 + k)
  {
    assert ByteIndex(-8, k) == Some(504 + k);
  }

  lemma SlotIsReadable()
    ensures CheckReadable(Checked(), -8, 8) && CheckBounds(-8, 8)
  {
    hide EmptyFrame, Touches;
    forall k: nat | k < 8
      ensures ByteIndex(-8, k) == Some(504 + k) && Checked().init[504 + k]
    {
      assert ByteIndex(-8, k) == Some(504 + k);
      SlotTouched(k);
    }
  }

  lemma LoadSteps(relocs: map<nat, Reloc>, r0: RegState)
    ensures Step(Spilling(), relocs, Late(11, r0, UninitReg(), Checked()), 1)
         == Continues(Late(12, r0, Pointer(), Checked()))
    ensures Step(Spilling(), relocs, Late(12, r0, Pointer(), Checked()), 1)
         == Continues(Late(13, ScalarUnknown(), Pointer(), Checked()))
    ensures Step(Spilling(), relocs, Late(13, ScalarUnknown(), Pointer(), Checked()), 1).Exits?
  {
    hide AluResult, StoreResult, WideLoad, RefineBranch, StepCall, Checked, CheckReadable, CheckBounds;
    SlotIsReadable();
    FramesAre();
  }

  // --- The exploration ---

  ghost function SpillingTrace(): (trace: seq<Visit>)
    ensures |trace| == 15
  {
    var c, u, f, f8, e := AnyValue(CtxPtr(0)), UninitReg(), FramePointer(0), FramePointer(-8), EmptyFrame();
    [Visit(EntryConfig(), 0), Visit(Early(1, c, u, f), 0), Visit(Early(2, c, u, f8), 0), Visit(Early(3, c, f8, f8), 0),
     Visit(Early(4, Zero(), f8, f8), 0), Visit(Late(5, Unchecked(), u, e), 1), Visit(Late(6, Pointer(), u, e), 1),
     Visit(Late(7, Pointer(), u, Checked()), 1), Visit(Late(10, Pointer(), u, Checked()), 1),
     Visit(Late(11, Zero(), u, Checked()), 1), Visit(Late(12, Zero(), Pointer(), Checked()), 1),
     Visit(Late(13, ScalarUnknown(), Pointer(), Checked()), 1), Visit(Late(8, NullReg(), u, e), 1),
     Visit(Late(9, Number(), u, e), 1), Visit(Late(10, Number(), u, Cleared()), 1)]
  }

  lemma PositionsInTrace(n: nat)
    requires n < 15
    ensures SpillingTrace()[n].at.pc == if n <= 7 then n else if n <= 11 then n + 2 else n - 4
    ensures SpillingTrace()[n].id == if n <= 4 then 0 else 1
  {
    hide EmptyFrame, Zero, Unchecked, Pointer, Checked, Cleared, EntryRegs;
  }

  /** The null side of the check, deferred. */
  function NullSide(): Config { Late(8, NullReg(), UninitReg(), EmptyFrame()) }

  ghost function Upto(n: nat): Progress
    requires n <= 7
  {
    Along(Spilling(), SpillingTrace(), n, if n <= 5 then [] else [NullSide()])
  }

  lemma TracePositions()
    ensures var t := SpillingTrace();
            && (forall n :: 0 <= n <= 7 ==> t[n].at.pc == n) && (forall n :: 0 <= n <= 4 ==> t[n].id == 0)
            && (forall n :: 5 <= n < 15 ==> t[n].id == 1)
  {
    hide SpillingTrace;
    forall n: nat | n < 15
      ensures SpillingTrace()[n].at.pc == (if n <= 7 then n else if n <= 11 then n + 2 else n - 4)
      ensures SpillingTrace()[n].id == if n <= 4 then 0 else 1
    {
      PositionsInTrace(n);
    }
  }

  /** Up to the call's arguments. */
  lemma EntryPart(relocs: map<nat, Reloc>)
    ensures Upto(0).Fits(Spilling()) && Upto(2).Fits(Spilling())
    ensures Explore(Spilling(), relocs, Begun(Spilling())) == Explore(Spilling(), relocs, Upto(2))
  {
    hide Step, Explore, EmptyFrame, EntryConfig, Late, Early, Zero, AnyValue, Checked, Along, FramePointer;
    hide Unchecked, Pointer, UninitReg, ScalarUnknown, NullReg, Cleared;
    var prog, t := Spilling(), SpillingTrace();
    TracePositions();
    AtStart(prog, t);
    EarlySteps(relocs);
    AddStep(relocs, AnyValue(CtxPtr(0)));
    AlongNext(prog, relocs, t, 0, [], Continues(t[1].at));
    AlongNext(prog, relocs, t, 1, [], Continues(t[2].at));
  }

  /** Up to the null check. */
  lemma FirstPart(relocs: map<nat, Reloc>)
    ensures Upto(2).Fits(Spilling()) && Upto(5).Fits(Spilling())
    ensures Explore(Spilling(), relocs, Upto(2)) == Explore(Spilling(), relocs, Upto(5))
  {
    hide Step, Explore, EmptyFrame, EntryConfig, Late, Early, Zero, AnyValue, Checked, Along, FramePointer;
    hide Unchecked, Pointer, UninitReg, ScalarUnknown, NullReg, Cleared;
    var prog, t := Spilling(), SpillingTrace();
    TracePositions();
    EarlySteps(relocs);
    LookupStep(relocs);
    AlongNext(prog, relocs, t, 2, [], Continues(t[3].at));
    AlongNext(prog, relocs, t, 3, [], Continues(t[4].at));
    AlongNext(prog, relocs, t, 4, [], Continues(t[5].at));
  }

  /** Up to the jump over the null side. */
  lemma SecondPart(relocs: map<nat, Reloc>)
    ensures Upto(5).Fits(Spilling()) && Upto(7).Fits(Spilling())
    ensures Explore(Spilling(), relocs, Upto(5)) == Explore(Spilling(), relocs, Upto(7))
  {
    hide Step, Explore, EmptyFrame, EntryConfig, Late, Early, Zero, AnyValue, Checked, Along, FramePointer;
    hide Unchecked, Pointer, UninitReg, ScalarUnknown, NullReg, Cleared;
    var prog, t := Spilling(), SpillingTrace();
    TracePositions();
    NullCheckStep(relocs);
    StoreSteps(relocs);
    AlongNext(prog, relocs, t, 5, [], Splits(NullSide(), t[6].at));
    assert [] + [NullSide()] == [NullSide()];
    AlongNext(prog, relocs, t, 6, [NullSide()], Continues(t[7].at));
  }

  /** The progress before visit `n`, on the way to the exit. */
  ghost function Reaching(n: nat): Progress
    requires 7 <= n <= 12
  {
    var t, seen := SpillingTrace(), Upto(7).explored[7 := Only(SpillingTrace()[7].at)];
    var current := if n == 12 then None else Some(t[n].at);
    var explored := if n == 7 then Upto(7).explored else if n == 8 then seen
                    else if n == 9 then seen[10 := Only(t[8].at)]
                    else if n == 10 then seen[10 := Only(t[8].at)][11 := Only(t[9].at)]
                    else if n == 11 then seen[10 := Only(t[8].at)][11 := Only(t[9].at)][12 := Only(t[10].at)]
                    else seen[10 := Only(t[8].at)][11 := Only(t[9].at)][12 := Only(t[10].at)][13 := Only(t[11].at)];
    Progress(current, [NullSide()], explored, 1, n, t[..n])
  }

  lemma ThirdPart(relocs: map<nat, Reloc>)
    ensures Upto(7) == Reaching(7) && Upto(7).Fits(Spilling()) && Reaching(9).Fits(Spilling())
    ensures Explore(Spilling(), relocs, Upto(7)) == Explore(Spilling(), relocs, Reaching(9))
  {
    hide Step, Explore, EmptyFrame, EntryConfig, LateRegs, Early, Zero, AnyValue, Checked, FramePointer;
    hide Unchecked, Pointer, UninitReg, ScalarUnknown, NullReg, Cleared;
    var prog, t := Spilling(), SpillingTrace();
    MoveSteps(relocs, Pointer(), Checked());
    assert t[..8] == t[..7] + [t[7]] && t[..9] == t[..8] + [t[8]];
    OneVisit(prog, relocs, Reaching(7), Reaching(8), Continues(t[8].at));
    OneVisit(prog, relocs, Reaching(8), Reaching(9), Continues(t[9].at));
  }

  lemma FourthPart(relocs: map<nat, Reloc>)
    ensures Reaching(9).Fits(Spilling()) && Reaching(12).Fits(Spilling())
    ensures Explore(Spilling(), relocs, Reaching(9)) == Explore(Spilling(), relocs, Reaching(12))
  {
    hide Step, Explore, EmptyFrame, EntryConfig, LateRegs, Early, Zero, AnyValue, Checked, FramePointer;
    hide Unchecked, Pointer, UninitReg, ScalarUnknown, NullReg, Cleared;
    var prog, t := Spilling(), SpillingTrace();
    LoadSteps(relocs, Zero());
    assert t[..10] == t[..9] + [t[9]] && t[..11] == t[..10] + [t[10]] && t[..12] == t[..11] + [t[11]];
    OneVisit(prog, relocs, Reaching(9), Reaching(10), Continues(t[10].at));
    OneVisit(prog, relocs, Reaching(10), Reaching(11), Continues(t[11].at));
    OneVisit(prog, relocs, Reaching(11), Reaching(12), Exits);
  }

  /** The null side has stored its number. */
  ghost function AtJoin(): Progress {
    var t := SpillingTrace();
    Progress(Some(t[14].at), [], Reaching(12).explored[8 := Only(t[12].at)][9 := Only(t[13].at)], 1, 14, t[..14])
  }

  lemma NullSideGoesOn(relocs: map<nat, Reloc>)
    ensures Reaching(12).Fits(Spilling()) && AtJoin().Fits(Spilling())
    ensures Explore(Spilling(), relocs, Reaching(12)) == Explore(Spilling(), relocs, AtJoin())
  {
    hide Step, Explore, EmptyFrame, EntryConfig, LateRegs, Early, Zero, AnyValue, Checked, FramePointer;
    hide Unchecked, Pointer, UninitReg, ScalarUnknown, NullReg, Cleared, Number;
    var prog, t, p := Spilling(), SpillingTrace(), Reaching(12);
    FourthPart(relocs);
    MoveSteps(relocs, NullReg(), EmptyFrame());
    StoreSteps(relocs);
    var q := p.(current := Some(t[12].at), backtrack := []);
    assert [NullSide()][..0] == [];
    Resumes(prog, relocs, p, q);
    var r := Progress(Some(t[13].at), [], q.explored[8 := Only(t[12].at)], 1, 13, t[..13]);
    assert t[..13] == t[..12] + [t[12]] && t[..14] == t[..13] + [t[13]];
    OneVisit(prog, relocs, q, r, Continues(t[13].at));
    OneVisit(prog, relocs, r, AtJoin(), Continues(t[14].at));
  }

  lemma NotRemembered()
    ensures !Dominates(Explored(LateRegs(Pointer(), UninitReg()), Checked()), LateRegs(Number(), UninitReg()),
                       Cleared())
    ensures !IsLoopHead(Spilling(), 10)
  {
    hide FrameWithin, Checked, Cleared, Truncated;
    TruncatedKind(NullReg());
    assert !LateRegs(Number(), UninitReg())[0].IsSubstateOf(LateRegs(Pointer(), UninitReg())[0]);
  }

  /** What arrives at the reload now, */
  ghost function AtReload(): Progress {
    var t := SpillingTrace();
    Progress(Some(Late(11, Zero(), UninitReg(), Cleared())), [],
             AtJoin().explored[10 := Only(t[8].at) + Only(t[14].at)], 1, 15, t)
  }

  lemma JoinIsVisited(relocs: map<nat, Reloc>)
    ensures AtJoin().Fits(Spilling()) && AtReload().Fits(Spilling())
    ensures Explore(Spilling(), relocs, AtJoin()) == Explore(Spilling(), relocs, AtReload())
  {
    hide Step, Explore, EmptyFrame, EntryConfig, LateRegs, Early, Zero, AnyValue, Checked, FramePointer;
    hide Unchecked, Pointer, UninitReg, ScalarUnknown, NullReg, Cleared, Number, Dominates, IsLoopHead;
    var prog, t := Spilling(), SpillingTrace();
    NullSideGoesOn(relocs);
    MoveSteps(relocs, Number(), Cleared());
    NotRemembered();
    assert AtJoin().explored[10] == Only(t[8].at);
    VisitsNext(prog, relocs, AtJoin());
    assert t == t[..14] + [t[14]];
  }

  /** is pruned: pruning does not look at what is spilled. */
  lemma ReloadIsPruned()
    ensures Dominates(Explored(LateRegs(Zero(), UninitReg()), Checked()), LateRegs(Zero(), UninitReg()), Cleared())
  {
    hide Zero, LateRegs, RegState.IsSubstateOf, Checked, Cleared;
    FramesAre();
    SubsumesItself(Late(11, Zero(), UninitReg(), Cleared()));
  }

  lemma SpillingEnds(relocs: map<nat, Reloc>)
    ensures Explore(Spilling(), relocs, Begun(Spilling())) == AtReload().(visited := 16)
  {
    hide Step, Explore, EmptyFrame, EntryConfig, LateRegs, Early, Zero, AnyValue, Checked, FramePointer;
    hide Unchecked, Pointer, UninitReg, ScalarUnknown, NullReg, Cleared, Number, Dominates;
    EntryPart(relocs);
    FirstPart(relocs);
    SecondPart(relocs);
    ThirdPart(relocs);
    FourthPart(relocs);
    NullSideGoesOn(relocs);
    JoinIsVisited(relocs);
    ReloadIsPruned();
    assert AtReload().explored[11] == Only(SpillingTrace()[9].at);
    assert Dominates(AtReload().explored[11][0], LateRegs(Zero(), UninitReg()), Cleared());
    ResumesFrom(Spilling(), relocs, AtReload(), AtReload().(visited := 16));
  }

  lemma VisitSucceeds(relocs: map<nat, Reloc>, n: nat)
    requires n < 15
    ensures !Failing(Spilling(), relocs, SpillingTrace()[n])
  {
    hide Step, EmptyFrame, EntryConfig, LateRegs, Early, Zero, AnyValue, Checked, FramePointer;
    hide Unchecked, Pointer, UninitReg, ScalarUnknown, NullReg, Cleared, Number;
    EarlySteps(relocs);
    AddStep(relocs, AnyValue(CtxPtr(0)));
    LookupStep(relocs);
    NullCheckStep(relocs);
    StoreSteps(relocs);
    MoveSteps(relocs, Pointer(), Checked());
    MoveSteps(relocs, NullReg(), EmptyFrame());
    MoveSteps(relocs, Number(), Cleared());
    LoadSteps(relocs, Zero());
  }

  lemma CleanTrace(relocs: map<nat, Reloc>)
    ensures NoFailure(Spilling(), relocs, Visited(SpillingTrace())) && ReachesExit(Spilling(), SpillingTrace())
  {
    hide Failing, SpillingTrace;
    var t := SpillingTrace();
    forall v | v in Visited(t)
      ensures !Failing(Spilling(), relocs, v)
    {
      var n: nat :| n < |t| && t[n] == v;
      VisitSucceeds(relocs, n);
    }
    PositionsInTrace(11);
    assert t[11] in t;
  }

  lemma SpillingAccepted(relocs: map<nat, Reloc>)
    ensures Accepts(Spilling(), relocs, SpillingTrace())
  {
    hide Explore, NoFailure, ReachesExit, Accepts, Failing, SpillingTrace;
    SpillingEnds(relocs);
    CleanTrace(relocs);
    EndsAccepted(Spilling(), relocs, AtReload().(visited := 16));
  }

  // --- A run ---

  /** r7 and r2 hold the address of the slot, r1 the map and r0 the result: all is null but the address. */
  function Lower(values: Values): Values { values[7 := AddressAt(values[10], -8)] }

  function Asked(values: Values): Values { Lower(values)[2 := AddressAt(values[10], -8)][1 := 0] }

  function Failed(values: Values): Values { Asked(values)[0 := 0] }

  function From(r0: Origin, r2: Origin, r3: Origin): Origins {
    EntryOrigins()[7 := TheFrame][0 := r0][2 := r2][3 := r3]
  }

  function After(values: Values, pc: nat, r0: Origin, slots: map<int, Slot>): Tagged {
    Tagged(State(pc, Failed(values)), From(r0, Nowhere, Nowhere), [0], values[10], slots)
  }

  /** The lookup fails. */
  function SpillingRun(values: Values): seq<Tagged> {
    var top, stored := values[10], map[-8 := Slot(0, Result(0))];
    var own, key := From(Nowhere, Nowhere, Nowhere), From(Nowhere, TheFrame, Nowhere);
    [Entered(values), Tagged(State(1, values[7 := top]), own, [], top, map[]),
     Tagged(State(2, Lower(values)), own, [], top, map[]),
     Tagged(State(3, Lower(values)[2 := AddressAt(top, -8)]), key, [], top, map[]),
     Tagged(State(4, Asked(values)), key, [], top, map[]),
     After(values, 5, Result(0), map[]), After(values, 8, Result(0), map[]), After(values, 9, Result(0), map[]),
     After(values, 10, Result(0), stored), After(values, 11, Nowhere, stored),
     Tagged(State(12, Failed(values)[3 := 0]), From(Nowhere, Nowhere, Result(0)), [0], top, stored)]
  }

  lemma CopyRuns(relocated: set<nat>, values: Values)
    ensures TaggedSteps(Spilling(), relocated, SpillingRun(values)[0], SpillingRun(values)[1])
  {
    hide TaggedSteps, EntryOrigins;
    OriginsAre();
    AluTagged(Spilling(), relocated, SpillingRun(values)[0], MOV, FromReg);
  }

  lemma LowerValue(x: bv64)
    ensures AluValue64(ADD, x, ImmOperand(-8, true)) == AddressAt(x, -8)
  {}

  lemma LowerRuns(relocated: set<nat>, values: Values)
    ensures TaggedSteps(Spilling(), relocated, SpillingRun(values)[1], SpillingRun(values)[2])
  {
    hide TaggedSteps, AddressAt, AluValue64, ImmOperand, EntryOrigins;
    OriginsAre();
    LowerValue(values[10]);
    AluTagged(Spilling(), relocated, SpillingRun(values)[1], ADD, FromImm);
    assert values[7 := values[10]][7 := AddressAt(values[10], -8)] == Lower(values);
  }

  lemma KeyRuns(relocated: set<nat>, values: Values)
    ensures TaggedSteps(Spilling(), relocated, SpillingRun(values)[2], SpillingRun(values)[3])
  {
    hide TaggedSteps, AddressAt, EntryOrigins;
    OriginsAre();
    AluTagged(Spilling(), relocated, SpillingRun(values)[2], MOV, FromReg);
  }

  lemma OriginsAre()
    ensures From(Nowhere, Nowhere, Nowhere) == EntryOrigins()[7 := TheFrame] && EntryOrigins()[10] == TheFrame
    ensures From(Nowhere, Nowhere, Nowhere)[7 := TheFrame] == From(Nowhere, Nowhere, Nowhere)
    ensures From(Nowhere, Nowhere, Nowhere)[2 := TheFrame] == From(Nowhere, TheFrame, Nowhere)
    ensures From(Nowhere, TheFrame, Nowhere)[1 := Nowhere] == From(Nowhere, TheFrame, Nowhere)
    ensures From(Result(0), Nowhere, Nowhere)[0 := Nowhere] == From(Nowhere, Nowhere, Nowhere)
  {}

  lemma MapRuns(relocated: set<nat>, values: Values)
    ensures TaggedSteps(Spilling(), relocated, SpillingRun(values)[3], SpillingRun(values)[4])
  {
    hide TaggedSteps, AddressAt, EntryOrigins, ImmOperand;
    ImmediateZero();
    OriginsAre();
    AluTagged(Spilling(), relocated, SpillingRun(values)[3], MOV, FromImm);
  }

  lemma CallRuns(relocated: set<nat>, values: Values)
    ensures TaggedSteps(Spilling(), relocated, SpillingRun(values)[4], SpillingRun(values)[5])
  {
    hide AddressAt, ImmOperand, Accessed, MayWrite;
  }

  lemma CheckRuns(relocated: set<nat>, values: Values)
    ensures TaggedSteps(Spilling(), relocated, SpillingRun(values)[5], SpillingRun(values)[6])
  {
    hide TaggedSteps, AddressAt, ImmOperand, IsTarget, EntryOrigins;
    ImmediateZero();
    SpillingTargets();
    JumpTagged(Spilling(), relocated, SpillingRun(values)[5], 8);
  }

  lemma TruncationRuns(relocated: set<nat>, values: Values)
    ensures TaggedSteps(Spilling(), relocated, SpillingRun(values)[6], SpillingRun(values)[7])
  {
    hide AddressAt, Accessed, AluValue64;
    assert Low(0) == 0;
  }

  /** Through r7 both the store and the reload reach the slot at -8. */
  lemma SlotIsReached(s: Tagged)
    requires s.at.regs[7] == AddressAt(s.frame, -8) && s.at.pc < 14 && Spilling()[s.at.pc].offset == 0
    ensures Accessed(s, Spilling()[s.at.pc], 7) == -8
  {
    hide AddressAt, OffsetFrom, FromSigned;
    OffsetOfAccess(s.frame, -8, 0);
  }

  lemma StoreRuns(relocated: set<nat>, values: Values)
    ensures TaggedSteps(Spilling(), relocated, SpillingRun(values)[7], SpillingRun(values)[8])
  {
    hide Accessed, AddressAt;
    SlotIsReached(SpillingRun(values)[7]);
  }

  lemma ClearRuns(relocated: set<nat>, values: Values)
    ensures TaggedSteps(Spilling(), relocated, SpillingRun(values)[8], SpillingRun(values)[9])
  {
    hide TaggedSteps, AddressAt, ImmOperand, EntryOrigins;
    ImmediateZero();
    OriginsAre();
    AluTagged(Spilling(), relocated, SpillingRun(values)[8], MOV, FromImm);
    assert Failed(values)[0 := 0] == Failed(values);
  }

  lemma ReloadRuns(relocated: set<nat>, values: Values)
    ensures TaggedSteps(Spilling(), relocated, SpillingRun(values)[9], SpillingRun(values)[10])
  {
    hide Accessed, AddressAt;
    SlotIsReached(SpillingRun(values)[9]);
  }

  lemma SpillingRuns(relocated: set<nat>, values: Values)
    ensures IsTaggedRun(Spilling(), relocated, SpillingRun(values))
  {
    hide TaggedSteps, Entered, After;
    CopyRuns(relocated, values);
    LowerRuns(relocated, values);
    KeyRuns(relocated, values);
    MapRuns(relocated, values);
    CallRuns(relocated, values);
    CheckRuns(relocated, values);
    TruncationRuns(relocated, values);
    StoreRuns(relocated, values);
    ClearRuns(relocated, values);
    ReloadRuns(relocated, values);
    EntersWith(values);
  }

  lemma EntersWith(values: Values)
    ensures Entered(values).at.regs == values
  {}

  /** Its one store goes through a copy of the frame pointer. */
  lemma SpillingIsPrivate(values: Values)
    ensures FrameIsPrivate(Spilling(), SpillingRun(values))
  {
    hide Accessed, AddressAt;
  }

  /** The program is accepted, and a run of it accesses memory through the null result of its lookup. */
  lemma AcceptedButNull(relocs: map<nat, Reloc>, values: Values)
    ensures Accepts(Spilling(), relocs, SpillingTrace())
    ensures IsTaggedRun(Spilling(), relocs.Keys, SpillingRun(values)) && FrameIsPrivate(Spilling(), SpillingRun(values))
    ensures var last := SpillingRun(values)[10];
            UsesAsPointer(Spilling()[last.at.pc], 3) && last.at.regs[3] == 0 && !NotNull(last.from[3], last.results)
  {
    hide Accepts, IsTaggedRun, SpillingTrace, FrameIsPrivate, AddressAt;
    SpillingAccepted(relocs);
    SpillingRuns(relocs.Keys, values);
    SpillingIsPrivate(values);
  }

  lemma VisitDisciplined(n: nat)
    requires n < 15
    ensures var v := SpillingTrace()[n]; v.at.pc < 14 && Disciplined(Spilling(), v)
  {
    hide EmptyFrame, Zero, Checked, Cleared, MayWrite, GetHelper, PlainAlu, WrapI64, Unchecked, Pointer, Number;
    PositionsInTrace(n);
    LookupWritesNothing();
    FramesAre();
    EntryIsFirst();
    VisitPlain(n);
  }

  lemma VisitPlain(n: nat)
    requires n < 15
    ensures var v := SpillingTrace()[n];
            v.at.pc < 14 && match Spilling()[v.at.pc].opcode
                            case Alu64(op, source) => PlainAlu(v.at.regs, Spilling()[v.at.pc], op, source, true)
                            case Alu32(op, source) => PlainAlu(v.at.regs, Spilling()[v.at.pc], op, source, false)
                            case _ => true
  {
    hide EmptyFrame, Zero, Checked, Cleared, AluResult, Truncated, Unchecked, Pointer, Number, Distance, MovePointer;
    PositionsInTrace(n);
    var v := SpillingTrace()[n];
    var insn := Spilling()[v.at.pc];
    match insn.opcode {
      case Alu64(op, source) =>
        if AluResult(v.at.regs, insn, op, source, true).Success? {
          AluKind(v.at.regs, insn, op, source, true);
        }
      case Alu32(op, source) =>
        if AluResult(v.at.regs, insn, op, source, false).Success? {
          AluKind(v.at.regs, insn, op, source, false);
        }
      case _ =>
    }
  }

  lemma LookupWritesNothing()
    ensures GetHelper(1).Some? && !MayWrite(GetHelper(1).value)
  {}

  lemma OneReload(v: Visit)
    requires v in SpillingTrace() && v.at.pc == 12
    ensures !v.at.regs[3].kind.KernelPtr?
  {
    hide EmptyFrame, Zero, Checked, Cleared, Unchecked, Number, EntryRegs;
  }

  /** The theorem's condition tells: every visit is disciplined, but none at the reload carries the claims of the state
      that was pruned there. */
  lemma PruningLostClaims(relocs: map<nat, Reloc>, values: Values)
    ensures forall v :: v in SpillingTrace() ==> v.at.pc < |Spilling()| && Disciplined(Spilling(), v)
    ensures !ClaimsKept(Spilling(), relocs, Visited(SpillingTrace()))
  {
    hide Accepts, IsTaggedRun, SpillingTrace, Disciplined, ClaimsKept, Certificate, Grounded, FrameIsPrivate, NotNull;
    hide AddressAt;
    var trace, run := SpillingTrace(), SpillingRun(values);
    forall v | v in trace
      ensures v.at.pc < 14 && Disciplined(Spilling(), v)
    {
      var n: nat :| n < |trace| && trace[n] == v;
      VisitDisciplined(n);
    }
    AcceptedButNull(relocs, values);
    AcceptedIsCertified(Spilling(), relocs, trace);
    if ClaimsKept(Spilling(), relocs, Visited(trace)) {
      var v := NoNullIsUsed(Spilling(), relocs, Visited(trace), run, 3);
      OneReload(v);
    }
  }
}

/** An accepted program, disciplined in every way, that uses a null result as a kernel pointer: whatever is loaded from
  the context is taken for one, a result stored there among it. */
module StoredNull {
  import opened Wrappers
  import opened Words
  import opened Addresses
  import opened Instructions
  import opened HelperTable
  import opened RegStates
  import opened AbstractStates
  import opened ControlFlow
  import opened Transfer
  import opened Certificates
  import opened Exploration
  import opened DepthFirst
  import opened Machine
  import opened AcceptedPrograms
  import opened NullRuns
  import opened NullSafety
  import SpilledNull

  /** The result of a lookup, never checked, goes into the context and back, and is used. */
  function Storing(): Program {
    [Insn(Alu64(MOV, FromReg), 0, 0).(dst := 6, src := 1),
     Insn(Alu64(MOV, FromReg), 0, 0).(dst := 2, src := 10),
     Insn(Alu64(ADD, FromImm), 0, -8).(dst := 2),
     Insn(Alu64(MOV, FromImm), 0, 0).(dst := 1),
     Insn(Call, 0, 1),
     Insn(Stx(W64), 0, 0).(dst := 6),
     Insn(Ldx(W64), 0, 0).(dst := 3, src := 6),
     Insn(Ldx(W8), 0, 0).(src := 3),
     Insn(Exit, 0, 0)]
  }

  // --- The visits ---

  function Context(): RegState { AnyValue(CtxPtr(0)) }

  function Unchecked(): RegState { AnyValue(PtrOrNull(MapValuePtr(0, 0, DEFAULT_MAP_VALUE_SIZE, 4), Some(4), 0)) }

  function StoringAt(pc: nat, r0: RegState, r1: RegState, r2: RegState, r3: RegState, r6: RegState): Config {
    Config(pc, Regs6(r0, r1, r2, r3, r6), EmptyFrame())
  }

  function Regs6(r0: RegState, r1: RegState, r2: RegState, r3: RegState, r6: RegState): Regs {
    var u := UninitReg();
    [r0, r1, r2, r3, u, u, r6, u, u, u, FramePointer(0)]
  }

  ghost function StoringTrace(): (trace: seq<Visit>)
    ensures |trace| == 9
  {
    var u, c, f, f8 := UninitReg(), Context(), FramePointer(0), FramePointer(-8);
    [Visit(EntryConfig(), 0), Visit(StoringAt(1, u, c, u, u, c), 0), Visit(StoringAt(2, u, c, f, u, c), 0),
     Visit(StoringAt(3, u, c, f8, u, c), 0), Visit(StoringAt(4, u, Zero(), f8, u, c), 0),
     Visit(StoringAt(5, Unchecked(), u, u, u, c), 1), Visit(StoringAt(6, Unchecked(), u, u, u, c), 1),
     Visit(StoringAt(7, Unchecked(), u, u, AnyValue(KernelPtr), c), 1),
     Visit(StoringAt(8, ScalarUnknown(), u, u, AnyValue(KernelPtr), c), 1)]
  }

  lemma SaveStep(relocs: map<nat, Reloc>)
    ensures Follows(Storing(), relocs, StoringTrace()[0], StoringTrace()[1])
  {
    hide LoadResult, StoreResult, RefineBranch, StepCall, EmptyFrame, ImmOperand, MovePointer, S, U, ScalarValue;
  }

  lemma CopyStep(relocs: map<nat, Reloc>)
    ensures Follows(Storing(), relocs, StoringTrace()[1], StoringTrace()[2])
  {
    hide LoadResult, StoreResult, RefineBranch, StepCall, EmptyFrame, ImmOperand, MovePointer, S, U, ScalarValue;
  }

  lemma MapStep(relocs: map<nat, Reloc>)
    ensures Follows(Storing(), relocs, StoringTrace()[3], StoringTrace()[4])
  {
    hide LoadResult, StoreResult, RefineBranch, StepCall, EmptyFrame, ImmOperand, MovePointer, S, U, ScalarValue;
  }

  lemma AddStep(relocs: map<nat, Reloc>)
    ensures Follows(Storing(), relocs, StoringTrace()[2], StoringTrace()[3])
  {
    hide LoadResult, StoreResult, RefineBranch, StepCall, EmptyFrame, ImmOperand, MovePointer, S, U, AluResult;
    FrameArgument();
    FrameAdd(StoringTrace()[2].at.regs, Storing()[2]);
  }

  lemma LookupAccepts()
    ensures ArgError(SpilledNull.LOOKUP.args, StoringTrace()[4].at.regs, 0).None?
  {
    hide S, U, ImmOperand, EmptyFrame;
  }

  lemma LookupStep(relocs: map<nat, Reloc>)
    ensures Follows(Storing(), relocs, StoringTrace()[4], StoringTrace()[5])
  {
    hide AluResult, RefineBranch, LoadResult, StoreResult, WideLoad, StepAlu, StepBranch, CheckExit, EmptyFrame;
    hide Zero, GetHelper, ArgError, FillsBuffer;
    SpilledNull.LookupAccepts();
    LookupAccepts();
  }

  lemma StoreStep(relocs: map<nat, Reloc>)
    ensures Follows(Storing(), relocs, StoringTrace()[5], StoringTrace()[6])
  {
    hide AluResult, RefineBranch, WideLoad, StepCall, EmptyFrame, CheckBounds, Zero, LoadResult;
  }

  lemma LoadSteps(relocs: map<nat, Reloc>)
    ensures Follows(Storing(), relocs, StoringTrace()[6], StoringTrace()[7])
  {
    hide AluResult, RefineBranch, WideLoad, StepCall, EmptyFrame, CheckBounds, Zero, StoreResult, CheckReadable;
  }

  lemma UseSteps(relocs: map<nat, Reloc>)
    ensures Follows(Storing(), relocs, StoringTrace()[7], StoringTrace()[8])
    ensures Step(Storing(), relocs, StoringTrace()[8].at, StoringTrace()[8].id).Exits?
  {
    hide AluResult, RefineBranch, WideLoad, StepCall, EmptyFrame, CheckBounds, Zero, StoreResult, CheckReadable;
  }

  lemma PositionsInTrace(n: nat)
    requires n < 9
    ensures StoringTrace()[n].at.pc == n
  {
    hide EmptyFrame, Zero, Unchecked, EntryRegs;
  }

  lemma StoringAccepted(relocs: map<nat, Reloc>)
    ensures Accepts(Storing(), relocs, StoringTrace())
  {
    hide Follows, Step, Accepts, EmptyFrame, EntryConfig, StoringAt, Zero, Unchecked, Context;
    var trace := StoringTrace();
    SaveStep(relocs);
    CopyStep(relocs);
    AddStep(relocs);
    MapStep(relocs);
    LookupStep(relocs);
    StoreStep(relocs);
    LoadSteps(relocs);
    UseSteps(relocs);
    forall i: nat | i < 9
      ensures trace[i].at.pc == i
    {
      PositionsInTrace(i);
    }
    assert forall i :: 0 <= i < 8 ==> Follows(Storing(), relocs, trace[i], trace[i + 1]);
    StraightIsAccepted(Storing(), relocs, trace);
  }

  // --- The discipline ---

  lemma NoLoops()
    ensures forall t: nat :: !IsLoopHead(Storing(), t)
  {}

  lemma StoresElsewhere(n: nat)
    requires n < 9
    ensures var v := StoringTrace()[n]; StoresNoPointer(Storing(), v) && KeepsFramePointers(Storing(), v)
  {
    hide EmptyFrame, Zero, Unchecked;
    PositionsInTrace(n);
  }

  lemma StoringDisciplined(relocs: map<nat, Reloc>)
    ensures NullDiscipline(Storing(), relocs, Visited(StoringTrace()))
  {
    hide NullDiscipline, IsLoopHead, Accepts, StoringTrace, Complete, Grounded, StoresNoPointer, KeepsFramePointers;
    var trace := StoringTrace();
    NoLoops();
    StoringAccepted(relocs);
    AcceptedIsCertified(Storing(), relocs, trace);
    forall v | v in trace
      ensures StoresNoPointer(Storing(), v) && KeepsFramePointers(Storing(), v)
    {
      var n: nat :| n < |trace| && trace[n] == v;
      StoresElsewhere(n);
    }
    ImmediateProgramsAreDisciplined(Storing(), relocs, trace);
  }

  // --- A run ---

  /** The context lies apart from the frame. */
  predicate ContextApart(values: Values) { !MeetsFrame(OffsetFrom(values[10], values[1]), 8) }

  function Saved(values: Values): Values { values[6 := values[1]] }

  function Asked(values: Values): Values { Saved(values)[2 := AddressAt(values[10], -8)][1 := 0] }

  function Failed(values: Values): Values { Asked(values)[0 := 0] }

  function From(r0: Origin, r2: Origin, r3: Origin): Origins { EntryOrigins()[0 := r0][2 := r2][3 := r3] }

  /** The lookup fails. */
  function StoringRun(values: Values): seq<Tagged> {
    var n, top, stored := Nowhere, values[10], map[OffsetFrom(values[10], values[1]) := Slot(0, Result(0))];
    [Entered(values), Tagged(State(1, Saved(values)), From(n, n, n), [], top, map[]),
     Tagged(State(2, Saved(values)[2 := top]), From(n, TheFrame, n), [], top, map[]),
     Tagged(State(3, Saved(values)[2 := AddressAt(top, -8)]), From(n, TheFrame, n), [], top, map[]),
     Tagged(State(4, Asked(values)), From(n, TheFrame, n), [], top, map[]),
     Tagged(State(5, Failed(values)), From(Result(0), n, n), [0], top, map[]),
     Tagged(State(6, Failed(values)), From(Result(0), n, n), [0], top, stored),
     Tagged(State(7, Failed(values)[3 := 0]), From(Result(0), n, Result(0)), [0], top, stored)]
  }

  lemma OriginsAre()
    ensures From(Nowhere, Nowhere, Nowhere) == EntryOrigins() && EntryOrigins()[6 := Nowhere] == EntryOrigins()
    ensures From(Nowhere, Nowhere, Nowhere)[2 := TheFrame] == From(Nowhere, TheFrame, Nowhere)
    ensures From(Nowhere, TheFrame, Nowhere)[2 := TheFrame] == From(Nowhere, TheFrame, Nowhere)
    ensures From(Nowhere, TheFrame, Nowhere)[1 := Nowhere] == From(Nowhere, TheFrame, Nowhere)
    ensures EntryOrigins()[1] == Nowhere && EntryOrigins()[10] == TheFrame
  {}

  lemma SaveRuns(relocated: set<nat>, values: Values)
    ensures TaggedSteps(Storing(), relocated, StoringRun(values)[0], StoringRun(values)[1])
  {
    hide TaggedSteps, EntryOrigins, OffsetFrom;
    OriginsAre();
    AluTagged(Storing(), relocated, StoringRun(values)[0], MOV, FromReg);
  }

  lemma CopyRuns(relocated: set<nat>, values: Values)
    ensures TaggedSteps(Storing(), relocated, StoringRun(values)[1], StoringRun(values)[2])
  {
    hide TaggedSteps, EntryOrigins, OffsetFrom;
    OriginsAre();
    AluTagged(Storing(), relocated, StoringRun(values)[1], MOV, FromReg);
  }

  lemma LowerRuns(relocated: set<nat>, values: Values)
    ensures TaggedSteps(Storing(), relocated, StoringRun(values)[2], StoringRun(values)[3])
  {
    hide TaggedSteps, AddressAt, AluValue64, ImmOperand, EntryOrigins, OffsetFrom;
    OriginsAre();
    SpilledNull.LowerValue(values[10]);
    AluTagged(Storing(), relocated, StoringRun(values)[2], ADD, FromImm);
    assert Saved(values)[2 := values[10]][2 := AddressAt(values[10], -8)]
        == Saved(values)[2 := AddressAt(values[10], -8)];
  }

  lemma MapRuns(relocated: set<nat>, values: Values)
    ensures TaggedSteps(Storing(), relocated, StoringRun(values)[3], StoringRun(values)[4])
  {
    hide TaggedSteps, AddressAt, EntryOrigins, ImmOperand, OffsetFrom;
    ImmediateZero();
    OriginsAre();
    AluTagged(Storing(), relocated, StoringRun(values)[3], MOV, FromImm);
  }

  lemma CallRuns(relocated: set<nat>, values: Values)
    ensures TaggedSteps(Storing(), relocated, StoringRun(values)[4], StoringRun(values)[5])
  {
    hide AddressAt, ImmOperand, Accessed, MayWrite, OffsetFrom;
  }

  lemma ContextReached(s: Tagged)
    requires s.at.pc < 9 && Storing()[s.at.pc].offset == 0
    ensures Accessed(s, Storing()[s.at.pc], 6) == OffsetFrom(s.frame, s.at.regs[6])
  {
    hide OffsetFrom, FromSigned;
    AddressZero(s.at.regs[6]);
  }

  lemma StoreRuns(relocated: set<nat>, values: Values)
    ensures TaggedSteps(Storing(), relocated, StoringRun(values)[5], StoringRun(values)[6])
  {
    hide Accessed, AddressAt, OffsetFrom;
    ContextReached(StoringRun(values)[5]);
  }

  lemma ReloadRuns(relocated: set<nat>, values: Values)
    ensures TaggedSteps(Storing(), relocated, StoringRun(values)[6], StoringRun(values)[7])
  {
    hide Accessed, AddressAt, OffsetFrom;
    ContextReached(StoringRun(values)[6]);
  }

  lemma StoringRuns(relocated: set<nat>, values: Values)
    ensures IsTaggedRun(Storing(), relocated, StoringRun(values))
  {
    hide TaggedSteps, Entered;
    SaveRuns(relocated, values);
    CopyRuns(relocated, values);
    LowerRuns(relocated, values);
    MapRuns(relocated, values);
    CallRuns(relocated, values);
    StoreRuns(relocated, values);
    ReloadRuns(relocated, values);
    SpilledNull.EntersWith(values);
  }

  lemma StoringIsPrivate(values: Values)
    requires ContextApart(values)
    ensures FrameIsPrivate(Storing(), StoringRun(values))
  {
    hide Accessed, AddressAt, OffsetFrom;
    ContextReached(StoringRun(values)[5]);
  }

  lemma UsesKernelPointer(values: Values)
    ensures var last := StoringRun(values)[7];
            && UsesAsPointer(Storing()[last.at.pc], 3) && last.at.regs[3] == 0 && !NotNull(last.from[3], last.results)
            && last.at.pc == 7
  {
    hide AddressAt, OffsetFrom, EntryOrigins;
  }

  lemma IsKernelPointer()
    ensures exists v :: v in StoringTrace() && v.at.pc == 7 && v.at.regs[3].kind.KernelPtr?
  {
    hide EmptyFrame, Zero, Unchecked, EntryRegs;
    assert StoringTrace()[7] in StoringTrace();
  }

  /** The program is accepted and meets every condition of the theorem, and yet a run of it uses the null result of its
      lookup: as a kernel pointer. */
  lemma AcceptedAsKernelPointer(relocs: map<nat, Reloc>, values: Values)
    requires ContextApart(values)
    ensures Accepts(Storing(), relocs, StoringTrace()) && NullDiscipline(Storing(), relocs, Visited(StoringTrace()))
    ensures IsTaggedRun(Storing(), relocs.Keys, StoringRun(values)) && FrameIsPrivate(Storing(), StoringRun(values))
    ensures var last := StoringRun(values)[7];
            && UsesAsPointer(Storing()[last.at.pc], 3) && last.at.regs[3] == 0 && !NotNull(last.from[3], last.results)
            && exists v :: v in StoringTrace() && v.at.pc == last.at.pc && v.at.regs[3].kind.KernelPtr?
  {
    hide Accepts, NullDiscipline, IsTaggedRun, FrameIsPrivate, ContextApart, StoringRun, StoringTrace, NotNull;
    hide UsesAsPointer;
    StoringAccepted(relocs);
    StoringDisciplined(relocs);
    StoringRuns(relocs.Keys, values);
    StoringIsPrivate(values);
    UsesKernelPointer(values);
    IsKernelPointer();
  }
}

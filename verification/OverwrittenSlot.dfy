/** An accepted program that uses a null result put together from parts: a store that cuts into a spilled pointer from
  another offset leaves the checker's memory of the spill as it was. */
module OverwrittenSlot {
  import opened Wrappers
  import opened Words
  import opened Addresses
  import opened Instructions
  import opened HelperTable
  import opened RegStates
  import opened AbstractStates
  import opened ControlFlow
  import opened Transfer
  import opened Certificates
  import opened Exploration
  import opened DepthFirst
  import opened Machine
  import opened AcceptedPrograms
  import opened NullRuns
  import opened NullClaims
  import opened NullSafety
  import SpilledNull

  /** The context is spilled at r10-8. The result of a lookup, never checked, is stored at r10-12, and its low half once
      more at r10-4; what then lies at r10-8 is loaded and used. */
  function Overwriting(): Program {
    [Insn(Stx(W64), -8, 0).(dst := 10, src := 1),
     Insn(Alu64(MOV, FromReg), 0, 0).(dst := 2, src := 10),
     Insn(Alu64(ADD, FromImm), 0, -8).(dst := 2),
     Insn(Alu64(MOV, FromImm), 0, 0).(dst := 1),
     Insn(Call, 0, 1),
     Insn(Stx(W64), -12, 0).(dst := 10),
     Insn(Stx(W32), -4, 0).(dst := 10),
     Insn(Ldx(W64), -8, 0).(dst := 3, src := 10),
     Insn(Ldx(W8), 0, 0).(src := 3),
     Insn(Exit, 0, 0)]
  }

  // --- The bytes ---

  type Bytes = map<int, nat>

  /** The low bytes of a number, lowest first. */
  function StoreBytes(mem: Bytes, off: int, width: nat, n: nat): Bytes
    decreases width
  {
    if width == 0 then mem else StoreBytes(mem[off := n % 256], off + 1, width - 1, n / 256)
  }

  function LoadBytes(mem: Bytes, off: int, width: nat): nat
    decreases width
  {
    if width == 0 then 0 else (if off in mem then mem[off] else 0) + 256 * LoadBytes(mem, off + 1, width - 1)
  }

  lemma {:induction false} ZeroStored(mem: Bytes, off: int, width: nat)
    ensures forall o :: o in mem ==> o in StoreBytes(mem, off, width, 0)
    ensures forall o :: off <= o < off + width ==>
              o in StoreBytes(mem, off, width, 0) && StoreBytes(mem, off, width, 0)[o] == 0
    ensures forall o :: o in mem && !(off <= o < off + width) ==> StoreBytes(mem, off, width, 0)[o] == mem[o]
    decreases width
  {
    if width > 0 {
      ZeroStored(mem[off := 0], off + 1, width - 1);
    }
  }

  lemma {:induction false} ZeroLoaded(mem: Bytes, off: int, width: nat)
    requires forall o :: off <= o < off + width ==> o in mem && mem[o] == 0
    ensures LoadBytes(mem, off, width) == 0
    decreases width
  {
    if width > 0 {
      ZeroLoaded(mem, off + 1, width - 1);
    }
  }

  /** Whatever was there before, the two stores of a null result leave a null at r10-8. */
  lemma NullIsRead(mem: Bytes)
    ensures LoadBytes(StoreBytes(StoreBytes(mem, -12, 8, 0), -4, 4, 0), -8, 8) == 0
  {
    hide StoreBytes, LoadBytes;
    ZeroStored(mem, -12, 8);
    ZeroStored(StoreBytes(mem, -12, 8, 0), -4, 4);
    ZeroLoaded(StoreBytes(StoreBytes(mem, -12, 8, 0), -4, 4, 0), -8, 8);
  }

  // --- The visits ---

  function Context(): RegState { AnyValue(CtxPtr(0)) }

  function Unchecked(): RegState { AnyValue(PtrOrNull(MapValuePtr(0, 0, DEFAULT_MAP_VALUE_SIZE, 4), Some(4), 0)) }

  function Spilled(): Frame { AbstractStates.Spill(EmptyFrame(), -8, Context()) }

  function Cut(): Frame { AbstractStates.Spill(Spilled(), -12, Unchecked()) }

  function Covered4(): Frame { AbstractStates.MarkWritten(ClearSpill(Cut(), -4), -4, 4) }

  function Regs3(r0: RegState, r1: RegState, r2: RegState, r3: RegState): Regs {
    var u := UninitReg();
    [r0, r1, r2, r3, u, u, u, u, u, u, FramePointer(0)]
  }

  function LateRegs(r0: RegState, r3: RegState): Regs { Regs3(r0, UninitReg(), UninitReg(), r3) }

  ghost function OverwritingTrace(): (trace: seq<Visit>)
    ensures |trace| == 10
  {
    var u, c, f, f8, p := UninitReg(), Context(), FramePointer(0), FramePointer(-8), Unchecked();
    [Visit(EntryConfig(), 0), Visit(Config(1, Regs3(u, c, u, u), Spilled()), 0),
     Visit(Config(2, Regs3(u, c, f, u), Spilled()), 0), Visit(Config(3, Regs3(u, c, f8, u), Spilled()), 0),
     Visit(Config(4, Regs3(u, Zero(), f8, u), Spilled()), 0), Visit(Config(5, LateRegs(p, u), Spilled()), 1),
     Visit(Config(6, LateRegs(p, u), Cut()), 1), Visit(Config(7, LateRegs(p, u), Covered4()), 1),
     Visit(Config(8, LateRegs(p, c), Covered4()), 1), Visit(Config(9, LateRegs(ScalarUnknown(), c), Covered4()), 1)]
  }

  lemma PositionsInTrace(n: nat)
    requires n < 10
    ensures OverwritingTrace()[n].at.pc == n
  {
    hide EmptyFrame, Zero, Unchecked, EntryRegs, Spilled, Cut, Covered4;
  }

  lemma SpillsAre()
    ensures Spilled().spills == map[-8 := Context()]
    ensures Cut().spills == Covered4().spills == map[-8 := Context(), -12 := Unchecked()]
  {
    hide Touches;
  }

  lemma EntryStep(relocs: map<nat, Reloc>)
    ensures Step(Overwriting(), relocs, EntryConfig(), 0)
         == Continues(Config(1, Regs3(UninitReg(), Context(), UninitReg(), UninitReg()), Spilled()))
  {
    hide AluResult, RefineBranch, LoadResult, WideLoad, StepCall, EmptyFrame, AbstractStates.Spill;
  }

  lemma CopyStep(relocs: map<nat, Reloc>)
    ensures Follows(Overwriting(), relocs, OverwritingTrace()[1], OverwritingTrace()[2])
  {
    hide LoadResult, StoreResult, RefineBranch, StepCall, Spilled, ImmOperand, MovePointer, S, U, ScalarValue;
  }

  lemma AddStep(relocs: map<nat, Reloc>)
    ensures Follows(Overwriting(), relocs, OverwritingTrace()[2], OverwritingTrace()[3])
  {
    hide LoadResult, StoreResult, RefineBranch, StepCall, Spilled, ImmOperand, MovePointer, S, U, AluResult;
    FrameArgument();
    FrameAdd(OverwritingTrace()[2].at.regs, Overwriting()[2]);
  }

  lemma MapStep(relocs: map<nat, Reloc>)
    ensures Follows(Overwriting(), relocs, OverwritingTrace()[3], OverwritingTrace()[4])
  {
    hide LoadResult, StoreResult, RefineBranch, StepCall, Spilled, ImmOperand, MovePointer, S, U, ScalarValue;
  }

  lemma LookupAccepts()
    ensures ArgError(SpilledNull.LOOKUP.args, OverwritingTrace()[4].at.regs, 0).None?
  {
    hide S, U, ImmOperand, Spilled;
  }

  lemma LookupStep(relocs: map<nat, Reloc>)
    ensures Follows(Overwriting(), relocs, OverwritingTrace()[4], OverwritingTrace()[5])
  {
    hide AluResult, RefineBranch, LoadResult, StoreResult, WideLoad, StepAlu, StepBranch, CheckExit, Spilled;
    hide Zero, GetHelper, ArgError, FillsBuffer;
    SpilledNull.LookupAccepts();
    LookupAccepts();
  }

  lemma CutStep(relocs: map<nat, Reloc>)
    ensures Step(Overwriting(), relocs, Config(5, LateRegs(Unchecked(), UninitReg()), Spilled()), 1)
         == Continues(Config(6, LateRegs(Unchecked(), UninitReg()), Cut()))
  {
    hide AluResult, RefineBranch, LoadResult, WideLoad, StepCall, Spilled, AbstractStates.Spill;
  }

  lemma CoverStep(relocs: map<nat, Reloc>)
    ensures Step(Overwriting(), relocs, Config(6, LateRegs(Unchecked(), UninitReg()), Cut()), 1)
         == Continues(Config(7, LateRegs(Unchecked(), UninitReg()), Covered4()))
  {
    hide AluResult, RefineBranch, LoadResult, WideLoad, StepCall, Cut, AbstractStates.MarkWritten, ClearSpill;
  }

  lemma SlotTouched(k: nat)
    requires k < 8
    ensures ByteIndex(-8, k) == Some(504 + k) && Touches(-8, 8, 504 + k)
  {
    assert ByteIndex(-8, k) == Some(504 + k);
  }

  lemma SlotIsReadable()
    ensures CheckReadable(Covered4(), -8, 8) && CheckBounds(-8, 8)
  {
    hide EmptyFrame, Touches;
    forall k: nat | k < 8
      ensures ByteIndex(-8, k) == Some(504 + k) && Covered4().init[504 + k]
    {
      SlotTouched(k);
    }
  }

  lemma LoadStep(relocs: map<nat, Reloc>)
    ensures Step(Overwriting(), relocs, Config(7, LateRegs(Unchecked(), UninitReg()), Covered4()), 1)
         == Continues(Config(8, LateRegs(Unchecked(), Context()), Covered4()))
  {
    hide AluResult, RefineBranch, StoreResult, WideLoad, StepCall, Covered4, CheckReadable, CheckBounds;
    SlotIsReadable();
    SpillsAre();
  }

  lemma UseSteps(relocs: map<nat, Reloc>)
    ensures Step(Overwriting(), relocs, Config(8, LateRegs(Unchecked(), Context()), Covered4()), 1)
         == Continues(Config(9, LateRegs(ScalarUnknown(), Context()), Covered4()))
    ensures Step(Overwriting(), relocs, Config(9, LateRegs(ScalarUnknown(), Context()), Covered4()), 1).Exits?
  {
    hide AluResult, RefineBranch, WideLoad, StepCall, Covered4, CheckBounds, StoreResult, CheckReadable;
  }

  /** Every step but the call keeps the counter of identifiers. */
  lemma FollowsHere(relocs: map<nat, Reloc>, i: nat)
    requires i < 9
    ensures Follows(Overwriting(), relocs, OverwritingTrace()[i], OverwritingTrace()[i + 1])
  {
    hide Step, EntryConfig, Regs3, Zero, Unchecked, Context, Spilled, Cut, Covered4, FramePointer, ScalarUnknown;
    hide UninitReg;
    EntryIsFirst();
    EntryStep(relocs);
    if i == 1 {
      CopyStep(relocs);
    } else if i == 2 {
      AddStep(relocs);
    } else if i == 3 {
      MapStep(relocs);
    } else if i == 4 {
      LookupStep(relocs);
    }
    CutStep(relocs);
    CoverStep(relocs);
    LoadStep(relocs);
    UseSteps(relocs);
  }

  lemma OverwritingIsStraight(relocs: map<nat, Reloc>)
    ensures IsStraight(Overwriting(), relocs, OverwritingTrace())
  {
    hide Follows, Step, EntryConfig, Regs3, Zero, Unchecked, Context, Spilled, Cut, Covered4;
    var trace := OverwritingTrace();
    UseSteps(relocs);
    forall i: nat | i < 10
      ensures trace[i].at.pc == i
    {
      PositionsInTrace(i);
    }
    forall i: nat | i < 9
      ensures Follows(Overwriting(), relocs, trace[i], trace[i + 1])
    {
      FollowsHere(relocs, i);
    }
  }

  // --- A run ---

  function Asked(values: Values): Values { values[2 := AddressAt(values[10], -8)][1 := 0] }

  function Failed(values: Values): Values { Asked(values)[0 := 0] }

  function From(r0: Origin, r2: Origin): Origins { EntryOrigins()[0 := r0][2 := r2] }

  function After(values: Values, pc: nat, slots: map<int, Slot>): Tagged {
    Tagged(State(pc, Failed(values)), From(Result(0), Nowhere), [0], values[10], slots)
  }

  /** The lookup fails. */
  function OverwritingRun(values: Values): seq<Tagged> {
    var n, top := Nowhere, values[10];
    var whole, cut := map[-8 := Slot(values[1], Nowhere)], map[-12 := Slot(0, Result(0))];
    [Entered(values), Tagged(State(1, values), From(n, n), [], top, whole),
     Tagged(State(2, values[2 := top]), From(n, TheFrame), [], top, whole),
     Tagged(State(3, values[2 := AddressAt(top, -8)]), From(n, TheFrame), [], top, whole),
     Tagged(State(4, Asked(values)), From(n, TheFrame), [], top, whole), After(values, 5, whole), After(values, 6, cut),
     After(values, 7, cut), Tagged(State(8, Failed(values)[3 := 0]), From(Result(0), n), [0], top, cut)]
  }

  lemma OriginsAre()
    ensures From(Nowhere, Nowhere) == EntryOrigins() && EntryOrigins()[1] == Nowhere && EntryOrigins()[10] == TheFrame
    ensures From(Nowhere, Nowhere)[2 := TheFrame] == From(Nowhere, TheFrame)
    ensures From(Nowhere, TheFrame)[2 := TheFrame] == From(Nowhere, TheFrame)
    ensures From(Nowhere, TheFrame)[1 := Nowhere] == From(Nowhere, TheFrame)
    ensures From(Result(0), Nowhere)[3 := Nowhere] == From(Result(0), Nowhere)
  {}

  /** Through r10 an access goes where its offset says. */
  lemma FrameReached(s: Tagged, insn: BpfInsn)
    requires s.at.regs[10] == s.frame
    ensures Accessed(s, insn, 10) == insn.offset
  {
    hide OffsetFrom, AddressAt, Plus, FromSigned;
    AddressZero(s.frame);
    OffsetOfAccess(s.frame, 0, insn.offset);
  }

  lemma SpillRuns(relocated: set<nat>, values: Values)
    ensures TaggedSteps(Overwriting(), relocated, OverwritingRun(values)[0], OverwritingRun(values)[1])
  {
    hide Accessed, AddressAt, OffsetFrom;
    OriginsAre();
    FrameReached(OverwritingRun(values)[0], Overwriting()[0]);
  }

  lemma CopyRuns(relocated: set<nat>, values: Values)
    ensures TaggedSteps(Overwriting(), relocated, OverwritingRun(values)[1], OverwritingRun(values)[2])
  {
    hide TaggedSteps, EntryOrigins, AddressAt;
    OriginsAre();
    AluTagged(Overwriting(), relocated, OverwritingRun(values)[1], MOV, FromReg);
  }

  lemma LowerRuns(relocated: set<nat>, values: Values)
    ensures TaggedSteps(Overwriting(), relocated, OverwritingRun(values)[2], OverwritingRun(values)[3])
  {
    hide TaggedSteps, AddressAt, AluValue64, ImmOperand, EntryOrigins;
    OriginsAre();
    SpilledNull.LowerValue(values[10]);
    AluTagged(Overwriting(), relocated, OverwritingRun(values)[2], ADD, FromImm);
    assert values[2 := values[10]][2 := AddressAt(values[10], -8)] == values[2 := AddressAt(values[10], -8)];
  }

  lemma MapRuns(relocated: set<nat>, values: Values)
    ensures TaggedSteps(Overwriting(), relocated, OverwritingRun(values)[3], OverwritingRun(values)[4])
  {
    hide TaggedSteps, AddressAt, EntryOrigins, ImmOperand;
    ImmediateZero();
    OriginsAre();
    AluTagged(Overwriting(), relocated, OverwritingRun(values)[3], MOV, FromImm);
  }

  lemma CallRuns(relocated: set<nat>, values: Values)
    ensures TaggedSteps(Overwriting(), relocated, OverwritingRun(values)[4], OverwritingRun(values)[5])
  {
    hide AddressAt, ImmOperand, Accessed, MayWrite;
  }

  lemma CutRuns(relocated: set<nat>, values: Values)
    ensures TaggedSteps(Overwriting(), relocated, OverwritingRun(values)[5], OverwritingRun(values)[6])
  {
    hide Accessed, AddressAt;
    FrameReached(OverwritingRun(values)[5], Overwriting()[5]);
  }

  lemma CoverRuns(relocated: set<nat>, values: Values)
    ensures TaggedSteps(Overwriting(), relocated, OverwritingRun(values)[6], OverwritingRun(values)[7])
  {
    hide Accessed, AddressAt;
    FrameReached(OverwritingRun(values)[6], Overwriting()[6]);
  }

  lemma LoadRuns(relocated: set<nat>, values: Values)
    ensures TaggedSteps(Overwriting(), relocated, OverwritingRun(values)[7], OverwritingRun(values)[8])
  {
    hide Accessed, AddressAt, EntryOrigins;
    OriginsAre();
    FrameReached(OverwritingRun(values)[7], Overwriting()[7]);
  }

  lemma OverwritingRuns(relocated: set<nat>, values: Values)
    ensures IsTaggedRun(Overwriting(), relocated, OverwritingRun(values))
  {
    hide TaggedSteps, Entered, After;
    SpillRuns(relocated, values);
    CopyRuns(relocated, values);
    LowerRuns(relocated, values);
    MapRuns(relocated, values);
    CallRuns(relocated, values);
    CutRuns(relocated, values);
    CoverRuns(relocated, values);
    LoadRuns(relocated, values);
    SpilledNull.EntersWith(values);
  }

  lemma UsesNull(values: Values)
    ensures var last := OverwritingRun(values)[8];
            last.at.pc == 8 && last.results == [0] && last.at.regs[3] == 0 && UsesAsPointer(Overwriting()[8], 3)
  {
    hide AddressAt, EntryOrigins;
  }

  lemma TypedAsContext()
    ensures forall v :: v in OverwritingTrace() && v.at.pc == 8 ==> v.at.regs[3].kind == CtxPtr(0)
  {
    hide Zero, Unchecked, EntryRegs, EmptyFrame, Spilled, Cut, Covered4;
  }

  /** The program is accepted, and a run of it accesses memory through the bytes of a null result, where every visit has
      the context. */
  lemma AcceptedButOverwritten(relocs: map<nat, Reloc>, values: Values)
    ensures Accepts(Overwriting(), relocs, OverwritingTrace())
    ensures IsTaggedRun(Overwriting(), relocs.Keys, OverwritingRun(values))
    ensures var last := OverwritingRun(values)[8];
            && last.at.regs[3] == 0 && last.results == [0] && UsesAsPointer(Overwriting()[last.at.pc], 3)
            && forall v :: v in OverwritingTrace() && v.at.pc == last.at.pc ==> v.at.regs[3].kind == CtxPtr(0)
  {
    hide Accepts, IsTaggedRun, OverwritingTrace, OverwritingRun, UsesAsPointer, IsStraight;
    OverwritingIsStraight(relocs);
    StraightIsAccepted(Overwriting(), relocs, OverwritingTrace());
    OverwritingRuns(relocs.Keys, values);
    UsesNull(values);
    TypedAsContext();
  }

  // --- The condition of the theorem ---

  lemma ArrivesAlong(prog: Program, relocs: map<nat, Reloc>, trace: seq<Visit>, c: Config)
    requires IsStraight(prog, relocs, trace) && Arrives(prog, relocs, Visited(trace), c)
    ensures exists v :: v in Visited(trace) && v.at == c
  {
    hide Step, NextId, EntryConfig;
    if c == EntryConfig() {
      assert trace[0] in Visited(trace);
    } else {
      var v :| v in Visited(trace) && c in Successors(prog, relocs, v);
      var i :| 0 <= i < |trace| && trace[i] == v;
      assert i < |trace| - 1;
      assert Follows(prog, relocs, trace[i], trace[i + 1]);
      assert trace[i + 1] in Visited(trace);
    }
  }

  lemma KeepsItself(c: Config)
    ensures KeepsClaims(c, c)
  {}

  lemma StraightKeepsClaims(prog: Program, relocs: map<nat, Reloc>, trace: seq<Visit>)
    requires IsStraight(prog, relocs, trace)
    ensures ClaimsKept(prog, relocs, Visited(trace))
  {
    hide IsStraight, Arrives, KeepsClaims, Visited;
    forall c | Arrives(prog, relocs, Visited(trace), c) && c.pc < |prog|
      ensures Carried(Visited(trace), c)
    {
      ArrivesAlong(prog, relocs, trace, c);
      KeepsItself(c);
    }
  }

  lemma VisitPlain(n: nat)
    requires 1 <= n <= 3
    ensures var v := OverwritingTrace()[n];
            v.at.pc == n && PlainAlu(v.at.regs, Overwriting()[n], if n == 2 then ADD else MOV,
                                     if n == 1 then FromReg else FromImm, true)
  {
    hide EmptyFrame, Zero, Spilled, AluResult, Unchecked, Distance, MovePointer;
    PositionsInTrace(n);
    var insn, regs := Overwriting()[n], OverwritingTrace()[n].at.regs;
    var op, source := if n == 2 then ADD else MOV, if n == 1 then FromReg else FromImm;
    if AluResult(regs, insn, op, source, true).Success? {
      AluKind(regs, insn, op, source, true);
    }
  }

  lemma VisitDisciplined(n: nat, v: Visit)
    requires n < 10 && n != 5 && n != 6 && v == OverwritingTrace()[n] && v.at.pc == n
    ensures Disciplined(Overwriting(), v)
  {
    hide EmptyFrame, Zero, MayWrite, GetHelper, PlainAlu, Unchecked, Spilled, Cut, Covered4, MayTrack;
    SpilledNull.LookupWritesNothing();
    SpillsAre();
    NothingSpilledAtEntry();
    if 1 <= n <= 3 {
      VisitPlain(n);
    }
  }

  lemma NothingSpilledAtEntry()
    ensures EmptyFrame().spills == map[] && EntryConfig().frame == EmptyFrame()
  {}

  /** The two visits that break the discipline are the stores that cut into the spilled context. */
  lemma CuttingIsUndisciplined(relocs: map<nat, Reloc>)
    ensures forall n :: 0 <= n < 10 ==>
              && OverwritingTrace()[n].at.pc == n
              && (Disciplined(Overwriting(), OverwritingTrace()[n]) <==> n != 5 && n != 6)
    ensures ClaimsKept(Overwriting(), relocs, Visited(OverwritingTrace()))
  {
    hide OverwritingTrace, Disciplined, ClaimsKept, IsStraight;
    forall n: nat | n < 10
      ensures OverwritingTrace()[n].at.pc == n
      ensures Disciplined(Overwriting(), OverwritingTrace()[n]) <==> n != 5 && n != 6
    {
      PositionsInTrace(n);
      if n == 5 || n == 6 {
        CutIsUndisciplined();
      } else {
        VisitDisciplined(n, OverwritingTrace()[n]);
      }
    }
    OverwritingIsStraight(relocs);
    StraightKeepsClaims(Overwriting(), relocs, OverwritingTrace());
  }

  lemma CutIsUndisciplined()
    ensures forall n :: 5 <= n <= 6 ==>
              OverwritingTrace()[n].at.pc == n && !Disciplined(Overwriting(), OverwritingTrace()[n])
  {
    hide EmptyFrame, Zero, Unchecked, Spilled, Cut, Covered4, EntryRegs;
    SpillsAre();
    assert MayTrack(Spilled().spills[-8].kind) && Overlaps(-8, -12, 8);
    assert MayTrack(Cut().spills[-8].kind) && Overlaps(-8, -4, 4);
  }
}

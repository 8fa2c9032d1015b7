/** An accepted loop in which a frame pointer walks: widening keeps the offset it had before the loop, so the checker
  sees one round and takes the second for the same. */
module WalkingPointer {
  import opened Wrappers
  import opened Words
  import opened Addresses
  import opened Tnums
  import opened Instructions
  import opened HelperTable
  import opened RegStates
  import opened AbstractStates
  import opened ControlFlow
  import opened Transfer
  import opened Certificates
  import opened Exploration
  import opened DepthFirst
  import opened Machine
  import opened ValueSoundness
  import opened AcceptedPrograms
  import opened AddressClaims
  import opened PointerAddresses

  /** Each round moves r6 down by eight bytes and stores there; a clock value of zero ends the loop. */
  function Walking(): Program {
    [Insn(Call, 0, 5),
     Insn(Alu64(MOV, FromReg), 0, 0).(dst := 6, src := 10),
     Insn(Alu64(ADD, FromImm), 0, -8).(dst := 6),
     Insn(St(W64), 0, 0).(dst := 6),
     Insn(Call, 0, 5),
     Insn(Jmp64(JNE, FromImm), -4, 0),
     Insn(Exit, 0, 0)]
  }

  // --- The states ---

  function Top(): RegState { FramePointer(0) }

  function Down(): RegState { FramePointer(-8) }

  function Stored(): Frame { AbstractStates.MarkWritten(ClearSpill(EmptyFrame(), -8), -8, 8) }

  function WalkingRegs(r0: RegState, r6: RegState): Regs { Holding(r0, UninitReg(), r6) }

  function WalkingAt(pc: nat, r0: RegState, r6: RegState): Config { Config(pc, WalkingRegs(r0, r6), EmptyFrame()) }

  function After(pc: nat, r0: RegState, r6: RegState): Config { Config(pc, WalkingRegs(r0, r6), Stored()) }

  /** What the loop head makes of two unknown clock values. */
  function Clock(): RegState { ScalarUnknown().Widen(ScalarUnknown()) }

  // --- The steps ---

  lemma WalkingTargets()
    ensures Target(Walking(), 5, -4) == Some(2) && IsTarget(Walking(), 5, -4, 2) && IsLoopHead(Walking(), 2)
  {
    var prog := Walking();
    assert RawPc(prog, 2) == 2;
    assert RawPc(prog, 4) == 4;
    assert IsTarget(prog, 5, -4, 2);
    TargetUnique(prog, 5, -4, 2, Target(prog, 5, -4).value);
    assert JumpsBack(prog, 5, 2);
  }

  lemma CallSteps(relocs: map<nat, Reloc>, r0: RegState, r6: RegState)
    ensures Step(Walking(), relocs, EntryConfig(), 0) == Continues(WalkingAt(1, ScalarUnknown(), UninitReg()))
    ensures Step(Walking(), relocs, After(4, r0, r6), 0) == Continues(After(5, ScalarUnknown(), r6))
  {
    hide AluResult, RefineBranch, LoadResult, StoreResult, WideLoad, StepAlu, StepBranch, CheckExit, Stored;
  }

  lemma MoveStep(relocs: map<nat, Reloc>, r0: RegState)
    ensures Step(Walking(), relocs, WalkingAt(1, r0, UninitReg()), 0) == Continues(WalkingAt(2, r0, Top()))
  {
    hide LoadResult, StoreResult, RefineBranch, StepCall, EmptyFrame, WideLoad;
  }

  lemma AddStep(relocs: map<nat, Reloc>, r0: RegState)
    ensures Step(Walking(), relocs, WalkingAt(2, r0, Top()), 0) == Continues(WalkingAt(3, r0, Down()))
  {
    hide LoadResult, StoreResult, RefineBranch, StepCall, EmptyFrame, WideLoad, AluResult, ImmOperand, S, U;
    hide MovePointer;
    FrameArgument();
    FrameAdd(WalkingRegs(r0, Top()), Walking()[2]);
  }

  lemma StoreStep(relocs: map<nat, Reloc>, r0: RegState)
    ensures Step(Walking(), relocs, WalkingAt(3, r0, Down()), 0) == Continues(After(4, r0, Down()))
  {
    hide LoadResult, RefineBranch, StepCall, EmptyFrame, WideLoad, AluResult, AbstractStates.MarkWritten, ClearSpill;
  }

  lemma BranchSteps(relocs: map<nat, Reloc>, r0: RegState, r6: RegState)
    requires r0.kind.Scalar?
    ensures Step(Walking(), relocs, After(5, r0, r6), 0) == Splits(After(2, r0, r6), After(6, Zero(), r6))
    ensures Step(Walking(), relocs, After(6, Zero(), r6), 0).Exits?
  {
    hide LoadResult, StoreResult, WideLoad, AluResult, Target, ImmOperand, Stored, S, U;
    WalkingTargets();
  }

  lemma KindsAre()
    ensures ScalarUnknown().kind.Scalar? && Clock().kind.Scalar? && Clock().IsSubstateOf(ScalarUnknown())
  {
    hide U, Or, And, JoinMask, B;
    WithinUnknown(Clock().tnum);
  }

  /** At the second arrival the loop head keeps the offset that r6 had before the loop. */
  lemma HeadWidens()
    ensures WidenRegs(WalkingRegs(ScalarUnknown(), Top()), WalkingRegs(ScalarUnknown(), Down()))
         == WalkingRegs(Clock(), Top())
    ensures WidenFrame(EmptyFrame(), Stored()) == EmptyFrame()
    ensures !RegsWithin(WalkingRegs(ScalarUnknown(), Down()), WalkingRegs(ScalarUnknown(), Top()))
  {
    hide RegState.Hull, RegState.Refined, Touches;
    assert !WalkingRegs(ScalarUnknown(), Down())[6].IsSubstateOf(WalkingRegs(ScalarUnknown(), Top())[6]);
  }

  lemma SecondRoundIsPruned()
    ensures RegsWithin(WalkingRegs(Clock(), Down()), WalkingRegs(ScalarUnknown(), Down()))
              && FrameWithin(EmptyFrame(), EmptyFrame())
  {
    hide RegState.IsSubstateOf, ScalarUnknown, Clock;
    KindsAre();
    SubsumesItself(WalkingAt(3, Zero(), Down()));
    var a, b, c := WalkingRegs(Clock(), Down()), WalkingRegs(ScalarUnknown(), Down()), WalkingRegs(Zero(), Down());
    forall i | 0 <= i < 11
      ensures a[i].IsSubstateOf(b[i])
    {
      assert c[i].IsSubstateOf(c[i]);
    }
  }

  // --- The exploration ---

  ghost function WalkingTrace(): seq<Visit> {
    var su := ScalarUnknown();
    [Visit(EntryConfig(), 0), Visit(WalkingAt(1, su, UninitReg()), 0), Visit(WalkingAt(2, su, Top()), 0),
     Visit(WalkingAt(3, su, Down()), 0),
     Visit(After(4, su, Down()), 0), Visit(After(5, su, Down()), 0), Visit(After(6, Zero(), Down()), 0),
     Visit(WalkingAt(2, Clock(), Top()), 0)]
  }

  lemma FirstRound(relocs: map<nat, Reloc>)
    ensures var p := Along(Walking(), WalkingTrace(), 6, [After(2, ScalarUnknown(), Down())]);
            p.Fits(Walking()) && Explore(Walking(), relocs, Begun(Walking())) == Explore(Walking(), relocs, p)
  {
    hide Step, EmptyFrame, EntryConfig, ScalarValue, RegState.Widen, WalkingRegs, Explore, Zero, Top, Down, Clock;
    hide ScalarUnknown;
    hide Along, Stored;
    var prog, t, su, later := Walking(), WalkingTrace(), ScalarUnknown(), After(2, ScalarUnknown(), Down());
    KindsAre();
    EntryIsFirst();
    AtStart(prog, t);
    CallSteps(relocs, su, Down());
    MoveStep(relocs, su);
    AddStep(relocs, su);
    StoreStep(relocs, su);
    BranchSteps(relocs, su, Down());
    assert [] + [later] == [later];
    AlongNext(prog, relocs, t, 0, [], Continues(t[1].at));
    AlongNext(prog, relocs, t, 1, [], Continues(t[2].at));
    AlongNext(prog, relocs, t, 2, [], Continues(t[3].at));
    AlongNext(prog, relocs, t, 3, [], Continues(t[4].at));
    AlongNext(prog, relocs, t, 4, [], Continues(t[5].at));
    AlongNext(prog, relocs, t, 5, [], Splits(later, t[6].at));
  }

  /** Past the exit and back at the loop head. */
  ghost function SecondArrival(): Progress {
    var p := Along(Walking(), WalkingTrace(), 6, [After(2, ScalarUnknown(), Down())]);
    Progress(Some(After(2, ScalarUnknown(), Down())), [], p.explored[6 := Only(WalkingTrace()[6].at)], 0, 7,
          WalkingTrace()[..7])
  }

  lemma BackToHead(relocs: map<nat, Reloc>)
    ensures SecondArrival().Fits(Walking())
    ensures Explore(Walking(), relocs, Begun(Walking())) == Explore(Walking(), relocs, SecondArrival())
  {
    hide Step, EmptyFrame, EntryConfig, ScalarValue, RegState.Widen, WalkingRegs, Explore, Zero, Top, Down, Clock;
    hide ScalarUnknown;
    hide Stored;
    var prog, t, later := Walking(), WalkingTrace(), After(2, ScalarUnknown(), Down());
    KindsAre();
    FirstRound(relocs);
    BranchSteps(relocs, ScalarUnknown(), Down());
    var p := Along(prog, t, 6, [later]);
    var q := SecondArrival().(current := None, backtrack := [later]);
    assert t[..7] == t[..6] + [t[6]];
    OneVisit(prog, relocs, p, q, Exits);
    Resumes(prog, relocs, q, SecondArrival());
  }

  lemma LastRounds(relocs: map<nat, Reloc>)
    ensures var last := Explore(Walking(), relocs, SecondArrival()); last.trace == WalkingTrace() && last.visited == 9
  {
    hide Step, EmptyFrame, EntryConfig, ScalarValue, RegState.Widen, WalkingRegs, Explore, Zero, Top, Down, Clock;
    hide ScalarUnknown;
    hide WidenRegs, WidenFrame, RegsWithin, IsLoopHead, FrameWithin, Stored;
    var prog, t, p, c := Walking(), WalkingTrace(), SecondArrival(), After(2, ScalarUnknown(), Down());
    KindsAre();
    EntryIsFirst();
    WalkingTargets();
    HeadWidens();
    SecondRoundIsPruned();
    AddStep(relocs, Clock());
    BackToHead(relocs);
    assert p.explored[2] == Only(t[2].at);
    assert forall e :: e in p.explored[2] ==> e == Explored(WalkingRegs(ScalarUnknown(), Top()), EmptyFrame());
    VisitsNext(prog, relocs, p);
    assert Widened(prog, p.explored, c) == t[7].at;
    var q := Progress(Some(WalkingAt(3, Clock(), Down())), [], p.explored[2 := Only(t[7].at)], 0, 8, t);
    assert Only(t[2].at)[0 := Explored(WalkingRegs(Clock(), Top()), EmptyFrame())] == Only(t[7].at);
    assert p.trace + [t[7]] == t;
    assert q.explored[3] == Only(t[3].at);
    assert Dominates(q.explored[3][0], WalkingRegs(Clock(), Down()), EmptyFrame());
    ResumesFrom(prog, relocs, q, q.(visited := 9));
  }

  lemma WalkingIsClean(relocs: map<nat, Reloc>)
    ensures NoFailure(Walking(), relocs, Visited(WalkingTrace())) && ReachesExit(Walking(), WalkingTrace())
  {
    hide Step, EmptyFrame, EntryConfig, ScalarValue, RegState.Widen, WalkingRegs, Zero, Top, Down, Clock, ScalarUnknown;
    hide Stored;
    var su := ScalarUnknown();
    KindsAre();
    EntryIsFirst();
    CallSteps(relocs, su, Down());
    MoveStep(relocs, su);
    AddStep(relocs, su);
    AddStep(relocs, Clock());
    StoreStep(relocs, su);
    BranchSteps(relocs, su, Down());
    assert Visit(After(6, Zero(), Down()), 0) in WalkingTrace();
  }

  lemma WalkingAccepted(relocs: map<nat, Reloc>)
    ensures Accepts(Walking(), relocs, WalkingTrace())
  {
    hide Explore, NoFailure, ReachesExit, Accepts, EntryConfig, EmptyFrame, WalkingRegs, Zero, Clock, Stored;
    BackToHead(relocs);
    LastRounds(relocs);
    WalkingIsClean(relocs);
    EndsAccepted(Walking(), relocs, Explore(Walking(), relocs, SecondArrival()));
  }

  // --- Runs ---

  /** At the store of round `n`, r6 is 8n bytes lower than r10, modulo two to the 64. */
  function Round(values: Values, n: nat): State {
    State(3, values[0 := 1][6 := AddressAt(values[10], WrapI64(-8 * n))])
  }

  lemma WalkRuns(relocated: set<nat>, regs: Values)
    ensures Steps(Walking(), relocated, State(0, regs), State(1, regs[0 := 1]))
    ensures Steps(Walking(), relocated, State(3, regs), State(4, regs))
    ensures Steps(Walking(), relocated, State(4, regs), State(5, regs[0 := 1]))
  {}

  lemma HeadRuns(relocated: set<nat>, regs: Values)
    ensures Steps(Walking(), relocated, State(1, regs), State(2, regs[6 := regs[10]]))
    ensures Steps(Walking(), relocated, State(2, regs), State(3, regs[6 := Plus(regs[6], FromSigned(-8))]))
  {
    hide Steps, FromSigned, Plus;
    MoveRuns(Walking(), relocated, State(1, regs), FromReg);
    AluRuns(Walking(), relocated, State(2, regs), ADD, FromImm);
  }

  lemma LoopRuns(relocated: set<nat>, regs: Values)
    requires regs[0] == 1
    ensures Steps(Walking(), relocated, State(5, regs), State(2, regs))
  {
    hide ImmOperand, IsTarget;
    ImmediateZero();
    WalkingTargets();
  }

  lemma RunGrows(relocated: set<nat>, run: seq<State>, next: State)
    requires IsRun(Walking(), relocated, run) && Steps(Walking(), relocated, run[|run| - 1], next)
    ensures IsRun(Walking(), relocated, run + [next])
  {
    hide Steps;
    var more := run + [next];
    forall i | 0 <= i < |more| - 1
      ensures Steps(Walking(), relocated, more[i], more[i + 1])
    {
      if i < |run| - 1 {
        assert Steps(Walking(), relocated, run[i], run[i + 1]);
      }
    }
  }

  lemma FirstWalk(relocated: set<nat>, values: Values) returns (run: seq<State>)
    ensures IsRun(Walking(), relocated, run) && run[0].regs == values && run[|run| - 1] == Round(values, 1)
  {
    hide Steps, AddressAt, FromSigned, Plus;
    var regs := values[0 := 1];
    var moved := regs[6 := regs[10]];
    WalkRuns(relocated, values);
    HeadRuns(relocated, regs);
    HeadRuns(relocated, moved);
    AddressZero(values[10]);
    Lower(values[10], 0);
    assert moved[6 := AddressAt(values[10], -8)] == Round(values, 1).regs;
    run := [State(0, values), State(1, regs), State(2, moved)];
    RunGrows(relocated, run, Round(values, 1));
    run := run + [Round(values, 1)];
  }

  lemma OneMoreRound(relocated: set<nat>, run: seq<State>, values: Values, n: nat) returns (longer: seq<State>)
    requires IsRun(Walking(), relocated, run) && 1 <= n && run[|run| - 1] == Round(values, n)
    ensures IsRun(Walking(), relocated, longer) && longer[0] == run[0] && longer[|longer| - 1] == Round(values, n + 1)
  {
    hide Steps, AddressAt, FromSigned, Plus;
    var regs := Round(values, n).regs;
    WalkRuns(relocated, regs);
    assert regs[0 := 1] == regs;
    LoopRuns(relocated, regs);
    HeadRuns(relocated, regs);
    Lower(values[10], WrapI64(-8 * n));
    WrapsOn(n);
    assert regs[6 := AddressAt(values[10], WrapI64(-8 * (n + 1)))] == Round(values, n + 1).regs;
    RunGrows(relocated, run, State(4, regs));
    longer := run + [State(4, regs)];
    RunGrows(relocated, longer, State(5, regs));
    longer := longer + [State(5, regs)];
    RunGrows(relocated, longer, State(2, regs));
    longer := longer + [State(2, regs)];
    RunGrows(relocated, longer, Round(values, n + 1));
    longer := longer + [Round(values, n + 1)];
  }

  lemma {:induction false} WalksOn(relocs: map<nat, Reloc>, values: Values, n: nat) returns (run: seq<State>)
    requires 1 <= n
    ensures IsRun(Walking(), relocs.Keys, run) && run[0].regs == values && run[|run| - 1] == Round(values, n)
    decreases n
  {
    hide IsRun, Round;
    if n == 1 {
      run := FirstWalk(relocs.Keys, values);
    } else {
      var before := WalksOn(relocs, values, n - 1);
      run := OneMoreRound(relocs.Keys, before, values, n - 1);
    }
  }

  lemma Lower(start: bv64, o: I64)
    ensures Plus(AddressAt(start, o), FromSigned(-8)) == AddressAt(start, WrapI64(o - 8))
  {
    hide AddressAt, FromSigned, Plus, WrapI64;
    MovedAddress(start, o, -8);
  }

  lemma WrapsOn(n: nat)
    ensures WrapI64(WrapI64(-8 * n) - 8) == WrapI64(-8 * (n + 1))
  {}

  /** The address comes round again after 2^61 rounds. */
  lemma WrapsRound(n: nat)
    ensures WrapI64(-8 * n) == -8 <==> n % 0x2000_0000_0000_0000 == 1
  {
    var k, r := n / 0x2000_0000_0000_0000, n % 0x2000_0000_0000_0000;
    assert -8 * n == -8 * r - TWO64 * k;
    WrapsWhole(-8 * r, k);
  }

  lemma WrapsWhole(n: int, k: int)
    ensures WrapI64(n - TWO64 * k) == WrapI64(n)
  {}

  lemma OnlyOneRound(values: Values, n: nat, calls: map<nat, Region>)
    requires n % 0x2000_0000_0000_0000 != 1
    ensures forall v :: v in WalkingTrace() && v.at.pc == 3 ==>
              !HoldAddresses(v.at.regs, Round(values, n).regs, EntryBases(values), calls)
  {
    hide EntryConfig, EmptyFrame, Zero, Clock, ScalarUnknown, AddressAt, Stored, WrapI64;
    EntryIsFirst();
    WrapsRound(n);
    AddressesDiffer(values[10], -8, WrapI64(-8 * n));
    assert !HoldsAddress(AddressOf(WalkingRegs(ScalarUnknown(), Down())[6].kind), Round(values, n).regs[6],
                         EntryBases(values), calls);
  }

  /** The program is accepted, and however often its loop goes round, some run does: its store is then eight bytes lower
      for every round, modulo two to the 64, while every state visited there claims the address of the first. */
  lemma AcceptedButWalking(relocs: map<nat, Reloc>, values: Values, n: nat, calls: map<nat, Region>)
    returns (run: seq<State>)
    requires 1 <= n
    ensures Accepts(Walking(), relocs, WalkingTrace()) && IsRun(Walking(), relocs.Keys, run)
    ensures var last := run[|run| - 1];
            && last.pc == 3 && last.regs[6] == AddressAt(run[0].regs[10], WrapI64(-8 * n))
            && (n % 0x2000_0000_0000_0000 != 1 ==>
                  forall v :: v in WalkingTrace() && v.at.pc == 3 ==>
                    !HoldAddresses(v.at.regs, last.regs, EntryBases(run[0].regs), calls))
  {
    hide Accepts, IsRun, WalkingTrace, HoldAddresses, AddressAt;
    WalkingAccepted(relocs);
    run := WalksOn(relocs, values, n);
    if n % 0x2000_0000_0000_0000 != 1 {
      OnlyOneRound(values, n, calls);
    }
  }
}

/** The scan tells the truth: what it marks as a frame pointer is one, in every state a program can reach. */
module ObjStackBoundsProofs {
  import opened Wrappers
  import opened Words
  import opened Instructions
  import opened ObjState
  import opened ObjHelpers
  import opened ObjSemantics
  import opened ObjSafeExecutor
  import opened ObjStackBounds

  // --- Order on abstract states ---

  /** Whatever `a` marks, `b` marks too, with the same mark. */
  predicate Below(a: AbsState, b: AbsState) {
    forall r: RegId :: a[r] != AbsOther ==> a[r] == b[r]
  }

  lemma JoinBelow(a: AbsState, b: AbsState)
    ensures Below(JoinStates(a, b), a) && Below(JoinStates(a, b), b)
  {}

  /** The registers hold what the abstract state marks. */
  predicate Fits(regs: RegFile, abs: AbsState) {
    forall r: RegId ::
      match abs[r]
      case AbsFramePtr(o) => regs[r] == FramePtr(o)
      case AbsCtxPtr(o) => regs[r] == CtxPtr(o)
      case AbsRingBufPtr(_) => regs[r].RingBufPtr?
      case AbsOther => true
  }

  lemma FitsBelow(regs: RegFile, a: AbsState, b: AbsState)
    requires Fits(regs, b) && Below(a, b)
    ensures Fits(regs, a)
  {}

  // --- When one state's marks can be taken for another's ---

  predicate NoRings(a: AbsState) { forall r: RegId :: !a[r].AbsRingBufPtr? }

  /** A value that has the mark and no other. */
  function Marked(a: AbsReg): RegVal {
    match a
    case AbsFramePtr(o) => FramePtr(o)
    case AbsCtxPtr(o) => CtxPtr(o)
    case _ => Null
  }

  /** Registers that fit one state always fit the other exactly when the other says no more. */
  lemma FitsExact(from: AbsState, to: AbsState)
    requires NoRings(from) && NoRings(to)
    ensures (forall regs: RegFile :: Fits(regs, from) ==> Fits(regs, to)) <==> Below(to, from)
  {
    if Below(to, from) {
      forall regs: RegFile | Fits(regs, from)
        ensures Fits(regs, to)
      {
        FitsBelow(regs, to, from);
      }
    }
    if forall regs: RegFile :: Fits(regs, from) ==> Fits(regs, to) {
      var regs: RegFile := seq(11, i requires 0 <= i < 11 => Marked(from[i]));
      assert Fits(regs, from);
      assert Fits(regs, to);
    }
  }

  // --- One instruction ---

  lemma AluFits(st: State, insn: Insn, abs: AbsState)
    requires Fits(st.regs, abs) && ExecInsn(st, insn).Some? && (insn.Alu64Reg? || insn.Alu64Imm?)
    ensures Fits(ExecInsn(st, insn).value.regs, TransferRegs(abs, insn))
  {
    hide Alu64Value, SignExtended;
  }

  lemma SetFits(regs: RegFile, abs: AbsState, r: RegId, v: RegVal)
    requires Fits(regs, abs)
    ensures Fits(regs[r := v], abs[r := AbsOther])
  {}

  lemma CallFits(st: State, spec: HelperSpec, abs: AbsState)
    requires Fits(st.regs, abs)
    ensures Fits(ExecHelper(st, spec).regs, Clobber(abs))
  {
    hide StackWrite;
  }

  /** Every other instruction leaves the registers alone or puts a number into one of them. */
  lemma OtherExec(st: State, insn: Insn)
    requires !insn.Alu64Reg? && !insn.Alu64Imm? && !insn.CallHelper? && ExecInsn(st, insn).Some?
    ensures var regs := ExecInsn(st, insn).value.regs;
            match insn
            case Alu32Reg(_, dst, _) => regs == st.regs[dst := regs[dst]]
            case Alu32Imm(_, dst, _) => regs == st.regs[dst := regs[dst]]
            case LoadImm64(dst, _) => regs == st.regs[dst := regs[dst]]
            case Load(_, dst, _, _) => regs == st.regs[dst := regs[dst]]
            case _ => regs == st.regs
  {
    hide Alu32Value, StackLoad, MapValueRead, RingRead, EvalJump64, EvalJump32, ValueForJump, IsZero;
    hide SignExtended, ZeroExtended, StackWrite, StackOffsetValid;
  }

  /** Running an instruction and transferring it keep registers and marks together. */
  lemma StepFits(st: State, insn: Insn, abs: AbsState)
    requires Fits(st.regs, abs) && ExecInsn(st, insn).Some?
    ensures Fits(ExecInsn(st, insn).value.regs, TransferRegs(abs, insn))
  {
    if insn.Alu64Reg? || insn.Alu64Imm? {
      AluFits(st, insn, abs);
    } else if insn.CallHelper? {
      CallFits(st, GetHelperSpec(insn.helper).value, abs);
    } else {
      hide ExecInsn, Fits;
      OtherExec(st, insn);
      var regs := ExecInsn(st, insn).value.regs;
      match insn {
        case Alu32Reg(_, dst, _) => SetFits(st.regs, abs, dst, regs[dst]);
        case Alu32Imm(_, dst, _) => SetFits(st.regs, abs, dst, regs[dst]);
        case LoadImm64(dst, _) => SetFits(st.regs, abs, dst, regs[dst]);
        case Load(_, dst, _, _) => SetFits(st.regs, abs, dst, regs[dst]);
        case _ =>
      }
    }
  }

  /** Where control goes: to the next instruction, or to the target of a branch. */
  lemma StepGoes(st: State, insn: Insn)
    requires ExecInsn(st, insn).Some? && !insn.Halt?
    ensures var pc' := ExecInsn(st, insn).value.pc;
            || (pc' == st.pc + 1 && !insn.Goto?)
            || (BranchOffset(insn).Some? && pc' == st.pc + 1 + BranchOffset(insn).value)
  {
    hide Alu64Value, Alu32Value, StackLoad, MapValueRead, RingRead, EvalJump64, EvalJump32, ValueForJump, IsZero;
    hide SignExtended, ZeroExtended, GetHelperSpec, StackWrite, StackOffsetValid;
  }

  // --- What the scan has recorded ---

  /** A state at most as informative as `abs` is recorded for `t` when the scan reaches `pc`. */
  predicate Recorded(prog: Program, pc: nat, t: int, abs: AbsState)
    requires pc <= |prog|
  {
    ScanAt(prog, pc).Some? && t in ScanAt(prog, pc).value.targets && Below(ScanAt(prog, pc).value.targets[t], abs)
  }

  lemma AddKeeps(targets: TargetMap, pc: int, state: AbsState, t: int, abs: AbsState)
    requires t in targets && Below(targets[t], abs)
    ensures t in AddTarget(targets, pc, state) && Below(AddTarget(targets, pc, state)[t], abs)
  {
    hide JoinStates;
    if t == pc {
      JoinBelow(targets[t], state);
    }
  }

  lemma AddRecords(targets: TargetMap, pc: int, state: AbsState)
    ensures pc in AddTarget(targets, pc, state) && Below(AddTarget(targets, pc, state)[pc], state)
  {
    hide JoinStates;
    if pc in targets {
      JoinBelow(targets[pc], state);
    }
  }

  /** What is recorded stays recorded until the scan gets there. */
  lemma {:induction false} RecordedStays(prog: Program, pc: nat, later: nat, t: int, abs: AbsState)
    requires pc <= later <= |prog| && later <= t && Recorded(prog, pc, t, abs) && ScanAt(prog, later).Some?
    ensures Recorded(prog, later, t, abs)
    decreases later
  {
    hide Below, TransferRegs, AccessChecked, Merge, AddTarget;
    if pc < later {
      RecordedStays(prog, pc, later - 1, t, abs);
      var s := ScanAt(prog, later - 1).value;
      var off := CondOffset(prog[later - 1]);
      if off.Some? {
        AddKeeps(s.targets - {later - 1}, later + off.value, Merge(s.regs, later - 1, s.targets), t, abs);
      }
    }
  }

  /** A forward conditional branch leaves its state at the target. */
  lemma ForwardRecorded(prog: Program, q: nat, t: nat)
    requires q < t < |prog| && ScanAt(prog, t).Some?
    requires CondOffset(prog[q]) == Some(t - q - 1)
    ensures ScanAt(prog, q).Some? && Recorded(prog, t, t, Marks(prog, q))
  {
    hide Below, TransferRegs, AccessChecked, Merge, AddTarget;
    if ScanAt(prog, q).None? {
      ScanStaysFailed(prog, q, t);
    }
    if ScanAt(prog, q + 1).None? {
      ScanStaysFailed(prog, q + 1, t);
    }
    var s := ScanAt(prog, q).value;
    AddRecords(s.targets - {q}, t, Marks(prog, q));
    assert Recorded(prog, q + 1, t, Marks(prog, q));
    RecordedStays(prog, q + 1, t, t, Marks(prog, q));
  }

  lemma {:induction false} InitKeeps(prog: Program, pc: nat, targets: TargetMap, t: int)
    requires pc <= |prog| && t in targets && Below(targets[t], Widened())
    ensures var all := InitLoopTargets(prog, pc, targets); t in all && Below(all[t], Widened())
    decreases |prog| - pc
  {
    hide Below, AddTarget, Widened;
    if pc < |prog| {
      var b := JumpsBackTo(prog[pc], pc);
      if b.Some? {
        AddKeeps(targets, b.value, Widened(), t, Widened());
      }
      InitKeeps(prog, pc + 1, if b.Some? then AddTarget(targets, b.value, Widened()) else targets, t);
    }
  }

  lemma {:induction false} InitRecords(prog: Program, pc: nat, targets: TargetMap, q: nat)
    requires pc <= q < |prog| && JumpsBackTo(prog[q], q).Some?
    ensures var all, t := InitLoopTargets(prog, pc, targets), JumpsBackTo(prog[q], q).value;
            t in all && Below(all[t], Widened())
    decreases |prog| - pc
  {
    hide Below, AddTarget, Widened;
    var b := JumpsBackTo(prog[pc], pc);
    var next := if b.Some? then AddTarget(targets, b.value, Widened()) else targets;
    if pc == q {
      AddRecords(targets, b.value, Widened());
      InitKeeps(prog, pc + 1, next, b.value);
    } else {
      InitRecords(prog, pc + 1, next, q);
    }
  }

  /** A widened state waits at every loop head. */
  lemma BackwardRecorded(prog: Program, q: nat, t: nat)
    requires t <= q < |prog| && BranchOffset(prog[q]) == Some(t - q - 1) && ScanAt(prog, t).Some?
    ensures Recorded(prog, t, t, Widened())
  {
    hide Below, Widened;
    InitRecords(prog, 0, map[], q);
    RecordedStays(prog, 0, t, t, Widened());
  }

  // --- Reachable states ---

  predicate Writes10(insn: Insn) {
    match insn
    case Alu64Reg(_, dst, _) => dst == 10
    case Alu64Imm(_, dst, _) => dst == 10
    case Alu32Reg(_, dst, _) => dst == 10
    case Alu32Imm(_, dst, _) => dst == 10
    case LoadImm64(dst, _) => dst == 10
    case Load(_, dst, _, _) => dst == 10
    case _ => false
  }

  /** An unconditional jump ahead, which the scan does not follow, finds no marks at its target but those it brings. */
  predicate JumpAgrees(prog: Program, pc: nat)
    requires pc < |prog|
  {
    prog[pc].Goto? && prog[pc].target > 0 ==>
      var t := pc + 1 + prog[pc].target;
      t < |prog| && ScanAt(prog, pc).Some? && ScanAt(prog, t).Some? ==> Below(Marks(prog, t), Marks(prog, pc))
  }

  /** The programs the scan is right about: they keep the frame pointer, never jump before the start, and their
      unconditional jumps ahead agree with the marks at the target. */
  predicate Scannable(prog: Program) {
    forall pc :: 0 <= pc < |prog| ==>
      && !Writes10(prog[pc])
      && (BranchOffset(prog[pc]).Some? ==> pc + 1 + BranchOffset(prog[pc]).value >= 0)
      && JumpAgrees(prog, pc)
  }

  lemma JoinHasNoRings(a: AbsState, b: AbsState)
    requires NoRings(a)
    ensures NoRings(JoinStates(a, b)) && (NoRings(b) ==> NoRings(JoinStates(b, a)))
  {}

  lemma TransferHasNoRings(a: AbsState, insn: Insn)
    requires NoRings(a)
    ensures NoRings(TransferRegs(a, insn))
  {}

  lemma StartHasNoRings()
    ensures NoRings(AbsInit())
  {}

  /** The scan marks no ring-buffer pointers, so the condition on jumps is exactly that whatever arrives fits. */
  lemma {:induction false} MarksHaveNoRings(prog: Program, pc: nat)
    requires pc < |prog| && ScanAt(prog, pc).Some?
    ensures NoRings(ScanAt(prog, pc).value.regs) && NoRings(Marks(prog, pc))
    decreases pc
  {
    hide NoRings, JoinStates, TransferRegs, AccessChecked, AddTarget, AbsInit, InitLoopTargets;
    var s := ScanAt(prog, pc).value;
    if pc == 0 {
      StartHasNoRings();
    } else {
      MarksHaveNoRings(prog, pc - 1);
      TransferHasNoRings(Marks(prog, pc - 1), prog[pc - 1]);
    }
    if pc in s.targets {
      JoinHasNoRings(s.regs, s.targets[pc]);
    }
  }

  lemma JumpAgreesExact(prog: Program, pc: nat, t: nat)
    requires pc < |prog| && t < |prog| && prog[pc] == Goto(t - pc - 1) && pc < t - 1
    requires ScanAt(prog, pc).Some? && ScanAt(prog, t).Some?
    ensures JumpAgrees(prog, pc) <==>
              forall regs: RegFile :: Fits(regs, Marks(prog, pc)) ==> Fits(regs, Marks(prog, t))
  {
    hide Fits, Below, Marks, ScanAt, NoRings;
    MarksHaveNoRings(prog, pc);
    MarksHaveNoRings(prog, t);
    FitsExact(Marks(prog, pc), Marks(prog, t));
  }

  /** The state after `n` instructions, if the program gets that far. */
  function StateAfter(st: State, prog: Program, n: nat): Option<State> {
    if n == 0 then Some(st)
    else
      var before := StateAfter(st, prog, n - 1);
      if before.None? then None
      else
        var insn := Fetch(prog, before.value.pc);
        if insn.None? || insn.value.Halt? then None else ExecInsn(before.value, insn.value)
  }

  predicate IsStart(st: State) {
    st.pc == 0 && st.regs[10] == FramePtr(0) && st.regs[1] == CtxPtr(0)
  }

  lemma FramePointerKept(st: State, insn: Insn)
    requires !Writes10(insn) && ExecInsn(st, insn).Some?
    ensures ExecInsn(st, insn).value.regs[10] == st.regs[10]
  {
    hide Alu64Value, SignExtended, GetHelperSpec, StackWrite;
    if !insn.Alu64Reg? && !insn.Alu64Imm? && !insn.CallHelper? {
      hide ExecInsn;
      OtherExec(st, insn);
    }
  }

  lemma FitsWidened(regs: RegFile)
    requires regs[10] == FramePtr(0)
    ensures Fits(regs, Widened())
  {}

  /** Falling through from `q`, the registers fit what the scan carries on. */
  lemma FallsInto(prog: Program, q: nat, st: State)
    requires q + 1 < |prog| && ScanAt(prog, q).Some? && ScanAt(prog, q + 1).Some?
    requires Fits(st.regs, Marks(prog, q)) && ExecInsn(st, prog[q]).Some?
    ensures Fits(ExecInsn(st, prog[q]).value.regs, Marks(prog, q + 1))
  {
    hide Fits, TransferRegs, AccessChecked, ExecInsn, JoinStates, AddTarget, Below;
    StepFits(st, prog[q], Marks(prog, q));
    var s := ScanAt(prog, q + 1).value;
    assert s.regs == TransferRegs(Marks(prog, q), prog[q]);
    if q + 1 in s.targets {
      JoinBelow(s.regs, s.targets[q + 1]);
      FitsBelow(ExecInsn(st, prog[q]).value.regs, Marks(prog, q + 1), s.regs);
    }
  }

  /** Jumping to `t` with registers that fit what is recorded there. */
  lemma JumpsInto(prog: Program, t: nat, regs: RegFile, abs: AbsState)
    requires t < |prog| && Recorded(prog, t, t, abs) && Fits(regs, abs)
    ensures Fits(regs, Marks(prog, t))
  {
    hide Fits, JoinStates, Below;
    var s := ScanAt(prog, t).value;
    FitsBelow(regs, s.targets[t], abs);
    JoinBelow(s.regs, s.targets[t]);
    FitsBelow(regs, Marks(prog, t), s.targets[t]);
  }

  lemma StartFits(prog: Program, st: State)
    requires 0 < |prog| && IsStart(st)
    ensures Fits(st.regs, Marks(prog, 0)) && ScanAt(prog, 0).Some?
  {
    hide JoinStates, InitLoopTargets;
    assert Fits(st.regs, AbsInit());
    var s := ScanStart(prog);
    if 0 in s.targets {
      JoinBelow(s.regs, s.targets[0]);
      FitsBelow(st.regs, Marks(prog, 0), s.regs);
    }
  }

  /** In every state a checked program reaches, each register the scan marks as a frame (or context) pointer with
      some offset really is that pointer: through joins, forward branches and loops. */
  lemma {:induction false} MarksAreTrue(prog: Program, st: State, n: nat)
    requires Scannable(prog) && StackBoundsCheck(prog) && IsStart(st)
    requires StateAfter(st, prog, n).Some?
    ensures var now := StateAfter(st, prog, n).value;
            && now.pc >= 0 && now.regs[10] == FramePtr(0)
            && (now.pc < |prog| ==> ScanAt(prog, now.pc).Some? && Fits(now.regs, Marks(prog, now.pc)))
    decreases n
  {
    hide ExecInsn, Fits, ScanAt, Recorded, StackBoundsCheck, Marks, Writes10, TransferRegs, Widened;
    if n == 0 {
      if 0 < |prog| {
        StartFits(prog, st);
      }
    } else {
      MarksAreTrue(prog, st, n - 1);
      var before, now := StateAfter(st, prog, n - 1).value, StateAfter(st, prog, n).value;
      var q: nat := before.pc;
      var insn := prog[q];
      StepGoes(before, insn);
      FramePointerKept(before, insn);
      if now.pc < |prog| {
        NextFits(prog, before, q, now);
      }
    }
  }

  lemma NextFits(prog: Program, before: State, q: nat, now: State)
    requires Scannable(prog) && StackBoundsCheck(prog)
    requires q < |prog| && before.pc == q && !prog[q].Halt? && ExecInsn(before, prog[q]) == Some(now)
    requires now.pc < |prog| && now.regs[10] == FramePtr(0)
    requires ScanAt(prog, q).Some? && Fits(before.regs, Marks(prog, q))
    ensures now.pc >= 0 && ScanAt(prog, now.pc).Some? && Fits(now.regs, Marks(prog, now.pc))
  {
    hide ExecInsn, Fits, ScanAt, Recorded, StackBoundsCheck, Marks, Writes10, Widened, Below;
    var insn := prog[q];
    StepGoes(before, insn);
    var t: nat := now.pc;
    PassedScans(prog, t);
    if t == q + 1 {
      FallsInto(prog, q, before);
    } else if t <= q {
      BackwardRecorded(prog, q, t);
      FitsWidened(now.regs);
      JumpsInto(prog, t, now.regs, Widened());
    } else if insn.Goto? {
      OtherExec(before, insn);
      assert JumpAgrees(prog, q);
      FitsBelow(now.regs, Marks(prog, t), Marks(prog, q));
    } else {
      ForwardRecorded(prog, q, t);
      OtherExec(before, insn);
      JumpsInto(prog, t, now.regs, Marks(prog, q));
    }
  }

  // --- What follows for memory accesses ---

  function AccessOffset(insn: Insn): I32
    requires MemBase(insn).Some?
  {
    match insn
    case Load(_, _, _, off) => off
    case Store(_, _, _, off) => off
    case StoreImm(_, _, off, _) => off
  }

  function AccessWidth(insn: Insn): MemWidth
    requires MemBase(insn).Some?
  {
    match insn
    case Load(w, _, _, _) => w
    case Store(w, _, _, _) => w
    case StoreImm(w, _, _, _) => w
  }

  /** An access through a marked frame pointer goes through that frame pointer, and stays inside the frame. */
  lemma AccessesInFrame(prog: Program, st: State, n: nat)
    requires Scannable(prog) && StackBoundsCheck(prog) && IsStart(st) && StateAfter(st, prog, n).Some?
    requires var pc := StateAfter(st, prog, n).value.pc; pc < |prog| && MemBase(prog[if pc >= 0 then pc else 0]).Some?
    ensures var now := StateAfter(st, prog, n).value;
            && now.pc >= 0 && ScanAt(prog, now.pc).Some?
            && var insn := prog[now.pc];
               var mark := Marks(prog, now.pc)[MemBase(insn).value];
               mark.AbsFramePtr? ==>
                 && now.regs[MemBase(insn).value] == FramePtr(mark.offset)
                 && StackOffsetValid(mark.offset + AccessOffset(insn), AccessWidth(insn))
  {
    hide StateAfter, Scannable, StackBoundsCheck, Marks, ScanAt, StackOffsetValid;
    MarksAreTrue(prog, st, n);
    var now := StateAfter(st, prog, n).value;
    var pc: nat := now.pc;
    PassedScans(prog, pc + 1);
    AccessWasChecked(prog, pc);
  }

  lemma AccessWasChecked(prog: Program, pc: nat)
    requires pc < |prog| && ScanAt(prog, pc + 1).Some?
    ensures ScanAt(prog, pc).Some? && AccessChecked(Marks(prog, pc), prog[pc])
  {
    hide JoinStates, TransferRegs, AddTarget, AccessChecked;
  }

  // --- Skipping the guards ---

  /** Every memory access goes through a register the scan has marked. */
  predicate AllBasesMarked(prog: Program) {
    forall pc :: 0 <= pc < |prog| && MemBase(prog[pc]).Some? ==>
      ScanAt(prog, pc).Some? && Marks(prog, pc)[MemBase(prog[pc]).value] != AbsOther
  }

  /** With the base marked and the offset checked, the guard of the access makes no difference. */
  lemma GuardRedundant(st: State, insn: Insn, abs: AbsState, ev: SafetyEvidence)
    requires Fits(st.regs, abs) && AccessChecked(abs, insn)
    requires MemBase(insn).Some? ==> abs[MemBase(insn).value] != AbsOther
    requires !IsNegativeMove(insn) && (IsMapLookup(insn) ==> ev.nullSafe)
    ensures ExecInsnSafe(st, insn, ev) == ExecInsn(st, insn)
  {
    if MemBase(insn).None? {
      hide Fits, AccessChecked, ExecInsn, ExecInsnSafe, IsNegativeMove, IsMapLookup;
      StepAgrees(st, insn, ev);
    } else {
      hide StackRead, ExecOtherLoad, SignExtended, RingStore;
    }
  }

  /** For programs that pass the check and access memory only through marked registers, the guard-skipping executor
      is the checked one: same results, same errors, from every start and with any fuel. */
  lemma GuardsAreRedundant(prog: Program, st: State, n: nat, fuel: nat, ev: SafetyEvidence)
    requires Scannable(prog) && StackBoundsCheck(prog) && AllBasesMarked(prog) && Simulable(prog, ev) && IsStart(st)
    requires StateAfter(st, prog, n).Some?
    ensures var now := StateAfter(st, prog, n).value;
            ExecProgramSafe(now, prog, fuel, ev) == ExecProgram(now, prog, fuel)
    decreases fuel
  {
    hide Scannable, StackBoundsCheck, Marks, ScanAt, Fits, AccessChecked, ExecInsn, ExecInsnSafe, IsNegativeMove;
    hide IsMapLookup;
    var now := StateAfter(st, prog, n).value;
    MarksAreTrue(prog, st, n);
    if fuel > 0 && now.pc < |prog| && !prog[now.pc].Halt? {
      var pc: nat := now.pc;
      PassedScans(prog, pc + 1);
      AccessWasChecked(prog, pc);
      GuardRedundant(now, prog[pc], Marks(prog, pc), ev);
      if ExecInsn(now, prog[pc]).Some? {
        assert StateAfter(st, prog, n + 1) == ExecInsn(now, prog[pc]);
        GuardsAreRedundant(prog, st, n + 1, fuel - 1, ev);
      }
    }
  }

  // --- Why the condition on forward jumps is needed ---

  /** r2 is the frame pointer; the jump skips the instruction that would move it down; the store then misses the
      frame, while the scan, which does not follow the jump, takes it to be in bounds. */
  function SkippingProgram(): Program {
    [Alu64Reg(MOV, 2, 10), Goto(1), Alu64Imm(ADD, 2, -8), StoreImm(W64, 2, 0, 0), Halt]
  }

  lemma ForwardJumpMisleads(st: State)
    requires IsStart(st)
    ensures var prog := SkippingProgram();
            && StackBoundsCheck(prog)
            && StateAfter(st, prog, 2).Some? && StateAfter(st, prog, 2).value.pc == 3
            && StateAfter(st, prog, 2).value.regs[2] == FramePtr(0)
            && ScanAt(prog, 3).Some? && Marks(prog, 3)[2] == AbsFramePtr(-8)
            && ExecProgram(st, prog, 4).None?
  {
    hide SignExtended;
    var prog := SkippingProgram();
    SkippingScan();
    SkippingRun(st);
  }

  /** One step of the scan where no target waits and the instruction is no branch. */
  lemma PlainScan(prog: Program, pc: nat, regs: AbsState)
    requires pc < |prog| && ScanAt(prog, pc) == Some(ScanState(regs, map[]))
    requires CondOffset(prog[pc]).None? && AccessChecked(regs, prog[pc])
    ensures Marks(prog, pc) == regs
    ensures ScanAt(prog, pc + 1) == Some(ScanState(TransferRegs(regs, prog[pc]), map[]))
  {
    hide TransferRegs, AccessChecked, JoinStates;
    var none: TargetMap := map[];
    assert none - {pc} == none;
  }

  lemma SkippingTargets(pc: nat)
    requires pc <= 5
    ensures InitLoopTargets(SkippingProgram(), pc, map[]) == map[]
    decreases 5 - pc
  {
    if pc < 5 {
      SkippingTargets(pc + 1);
    }
  }

  lemma SkippingScan()
    ensures var prog := SkippingProgram();
            StackBoundsCheck(prog) && ScanAt(prog, 3).Some? && Marks(prog, 3)[2] == AbsFramePtr(-8)
  {
    hide ScanAt, Marks, StackOffsetValid, InitLoopTargets, CheckLoop;
    var prog := SkippingProgram();
    var a0 := AbsInit();
    SkippingTargets(0);
    FirstScan(prog);
    PlainScan(prog, 0, a0);
    var a1 := TransferRegs(a0, prog[0]);
    PlainScan(prog, 1, a1);
    PlainScan(prog, 2, a1);
    var a3 := TransferRegs(a1, prog[2]);
    FirstSlotValid();
    PlainScan(prog, 3, a3);
    PlainScan(prog, 4, a3);
    CheckIsScan(prog, 0);
  }

  lemma FirstScan(prog: Program)
    ensures ScanAt(prog, 0) == Some(ScanStart(prog))
  {}

  lemma FirstSlotValid()
    ensures StackOffsetValid(-8, W64)
  {}

  lemma SkippingRun(st: State)
    requires IsStart(st)
    ensures var prog := SkippingProgram();
            && StateAfter(st, prog, 2).Some? && StateAfter(st, prog, 2).value.pc == 3
            && StateAfter(st, prog, 2).value.regs[2] == FramePtr(0)
            && ExecProgram(st, prog, 4).None?
  {
    hide SignExtended;
    var prog := SkippingProgram();
    var s1 := st.SetReg(2, FramePtr(0));
    var s2 := s1.Jump(true, 1);
    assert StateAfter(st, prog, 1) == Some(s1);
    assert StateAfter(st, prog, 2) == Some(s2);
    assert ExecInsn(s2, prog[3]).None?;
    assert ExecProgram(s2, prog, 2).None?;
    assert ExecProgram(s1, prog, 3).None?;
  }
}

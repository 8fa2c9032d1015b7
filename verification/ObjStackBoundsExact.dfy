/** What the stack-bounds scan decides, for all programs. The scan goes from the entry, and afresh from each loop head
  with nothing but r10 known; it marks a register exactly when all its ways derive it from the frame pointer, or from
  the context, by the same distance. So it passes exactly the programs whose accesses through such registers lie in
  the frame. For programs without branches and calls these are the accesses of runs.
*/
module ObjStackBoundsExact {
  import opened Wrappers
  import opened Instructions
  import opened ObjState
  import opened ObjHelpers
  import opened ObjSemantics
  import opened ObjStackBounds
  import opened ObjStackBoundsProofs

  // --- One instruction ---

  /** Every frame or context pointer in the registers is marked as what it is. */
  predicate MarksAll(regs: RegFile, abs: AbsState) {
    forall r: RegId ::
      && (regs[r].FramePtr? ==> abs[r] == AbsFramePtr(regs[r].offset))
      && (regs[r].CtxPtr? ==> abs[r] == AbsCtxPtr(regs[r].offset))
  }

  lemma AluMarksAll(st: State, insn: Insn, abs: AbsState)
    requires MarksAll(st.regs, abs) && ExecInsn(st, insn).Some? && (insn.Alu64Reg? || insn.Alu64Imm?)
    ensures MarksAll(ExecInsn(st, insn).value.regs, TransferRegs(abs, insn))
  {
    hide Alu64Value, SignExtended;
  }

  /** No other instruction but a call leaves a new pointer in a register. */
  lemma OtherPointers(st: State, insn: Insn)
    requires !insn.Alu64Reg? && !insn.Alu64Imm? && !insn.CallHelper? && ExecInsn(st, insn).Some?
    ensures var regs := ExecInsn(st, insn).value.regs;
            match insn
            case Alu32Reg(_, dst, _) => regs[dst].Scalar?
            case Alu32Imm(_, dst, _) => regs[dst].Scalar?
            case LoadImm64(dst, _) => regs[dst].Scalar?
            case Load(_, dst, _, _) => regs[dst].Scalar?
            case _ => true
  {
    hide Alu32Value, StackLoad, MapValueRead, RingRead, EvalJump64, EvalJump32, ValueForJump, IsZero;
    hide SignExtended, ZeroExtended, StackWrite, StackOffsetValid;
  }

  lemma SetMarksAll(regs: RegFile, abs: AbsState, r: RegId, v: RegVal)
    requires MarksAll(regs, abs) && v.Scalar?
    ensures MarksAll(regs[r := v], abs[r := AbsOther])
  {}

  /** Whatever the instruction, short of a call: if the pointers in the registers were marked, those it leaves there are
      marked after the transfer. */
  lemma StepMarksAll(st: State, insn: Insn, abs: AbsState)
    requires MarksAll(st.regs, abs) && ExecInsn(st, insn).Some? && !insn.CallHelper?
    ensures MarksAll(ExecInsn(st, insn).value.regs, TransferRegs(abs, insn))
  {
    hide ExecInsn, MarksAll;
    if insn.Alu64Reg? || insn.Alu64Imm? {
      AluMarksAll(st, insn, abs);
    } else {
      OtherExec(st, insn);
      OtherPointers(st, insn);
      var regs := ExecInsn(st, insn).value.regs;
      match insn {
        case Alu32Reg(_, dst, _) => SetMarksAll(st.regs, abs, dst, regs[dst]);
        case Alu32Imm(_, dst, _) => SetMarksAll(st.regs, abs, dst, regs[dst]);
        case LoadImm64(dst, _) => SetMarksAll(st.regs, abs, dst, regs[dst]);
        case Load(_, dst, _, _) => SetMarksAll(st.regs, abs, dst, regs[dst]);
        case _ =>
      }
    }
  }

  // --- What a path derives a register from ---

  datatype Derived = OfFrame(offset: int) | OfContext(offset: int) | OfNothing

  /** The register an instruction assigns. */
  function Assigns(insn: Insn): Option<RegId> {
    match insn
    case Alu64Reg(_, dst, _) => Some(dst)
    case Alu64Imm(_, dst, _) => Some(dst)
    case Alu32Reg(_, dst, _) => Some(dst)
    case Alu32Imm(_, dst, _) => Some(dst)
    case LoadImm64(dst, _) => Some(dst)
    case Load(_, dst, _, _) => Some(dst)
    case _ => None
  }

  /** The register before the instruction that holds what `r` holds after it, less the distance. A helper leaves nothing
      in the registers of its arguments. */
  function ComesFrom(insn: Insn, r: RegId): Option<(RegId, int)> {
    if insn.CallHelper? && r <= 5 then None
    else if Assigns(insn) != Some(r) then Some((r, 0))
    else if insn.Alu64Reg? && insn.op == MOV then Some((insn.src, 0))
    else if insn.Alu64Imm? && insn.op == ADD then Some((r, insn.imm))
    else if insn.Alu64Imm? && insn.op == SUB then Some((r, 0 - insn.imm))
    else None
  }

  function Shifted(d: Derived, distance: int): Derived {
    match d
    case OfFrame(o) => OfFrame(o + distance)
    case OfContext(o) => OfContext(o + distance)
    case OfNothing => OfNothing
  }

  /** The target of a backward branch. */
  ghost predicate IsHead(prog: Program, t: nat) {
    exists q: nat :: q < |prog| && JumpsBackTo(prog[q], q) == Some(t)
  }

  /** The scan goes from one instruction to the next, and ahead to the targets of conditional branches. */
  predicate GoesTo(prog: Program, q: nat, t: nat) {
    q < |prog| && (t == q + 1 || (q < t && CondOffset(prog[q]) == Some(t - q - 1)))
  }

  /** Where the scan starts: at the entry, or at a loop head. */
  ghost predicate IsStartOf(prog: Program, t: nat, entry: bool) { if entry then t == 0 else IsHead(prog, t) }

  /** What a register is derived from there: at the entry r10 is the frame pointer and r1 the context, at a loop head
      only r10 is known. */
  function DerivedAtStart(r: RegId, entry: bool): Derived {
    if r == 10 then OfFrame(0) else if r == 1 && entry then OfContext(0) else OfNothing
  }

  ghost predicate IsWay(prog: Program, path: seq<nat>, pc: nat, entry: bool) {
    && |path| > 0 && IsStartOf(prog, path[0], entry) && path[|path| - 1] == pc
    && forall i :: 0 <= i < |path| - 1 ==> GoesTo(prog, path[i], path[i + 1])
  }

  /** Follow the register back along the path: to the start by copies and constant distances, or to nothing. */
  function DerivedAlong(prog: Program, path: seq<nat>, r: RegId, entry: bool): Derived {
    if |path| <= 1 then DerivedAtStart(r, entry)
    else
      var q := path[|path| - 2];
      var from := if q < |prog| then ComesFrom(prog[q], r) else None;
      if from.None? then OfNothing
      else Shifted(DerivedAlong(prog, path[..|path| - 1], from.value.0, entry), from.value.1)
  }

  ghost predicate OnAllWays(prog: Program, pc: nat, r: RegId, d: Derived) {
    forall path, entry :: IsWay(prog, path, pc, entry) ==> DerivedAlong(prog, path, r, entry) == d
  }

  // --- One instruction backward ---

  function MarkOf(d: Derived): AbsReg {
    match d
    case OfFrame(o) => AbsFramePtr(o)
    case OfContext(o) => AbsCtxPtr(o)
    case OfNothing => AbsOther
  }

  /** The transferred mark is that of the register it comes from, moved. */
  lemma TransferredMark(abs: AbsState, insn: Insn, r: RegId, d: Derived)
    requires NoRings(abs) && !d.OfNothing?
    ensures var from := ComesFrom(insn, r);
            TransferRegs(abs, insn)[r] == MarkOf(d) <==>
              from.Some? && abs[from.value.0] == MarkOf(Shifted(d, 0 - from.value.1))
  {
    match insn {
      case Alu64Reg(_, _, _) =>
      case Alu64Imm(_, dst, _) => assert !abs[dst].AbsRingBufPtr?;
      case CallHelper(_) =>
      case _ =>
    }
  }

  lemma Prolonged(prog: Program, path: seq<nat>, q: nat, t: nat, entry: bool)
    requires IsWay(prog, path, q, entry) && GoesTo(prog, q, t)
    ensures IsWay(prog, path + [t], t, entry) && (path + [t])[..|path|] == path
  {
    hide GoesTo, IsStartOf;
    var longer := path + [t];
    forall i | 0 <= i < |longer| - 1
      ensures GoesTo(prog, longer[i], longer[i + 1])
    {
      if i < |path| - 1 {
        assert GoesTo(prog, path[i], path[i + 1]);
      }
    }
  }

  lemma WayBefore(prog: Program, path: seq<nat>, t: nat, entry: bool)
    requires IsWay(prog, path, t, entry) && |path| > 1
    ensures IsWay(prog, path[..|path| - 1], path[|path| - 2], entry) && GoesTo(prog, path[|path| - 2], t)
  {
    hide GoesTo, IsStartOf;
    var init := path[..|path| - 1];
    assert GoesTo(prog, path[|path| - 2], path[|path| - 2 + 1]);
    forall i | 0 <= i < |init| - 1
      ensures GoesTo(prog, init[i], init[i + 1])
    {
      assert GoesTo(prog, path[i], path[i + 1]);
    }
  }

  lemma {:induction false} SomeWay(prog: Program, pc: nat) returns (path: seq<nat>)
    requires pc <= |prog|
    ensures IsWay(prog, path, pc, true)
    decreases pc
  {
    if pc == 0 {
      path := [0];
    } else {
      path := SomeWay(prog, pc - 1);
      Prolonged(prog, path, pc - 1, pc, true);
      path := path + [pc];
    }
  }

  /** All ways to `t` over `q` derive the register so. */
  ghost predicate OnWaysOver(prog: Program, q: nat, t: nat, r: RegId, d: Derived)
    requires GoesTo(prog, q, t)
  {
    var from := ComesFrom(prog[q], r);
    from.Some? && OnAllWays(prog, q, from.value.0, Shifted(d, 0 - from.value.1))
  }

  lemma ShiftedBack(d: Derived, e: Derived, n: int)
    ensures Shifted(d, n) == e <==> d == Shifted(e, 0 - n)
  {}

  lemma AlongOneMore(prog: Program, path: seq<nat>, q: nat, t: nat, entry: bool, r: RegId, d: Derived)
    requires IsWay(prog, path, q, entry) && GoesTo(prog, q, t) && !d.OfNothing?
    ensures q < |prog| && IsWay(prog, path + [t], t, entry)
    ensures var from := ComesFrom(prog[q], r);
            DerivedAlong(prog, path + [t], r, entry) == d <==>
              from.Some? && DerivedAlong(prog, path, from.value.0, entry) == Shifted(d, 0 - from.value.1)
  {
    hide ComesFrom, Shifted, GoesTo, IsWay;
    Prolonged(prog, path, q, t, entry);
    EndsAt(prog, path, q, entry);
    GoesInside(prog, q, t);
    var from := ComesFrom(prog[q], r);
    if from.Some? {
      ShiftedBack(DerivedAlong(prog, path, from.value.0, entry), d, from.value.1);
    }
  }

  lemma EndsAt(prog: Program, path: seq<nat>, pc: nat, entry: bool)
    requires IsWay(prog, path, pc, entry)
    ensures |path| > 0 && path[|path| - 1] == pc
  {
    hide GoesTo, IsStartOf;
  }

  lemma GoesInside(prog: Program, q: nat, t: nat)
    requires GoesTo(prog, q, t)
    ensures q < |prog| && q < t
  {
    hide CondOffset;
  }

  lemma OverOneEdge(prog: Program, q: nat, t: nat, r: RegId, d: Derived)
    requires GoesTo(prog, q, t) && !d.OfNothing? && OnAllWays(prog, t, r, d)
    ensures OnWaysOver(prog, q, t, r, d)
  {
    hide ComesFrom, Shifted, GoesTo, IsWay, DerivedAlong;
    GoesInside(prog, q, t);
    var path := SomeWay(prog, q);
    AlongOneMore(prog, path, q, t, true, r, d);
    var from := ComesFrom(prog[q], r);
    forall path, entry | IsWay(prog, path, q, entry)
      ensures DerivedAlong(prog, path, from.value.0, entry) == Shifted(d, 0 - from.value.1)
    {
      AlongOneMore(prog, path, q, t, entry, r, d);
    }
  }

  /** If the scan starts here, it starts with this. */
  ghost predicate OnStarts(prog: Program, t: nat, r: RegId, d: Derived) {
    forall entry :: IsStartOf(prog, t, entry) ==> DerivedAtStart(r, entry) == d
  }

  /** All ways to an instruction derive a register so if and only if those that start there do, and all that go there
      over an instruction before it. */
  lemma WaysSplit(prog: Program, t: nat, r: RegId, d: Derived)
    requires t <= |prog| && !d.OfNothing?
    ensures OnAllWays(prog, t, r, d) <==>
              OnStarts(prog, t, r, d) && forall q: nat :: GoesTo(prog, q, t) ==> OnWaysOver(prog, q, t, r, d)
  {
    hide ComesFrom, Shifted, GoesTo, OnWaysOver, IsStartOf, DerivedAtStart;
    if OnAllWays(prog, t, r, d) {
      forall q: nat | GoesTo(prog, q, t)
        ensures OnWaysOver(prog, q, t, r, d)
      {
        OverOneEdge(prog, q, t, r, d);
      }
      forall entry | IsStartOf(prog, t, entry)
        ensures DerivedAtStart(r, entry) == d
      {
        assert IsWay(prog, [t], t, entry) && DerivedAlong(prog, [t], r, entry) == d;
      }
    }
    if OnStarts(prog, t, r, d) && forall q: nat :: GoesTo(prog, q, t) ==> OnWaysOver(prog, q, t, r, d) {
      forall path, entry | IsWay(prog, path, t, entry)
        ensures DerivedAlong(prog, path, r, entry) == d
      {
        if |path| > 1 {
          LastStep(prog, path, t, entry, r, d);
        }
      }
    }
  }

  lemma LastStep(prog: Program, path: seq<nat>, t: nat, entry: bool, r: RegId, d: Derived)
    requires IsWay(prog, path, t, entry) && |path| > 1 && !d.OfNothing?
    requires forall q: nat :: GoesTo(prog, q, t) ==> OnWaysOver(prog, q, t, r, d)
    ensures DerivedAlong(prog, path, r, entry) == d
  {
    hide ComesFrom, Shifted, GoesTo, DerivedAlong, CondOffset, IsStartOf;
    var init, q := path[..|path| - 1], path[|path| - 2];
    WayBefore(prog, path, t, entry);
    AlongOneMore(prog, init, q, t, entry, r, d);
    assert init + [t] == path;
    assert OnWaysOver(prog, q, t, r, d);
  }

  // --- The scan is the meet over all ways ---

  /** Some conditional branch before `pc` goes to `t`. */
  predicate BranchTo(prog: Program, q: nat, pc: nat, t: int) {
    q < pc <= |prog| && CondOffset(prog[q]) == Some(t - q - 1)
  }

  /** What is recorded for `t` when the scan reaches `pc` is what all branches there bring and a loop head asks for, and
      no more. */
  ghost predicate RecordedMark(prog: Program, pc: nat, t: nat, r: RegId, d: Derived)
    requires pc <= |prog| && ScanAt(prog, pc).Some?
  {
    && (forall q: nat :: BranchTo(prog, q, pc, t) ==> ScanAt(prog, q).Some? && Marks(prog, q)[r] == MarkOf(d))
    && (IsHead(prog, t) ==> Widened()[r] == MarkOf(d))
  }

  /** The targets the scan starts with are the loop heads, all with the same state. */
  lemma {:induction false} HeadTargets(prog: Program, pc: nat, targets: TargetMap, t: nat)
    requires pc <= |prog| && (t in targets ==> targets[t] == Widened())
    ensures var all := InitLoopTargets(prog, pc, targets);
            && (t in all <==> t in targets || exists q: nat :: pc <= q < |prog| && JumpsBackTo(prog[q], q) == Some(t))
            && (t in all ==> all[t] == Widened())
    decreases |prog| - pc
  {
    hide Widened, JumpsBackTo;
    if pc < |prog| {
      var b := JumpsBackTo(prog[pc], pc);
      JoinWithItself(Widened());
      HeadTargets(prog, pc + 1, if b.Some? then AddTarget(targets, b.value, Widened()) else targets, t);
    }
  }

  lemma JoinWithItself(a: AbsState)
    ensures JoinStates(a, a) == a
  {}

  lemma StartTargets(prog: Program, t: nat)
    ensures var targets := ScanStart(prog).targets;
            (t in targets <==> IsHead(prog, t)) && (t in targets ==> targets[t] == Widened())
  {
    hide Widened, JumpsBackTo, InitLoopTargets;
    HeadTargets(prog, 0, map[], t);
  }

  lemma JoinedMark(a: AbsState, b: AbsState, r: RegId, d: Derived)
    requires !d.OfNothing?
    ensures JoinStates(a, b)[r] == MarkOf(d) <==> a[r] == MarkOf(d) && b[r] == MarkOf(d)
  {}

  lemma AddedMark(targets: TargetMap, pc: int, state: AbsState, t: int, r: RegId, d: Derived)
    requires !d.OfNothing?
    ensures var after := AddTarget(targets, pc, state);
            && (t in after <==> t in targets || t == pc)
            && (t in after ==> (after[t][r] == MarkOf(d) <==>
                  (t in targets ==> targets[t][r] == MarkOf(d)) && (t == pc ==> state[r] == MarkOf(d))))
  {
    hide JoinStates;
    if t in targets {
      JoinedMark(targets[t], state, r, d);
    }
  }

  lemma ScanStep(prog: Program, pc: nat)
    requires pc < |prog| && ScanAt(prog, pc + 1).Some?
    ensures ScanAt(prog, pc).Some? && AccessChecked(Marks(prog, pc), prog[pc])
    ensures ScanAt(prog, pc + 1).value.regs == TransferRegs(Marks(prog, pc), prog[pc])
    ensures var targets, off := ScanAt(prog, pc).value.targets - {pc}, CondOffset(prog[pc]);
            ScanAt(prog, pc + 1).value.targets
              == if off.Some? then AddTarget(targets, pc + 1 + off.value, Marks(prog, pc)) else targets
  {
    hide JoinStates, TransferRegs, AddTarget, AccessChecked;
  }

  lemma {:induction false} RecordedForBranches(prog: Program, pc: nat, t: nat)
    requires pc <= |prog| && pc <= t && ScanAt(prog, pc).Some?
    ensures t in ScanAt(prog, pc).value.targets <==>
              IsHead(prog, t) || exists q: nat :: BranchTo(prog, q, pc, t)
    decreases pc
  {
    hide BranchTo, Marks, JoinStates, TransferRegs, AccessChecked, IsHead;
    if pc == 0 {
      StartTargets(prog, t);
      FirstScan(prog);
      NothingBefore(prog, t);
    } else {
      ScanStep(prog, pc - 1);
      RecordedForBranches(prog, pc - 1, t);
      LaterBranches(prog, pc, t);
      var before, after := ScanAt(prog, pc - 1).value.targets, ScanAt(prog, pc).value.targets;
      assert t in after <==> t in before || CondOffset(prog[pc - 1]) == Some(t - pc);
      if t in before && !IsHead(prog, t) {
        var q: nat :| BranchTo(prog, q, pc - 1, t);
        assert BranchTo(prog, q, pc, t);
      }
    }
  }

  lemma {:induction false} RecordedExactly(prog: Program, pc: nat, t: nat, r: RegId, d: Derived)
    requires pc <= |prog| && pc <= t && ScanAt(prog, pc).Some? && !d.OfNothing?
    requires t in ScanAt(prog, pc).value.targets
    ensures ScanAt(prog, pc).value.targets[t][r] == MarkOf(d) <==> RecordedMark(prog, pc, t, r, d)
    decreases pc
  {
    hide BranchTo, Marks, MarkOf, JoinStates, TransferRegs, AccessChecked, AddTarget, ScanAt, IsHead, Widened;
    if pc == 0 {
      StartTargets(prog, t);
      FirstScan(prog);
      NothingBefore(prog, t);
    } else {
      ScanStep(prog, pc - 1);
      var before, off := ScanAt(prog, pc - 1).value.targets, CondOffset(prog[pc - 1]);
      LaterBranches(prog, pc, t);
      RecordedForBranches(prog, pc - 1, t);
      if off.Some? {
        AddedMark(before - {pc - 1}, pc + off.value, Marks(prog, pc - 1), t, r, d);
      }
      if t in before {
        RecordedExactly(prog, pc - 1, t, r, d);
      }
    }
  }

  lemma NothingBefore(prog: Program, t: int)
    ensures forall q: nat :: !BranchTo(prog, q, 0, t)
  {}

  lemma LaterBranches(prog: Program, pc: nat, t: int)
    requires 0 < pc <= |prog|
    ensures forall q: nat :: BranchTo(prog, q, pc, t) <==>
              BranchTo(prog, q, pc - 1, t) || (q == pc - 1 && CondOffset(prog[q]) == Some(t - pc))
    ensures CondOffset(prog[pc - 1]) == Some(t - pc) ==> BranchTo(prog, pc - 1, pc, t)
  {}

  lemma MergedMark(prog: Program, pc: nat, r: RegId, d: Derived)
    requires pc < |prog| && ScanAt(prog, pc).Some? && !d.OfNothing?
    ensures Marks(prog, pc)[r] == MarkOf(d) <==>
              ScanAt(prog, pc).value.regs[r] == MarkOf(d) && RecordedMark(prog, pc, pc, r, d)
  {
    hide BranchTo, MarkOf, JoinStates, ScanAt, IsHead;
    RecordedForBranches(prog, pc, pc);
    var s := ScanAt(prog, pc).value;
    if pc in s.targets {
      RecordedExactly(prog, pc, pc, r, d);
      JoinedMark(s.regs, s.targets[pc], r, d);
    } else {
      NothingRecorded(prog, pc, r, d);
    }
  }

  lemma NothingRecorded(prog: Program, pc: nat, r: RegId, d: Derived)
    requires pc <= |prog| && ScanAt(prog, pc).Some? && !IsHead(prog, pc) && !exists q: nat :: BranchTo(prog, q, pc, pc)
    ensures RecordedMark(prog, pc, pc, r, d)
  {
    hide BranchTo, Marks, ScanAt, IsHead;
  }

  lemma OverBranch(prog: Program, q: nat, t: nat, r: RegId, d: Derived)
    requires BranchTo(prog, q, t, t)
    ensures GoesTo(prog, q, t) && (OnWaysOver(prog, q, t, r, d) <==> OnAllWays(prog, q, r, d))
  {
    hide OnAllWays;
    assert Shifted(d, 0) == d;
  }

  lemma EdgesTo(prog: Program, t: nat)
    requires t <= |prog|
    ensures 0 < t ==> GoesTo(prog, t - 1, t)
    ensures forall q: nat :: GoesTo(prog, q, t) <==> (0 < t && q == t - 1) || BranchTo(prog, q, t, t)
  {}

  ghost predicate OverBranches(prog: Program, t: nat, r: RegId, d: Derived) {
    forall q: nat :: BranchTo(prog, q, t, t) ==> GoesTo(prog, q, t) && OnWaysOver(prog, q, t, r, d)
  }

  lemma WaysByEdge(prog: Program, t: nat, r: RegId, d: Derived)
    requires t <= |prog| && !d.OfNothing?
    ensures 0 < t ==> GoesTo(prog, t - 1, t)
    ensures OnAllWays(prog, t, r, d) <==>
              && OnStarts(prog, t, r, d) && OverBranches(prog, t, r, d)
              && (0 < t ==> OnWaysOver(prog, t - 1, t, r, d))
  {
    hide OnWaysOver, OnAllWays, BranchTo, CondOffset, OnStarts;
    EdgesTo(prog, t);
    WaysSplit(prog, t, r, d);
  }

  lemma OverTheEdge(prog: Program, q: nat, t: nat, r: RegId, d: Derived)
    requires GoesTo(prog, q, t)
    ensures q < |prog|
    ensures var from := ComesFrom(prog[q], r);
            OnWaysOver(prog, q, t, r, d) <==>
              from.Some? && OnAllWays(prog, q, from.value.0, Shifted(d, 0 - from.value.1))
  {
    hide ComesFrom, OnAllWays, CondOffset;
  }

  lemma StartMarks(r: RegId, d: Derived)
    requires !d.OfNothing?
    ensures AbsInit()[r] == MarkOf(d) <==> DerivedAtStart(r, true) == d
    ensures Widened()[r] == MarkOf(d) <==> DerivedAtStart(r, false) == d
  {}

  lemma StartsAre(prog: Program, t: nat, r: RegId, d: Derived)
    requires !d.OfNothing?
    ensures OnStarts(prog, t, r, d) <==>
              (t == 0 ==> AbsInit()[r] == MarkOf(d)) && (IsHead(prog, t) ==> Widened()[r] == MarkOf(d))
  {
    hide IsHead, MarkOf, DerivedAtStart;
    StartMarks(r, d);
    assert IsStartOf(prog, t, true) <==> t == 0;
    assert IsStartOf(prog, t, false) <==> IsHead(prog, t);
  }

  /** The branches and loop heads at `t` bring the mark if and only if the ways over them derive it. */
  lemma BranchesBring(prog: Program, t: nat, r: RegId, d: Derived)
    requires t < |prog| && ScanAt(prog, t).Some? && !d.OfNothing?
    requires forall q: nat :: q < t && ScanAt(prog, q).Some? ==>
               (Marks(prog, q)[r] == MarkOf(d) <==> OnAllWays(prog, q, r, d))
    ensures RecordedMark(prog, t, t, r, d) <==>
              OverBranches(prog, t, r, d) && (IsHead(prog, t) ==> Widened()[r] == MarkOf(d))
  {
    hide Marks, MarkOf, OnWaysOver, OnAllWays, ScanAt, GoesTo, CondOffset, IsHead, Widened;
    forall q: nat | BranchTo(prog, q, t, t)
      ensures ScanAt(prog, q).Some? && GoesTo(prog, q, t)
      ensures Marks(prog, q)[r] == MarkOf(d) <==> OnWaysOver(prog, q, t, r, d)
    {
      ScannedBefore(prog, q, t);
      OverBranch(prog, q, t, r, d);
    }
  }

  lemma ScannedBefore(prog: Program, q: nat, t: nat)
    requires q <= t <= |prog| && ScanAt(prog, t).Some?
    ensures ScanAt(prog, q).Some?
  {
    hide ScanAt;
    if ScanAt(prog, q).None? {
      ScanStaysFailed(prog, q, t);
    }
  }

  /** The scan marks a register as the frame pointer, or the context, plus a distance if and only if every way to the
      instruction derives it so. */
  lemma {:induction false} MarksExact(prog: Program, pc: nat, r: RegId, d: Derived)
    requires pc < |prog| && ScanAt(prog, pc).Some? && !d.OfNothing?
    ensures Marks(prog, pc)[r] == MarkOf(d) <==> OnAllWays(prog, pc, r, d)
    decreases pc
  {
    hide MarkOf, Marks, ScanAt, OnAllWays, GoesTo, TransferRegs, AccessChecked, ComesFrom, Widened, AbsInit;
    hide RecordedMark, Shifted, NoRings, OnWaysOver, OverBranches, OnStarts, IsHead, InitLoopTargets;
    MergedMark(prog, pc, r, d);
    StartsAre(prog, pc, r, d);
    WaysByEdge(prog, pc, r, d);
    forall q: nat | q < pc && ScanAt(prog, q).Some?
      ensures Marks(prog, q)[r] == MarkOf(d) <==> OnAllWays(prog, q, r, d)
    {
      MarksExact(prog, q, r, d);
    }
    BranchesBring(prog, pc, r, d);
    if pc == 0 {
      FirstScan(prog);
    } else {
      ScanStep(prog, pc - 1);
      MarksHaveNoRings(prog, pc - 1);
      TransferredMark(Marks(prog, pc - 1), prog[pc - 1], r, d);
      OverTheEdge(prog, pc - 1, pc, r, d);
      var from := ComesFrom(prog[pc - 1], r);
      if from.Some? {
        ShiftedIsDerived(d, 0 - from.value.1);
        MarksExact(prog, pc - 1, from.value.0, Shifted(d, 0 - from.value.1));
      }
    }
  }

  lemma ShiftedIsDerived(d: Derived, n: int)
    ensures Shifted(d, n).OfNothing? <==> d.OfNothing?
  {}

  // --- What the check decides ---

  /** The bytes that an access at this offset from the frame pointer touches lie in the 512 bytes below it. */
  predicate LiesInFrame(offset: int, w: MemWidth) { -512 <= offset && offset + WidthBytes(w) <= 0 }

  /** If all ways derive the base of the access from the frame pointer by the same distance, it lies in the frame. */
  ghost predicate AccessLies(prog: Program, pc: nat)
    requires pc < |prog|
  {
    MemBase(prog[pc]).Some? ==>
      forall o: int :: OnAllWays(prog, pc, MemBase(prog[pc]).value, OfFrame(o)) ==>
        LiesInFrame(o + AccessOffset(prog[pc]), AccessWidth(prog[pc]))
  }

  lemma AccessCheckedExact(prog: Program, pc: nat)
    requires pc < |prog| && ScanAt(prog, pc).Some?
    ensures AccessChecked(Marks(prog, pc), prog[pc]) <==> AccessLies(prog, pc)
  {
    hide ScanAt, OnAllWays, Marks;
    if MemBase(prog[pc]).Some? {
      var base := MemBase(prog[pc]).value;
      forall o: int
        ensures OnAllWays(prog, pc, base, OfFrame(o)) <==> Marks(prog, pc)[base] == AbsFramePtr(o)
      {
        MarksExact(prog, pc, base, OfFrame(o));
      }
    }
  }

  lemma CheckedGoesOn(prog: Program, pc: nat)
    requires pc < |prog| && ScanAt(prog, pc).Some?
    ensures ScanAt(prog, pc + 1).Some? <==> AccessChecked(Marks(prog, pc), prog[pc])
  {
    hide JoinStates, TransferRegs, AddTarget, AccessChecked;
  }

  lemma {:induction false} LyingScans(prog: Program, pc: nat)
    requires pc <= |prog| && forall q: nat :: q < pc ==> AccessLies(prog, q)
    ensures ScanAt(prog, pc).Some?
    decreases pc
  {
    hide AccessLies, AccessChecked, Marks;
    if pc > 0 {
      LyingScans(prog, pc - 1);
      AccessCheckedExact(prog, pc - 1);
      CheckedGoesOn(prog, pc - 1);
    }
  }

  /** The check passes a program if and only if every access lies in the frame whose base all ways derive from the
      frame pointer by the same distance. */
  lemma CheckExact(prog: Program)
    ensures StackBoundsCheck(prog) <==> forall pc: nat :: pc < |prog| ==> AccessLies(prog, pc)
  {
    hide AccessLies, AccessChecked, Marks, ScanAt, StackBoundsCheck;
    CheckMeansScan(prog);
    if StackBoundsCheck(prog) {
      forall pc: nat | pc < |prog|
        ensures AccessLies(prog, pc)
      {
        PassedScans(prog, pc);
        PassedScans(prog, pc + 1);
        CheckedGoesOn(prog, pc);
        AccessCheckedExact(prog, pc);
      }
    }
    if forall pc: nat :: pc < |prog| ==> AccessLies(prog, pc) {
      LyingScans(prog, |prog|);
    }
  }

  lemma CheckMeansScan(prog: Program)
    ensures StackBoundsCheck(prog) <==> ScanAt(prog, |prog|).Some?
  {
    hide CheckInsn;
    CheckIsScan(prog, 0);
  }

  // --- Runs of straight programs ---

  /** No branches and no calls. */
  predicate Straight(prog: Program) {
    forall pc :: 0 <= pc < |prog| ==> BranchOffset(prog[pc]).None? && !prog[pc].CallHelper?
  }

  lemma StraightWays(prog: Program, t: nat, r: RegId, d: Derived)
    requires Straight(prog) && t <= |prog|
    ensures !IsHead(prog, t) && OverBranches(prog, t, r, d)
  {
    hide OnWaysOver, GoesTo;
    forall q: nat | q < |prog|
      ensures CondOffset(prog[q]).None? && JumpsBackTo(prog[q], q).None?
    {
      assert BranchOffset(prog[q]).None?;
    }
  }

  function PointerIn(v: RegVal): Derived {
    match v
    case FramePtr(o) => OfFrame(o)
    case CtxPtr(o) => OfContext(o)
    case _ => OfNothing
  }

  /** Nothing but r10 and r1 holds a frame or context pointer. */
  predicate PlainStart(st: State) {
    IsStart(st) && forall r: RegId :: r != 1 && r != 10 ==> PointerIn(st.regs[r]).OfNothing?
  }

  lemma AluDerives(st: State, insn: Insn, r: RegId)
    requires ExecInsn(st, insn).Some? && (insn.Alu64Reg? || insn.Alu64Imm?)
    ensures var from := ComesFrom(insn, r);
            PointerIn(ExecInsn(st, insn).value.regs[r])
              == if from.Some? then Shifted(PointerIn(st.regs[from.value.0]), from.value.1) else OfNothing
  {
    hide Alu64Value, SignExtended;
  }

  /** What a register holds after an instruction, short of a call, is what the register it comes from held, moved. */
  lemma StepDerives(st: State, insn: Insn, r: RegId)
    requires ExecInsn(st, insn).Some? && !insn.CallHelper?
    ensures var from := ComesFrom(insn, r);
            PointerIn(ExecInsn(st, insn).value.regs[r])
              == if from.Some? then Shifted(PointerIn(st.regs[from.value.0]), from.value.1) else OfNothing
  {
    hide ExecInsn;
    if insn.Alu64Reg? || insn.Alu64Imm? {
      AluDerives(st, insn, r);
    } else {
      OtherExec(st, insn);
      OtherPointers(st, insn);
    }
  }

  lemma StraightStep(prog: Program, st: State, n: nat)
    requires Straight(prog) && 0 < n && StateAfter(st, prog, n).Some? && n <= |prog|
    requires StateAfter(st, prog, n - 1).Some? && StateAfter(st, prog, n - 1).value.pc == n - 1
    ensures var before := StateAfter(st, prog, n - 1).value;
            ExecInsn(before, prog[n - 1]) == StateAfter(st, prog, n) && StateAfter(st, prog, n).value.pc == n
  {
    hide ExecInsn;
    var before := StateAfter(st, prog, n - 1).value;
    assert BranchOffset(prog[n - 1]).None?;
    StepGoes(before, prog[n - 1]);
  }

  lemma StartDerives(prog: Program, st: State, r: RegId, d: Derived)
    requires PlainStart(st) && !d.OfNothing? && !IsHead(prog, 0)
    ensures PointerIn(st.regs[r]) == d <==> OnStarts(prog, 0, r, d)
  {
    hide IsHead;
    StartsAre(prog, 0, r, d);
  }

  lemma NotAtStart(prog: Program, t: nat, r: RegId, d: Derived)
    requires 0 < t && !IsHead(prog, t)
    ensures OnStarts(prog, t, r, d)
  {}

  /** A run of a straight program holds in each register what the way there derives. */
  lemma {:induction false} StraightDerives(prog: Program, st: State, n: nat, r: RegId, d: Derived)
    requires Straight(prog) && PlainStart(st) && n <= |prog| && StateAfter(st, prog, n).Some? && !d.OfNothing?
    ensures StateAfter(st, prog, n).value.pc == n
    ensures PointerIn(StateAfter(st, prog, n).value.regs[r]) == d <==> OnAllWays(prog, n, r, d)
    decreases n
  {
    hide ExecInsn, OnAllWays, OnWaysOver, Straight, OverBranches, OnStarts, IsHead, ComesFrom, PlainStart, Shifted;
    hide BranchOffset, PointerIn;
    StraightWays(prog, n, r, d);
    WaysByEdge(prog, n, r, d);
    if n == 0 {
      StartDerives(prog, st, r, d);
      StartsAtZero(st);
    } else {
      NotAtStart(prog, n, r, d);
      StraightDerives(prog, st, n - 1, r, d);
      StraightStep(prog, st, n);
      var before := StateAfter(st, prog, n - 1).value;
      assert !prog[n - 1].CallHelper? by { CallFree(prog, n - 1); }
      StepDerives(before, prog[n - 1], r);
      OverTheEdge(prog, n - 1, n, r, d);
      var from := ComesFrom(prog[n - 1], r);
      if from.Some? {
        ShiftedBack(PointerIn(before.regs[from.value.0]), d, from.value.1);
        ShiftedIsDerived(d, 0 - from.value.1);
        StraightDerives(prog, st, n - 1, from.value.0, Shifted(d, 0 - from.value.1));
      }
    }
  }

  lemma StartsAtZero(st: State)
    requires PlainStart(st)
    ensures st.pc == 0
  {}

  lemma CallFree(prog: Program, pc: nat)
    requires Straight(prog) && pc < |prog|
    ensures !prog[pc].CallHelper?
  {}

  /** In a straight program the marks are the frame and context pointers that a run holds, no more and no fewer. */
  lemma StraightMarks(prog: Program, st: State, n: nat, r: RegId, d: Derived)
    requires Straight(prog) && PlainStart(st) && n < |prog| && StateAfter(st, prog, n).Some? && !d.OfNothing?
    requires ScanAt(prog, n).Some?
    ensures Marks(prog, n)[r] == MarkOf(d) <==> PointerIn(StateAfter(st, prog, n).value.regs[r]) == d
  {
    hide Straight, PlainStart, StateAfter, ScanAt, Marks, OnAllWays;
    StraightDerives(prog, st, n, r, d);
    MarksExact(prog, n, r, d);
  }

  /** The run's access through a frame pointer, if the instruction at `pc` makes one, lies in the frame. */
  predicate RunAccessLies(prog: Program, st: State, pc: nat)
    requires pc < |prog| && StateAfter(st, prog, pc).Some?
  {
    var insn, regs := prog[pc], StateAfter(st, prog, pc).value.regs;
    MemBase(insn).Some? && regs[MemBase(insn).value].FramePtr? ==>
      LiesInFrame(regs[MemBase(insn).value].offset + AccessOffset(insn), AccessWidth(insn))
  }

  lemma RunAccessExact(prog: Program, st: State, pc: nat)
    requires Straight(prog) && PlainStart(st) && pc < |prog| && StateAfter(st, prog, pc).Some?
    ensures RunAccessLies(prog, st, pc) <==> AccessLies(prog, pc)
  {
    hide Straight, PlainStart, StateAfter, OnAllWays, LiesInFrame;
    if MemBase(prog[pc]).Some? {
      var base := MemBase(prog[pc]).value;
      forall o: int
        ensures OnAllWays(prog, pc, base, OfFrame(o)) <==> StateAfter(st, prog, pc).value.regs[base] == FramePtr(o)
      {
        StraightDerives(prog, st, pc, base, OfFrame(o));
      }
    }
  }

  /** Where a run comes to every instruction of a straight program, the check passes the program if and only if every
      access that the run makes through a frame pointer lies in the frame. */
  lemma StraightCheckExact(prog: Program, st: State)
    requires Straight(prog) && PlainStart(st)
    requires forall pc: nat :: pc < |prog| ==> StateAfter(st, prog, pc).Some?
    ensures StackBoundsCheck(prog) <==> forall pc: nat :: pc < |prog| ==> RunAccessLies(prog, st, pc)
  {
    hide Straight, PlainStart, StateAfter, StackBoundsCheck, AccessLies;
    CheckExact(prog);
    forall pc: nat | pc < |prog|
      ensures RunAccessLies(prog, st, pc) <==> AccessLies(prog, pc)
    {
      RunAccessExact(prog, st, pc);
    }
  }
}

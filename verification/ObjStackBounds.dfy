/** The one-pass stack-bounds checker of the executable semantics. */
module ObjStackBounds {
  import opened Wrappers
  import opened Words
  import opened Instructions
  import opened ObjState
  import opened ObjSemantics

  datatype AbsReg = AbsFramePtr(offset: int) | AbsCtxPtr(offset: int) | AbsRingBufPtr(id: nat) | AbsOther

  type AbsState = regs: seq<AbsReg> | |regs| == 11 witness seq(11, _ => AbsOther)

  /** The abstract states waiting at branch targets. */
  type TargetMap = map<int, AbsState>

  function AbsInit(): AbsState {
    var o := AbsOther;
    [o, AbsCtxPtr(0), o, o, o, o, o, o, o, o, AbsFramePtr(0)]
  }

  function JoinReg(a: AbsReg, b: AbsReg): AbsReg {
    if a == b then a else AbsOther
  }

  function JoinStates(a: AbsState, b: AbsState): AbsState {
    seq(11, i requires 0 <= i < 11 => JoinReg(a[i], b[i]))
  }

  /** Record a state at a branch target, joined with what is recorded there already. */
  function AddTarget(targets: TargetMap, pc: int, state: AbsState): TargetMap {
    targets[pc := if pc in targets then JoinStates(targets[pc], state) else state]
  }

  /** The state after merging what is recorded at `pc`. */
  function Merge(state: AbsState, pc: int, targets: TargetMap): AbsState {
    if pc in targets then JoinStates(state, targets[pc]) else state
  }

  predicate CheckMemAccess(base: AbsReg, off: I32, w: MemWidth) {
    base.AbsFramePtr? ==> StackOffsetValid(base.offset + off, w)
  }

  /** A pointer moved by a constant; ring-buffer pointers are given up. */
  function Moved(r: AbsReg, delta: int): AbsReg {
    match r
    case AbsFramePtr(off) => AbsFramePtr(off + delta)
    case AbsCtxPtr(off) => AbsCtxPtr(off + delta)
    case _ => AbsOther
  }

  function Clobber(state: AbsState): AbsState {
    state[0 := AbsOther][1 := AbsOther][2 := AbsOther][3 := AbsOther][4 := AbsOther][5 := AbsOther]
  }

  /** The register through which an instruction accesses memory. */
  function MemBase(insn: Insn): Option<RegId> {
    match insn
    case Load(_, _, src, _) => Some(src)
    case Store(_, dst, _, _) => Some(dst)
    case StoreImm(_, dst, _, _) => Some(dst)
    case _ => None
  }

  predicate AccessChecked(state: AbsState, insn: Insn) {
    match insn
    case Load(w, _, src, off) => CheckMemAccess(state[src], off, w)
    case Store(w, dst, _, off) => CheckMemAccess(state[dst], off, w)
    case StoreImm(w, dst, off, _) => CheckMemAccess(state[dst], off, w)
    case _ => true
  }

  /** The registers after the instruction. */
  function TransferRegs(state: AbsState, insn: Insn): AbsState {
    match insn
    case Alu64Reg(op, dst, src) => state[dst := if op == MOV then state[src] else AbsOther]
    case Alu64Imm(op, dst, imm) =>
      state[dst := if op == ADD then Moved(state[dst], imm) else if op == SUB then Moved(state[dst], 0 - imm)
            else AbsOther]
    case Alu32Reg(_, dst, _) => state[dst := AbsOther]
    case Alu32Imm(_, dst, _) => state[dst := AbsOther]
    case LoadImm64(dst, _) => state[dst := AbsOther]
    case Load(_, dst, _, _) => state[dst := AbsOther]
    case CallHelper(_) => Clobber(state)
    case _ => state
  }

  /** The offset of a conditional branch. */
  function CondOffset(insn: Insn): Option<int> {
    match insn
    case Jump64Reg(_, _, _, off) => Some(off)
    case Jump64Imm(_, _, _, off) => Some(off)
    case Jump32Reg(_, _, _, off) => Some(off)
    case Jump32Imm(_, _, _, off) => Some(off)
    case _ => None
  }

  /** The offset of any branch. */
  function BranchOffset(insn: Insn): Option<int> {
    if insn.Goto? then Some(insn.target) else CondOffset(insn)
  }

  datatype ScanState = ScanState(regs: AbsState, targets: TargetMap)

  /** Merge, check and transfer one instruction; only conditional branches record their target. */
  function CheckInsn(s: ScanState, insn: Insn, pc: int): Option<ScanState> {
    var merged := Merge(s.regs, pc, s.targets);
    var targets := s.targets - {pc};
    if !AccessChecked(merged, insn) then None
    else
      var off := CondOffset(insn);
      Some(ScanState(TransferRegs(merged, insn), if off.Some? then AddTarget(targets, pc + 1 + off.value, merged)
            else targets))
  }

  /** Check the instructions from `pc` on. */
  predicate CheckLoop(s: ScanState, prog: Program, pc: nat)
    requires pc <= |prog|
    decreases |prog| - pc
  {
    pc == |prog| ||
    var next := CheckInsn(s, prog[pc], pc);
    next.Some? && CheckLoop(next.value, prog, pc + 1)
  }

  // --- Loop heads ---

  /** What is assumed at a loop head: r0 to r5 are unknown, the rest as at entry. */
  function Widened(): AbsState { Clobber(AbsInit()) }

  function JumpsBackTo(insn: Insn, pc: int): Option<int> {
    var off := BranchOffset(insn);
    if off.Some? && pc + 1 + off.value <= pc then Some(pc + 1 + off.value) else None
  }

  /** Record a widened state at every target of a backward branch from `pc` on. */
  function InitLoopTargets(prog: Program, pc: nat, targets: TargetMap): TargetMap
    requires pc <= |prog|
    decreases |prog| - pc
  {
    if pc == |prog| then targets
    else
      var t := JumpsBackTo(prog[pc], pc);
      InitLoopTargets(prog, pc + 1, if t.Some? then AddTarget(targets, t.value, Widened()) else targets)
  }

  function ScanStart(prog: Program): ScanState {
    ScanState(AbsInit(), InitLoopTargets(prog, 0, map[]))
  }

  predicate StackBoundsCheck(prog: Program) {
    CheckLoop(ScanStart(prog), prog, 0)
  }

  // --- The scan, position by position ---

  /** The scan's state on reaching `pc`, unless it failed before. */
  function ScanAt(prog: Program, pc: nat): Option<ScanState>
    requires pc <= |prog|
  {
    if pc == 0 then Some(ScanStart(prog))
    else
      var s := ScanAt(prog, pc - 1);
      if s.None? then None else CheckInsn(s.value, prog[pc - 1], pc - 1)
  }

  /** The whole check succeeds exactly when the scan reaches the end. */
  lemma {:induction false} CheckIsScan(prog: Program, pc: nat)
    requires pc <= |prog| && ScanAt(prog, pc).Some?
    ensures CheckLoop(ScanAt(prog, pc).value, prog, pc) <==> ScanAt(prog, |prog|).Some?
    decreases |prog| - pc
  {
    hide CheckInsn;
    if pc < |prog| {
      assert ScanAt(prog, pc + 1) == CheckInsn(ScanAt(prog, pc).value, prog[pc], pc);
      if ScanAt(prog, pc + 1).Some? {
        CheckIsScan(prog, pc + 1);
      } else {
        ScanStaysFailed(prog, pc + 1, |prog|);
      }
    }
  }

  lemma {:induction false} ScanStaysFailed(prog: Program, pc: nat, later: nat)
    requires pc <= later <= |prog| && ScanAt(prog, pc).None?
    ensures ScanAt(prog, later).None?
    decreases later
  {
    if pc < later {
      ScanStaysFailed(prog, pc, later - 1);
    }
  }

  lemma PassedScans(prog: Program, pc: nat)
    requires StackBoundsCheck(prog) && pc <= |prog|
    ensures ScanAt(prog, pc).Some?
  {
    CheckIsScan(prog, 0);
    if ScanAt(prog, pc).None? {
      ScanStaysFailed(prog, pc, |prog|);
    }
  }

  /** The registers as the scan sees them at `pc`, after merging. */
  function Marks(prog: Program, pc: nat): AbsState
    requires pc < |prog| && ScanAt(prog, pc).Some?
  {
    Merge(ScanAt(prog, pc).value.regs, pc, ScanAt(prog, pc).value.targets)
  }
}

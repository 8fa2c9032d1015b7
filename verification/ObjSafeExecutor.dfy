/** The guard-skipping executor, and exactly when it agrees with the checked one. */
module ObjSafeExecutor {
  import opened Wrappers
  import opened Words
  import opened Instructions
  import opened ObjState
  import opened ObjHelpers
  import opened ObjSemantics

  /** Which properties have been established statically. */
  datatype SafetyEvidence = SafetyEvidence(stackSafe: bool, typeSafe: bool, nullSafe: bool)

  const EVIDENCE_NONE := SafetyEvidence(false, false, false)

  // --- The executor ---

  /** With stack evidence, loads and stores through frame pointers skip the bounds check. */
  function ExecLoadSafe(st: State, w: MemWidth, dst: RegId, src: RegId, off: I32, ev: SafetyEvidence): Option<State> {
    var base := st.regs[src];
    if base.FramePtr? then
      var v := if ev.stackSafe then StackRead(st.stack, base.offset + off, w) else StackLoad(st, base.offset + off, w);
      if v.Some? then Some(st.SetReg(dst, Scalar(v.value))) else None
    else ExecOtherLoad(st, w, dst, base, off)
  }

  function ExecStoreValueSafe(st: State, w: MemWidth, base: RegVal, off: I32, v: bv64,
          ev: SafetyEvidence): Option<State> {
    match base
    case FramePtr(ptrOff) =>
      if ev.stackSafe then Some(StackStoreUnchecked(st, ptrOff + off, w, v)) else StackStore(st, ptrOff + off, w, v)
    case RingBufPtr(id) => Some(RingStore(st, id, off, w, v))
    case _ => None
  }

  function ExecStoreSafe(st: State, w: MemWidth, dst: RegId, src: RegId, off: I32, ev: SafetyEvidence): Option<State> {
    if st.regs[src].Scalar?
    then ExecStoreValueSafe(st, w, st.regs[dst], off, st.regs[src].value, ev)
    else None
  }

  /** Unlike the checked executor, a 32-bit move sign-extends its immediate. */
  function ExecAlu32ImmSafe(st: State, op: AluOp, dst: RegId, imm: I32): Option<State> {
    if op == MOV then Some(st.SetReg(dst, Scalar(SignExtended(imm)))) else ExecAlu32Imm(st, op, dst, imm)
  }

  function ExecInsnSafe(st: State, insn: Insn, ev: SafetyEvidence): Option<State> {
    match insn
    case Alu64Reg(op, dst, src) => ExecAlu64Reg(st, op, dst, src)
    case Alu64Imm(op, dst, imm) => ExecAlu64Imm(st, op, dst, imm)
    case Alu32Reg(op, dst, src) => ExecAlu32Reg(st, op, dst, src)
    case Alu32Imm(op, dst, imm) => ExecAlu32ImmSafe(st, op, dst, imm)
    case LoadImm64(dst, v) => Some(st.SetReg(dst, Scalar(v)))
    case Load(w, dst, src, off) => ExecLoadSafe(st, w, dst, src, off, ev)
    case Store(w, dst, src, off) => ExecStoreSafe(st, w, dst, src, off, ev)
    case StoreImm(w, dst, off, imm) => ExecStoreValueSafe(st, w, st.regs[dst], off, SignExtended(imm), ev)
    case Jump64Reg(cond, dst, src, target) => ExecJump64Reg(st, cond, dst, src, target)
    case Jump64Imm(cond, dst, imm, target) => ExecJump64Imm(st, cond, dst, imm, target)
    case Jump32Reg(cond, dst, src, target) => ExecJump32Reg(st, cond, dst, src, target)
    case Jump32Imm(cond, dst, imm, target) => ExecJump32Imm(st, cond, dst, imm, target)
    case Goto(target) => Some(st.Jump(true, target))
    case CallHelper(helper) =>
      var spec := GetHelperSpec(helper);
      if spec.Some? then Some(ExecHelperSafe(st, spec.value, ev.nullSafe)) else None
    case Halt => Some(st)
  }

  function ExecProgramSafe(st: State, prog: Program, fuel: nat, ev: SafetyEvidence): Option<State>
    decreases fuel
  {
    if fuel == 0 then None
    else
      var insn := Fetch(prog, st.pc);
      if insn.None? then None
      else if insn.value.Halt? then Some(st)
      else
        var next := ExecInsnSafe(st, insn.value, ev);
        if next.None? then None else ExecProgramSafe(next.value, prog, fuel - 1, ev)
  }

  // --- One instruction: simulation ---

  /** A 32-bit move of a negative constant. */
  predicate IsNegativeMove(insn: Insn) { insn.Alu32Imm? && insn.op == MOV && insn.imm < 0 }

  predicate IsMapLookup(insn: Insn) {
    insn.CallHelper? && var spec := GetHelperSpec(insn.helper); spec.Some? && spec.value.ret.RetMapPtr?
  }

  predicate IsMemoryAccess(insn: Insn) { insn.Load? || insn.Store? || insn.StoreImm? }

  /** The guard-skipping executor does whatever the checked one does without error. */
  ghost predicate Simulates(insn: Insn, ev: SafetyEvidence) {
    forall st: State :: ExecInsn(st, insn).Some? ==> ExecInsnSafe(st, insn, ev) == ExecInsn(st, insn)
  }

  lemma ExtensionsAgree(imm: I32)
    ensures SignExtended(imm) == ZeroExtended(imm) <==> imm >= 0
  {
    hide B;
    if imm < 0 {
      UOfB(imm + TWO64);
      UOfB(imm + TWO32);
    }
  }

  lemma StepSimulates(st: State, insn: Insn, ev: SafetyEvidence)
    requires !IsNegativeMove(insn) && (IsMapLookup(insn) ==> ev.nullSafe) && ExecInsn(st, insn).Some?
    ensures ExecInsnSafe(st, insn, ev) == ExecInsn(st, insn)
  {
    hide ExecAlu64Reg, ExecAlu64Imm, ExecAlu32Reg, ExecJump64Reg, ExecJump64Imm, ExecJump32Reg, ExecJump32Imm;
    hide StackRead, ExecOtherLoad, Alu32Value, SignExtended, ZeroExtended, ApplyEffect, GetHelperSpec;
    if insn.Alu32Imm? {
      ExtensionsAgree(insn.imm);
    }
  }

  function Blank(regs: RegFile, stack: seq<StackSlot>): State {
    State(regs, 0, stack, [], [], 0, [0, 0, 0, 0, 0, 0, 0, 0, 0, 0, 0])
  }

  /** A register file that holds only zeros. */
  function Zeros(): RegFile {
    var z := Scalar(0);
    [z, z, z, z, z, z, z, z, z, z, z]
  }

  /** The condition is exact: a negative move, or a lookup without evidence, already differs on some state. */
  lemma SimulatesExactly(insn: Insn, ev: SafetyEvidence)
    ensures Simulates(insn, ev) <==> !IsNegativeMove(insn) && (IsMapLookup(insn) ==> ev.nullSafe)
  {
    hide ExecInsn, ExecInsnSafe, SignExtended, ZeroExtended;
    if !IsNegativeMove(insn) && (IsMapLookup(insn) ==> ev.nullSafe) {
      forall st: State | ExecInsn(st, insn).Some?
        ensures ExecInsnSafe(st, insn, ev) == ExecInsn(st, insn)
      {
        StepSimulates(st, insn, ev);
      }
    } else {
      DiffersSomewhere(Blank(Zeros(), []), insn, ev);
    }
  }

  lemma DiffersSomewhere(st: State, insn: Insn, ev: SafetyEvidence)
    requires IsNegativeMove(insn) || (IsMapLookup(insn) && !ev.nullSafe)
    requires st == Blank(Zeros(), [])
    ensures ExecInsn(st, insn).Some? && ExecInsnSafe(st, insn, ev) != ExecInsn(st, insn)
  {
    hide SignExtended, ZeroExtended;
    if insn.Alu32Imm? {
      ExtensionsAgree(insn.imm);
      var a, b := ExecInsn(st, insn).value, ExecInsnSafe(st, insn, ev).value;
      assert a.regs[insn.dst] != b.regs[insn.dst];
    } else {
      assert |ExecInsn(st, insn).value.mapValues| == 1;
    }
  }

  // --- One instruction: agreement ---

  ghost predicate Agrees(insn: Insn, ev: SafetyEvidence) {
    forall st: State :: ExecInsnSafe(st, insn, ev) == ExecInsn(st, insn)
  }

  lemma StepAgrees(st: State, insn: Insn, ev: SafetyEvidence)
    requires !IsNegativeMove(insn) && (IsMapLookup(insn) ==> ev.nullSafe) && (IsMemoryAccess(insn) ==> !ev.stackSafe)
    ensures ExecInsnSafe(st, insn, ev) == ExecInsn(st, insn)
  {
    hide ExecAlu64Reg, ExecAlu64Imm, ExecAlu32Reg, ExecJump64Reg, ExecJump64Imm, ExecJump32Reg, ExecJump32Imm;
    hide StackRead, ExecOtherLoad, Alu32Value, SignExtended, ZeroExtended, ApplyEffect, GetHelperSpec;
    if insn.Alu32Imm? {
      ExtensionsAgree(insn.imm);
    }
  }

  /** A frame pointer so far off that the access at `off` misses the frame. */
  function FarRegs(base: RegId, off: I32): RegFile {
    Zeros()[base := FramePtr(0 - off)]
  }

  lemma SkippedGuardShows(insn: Insn, ev: SafetyEvidence) returns (st: State)
    requires IsMemoryAccess(insn) && ev.stackSafe
    requires insn.Store? ==> insn.dst != insn.src
    ensures ExecInsn(st, insn).None? && ExecInsnSafe(st, insn, ev).Some?
  {
    hide SignExtended;
    match insn
    case Load(w, _, src, off) => st := Blank(FarRegs(src, off), [StackSlot(0, w, 0)]);
    case Store(_, dst, _, off) => st := Blank(FarRegs(dst, off), []);
    case StoreImm(_, dst, off, _) => st := Blank(FarRegs(dst, off), []);
  }

  /** Both executors agree on every state exactly for the other instructions. (A store of a register through itself
      never succeeds through a frame pointer.) */
  lemma AgreesExactly(insn: Insn, ev: SafetyEvidence)
    ensures Agrees(insn, ev) <==>
              && !IsNegativeMove(insn) && (IsMapLookup(insn) ==> ev.nullSafe)
              && (IsMemoryAccess(insn) && !(insn.Store? && insn.dst == insn.src) ==> !ev.stackSafe)
  {
    hide ExecInsn, ExecInsnSafe, SignExtended, ZeroExtended;
    if IsNegativeMove(insn) || (IsMapLookup(insn) && !ev.nullSafe) {
      DiffersSomewhere(Blank(Zeros(), []), insn, ev);
    } else if insn.Store? && insn.dst == insn.src {
      forall st: State
        ensures ExecInsnSafe(st, insn, ev) == ExecInsn(st, insn)
      {
        SelfStore(st, insn, ev);
      }
    } else if IsMemoryAccess(insn) && ev.stackSafe {
      var st := SkippedGuardShows(insn, ev);
    } else {
      forall st: State
        ensures ExecInsnSafe(st, insn, ev) == ExecInsn(st, insn)
      {
        StepAgrees(st, insn, ev);
      }
    }
  }

  /** In particular the executor without any evidence is not the checked one: after a lookup, reading the map value
      is undefined. */
  lemma NoEvidenceDiffers()
    ensures !Agrees(CallHelper(MapLookupElem), EVIDENCE_NONE)
  {
    AgreesExactly(CallHelper(MapLookupElem), EVIDENCE_NONE);
  }

  lemma SelfStore(st: State, insn: Insn, ev: SafetyEvidence)
    requires insn.Store? && insn.dst == insn.src
    ensures ExecInsnSafe(st, insn, ev) == ExecInsn(st, insn)
  {}

  // --- Whole programs ---

  /** Every instruction simulates. */
  predicate Simulable(prog: Program, ev: SafetyEvidence) {
    forall i :: 0 <= i < |prog| ==> !IsNegativeMove(prog[i]) && (IsMapLookup(prog[i]) ==> ev.nullSafe)
  }

  /** If the checked executor returns a state, the guard-skipping one returns the same, for any start and fuel. */
  lemma {:induction false} ProgramSimulates(st: State, prog: Program, fuel: nat, ev: SafetyEvidence)
    requires Simulable(prog, ev) && ExecProgram(st, prog, fuel).Some?
    ensures ExecProgramSafe(st, prog, fuel, ev) == ExecProgram(st, prog, fuel)
    decreases fuel
  {
    hide ExecInsn, ExecInsnSafe, IsNegativeMove, IsMapLookup;
    var insn := Fetch(prog, st.pc);
    if insn.Some? && !insn.value.Halt? {
      StepSimulates(st, insn.value, ev);
      ProgramSimulates(ExecInsn(st, insn.value).value, prog, fuel - 1, ev);
    }
  }

  // --- Specifications ---

  /** A pre- and a postcondition on machine states. */
  datatype BpfSpec = BpfSpec(pre: State -> bool, post: State -> bool)

  /** The start of a run: r10 points to the frame and r1 to the context. */
  function StartOf(init: State): State {
    init.(pc := 0, regs := init.regs[10 := FramePtr(0)][1 := CtxPtr(0)])
  }

  predicate PostHolds(spec: BpfSpec, r: Option<State>) {
    r.Some? ==> spec.post(r.value)
  }

  ghost predicate Satisfies(prog: Program, spec: BpfSpec) {
    forall init: State :: spec.pre(init) ==> PostHolds(spec, ExecProgram(StartOf(init), prog, |prog|))
  }

  ghost predicate SatisfiesSafe(prog: Program, spec: BpfSpec, ev: SafetyEvidence) {
    forall init: State :: spec.pre(init) ==> PostHolds(spec, ExecProgramSafe(StartOf(init), prog, |prog|, ev))
  }

  /** The reconnection of guarded and functional proofs: what is proved of the guard-skipping executor holds of the
      checked one. No static bounds check is needed for this direction, only the condition on instructions. */
  lemma LayeredSound(prog: Program, spec: BpfSpec, ev: SafetyEvidence)
    requires SatisfiesSafe(prog, spec, ev) && Simulable(prog, ev)
    ensures Satisfies(prog, spec)
  {
    hide ExecProgram, ExecProgramSafe, Simulable;
    forall init: State | spec.pre(init)
      ensures PostHolds(spec, ExecProgram(StartOf(init), prog, |prog|))
    {
      if ExecProgram(StartOf(init), prog, |prog|).Some? {
        ProgramSimulates(StartOf(init), prog, |prog|, ev);
      }
      assert PostHolds(spec, ExecProgramSafe(StartOf(init), prog, |prog|, ev));
    }
  }

  predicate AnyState(st: State) { true }

  predicate ReturnsMinusOne(st: State) { st.regs[0] == Scalar(SignExtended(-1)) }

  const MINUS_ONE_SPEC := BpfSpec(AnyState, ReturnsMinusOne)

  /** Without the condition it fails: with full evidence, this program provably returns -1 in the guarded executor
      and 2^32 - 1 in the checked one. */
  lemma LayeredUnsound()
    ensures var prog := [Alu32Imm(MOV, 0, -1), Halt];
            SatisfiesSafe(prog, MINUS_ONE_SPEC, SafetyEvidence(true, true, true)) && !Satisfies(prog, MINUS_ONE_SPEC)
  {
    hide SignExtended, ZeroExtended;
    var prog := [Alu32Imm(MOV, 0, -1), Halt];
    var spec := MINUS_ONE_SPEC;
    var ev := SafetyEvidence(true, true, true);
    forall init: State
      ensures PostHolds(spec, ExecProgramSafe(StartOf(init), prog, |prog|, ev))
      ensures !PostHolds(spec, ExecProgram(StartOf(init), prog, |prog|))
    {
      BothResults(StartOf(init), prog, ev);
      ExtensionsAgree(-1);
    }
    var init := Blank(Zeros(), []);
    assert spec.pre(init) && !PostHolds(spec, ExecProgram(StartOf(init), prog, |prog|));
  }

  lemma BothResults(st: State, prog: Program, ev: SafetyEvidence)
    requires prog == [Alu32Imm(MOV, 0, -1), Halt] && st.pc == 0
    ensures ExecProgramSafe(st, prog, 2, ev) == Some(st.SetReg(0, Scalar(SignExtended(-1))))
    ensures ExecProgram(st, prog, 2) == Some(st.SetReg(0, Scalar(ZeroExtended(-1))))
  {
    hide SignExtended, ZeroExtended;
    var a, b := st.SetReg(0, Scalar(SignExtended(-1))), st.SetReg(0, Scalar(ZeroExtended(-1)));
    assert ExecInsnSafe(st, prog[0], ev) == Some(a) && ExecInsn(st, prog[0]) == Some(b);
    assert ExecProgramSafe(a, prog, 1, ev) == Some(a) && ExecProgram(b, prog, 1) == Some(b);
  }
}

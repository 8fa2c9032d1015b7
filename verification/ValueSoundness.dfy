/** The values in every concrete run lie in the states the checker visited.

  The claim needs two conditions on the exploration, because the checker's arithmetic is not sound everywhere:
  each visited instruction must be one whose transfer is exact (`SafeVisit`), and no widening may meet a scalar
  with a pointer (`NoTypeClash`). Both are decided from the visited states alone.
*/
module ValueSoundness {
  import opened Wrappers
  import opened Words
  import opened Tnums
  import opened TnumSubtraction
  import opened Instructions
  import opened HelperTable
  import opened RegStates
  import opened WideningProofs
  import opened AbstractStates
  import opened ControlFlow
  import opened Transfer
  import opened Certificates
  import opened Sanity
  import opened Machine
  import opened AluSoundness
  import opened OffsetForms
  import opened BranchSoundness

  /** Every register the abstract state calls a scalar holds one of the values it stands for. */
  ghost predicate Represents(regs: Regs, values: Values) {
    forall r: RegId :: Admits(regs[r], values[r])
  }

  // --- The side conditions ---

  /** The tracked number is right for the register's value: it is a scalar, or nothing is claimed. */
  predicate Trusted(r: RegState) { r.kind.Scalar? || r.tnum == Tnum.Unknown() }

  /** The arithmetic of the visit covers the concrete result. */
  predicate SafeAlu(regs: Regs, insn: BpfInsn, op: AluOp, source: Source, is64: bool) {
    var dst, src := regs[insn.dst], Operand(regs, insn, source, is64);
    if insn.offset != 0 then
      && op == MOV && source.FromReg? && is64 && MoveModulus(insn.offset, true).Some?
      && (src.kind.Scalar? ==> FitsWidth(src, MoveModulus(insn.offset, true).value))
    else if op == MOV then
      source.FromReg? && !is64 ==> (src.kind.Scalar? && MoveSafe(src)) || src.Unbounded()
    else if op == NEG || dst.kind.IsPtr() || (op == ADD && src.kind.IsPtr()) then
      true
    else
      && Trusted(dst) && Trusted(src)
      && if is64 then SignKnown(ScalarTnum(op, dst.tnum, src.tnum))
            && (op == SUB ==> ExtremesCovered(dst.tnum, src.tnum))
         else Safe32(op, dst.tnum, src.tnum)
  }

  /** The refinement of the visit's branch keeps the concrete value. */
  predicate SafeBranch(regs: Regs, insn: BpfInsn, op: JmpOp, source: Source, is32: bool) {
    var dst := regs[insn.dst];
    dst.kind.Scalar? ==>
      && (source.FromReg? && regs[insn.src].tnum.IsKnown() ==> regs[insn.src].kind.Scalar?)
      && (is32 && IsSignedOp(op) ==> SignedAgrees(dst))
  }

  predicate SafeVisit(prog: Program, v: Visit)
    requires v.at.pc < |prog|
  {
    var insn := prog[v.at.pc];
    match insn.opcode
    case Alu64(op, source) => SafeAlu(v.at.regs, insn, op, source, true)
    case Alu32(op, source) => SafeAlu(v.at.regs, insn, op, source, false)
    case Jmp64(op, source) => SafeBranch(v.at.regs, insn, op, source, false)
    case Jmp32(op, source) =>
      (op == JA ==> insn.imm == insn.offset || insn.imm == 0) && SafeBranch(v.at.regs, insn, op, source, true)
    case _ => true
  }

  /** Widening `prev` by `c` does not keep a limited scalar where a pointer arrives: by `WidenExact`, each register's
      widening over-approximates. */
  predicate KindsMeet(prev: Regs, c: Regs) {
    forall r: RegId :: prev[r].kind.Scalar? ==> c[r].kind.Scalar? || c[r].kind.Uninit? || prev[r].Unbounded()
  }

  ghost predicate NoTypeClash(prog: Program, relocs: map<nat, Reloc>, visits: set<Visit>) {
    forall prev, c :: prev in visits && Arrives(prog, relocs, visits, c) && prev.at.pc == c.pc && IsLoopHead(prog, c.pc)
      ==> KindsMeet(prev.at.regs, c.regs)
  }

  ghost predicate Safe(prog: Program, relocs: map<nat, Reloc>, visits: set<Visit>)
    requires forall v :: v in visits ==> v.at.pc < |prog|
  {
    (forall v :: v in visits ==> SafeVisit(prog, v)) && NoTypeClash(prog, relocs, visits)
  }

  // --- Operands ---

  lemma TrustedHas(r: RegState, v: bv64)
    requires Trusted(r) && (r.kind.Scalar? ==> r.Contains(v))
    ensures r.tnum.Has(v)
  {
    hide Member, U, SignKnown;
    UnknownHas(v);
  }

  lemma AnythingGoes(kind: RegType, v: bv64)
    ensures AnyValue(kind).Contains(v)
  {
    hide U, Member;
    UnknownHas(v);
  }

  lemma ImmediateIsLow(imm: I32)
    ensures Low(ImmOperand(imm, false)) == ImmOperand(imm, false)
  {
    hide U, B, Low;
    UOfB(if imm < 0 then imm + TWO32 else imm);
    LowFits(ImmOperand(imm, false));
  }

  lemma ImmediateValue(imm: I32, is64: bool)
    ensures imm == 0 <==> U(ImmOperand(imm, is64)) == 0
    ensures imm >= 0 ==> U(ImmOperand(imm, is64)) == imm
  {
    hide U, B;
    UOfB(if imm < 0 then imm + TWO32 else imm);
    CastsAgree(0, imm);
  }

  // --- One instruction ---

  /** The checks before the arithmetic guarantee what the transfer relies on. */
  lemma GuardsHold(regs: Regs, insn: BpfInsn, op: AluOp, source: Source, is64: bool, y: bv64)
    requires op != MOV && op != NEG
    requires (op == DIV || op == MOD) ==> !DivisorMayBeZero(regs, insn, source)
    requires (op == LSH || op == RSH || op == ARSH) ==> !ShiftTooFar(regs, insn, source, is64)
    requires var src := Operand(regs, insn, source, is64); Trusted(src) && (src.kind.Scalar? ==> src.Contains(y))
    ensures Guarded(op, Operand(regs, insn, source, is64).tnum, is64)
  {
    hide U, S, Member, ImmOperand;
    var src := Operand(regs, insn, source, is64);
    ImmediateValue(insn.imm, is64);
    if src.tnum.IsKnown() {
      UnknownHas(y);
      assert src.kind.Scalar?;
      KnownMembers(src.tnum, y);
    }
  }

  lemma ScalarStep(regs: Regs, insn: BpfInsn, op: AluOp, source: Source, is64: bool, x: bv64, y: bv64)
    requires op != MOV && op != NEG
    requires var dst, src := regs[insn.dst], Operand(regs, insn, source, is64);
             && Guarded(op, src.tnum, is64)
             && dst.tnum.Has(x) && src.tnum.Has(y)
             && (if is64 then SignKnown(ScalarTnum(op, dst.tnum, src.tnum))
                   && (op == SUB ==> ExtremesCovered(dst.tnum, src.tnum))
                 else Safe32(op, dst.tnum, src.tnum))
    ensures ScalarResult(op, regs[insn.dst].tnum, Operand(regs, insn, source, is64).tnum,
              is64).Contains(AluValue(op, is64, x, y))
  {
    hide Operand, Guarded, Tnum.Has, Safe32, SignKnown, ExtremesCovered, FromTracked, RegState.Contains, AluValue64;
    hide AluValue32;
    hide ScalarTnum;
    var d, s := regs[insn.dst].tnum, Operand(regs, insn, source, is64).tnum;
    NotMove(op, s, is64);
    if is64 {
      TnumCovers(op, d, s, x, y);
      KnownSignContains(ScalarTnum(op, d, s), AluValue64(op, x, y));
    } else {
      Alu32Sound(op, d, s, x, y);
    }
  }

  lemma NotMove(op: AluOp, s: Tnum, is64: bool)
    requires Guarded(op, s, is64)
    ensures op != MOV && op != NEG
  {
    hide U;
  }

  lemma MoveStep(regs: Regs, values: Values, insn: BpfInsn, source: Source, is64: bool)
    requires Represents(regs, values) && SafeAlu(regs, insn, MOV, source, is64) && insn.offset == 0
    ensures var r := AluResult(regs, insn, MOV, source, is64);
            r.Success? && (r.value.kind.Scalar? ==>
              r.value.Contains(AluValue(MOV, is64, values[insn.dst], OperandValue(values, insn, source, is64))))
  {
    hide RegState.Contains, ImmOperand, Truncated, MoveSafe, Low;
    var y := OperandValue(values, insn, source, is64);
    if source.FromImm? {
      ScalarValueHas(y);
      if !is64 {
        ImmediateIsLow(insn.imm);
      }
    } else if !is64 {
      var src := regs[insn.src];
      if src.Unbounded() {
        UnboundedContains(src, y);
      }
      MoveSound(src, y);
    }
  }

  lemma UnboundedContains(r: RegState, v: bv64)
    requires r.Unbounded()
    ensures r.Contains(v) && MoveSafe(r)
  {
    hide U, Member;
    UnknownHas(v);
  }

  lemma PointerStep(op: AluOp, dst: RegType, src: RegState, v: bv64)
    requires dst.IsPtr() && PointerResult(op, dst, src).Success?
    ensures var r := PointerResult(op, dst, src).value; r.kind.Scalar? ==> r.Contains(v)
  {
    hide RegState.Contains, U, S, WrapI64;
    AnythingGoes(Scalar, v);
  }

  /** A sign-extending move whose operand fits the width is a plain move. */
  lemma ExtendedMoveStep(regs: Regs, values: Values, insn: BpfInsn, v: bv64)
    requires Represents(regs, values) && SafeAlu(regs, insn, MOV, FromReg, true) && insn.offset != 0
    requires AluOutcome(MOV, FromReg, true, insn.offset, values[insn.dst], values[insn.src]) == Some(v)
    ensures var r := AluResult(regs, insn, MOV, FromReg, true);
            r.Success? && (r.value.kind.Scalar? ==> r.value.Contains(v))
  {
    hide RegState.Contains, FitsWidth, FromSigned;
    var src := regs[insn.src];
    if src.kind.Scalar? {
      FittingIsKept(src, values[insn.src], MoveModulus(insn.offset, true).value);
    }
  }

  /** A scalar result of a safe visit contains the concrete result. */
  lemma AluStep(regs: Regs, values: Values, insn: BpfInsn, op: AluOp, source: Source, is64: bool, v: bv64)
    requires Represents(regs, values) && SafeAlu(regs, insn, op, source, is64)
    requires AluResult(regs, insn, op, source, is64).Success?
    requires AluOutcome(op, source, is64, insn.offset, values[insn.dst], OperandValue(values, insn, source, is64))
              == Some(v)
    ensures var r := AluResult(regs, insn, op, source, is64).value; r.kind.Scalar? ==> r.Contains(v)
  {
    hide RegState.Contains, ImmOperand, Truncated, MoveSafe, Low, SignKnown, ExtremesCovered, Safe32, ScalarTnum, S, U;
    hide Operand, DivisorMayBeZero, ShiftTooFar, ScalarResult, PointerResult, MovePointer, AluValue64, AluValue32;
    hide Trusted;
    hide Tnum.Has, Guarded, FitsWidth, FromSigned;
    var x, y := values[insn.dst], OperandValue(values, insn, source, is64);
    var dst, src := regs[insn.dst], Operand(regs, insn, source, is64);
    AnythingGoes(Scalar, v);
    if insn.offset != 0 {
      ExtendedMoveStep(regs, values, insn, v);
    } else if op == MOV {
      MoveStep(regs, values, insn, source, is64);
    } else if op == NEG {
    } else if dst.kind.IsPtr() {
      PointerStep(op, dst.kind, src, v);
    } else if op == ADD && src.kind.IsPtr() {
      MovedIsNoScalar(src.kind, if dst.tnum.KnownValue().Some? then Some(S(dst.tnum.KnownValue().value)) else None);
    } else {
      SourceContains(regs, values, insn, source, is64);
      GuardsHold(regs, insn, op, source, is64, y);
      TrustedHas(dst, x);
      TrustedHas(src, y);
      ScalarStep(regs, insn, op, source, is64, x, y);
    }
  }

  lemma SourceContains(regs: Regs, values: Values, insn: BpfInsn, source: Source, is64: bool)
    requires Represents(regs, values)
    ensures var src := Operand(regs, insn, source, is64);
            src.kind.Scalar? ==> src.Contains(OperandValue(values, insn, source, is64))
  {
    hide RegState.Contains, ImmOperand;
    ScalarValueHas(ImmOperand(insn.imm, is64));
  }

  lemma MovedIsNoScalar(kind: RegType, delta: Option<I64>)
    requires kind.IsPtr()
    ensures !AnyValue(MovePointer(kind, delta)).kind.Scalar?
  {}

  lemma CompareValueIs(regs: Regs, values: Values, insn: BpfInsn, source: Source, is32: bool)
    requires Represents(regs, values) && CompareValue(regs, insn, source, is32).Some?
    requires source.FromReg? ==> regs[insn.src].kind.Scalar?
    ensures CompareValue(regs, insn, source, is32).value == OperandValue(values, insn, source, !is32)
  {
    hide U, Member, ImmOperand;
    if source.FromReg? {
      KnownMembers(regs[insn.src].tnum, values[insn.src]);
    }
  }

  lemma ResolveRepresents(regs: Regs, values: Values, id: nat, learned: RegType)
    requires Represents(regs, values) && !learned.Scalar?
    ensures Represents(ResolveRegs(regs, id, learned), values)
  {
    hide RegState.Contains;
  }

  /** The side of a safe branch that a run takes still represents its values. */
  lemma BranchStep(regs: Regs, frame: Frame, values: Values, insn: BpfInsn, op: JmpOp, source: Source, is32: bool,
          id: nat)
    requires Represents(regs, values) && SafeBranch(regs, insn, op, source, is32) && KindOk(regs[insn.dst].kind, id)
    ensures var b := RefineBranch(regs, frame, insn, op, source, is32);
            Represents(if Holds(op, is32, values[insn.dst], OperandValue(values, insn, source, !is32)) then b.taken
                  else b.fall,
                       values)
  {
    hide RegState.Contains, Represents, SignedAgrees, U, ResolveRegs, ResolveSpills, Refine64, Refine32, Holds64;
    hide Holds32;
    hide OperandValue, Kept;
    var dst := regs[insn.dst];
    var val := CompareValue(regs, insn, source, is32);
    var v, y := values[insn.dst], OperandValue(values, insn, source, !is32);
    if val.Some? {
      if U(val.value) == 0 && dst.kind.PtrOrNull? {
        ResolveRepresents(regs, values, dst.kind.id, Null);
        ResolveRepresents(regs, values, dst.kind.id, dst.kind.inner);
      } else if dst.kind.Scalar? {
        ScalarContains(regs, values, insn.dst);
        CompareValueIs(regs, values, insn, source, is32);
        if is32 {
          Refine32Sound(dst, op, val.value, v);
          KeptRepresents(regs, values, insn.dst, Refine32(dst, op, val.value), Holds32(op, v, y));
        } else {
          Refine64Sound(dst, op, val.value, v);
          KeptRepresents(regs, values, insn.dst, Refine64(dst, op, val.value), Holds64(op, v, y));
        }
      }
    }
  }

  lemma ScalarContains(regs: Regs, values: Values, r: RegId)
    requires Represents(regs, values) && regs[r].kind.Scalar?
    ensures regs[r].Contains(values[r])
  {
    hide RegState.Contains;
  }

  lemma KeptRepresents(regs: Regs, values: Values, r: RegId, sides: (RegState, RegState), taken: bool)
    requires Represents(regs, values) && Kept(regs[r], sides, values[r], taken)
    ensures Represents(regs[r := if taken then sides.0 else sides.1], values)
  {
    hide RegState.Contains;
  }

  lemma AssignRepresents(regs: Regs, values: Values, r: RegId, state: RegState, after: Values)
    requires Represents(regs, values) && (state.kind.Scalar? ==> state.Contains(after[r]))
    requires forall k: RegId :: k != r ==> after[k] == values[k]
    ensures Represents(regs[r := state], after)
  {
    hide RegState.Contains;
  }

  lemma LoadedRepresents(regs: Regs, frame: Frame, insn: BpfInsn, w: MemWidth, id: nat, v: bv64)
    requires LoadResult(regs, frame, insn, w).Success? && FrameOk(frame, id)
    ensures var r := LoadResult(regs, frame, insn, w).value; r.kind.Scalar? ==> r.Contains(v)
  {
    hide RegState.Contains, CheckBounds, CheckReadable, InRegion, WrapI64;
    AnythingGoes(Scalar, v);
  }

  lemma WideLoadRepresents(insn: BpfInsn, reloc: Option<Reloc>, v: bv64)
    requires reloc.None? ==> v == WideImm(insn)
    ensures var r := WideLoad(insn, reloc); r.kind.Scalar? ==> r.Contains(v)
  {
    hide RegState.Contains, WideImm;
    AnythingGoes(Scalar, v);
    ScalarValueHas(v);
  }

  lemma CallRepresents(regs: Regs, values: Values, ret: HelperReturn, pc: nat, id: nat, after: Values)
    requires Represents(regs, values) && Unchanged(values, after, {0, 1, 2, 3, 4, 5})
    ensures Represents(AfterCall(regs, ReturnValue(ret, regs, pc, id)), after)
  {
    hide RegState.Contains, U, Low;
    AnythingGoes(Scalar, after[0]);
  }

  /** The successor that a run goes on to from `s` to `t`: at a branch the side it takes, elsewhere the only one. */
  ghost function Chosen(prog: Program, relocs: map<nat, Reloc>, v: Visit, s: State, t: State): Config
    requires v.at.pc == s.pc < |prog|
  {
    match prog[s.pc].opcode
    case Jmp64(op, source) => ChosenSide(prog, relocs, v, s, op, source, false)
    case Jmp32(op, source) =>
      if op == JA then v.at.(pc := t.pc) else ChosenSide(prog, relocs, v, s, op, source, true)
    case _ => var outcome := Step(prog, relocs, v.at, v.id); if outcome.Continues? then outcome.next else v.at
  }

  ghost function ChosenSide(prog: Program, relocs: map<nat, Reloc>, v: Visit, s: State, op: JmpOp, source: Source,
                            is32: bool): Config
    requires v.at.pc == s.pc < |prog|
  {
    var insn, outcome := prog[s.pc], Step(prog, relocs, v.at, v.id);
    if !outcome.Splits? then v.at
    else if Holds(op, is32, s.regs[insn.dst], OperandValue(s.regs, insn, source, !is32)) then outcome.taken
    else outcome.fall
  }

  lemma AluVisit(prog: Program, relocs: map<nat, Reloc>, v: Visit, s: State, t: State,
                 op: AluOp, source: Source, is64: bool) returns (c: Config)
    requires v.at.pc == s.pc < |prog| && prog[s.pc].opcode == if is64 then Alu64(op, source) else Alu32(op, source)
    requires SafeVisit(prog, v) && !Failing(prog, relocs, v)
    requires Represents(v.at.regs, s.regs) && Steps(prog, relocs.Keys, s, t)
    ensures c == Chosen(prog, relocs, v, s, t)
    ensures c in Successors(prog, relocs, v) && c.pc == t.pc && Represents(c.regs, t.regs)
  {
    hide Represents, SafeAlu, AluResult, CanRead, OperandValue, AluOutcome;
    c := Step(prog, relocs, v.at, v.id).next;
    var insn := prog[s.pc];
    SafeIsDefined(v.at.regs, s.regs, insn, op, source, is64);
    AluStep(v.at.regs, s.regs, insn, op, source, is64, t.regs[insn.dst]);
    AssignRepresents(v.at.regs, s.regs, insn.dst, c.regs[insn.dst], t.regs);
  }

  /** Safe arithmetic is arithmetic the standard defines. */
  lemma SafeIsDefined(regs: Regs, values: Values, insn: BpfInsn, op: AluOp, source: Source, is64: bool)
    requires SafeAlu(regs, insn, op, source, is64)
    ensures AluOutcome(op, source, is64, insn.offset, values[insn.dst], OperandValue(values, insn, source, is64)).Some?
  {
    hide FitsWidth, FromSigned, AluValue64, AluValue32, Trusted, MoveSafe, SignKnown, ExtremesCovered, Safe32;
    hide ScalarTnum;
  }

  lemma BranchVisit(prog: Program, relocs: map<nat, Reloc>, v: Visit, s: State, t: State,
                    op: JmpOp, source: Source, is32: bool) returns (c: Config)
    requires v.at.pc == s.pc < |prog| && prog[s.pc].opcode == if is32 then Jmp32(op, source) else Jmp64(op, source)
    requires SafeVisit(prog, v) && !Failing(prog, relocs, v) && KindOk(v.at.regs[prog[s.pc].dst].kind, v.id)
    requires Represents(v.at.regs, s.regs) && Steps(prog, relocs.Keys, s, t)
    ensures c == Chosen(prog, relocs, v, s, t)
    ensures c in Successors(prog, relocs, v) && c.pc == t.pc && Represents(c.regs, t.regs)
  {
    hide Represents, SafeBranch, RefineBranch, CanRead, Holds64, Holds32, OperandValue, Target, KindOk;
    var insn := prog[s.pc];
    var holds := Holds(op, is32, s.regs[insn.dst], OperandValue(s.regs, insn, source, !is32));
    var outcome := Step(prog, relocs, v.at, v.id);
    BranchStep(v.at.regs, v.at.frame, s.regs, insn, op, source, is32, v.id);
    if is32 && op == JA {
      LongJump(prog, relocs, v, s, t, source);
      c := v.at.(pc := t.pc);
    } else {
      if holds {
        TargetUnique(prog, s.pc, insn.offset, t.pc, Target(prog, s.pc, insn.offset).value);
      }
      c := if holds then outcome.taken else outcome.fall;
    }
  }

  /** The 32-bit jump goes where the checker looks: to the branch target, or to the next instruction. */
  lemma LongJump(prog: Program, relocs: map<nat, Reloc>, v: Visit, s: State, t: State, source: Source)
    requires v.at.pc == s.pc < |prog| && prog[s.pc].opcode == Jmp32(JA, source)
    requires prog[s.pc].imm == prog[s.pc].offset || prog[s.pc].imm == 0
    requires !Failing(prog, relocs, v) && Steps(prog, relocs.Keys, s, t)
    ensures v.at.(pc := t.pc) in Successors(prog, relocs, v) && t.regs == s.regs
  {
    hide CanRead, Target, RefineBranch;
    JumpKeepsRegs(v.at.regs, v.at.frame, prog[s.pc], source, true);
    var insn := prog[s.pc];
    if IsTarget(prog, s.pc, insn.offset, t.pc) {
      TargetUnique(prog, s.pc, insn.offset, t.pc, Target(prog, s.pc, insn.offset).value);
    } else {
      NextSlot(prog, s.pc, t.pc);
    }
  }

  /** An unconditional jump teaches nothing. */
  lemma JumpKeepsRegs(regs: Regs, frame: Frame, insn: BpfInsn, source: Source, is32: bool)
    ensures var b := RefineBranch(regs, frame, insn, JA, source, is32);
            b == Branches(regs, frame, regs, frame)
  {
    hide U, CompareValue, ResolveRegs, ResolveSpills, S, Low, S32;
    assert regs[insn.dst := regs[insn.dst]] == regs;
  }

  lemma OtherVisit(prog: Program, relocs: map<nat, Reloc>, v: Visit, s: State, t: State) returns (c: Config)
    requires v.at.pc == s.pc < |prog| && !prog[s.pc].opcode.Alu64? && !prog[s.pc].opcode.Alu32? && !IsBranch(prog[s.pc])
    requires !Failing(prog, relocs, v) && FrameOk(v.at.frame, v.id)
    requires Represents(v.at.regs, s.regs) && Steps(prog, relocs.Keys, s, t)
    ensures c == Chosen(prog, relocs, v, s, t)
    ensures c in Successors(prog, relocs, v) && c.pc == t.pc && Represents(c.regs, t.regs)
  {
    hide Represents, LoadResult, StoreResult, WideLoad, AfterCall, ReturnValue, FrameAfterCall, GetHelper, ArgError;
    hide CanRead;
    hide Target, WideImm, CheckExit, FrameOk;
    var regs, insn := v.at.regs, prog[s.pc];
    c := Step(prog, relocs, v.at, v.id).next;
    match insn.opcode {
      case LdImm64 =>
        WideLoadRepresents(insn, if s.pc in relocs then Some(relocs[s.pc]) else None, t.regs[insn.dst]);
        AssignRepresents(regs, s.regs, insn.dst, c.regs[insn.dst], t.regs);
      case Ldx(w) =>
        LoadedRepresents(regs, v.at.frame, insn, w, v.id, t.regs[insn.dst]);
        AssignRepresents(regs, s.regs, insn.dst, c.regs[insn.dst], t.regs);
      case Call =>
        CallRepresents(regs, s.regs, GetHelper(insn.imm).value.ret, s.pc, v.id, t.regs);
      case JmpJa =>
        TargetUnique(prog, s.pc, insn.offset, t.pc, Target(prog, s.pc, insn.offset).value);
      case Stx(_) =>
      case St(_) =>
    }
  }

  /** Where a run goes from a safe visit, the checker went too, with a state that represents the values. */
  lemma StepRepresents(prog: Program, relocs: map<nat, Reloc>, v: Visit, s: State, t: State) returns (c: Config)
    requires VisitOk(prog, v) && SafeVisit(prog, v) && !Failing(prog, relocs, v)
    requires v.at.pc == s.pc && Represents(v.at.regs, s.regs) && Steps(prog, relocs.Keys, s, t)
    ensures c == Chosen(prog, relocs, v, s, t)
    ensures c in Successors(prog, relocs, v) && c.pc == t.pc && Represents(c.regs, t.regs)
  {
    hide Chosen;
    hide Represents, SafeVisit, Successors, Failing, Steps, KindOk, RegsOk, FrameOk, ConfigOk;
    ConfigParts(v.at, v.id);
    var insn := prog[s.pc];
    DstOk(v.at.regs, v.id, insn.dst);
    match insn.opcode {
      case Alu64(op, source) => c := AluVisit(prog, relocs, v, s, t, op, source, true);
      case Alu32(op, source) => c := AluVisit(prog, relocs, v, s, t, op, source, false);
      case Jmp64(op, source) => c := BranchVisit(prog, relocs, v, s, t, op, source, false);
      case Jmp32(op, source) => c := BranchVisit(prog, relocs, v, s, t, op, source, true);
      case _ => c := OtherVisit(prog, relocs, v, s, t);
    }
  }

  lemma DstOk(regs: Regs, id: nat, r: RegId)
    requires RegsOk(regs, id)
    ensures KindOk(regs[r].kind, id)
  {
    hide Tnum.WellFormed, KindOk;
  }

  // --- Covering ---

  lemma SubstateRepresents(a: RegState, b: RegState, v: bv64)
    requires a.IsSubstateOf(b) && b.tnum.WellFormed() && (a.kind.Scalar? ==> a.Contains(v))
    ensures b.kind.Scalar? ==> b.Contains(v)
  {
    hide RegState.Contains, RegState.BoundsWithin, Disjoint;
    if b.kind.Scalar? {
      SubstateSound(a, b, v);
    }
  }

  /** Whatever values `c` represents, `w` represents. */
  ghost predicate ValuesFollow(c: Regs, w: Regs) {
    forall values: Values :: Represents(c, values) ==> Represents(w, values)
  }

  lemma SubsumedValues(prog: Program, v: Visit, c: Config)
    requires Subsumes(v.at, c) && VisitOk(prog, v)
    ensures ValuesFollow(c.regs, v.at.regs)
  {
    hide RegState.Contains, FrameWithin, RegState.IsSubstateOf, Tnum.WellFormed;
    forall values: Values | Represents(c.regs, values)
      ensures Represents(v.at.regs, values)
    {
      forall r: RegId
        ensures v.at.regs[r].kind.Scalar? ==> v.at.regs[r].Contains(values[r])
      {
        SubstateRepresents(c.regs[r], v.at.regs[r], values[r]);
      }
    }
  }

  lemma WidenedValues(prog: Program, prev: Visit, c: Config, w: Config, id: nat)
    requires WidensTo(prev.at, c, w) && VisitOk(prog, prev) && ConfigOk(c, id) && KindsMeet(prev.at.regs, c.regs)
    ensures ValuesFollow(c.regs, w.regs)
  {
    hide RegState.Contains, WidenFrame, RegState.Widen, Tnum.WellFormed, RegState.Unbounded;
    forall values: Values | Represents(c.regs, values)
      ensures Represents(w.regs, values)
    {
      forall r: RegId
        ensures w.regs[r].kind.Scalar? ==> w.regs[r].Contains(values[r])
      {
        WidenExact(prev.at.regs[r], c.regs[r]);
        assert Admits(c.regs[r], values[r]);
      }
    }
  }

  /** The values of an arriving state are represented by the visit that covers it. */
  lemma CoverRepresents(prog: Program, relocs: map<nat, Reloc>, visits: set<Visit>, c: Config, id: nat, values: Values)
    returns (v: Visit)
    requires Covered(prog, visits, c) && c.pc < |prog| && Arrives(prog, relocs, visits, c)
    requires (forall u :: u in visits ==> VisitOk(prog, u)) && ConfigOk(c, id) && NoTypeClash(prog, relocs, visits)
    requires Represents(c.regs, values)
    ensures v in visits && v.at.pc == c.pc && Represents(v.at.regs, values)
  {
    hide Represents, Subsumes, WidenRegs, WidenFrame, KindsMeet, IsLoopHead, Arrives, VisitOk, ConfigOk;
    if SubsumedIn(visits, c) {
      v :| v in visits && Subsumes(v.at, c);
      SubsumedValues(prog, v, c);
      SameInstruction(v.at, c);
    } else {
      var prev;
      prev, v :| prev in visits && v in visits && WidensTo(prev.at, c, v.at);
      WidenedValues(prog, prev, c, v.at, id);
    }
  }

  lemma SameInstruction(w: Config, c: Config)
    requires Subsumes(w, c)
    ensures w.pc == c.pc
  {
    hide RegsWithin, FrameWithin;
  }

  // --- Whole runs ---

  /** Whatever the number of steps: at each instruction of each run, some state the checker visited there contains
      the values of all scalar registers. */
  lemma {:induction false} RunIsRepresented(prog: Program, relocs: map<nat, Reloc>, visits: set<Visit>, run: seq<State>)
    returns (v: Visit)
    requires Certificate(prog, relocs, visits) && Safe(prog, relocs, visits)
    requires IsRun(prog, relocs.Keys, run) && run[|run| - 1].pc < |prog|
    ensures v in visits && v.at.pc == run[|run| - 1].pc && Represents(v.at.regs, run[|run| - 1].regs)
    decreases |run|
  {
    hide Covered, Successors, VisitOk, Failing, SafeVisit, NoTypeClash, Represents, Steps, ConfigOk, EntryConfig;
    if |run| == 1 {
      EntryOk();
      EntryRepresents(run[0].regs);
      assert Arrives(prog, relocs, visits, EntryConfig());
      v := CoverRepresents(prog, relocs, visits, EntryConfig(), 0, run[0].regs);
    } else {
      var init := run[..|run| - 1];
      var s, t := run[|run| - 2], run[|run| - 1];
      assert Steps(prog, relocs.Keys, run[|run| - 2], run[|run| - 2 + 1]);
      assert IsRun(prog, relocs.Keys, init) by {
        forall i | 0 <= i < |init| - 1
          ensures Steps(prog, relocs.Keys, init[i], init[i + 1])
        {
          assert Steps(prog, relocs.Keys, run[i], run[i + 1]);
        }
      }
      StepStaysInside(prog, relocs.Keys, s, t);
      var u := RunIsRepresented(prog, relocs, visits, init);
      assert VisitOk(prog, u);
      var c := StepRepresents(prog, relocs, u, s, t);
      StepOk(prog, relocs, u, c);
      PcInside(prog, u);
      assert Arrives(prog, relocs, visits, c);
      v := CoverRepresents(prog, relocs, visits, c, NextId(prog[u.at.pc], u.id), t.regs);
    }
  }

  lemma PcInside(prog: Program, v: Visit)
    requires VisitOk(prog, v)
    ensures v.at.pc < |prog|
  {
    hide ConfigOk;
  }

  lemma StepStaysInside(prog: Program, relocated: set<nat>, s: State, t: State)
    requires Steps(prog, relocated, s, t)
    ensures s.pc < |prog|
  {
    hide AluValue64, AluValue32, Holds64, Holds32;
  }

  lemma EntryRepresents(values: Values)
    ensures Represents(EntryConfig().regs, values) && EntryConfig().pc == 0
  {}
}

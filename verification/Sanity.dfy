/** Facts every state of an exploration keeps: tracked numbers stay well-formed, identifiers of unresolved
    pointers stay below the counter, and only pointers are spilled. */
module Sanity {
  import opened Wrappers
  import opened Words
  import opened Tnums
  import opened TnumWellFormed
  import opened Instructions
  import opened HelperTable
  import opened RegStates
  import opened AbstractStates
  import opened ControlFlow
  import opened Transfer
  import opened Certificates

  // --- Register states ---

  lemma FromTrackedOk(t: Tnum, id: nat)
    requires t.WellFormed()
    ensures RegOk(FromTracked(t), id)
  {
    hide RegState.Refined, U, Or, Disjoint;
    RefinedWf(RegState(Scalar, t, AsI64(t.MinValue()), AsI64(t.MaxValue()), t.MinValue(), t.MaxValue()));
  }

  lemma AnyValueOk(kind: RegType, id: nat)
    requires KindOk(kind, id)
    ensures RegOk(AnyValue(kind), id)
  {
    hide Disjoint;
    ConstantDisjoint(0xFFFF_FFFF_FFFF_FFFF);
  }

  lemma ScalarValueOk(v: bv64, id: nat)
    ensures RegOk(ScalarValue(v), id) && RegOk(NullReg(), id)
  {
    hide Disjoint, U;
    ConstantDisjoint(v);
    ConstantDisjoint(0);
  }

  lemma TruncatedOk(r: RegState, id: nat)
    requires r.tnum.WellFormed()
    ensures RegOk(Truncated(r), id)
  {
    hide Disjoint, Low;
    LowDisjoint(r.tnum.value, r.tnum.mask);
  }

  lemma ScalarResultOk(op: AluOp, d: Tnum, s: Tnum, is64: bool, id: nat)
    requires op != MOV && op != NEG && d.WellFormed()
    ensures RegOk(ScalarResult(op, d, s, is64), id)
  {
    hide Disjoint, Low, ScalarTnum, FromTracked, RegOk;
    ScalarTnumWf(op, d, s);
    var t := ScalarTnum(op, d, s);
    LowDisjoint(t.value, t.mask);
    FromTrackedOk(if is64 then t else t.Trunc32(), id);
  }

  predicate RegsOk(regs: Regs, id: nat) { forall i :: 0 <= i < 11 ==> RegOk(regs[i], id) }

  predicate FrameOk(frame: Frame, id: nat) { forall off :: off in frame.spills ==> SpillOk(frame.spills[off], id) }

  lemma AluResultOk(regs: Regs, insn: BpfInsn, op: AluOp, source: Source, is64: bool, id: nat)
    requires RegsOk(regs, id) && AluResult(regs, insn, op, source, is64).Success?
    ensures RegOk(AluResult(regs, insn, op, source, is64).value, id)
  {
    hide RegOk, ScalarResult, Truncated, ScalarValue, AnyValue, ImmOperand, U, S;
    hide DivisorMayBeZero, ShiftTooFar, MovePointer;
    var dst, src := regs[insn.dst], Operand(regs, insn, source, is64);
    ScalarValueOk(ImmOperand(insn.imm, is64), id);
    assert RegOk(src, id);
    TnumOfOk(src, id);
    TnumOfOk(dst, id);
    var r := AluResult(regs, insn, op, source, is64).value;
    if op == MOV {
      if source.FromReg? && !is64 {
        TruncatedOk(src, id);
      }
    } else if op == NEG {
      AnyValueOk(Scalar, id);
    } else if dst.kind.IsPtr() {
      PointerResultOk(op, dst.kind, src, id);
    } else if op == ADD && src.kind.IsPtr() {
      MovedOk(src.kind, if dst.tnum.KnownValue().Some? then Some(S(dst.tnum.KnownValue().value)) else None, id);
    } else {
      ScalarResultOk(op, dst.tnum, src.tnum, is64, id);
    }
  }

  lemma TnumOfOk(r: RegState, id: nat)
    requires RegOk(r, id)
    ensures r.tnum.WellFormed() && KindOk(r.kind, id)
  {}

  lemma MovedOk(kind: RegType, delta: Option<I64>, id: nat)
    requires kind.IsPtr() && KindOk(kind, id)
    ensures RegOk(AnyValue(MovePointer(kind, delta)), id)
  {
    AnyValueOk(MovePointer(kind, delta), id);
  }

  lemma PointerResultOk(op: AluOp, dst: RegType, src: RegState, id: nat)
    requires dst.IsPtr() && KindOk(dst, id) && PointerResult(op, dst, src).Success?
    ensures RegOk(PointerResult(op, dst, src).value, id)
  {
    hide RegOk, AnyValue, MovePointer, S;
    AnyValueOk(Scalar, id);
    var known := src.tnum.KnownValue();
    MovedOk(dst, if known.None? then None else if op == ADD then Some(S(known.value))
          else Some(WrapI64(0 - S(known.value))), id);
  }

  // --- Branches ---

  lemma RefinedOk(id: nat)
    ensures forall r: RegState :: RegOk(r, id) ==> RegOk(r.Refined(), id)
  {
    hide RegState.Refined, Disjoint;
    forall r: RegState | RegOk(r, id)
      ensures RegOk(r.Refined(), id)
    {
      RefinedWf(r);
    }
  }

  lemma BitsOk(r: RegState, bits: bv64, id: nat)
    requires RegOk(r, id)
    ensures RegOk(r.(tnum := ClearBits(r.tnum, bits)), id) && RegOk(r.(tnum := SetBits(r.tnum, bits)), id)
    ensures RegOk(r.(tnum := ReplaceLow(r.tnum, Low(bits))), id)
  {
    hide Disjoint, Or, AndNot, Low;
    ClearDisjoint(r.tnum.value, r.tnum.mask, bits);
    ReplaceDisjoint(r.tnum.value, r.tnum.mask, bits);
  }

  lemma Refine64Ok(r: RegState, op: JmpOp, val: bv64, id: nat)
    requires RegOk(r, id)
    ensures RegOk(Refine64(r, op, val).0, id) && RegOk(Refine64(r, op, val).1, id)
  {
    hide Disjoint, RegState.Refined, ClearBits, SetBits, ReplaceLow, U, S, Or, SingleBit, ScalarValue;
    hide Tnum.MinValue, Tnum.MaxValue;
    RefinedOk(id);
    BitsOk(r, val, id);
    ScalarValueOk(val, id);
  }

  /** The bounds a 32-bit comparison moves do not touch the tracked number. */
  lemma ClampsOk(r: RegState, n: U64, s: I64, id: nat)
    requires RegOk(r, id)
    ensures RegOk(ClampMin(r, n), id) && RegOk(ClampMax(r, n), id)
    ensures RegOk(ClampSmin(r, s), id) && RegOk(ClampSmax(r, s), id)
  {
    hide Disjoint, RegState.Refined, U;
    RefinedOk(id);
  }

  lemma EqualLowOk(r: RegState, val: bv64, id: nat)
    requires RegOk(r, id)
    ensures RegOk(EqualLow(r, Low(val)), id)
  {
    hide Disjoint, RegState.Refined, U, Low, ReplaceLow;
    RefinedOk(id);
    BitsOk(r, val, id);
  }

  lemma SetOk(r: RegState, bits: bv64, id: nat)
    requires RegOk(r, id)
    ensures RegOk(Tighten32(r.(tnum := SetBits(r.tnum, bits))), id)
    ensures RegOk(Tighten32(r.(tnum := ClearBits(r.tnum, bits))), id)
  {
    hide Disjoint, RegState.Refined, U, Or, ClearBits, SetBits, Tnum.MinValue, Tnum.MaxValue;
    RefinedOk(id);
    BitsOk(r, bits, id);
  }

  lemma Refine32Ok(r: RegState, op: JmpOp, val: bv64, id: nat)
    requires RegOk(r, id)
    ensures RegOk(Refine32(r, op, val).0, id) && RegOk(Refine32(r, op, val).1, id)
  {
    hide RegOk, ClampMin, ClampMax, ClampSmin, ClampSmax, EqualLow, Tighten32, SetBits, ClearBits, U, SingleBit, Low;
    hide S32;
    var u, s := U(Low(val)), S32(val);
    EqualLowOk(r, val, id);
    SetOk(r, Low(val), id);
    ClampsOk(r, u, s, id);
    ClampsOk(r, SatInc(u), SatIncS(s), id);
    ClampsOk(r, SatDec(u), SatDecS(s), id);
  }

  lemma ResolveOk(r: RegState, ptr: nat, learned: RegType, id: nat)
    requires RegOk(r, id) && !learned.PtrOrNull? && KindOk(learned, id)
    ensures RegOk(Resolve(r, ptr, learned), id)
    ensures SpillOk(r, id) && !learned.Scalar? && !learned.Uninit? ==> SpillOk(Resolve(r, ptr, learned), id)
  {
    hide Disjoint;
    ScalarValueOk(0, id);
  }

  lemma BranchOk(regs: Regs, frame: Frame, insn: BpfInsn, op: JmpOp, source: Source, is32: bool, id: nat)
    requires RegsOk(regs, id) && FrameOk(frame, id)
    ensures var b := RefineBranch(regs, frame, insn, op, source, is32);
            RegsOk(b.taken, id) && RegsOk(b.fall, id) && FrameOk(b.takenFrame, id) && FrameOk(b.fallFrame, id)
  {
    hide RegOk, Refine64, Refine32, Resolve, SpillOk, U, CompareValue;
    var dst := regs[insn.dst];
    var val := CompareValue(regs, insn, source, is32);
    TnumOfOk(dst, id);
    if val.Some? {
      Refine64Ok(dst, op, val.value, id);
      Refine32Ok(dst, op, val.value, id);
    }
    forall r, ptr: nat, learned: RegType | RegOk(r, id) && !learned.PtrOrNull? && KindOk(learned, id)
      ensures RegOk(Resolve(r, ptr, learned), id)
      ensures SpillOk(r, id) && !learned.Scalar? && !learned.Uninit? ==> SpillOk(Resolve(r, ptr, learned), id)
    {
      ResolveOk(r, ptr, learned, id);
    }
    forall r | SpillOk(r, id)
      ensures RegOk(r, id)
    {
      SpillIsOk(r, id);
    }
  }

  lemma SpillIsOk(r: RegState, id: nat)
    requires SpillOk(r, id)
    ensures RegOk(r, id)
  {}

  // --- Other instructions ---

  lemma LoadOk(regs: Regs, frame: Frame, insn: BpfInsn, w: MemWidth, id: nat)
    requires FrameOk(frame, id) && LoadResult(regs, frame, insn, w).Success?
    ensures RegOk(LoadResult(regs, frame, insn, w).value, id)
  {
    hide AnyValue, CheckBounds, CheckReadable, InRegion;
    AnyValueOk(Scalar, id);
    AnyValueOk(KernelPtr, id);
  }

  lemma StoreOk(regs: Regs, frame: Frame, insn: BpfInsn, w: MemWidth, isSt: bool, id: nat)
    requires RegsOk(regs, id) && FrameOk(frame, id) && StoreResult(regs, frame, insn, w, isSt).Success?
    ensures FrameOk(StoreResult(regs, frame, insn, w, isSt).value, id)
  {
    hide CheckBounds, InRegion, Touches, Tnum.WellFormed, KindOk;
  }

  lemma ReturnOk(ret: HelperReturn, regs: Regs, pc: nat, id: nat)
    ensures RegOk(ReturnValue(ret, regs, pc, id), if IsNullable(ret) then id + 1 else id)
  {
    hide U, Low, Tnum.WellFormed;
    AnyValueOk(Scalar, id);
  }

  lemma RegsOkLater(regs: Regs, frame: Frame, id: nat, id': nat)
    requires RegsOk(regs, id) && FrameOk(frame, id) && id <= id'
    ensures RegsOk(regs, id') && FrameOk(frame, id')
  {
    hide Tnum.WellFormed;
  }

  lemma CallOk(spec: HelperSpec, helperId: int, regs: Regs, frame: Frame, pc: nat, id: nat)
    requires RegsOk(regs, id) && FrameOk(frame, id)
    ensures var id' := if IsNullable(spec.ret) then id + 1 else id;
            RegsOk(AfterCall(regs, ReturnValue(spec.ret, regs, pc, id)), id') &&
            FrameOk(FrameAfterCall(spec, helperId, regs, frame), id')
  {
    hide RegOk, SpillOk, ReturnValue, AnyValue, WriteSize, Touches;
    var id' := if IsNullable(spec.ret) then id + 1 else id;
    RegsOkLater(regs, frame, id, id');
    ReturnOk(spec.ret, regs, pc, id);
    AnyValueOk(Uninit, id');
    AnyValueOk(KernelPtr, id');
    KernelSpillOk(id');
  }

  lemma KernelSpillOk(id: nat)
    ensures SpillOk(AnyValue(KernelPtr), id)
  {
    AnyValueOk(KernelPtr, id);
  }

  // --- One step, widening, and the start ---

  lemma EntryOk()
    ensures ConfigOk(EntryConfig(), 0)
  {
    hide AnyValue, Tnum.WellFormed;
    AnyValueOk(Uninit, 0);
    AnyValueOk(CtxPtr(0), 0);
    AnyValueOk(FramePtr(0), 0);
  }

  lemma WidenOk(a: RegState, b: RegState, id: nat)
    requires RegOk(a, id) && RegOk(b, id)
    ensures RegOk(a.Widen(b), id)
    ensures SpillOk(a, id) && SpillOk(b, id) ==> SpillOk(a.Widen(b), id)
  {
    hide Disjoint, RegState.Refined, And, JoinMask, AnyValue;
    AnyValueOk(Uninit, id);
    if a.kind == b.kind && a.kind.Scalar? {
      JoinDisjoint(a.tnum.value, a.tnum.mask, b.tnum.value, b.tnum.mask);
      RefinedWf(a.Hull(b));
    }
  }

  lemma WidenedConfigOk(prev: Config, c: Config, w: Config, id: nat)
    requires ConfigOk(prev, id) && ConfigOk(c, id) && WidensTo(prev, c, w)
    ensures ConfigOk(w, id)
  {
    hide RegOk, SpillOk, RegState.Widen;
    forall a, b | RegOk(a, id) && RegOk(b, id)
      ensures RegOk(a.Widen(b), id)
      ensures SpillOk(a, id) && SpillOk(b, id) ==> SpillOk(a.Widen(b), id)
    {
      WidenOk(a, b, id);
    }
    forall r | SpillOk(r, id)
      ensures RegOk(r, id)
    {
      SpillIsOk(r, id);
    }
  }

  lemma ConfigOkLater(c: Config, id: nat, id': nat)
    requires ConfigOk(c, id) && id <= id'
    ensures ConfigOk(c, id')
  {
    hide Tnum.WellFormed;
  }

  lemma WideLoadOk(insn: BpfInsn, reloc: Option<Reloc>, id: nat)
    ensures RegOk(WideLoad(insn, reloc), id)
  {
    hide AnyValue, ScalarValue, WideImm;
    ScalarValueOk(WideImm(insn), id);
    AnyValueOk(Scalar, id);
    AnyValueOk(KernelPtr, id);
    if reloc.Some? && reloc.value.DataReloc? {
      AnyValueOk(DataPtr(reloc.value.name), id);
    }
  }

  lemma StepOk(prog: Program, relocs: map<nat, Reloc>, v: Visit, s: Config)
    requires VisitOk(prog, v) && s in Successors(prog, relocs, v)
    ensures ConfigOk(s, NextId(prog[v.at.pc], v.id))
  {
    hide RegOk, SpillOk, AluResult, LoadResult, StoreResult, RefineBranch, AfterCall, ReturnValue, FrameAfterCall;
    hide ArgError, WideLoad, CheckExit, CanRead, GetHelper, ConfigOk;
    var c, insn := v.at, prog[v.at.pc];
    ConfigParts(c, v.id);
    match insn.opcode {
      case Alu64(op, source) => AluResultOk(c.regs, insn, op, source, true, v.id);
      case Alu32(op, source) => AluResultOk(c.regs, insn, op, source, false, v.id);
      case Jmp64(op, source) => BranchOk(c.regs, c.frame, insn, op, source, false, v.id);
      case Jmp32(op, source) => BranchOk(c.regs, c.frame, insn, op, source, true, v.id);
      case LdImm64 => WideLoadOk(insn, if c.pc in relocs then Some(relocs[c.pc]) else None, v.id);
      case Ldx(w) => LoadOk(c.regs, c.frame, insn, w, v.id);
      case Stx(w) => StoreOk(c.regs, c.frame, insn, w, false, v.id);
      case St(w) => StoreOk(c.regs, c.frame, insn, w, true, v.id);
      case Call => CallOk(GetHelper(insn.imm).value, insn.imm, c.regs, c.frame, c.pc, v.id);
      case _ =>
    }
    ConfigParts(s, NextId(insn, v.id));
  }

  lemma ConfigParts(c: Config, id: nat)
    ensures ConfigOk(c, id) <==> RegsOk(c.regs, id) && FrameOk(c.frame, id)
  {}
}

/** The checks the verifier makes on one instruction, updating its register file and frame in place.

  Each method is specified by the function of `Transfer` that gives the new abstract state.
*/
module InstructionChecks {
  import opened Wrappers
  import opened Words
  import opened Tnums
  import opened Instructions
  import opened HelperTable
  import opened RegStates
  import opened AbstractStates
  import opened VerifierObjects
  import opened Transfer

  method CheckAlu(state: VerifierState, insn: BpfInsn, op: AluOp, source: Source, is64: bool)
    returns (err: Option<ErrorKind>)
    requires state.Valid()
    modifies state.regs
    ensures match AluResult(old(state.View()), insn, op, source, is64)
            case Success(r) => err.None? && state.View() == old(state.View())[insn.dst := r]
            case Failure(e) => err == Some(e) && state.View() == old(state.View())
  {
    hide ScalarResult, Truncated, ScalarValue, AnyValue, ImmOperand, DivisorMayBeZero, ShiftTooFar, MovePointer;
    hide U, S;
    var dst := state.regs[insn.dst];
    var src := if source.FromImm? then ScalarValue(ImmOperand(insn.imm, is64)) else state.regs[insn.src];
    if op == MOV {
      state.Set(insn.dst, if source.FromReg? && !is64 then Truncated(src) else src);
      return None;
    }
    if op == NEG {
      if dst.kind.IsPtr() {
        return Some(InvalidPointerArith);
      }
      state.Set(insn.dst, ScalarUnknown());
      return None;
    }
    if (op == DIV || op == MOD) && DivisorMayBeZero(state.View(), insn, source) {
      return Some(DivByZero);
    }
    if (op == LSH || op == RSH || op == ARSH) && ShiftTooFar(state.View(), insn, source, is64) {
      return Some(ShiftOverflow);
    }
    if dst.kind.IsPtr() {
      var moved := PointerResult(op, dst.kind, src);
      if moved.Failure? {
        return Some(moved.error);
      }
      state.Set(insn.dst, moved.value);
      return None;
    }
    if op == ADD && src.kind.IsPtr() {
      var known := dst.tnum.KnownValue();
      state.Set(insn.dst, AnyValue(MovePointer(src.kind, if known.Some? then Some(S(known.value)) else None)));
      return None;
    }
    state.Set(insn.dst, ScalarResult(op, dst.tnum, src.tnum, is64));
    return None;
  }

  method CheckArgs(state: VerifierState, spec: HelperSpec) returns (err: Option<ErrorKind>)
    requires state.Valid() && |spec.args| <= 5
    ensures err == ArgError(spec.args, state.View(), 0)
  {
    hide ArgAccepted;
    for i := 0 to |spec.args|
      invariant ArgError(spec.args, state.View(), 0) == ArgError(spec.args, state.View(), i)
    {
      var actual := state.regs[1 + i].kind;
      if actual.Uninit? {
        return Some(UninitRegRead);
      }
      if !ArgAccepted(spec.args[i], actual) {
        return Some(InvalidHelperArg);
      }
    }
    return None;
  }

  method CheckCall(state: VerifierState, stack: StackState, insn: BpfInsn, pc: nat, id: nat)
    returns (err: Option<ErrorKind>, id': nat)
    requires state.Valid() && stack.Valid() && insn.opcode.Call?
    modifies state.regs, stack, stack.init
    ensures id' == if err.None? then NextId(insn, id) else id
    ensures var regs, frame, helper := old(state.View()), old(stack.View()), GetHelper(insn.imm);
            if helper.None? || ArgError(helper.value.args, regs, 0).Some? then
              && err == Some(if helper.None? then UnknownHelper else ArgError(helper.value.args, regs, 0).value)
              && state.View() == regs && stack.View() == frame
            else
              && err.None?
              && state.View() == AfterCall(regs, ReturnValue(helper.value.ret, regs, pc, id))
              && stack.View() == FrameAfterCall(helper.value, insn.imm, regs, frame)
  {
    id' := id;
    var helper := GetHelper(insn.imm);
    if helper.None? {
      return Some(UnknownHelper), id;
    }
    var spec := helper.value;
    err := CheckArgs(state, spec);
    if err.Some? {
      return;
    }
    var regs := state.View();
    state.Set(0, ReturnValue(spec.ret, regs, pc, id));
    if IsNullable(spec.ret) {
      id' := id + 1;
    }
    RecordHelperWrites(state, stack, spec, insn.imm, regs);
    state.ClobberCallerSaved();
  }

  /** A helper that fills a buffer on the stack makes those bytes initialised. */
  method RecordHelperWrites(state: VerifierState, stack: StackState, spec: HelperSpec, helperId: int, ghost regs: Regs)
    requires state.Valid() && stack.Valid()
    requires state.regs[1] == regs[1] && state.regs[2] == regs[2]
    modifies stack, stack.init
    ensures stack.View() == FrameAfterCall(spec, helperId, regs, old(stack.View()))
  {
    hide AbstractStates.MarkWritten, WriteSize, AnyValue;
    if FillsBuffer(spec) && state.regs[1].kind.FramePtr? {
      var offset := state.regs[1].kind.offset;
      var size := WriteSize(state.View());
      SameWriteSize(state.View(), regs);
      if size > 0 {
        stack.MarkWritten(offset, size);
      }
      if size == 8 && helperId in {4, 113, 115} {
        stack.Spill(offset, AnyValue(KernelPtr));
      }
    }
  }

  lemma SameWriteSize(a: Regs, b: Regs)
    requires a[2] == b[2]
    ensures WriteSize(a) == WriteSize(b)
  {}

  method CheckLoad(state: VerifierState, stack: StackState, insn: BpfInsn, w: MemWidth)
    returns (err: Option<ErrorKind>)
    requires state.Valid() && stack.Valid()
    modifies state.regs
    ensures match LoadResult(old(state.View()), old(stack.View()), insn, w)
            case Success(r) => err.None? && state.View() == old(state.View())[insn.dst := r]
            case Failure(e) => err == Some(e) && state.View() == old(state.View())
  {
    hide AnyValue, CheckBounds, AbstractStates.CheckReadable, InRegion, WrapI64;
    var base := state.regs[insn.src].kind;
    var width := WidthBytes(w);
    var loaded := ScalarUnknown();
    match base {
      case FramePtr(ptrOff) =>
        var off := WrapI64(ptrOff + insn.offset);
        if !CheckBounds(off, width) {
          return Some(OutOfBoundsAccess);
        }
        var readable := stack.CheckReadable(off, width);
        if !readable {
          return Some(UninitStackRead);
        }
        if width == 8 && off in stack.spills {
          loaded := stack.spills[off];
        }
      case MapValuePtr(_, ptrOff, size, _) =>
        if !InRegion(WrapI64(ptrOff + insn.offset), width, size) {
          return Some(OutOfBoundsAccess);
        }
      case CtxPtr(ptrOff) =>
        if !InRegion(WrapI64(ptrOff + insn.offset), width, CTX_SIZE) {
          return Some(OutOfBoundsAccess);
        }
        if width == 8 {
          loaded := AnyValue(KernelPtr);
        }
      case RingBufPtr(_, ptrOff, size, _) =>
        if !InRegion(WrapI64(ptrOff + insn.offset), width, size) {
          return Some(OutOfBoundsAccess);
        }
      case KernelPtr =>
        if width == 8 {
          loaded := AnyValue(KernelPtr);
        }
      case DataPtr(_) =>
      case PtrOrNull(_, _, _) => return Some(NullPointerDeref);
      case Null => return Some(NullPointerDeref);
      case Scalar => return Some(InvalidPointerDeref);
      case Uninit => return Some(UninitRegRead);
    }
    state.Set(insn.dst, loaded);
    return None;
  }

  method CheckStore(state: VerifierState, stack: StackState, insn: BpfInsn, w: MemWidth, isSt: bool)
    returns (err: Option<ErrorKind>)
    requires state.Valid() && stack.Valid()
    modifies stack, stack.init
    ensures match StoreResult(state.View(), old(stack.View()), insn, w, isSt)
            case Success(f) => err.None? && stack.View() == f
            case Failure(e) => err == Some(e) && stack.View() == old(stack.View())
  {
    hide CheckBounds, InRegion, WrapI64, AbstractStates.MarkWritten, AbstractStates.ClearSpill, AbstractStates.Spill;
    var base := state.regs[insn.dst].kind;
    var val := state.regs[insn.src];
    var width := WidthBytes(w);
    if !isSt {
      var isBpfPtr := val.kind.FramePtr? || val.kind.CtxPtr?;
      var dstIsTracked := base.FramePtr? || base.MapValuePtr? || base.RingBufPtr?;
      if isBpfPtr && !dstIsTracked {
        return Some(PtrLeak);
      }
    }
    match base {
      case FramePtr(ptrOff) =>
        var off := WrapI64(ptrOff + insn.offset);
        if !CheckBounds(off, width) {
          return Some(OutOfBoundsAccess);
        }
        if !isSt && width == 8 && (val.kind.IsPtr() || val.kind.PtrOrNull?) {
          stack.Spill(off, val);
        } else {
          stack.ClearSpill(off);
          stack.MarkWritten(off, width);
        }
      case MapValuePtr(_, ptrOff, size, _) =>
        if !InRegion(WrapI64(ptrOff + insn.offset), width, size) {
          return Some(OutOfBoundsAccess);
        }
      case CtxPtr(ptrOff) =>
        if !InRegion(WrapI64(ptrOff + insn.offset), width, CTX_SIZE) {
          return Some(OutOfBoundsAccess);
        }
      case RingBufPtr(_, ptrOff, size, _) =>
        if !InRegion(WrapI64(ptrOff + insn.offset), width, size) {
          return Some(OutOfBoundsAccess);
        }
      case KernelPtr =>
      case DataPtr(_) =>
      case PtrOrNull(_, _, _) => return Some(NullPointerDeref);
      case Null => return Some(NullPointerDeref);
      case Scalar => return Some(InvalidPointerDeref);
      case Uninit => return Some(UninitRegRead);
    }
    return None;
  }

  // --- Branches ---

  method RefineScalar64(taken: VerifierState, fall: VerifierState, dst: RegId, op: JmpOp, val: bv64)
    requires taken.Valid() && fall.Valid() && taken.regs != fall.regs
    requires taken.regs[dst] == fall.regs[dst]
    modifies taken.regs, fall.regs
    ensures taken.View() == old(taken.View())[dst := Refine64(old(fall.View()[dst]), op, val).0]
    ensures fall.View() == old(fall.View())[dst := Refine64(old(fall.View()[dst]), op, val).1]
  {
    hide U, S, WithUmin, WithUmax, WithSmin, WithSmax, SatInc, SatDec, SatIncS, SatDecS, ScalarValue;
    hide SetBits, ClearBits, TightenToTnum, RegState.Refined;
    var ts, fs := taken.regs[dst], fall.regs[dst];
    var u, s := U(val), S(val);
    match op {
      case JEQ => ts := ScalarValue(val);
      case JNE => fs := ScalarValue(val);
      case JGT => ts := WithUmin(ts, SatInc(u)); fs := WithUmax(fs, u);
      case JGE => ts := WithUmin(ts, u); fs := WithUmax(fs, SatDec(u));
      case JLT => ts := WithUmax(ts, SatDec(u)); fs := WithUmin(fs, u);
      case JLE => ts := WithUmax(ts, u); fs := WithUmin(fs, SatInc(u));
      case JSGT => ts := WithSmin(ts, SatIncS(s)); fs := WithSmax(fs, s);
      case JSGE => ts := WithSmin(ts, s); fs := WithSmax(fs, SatDecS(s));
      case JSLT => ts := WithSmax(ts, SatDecS(s)); fs := WithSmin(fs, s);
      case JSLE => ts := WithSmax(ts, s); fs := WithSmin(fs, SatIncS(s));
      case JSET =>
        fs := TightenToTnum(fs.(tnum := ClearBits(fs.tnum, val))).Refined();
        var single := HasOneBit(val);
        if single {
          ts := TightenToTnum(ts.(tnum := SetBits(ts.tnum, val))).Refined();
        }
      case JA =>
    }
    taken.Set(dst, ts);
    fall.Set(dst, fs);
  }

  method RefineScalar32(taken: VerifierState, fall: VerifierState, dst: RegId, op: JmpOp, val: bv64)
    requires taken.Valid() && fall.Valid() && taken.regs != fall.regs
    requires taken.regs[dst] == fall.regs[dst]
    modifies taken.regs, fall.regs
    ensures taken.View() == old(taken.View())[dst := Refine32(old(fall.View()[dst]), op, val).0]
    ensures fall.View() == old(fall.View())[dst := Refine32(old(fall.View()[dst]), op, val).1]
  {
    hide U, S32, Low, ClampMin, ClampMax, ClampSmin, ClampSmax, SatInc, SatDec, SatIncS, SatDecS, EqualLow;
    hide SetBits, ClearBits, Tighten32;
    var ts, fs := taken.regs[dst], fall.regs[dst];
    var low := Low(val);
    var u, s := U(low), S32(val);
    match op {
      case JEQ => ts := EqualLow(ts, low);
      case JNE => fs := EqualLow(fs, low);
      case JGT => ts := ClampMin(ts, SatInc(u)); fs := ClampMax(fs, u);
      case JGE => ts := ClampMin(ts, u); fs := ClampMax(fs, SatDec(u));
      case JLT => ts := ClampMax(ts, SatDec(u)); fs := ClampMin(fs, u);
      case JLE => ts := ClampMax(ts, u); fs := ClampMin(fs, SatInc(u));
      case JSGT => ts := ClampSmin(ts, SatIncS(s)); fs := ClampSmax(fs, s);
      case JSGE => ts := ClampSmin(ts, s); fs := ClampSmax(fs, SatDecS(s));
      case JSLT => ts := ClampSmax(ts, SatDecS(s)); fs := ClampSmin(fs, s);
      case JSLE => ts := ClampSmax(ts, s); fs := ClampSmin(fs, SatIncS(s));
      case JSET =>
        fs := Tighten32(fs.(tnum := ClearBits(fs.tnum, low)));
        var single := HasOneBit(low);
        if single {
          ts := Tighten32(ts.(tnum := SetBits(ts.tnum, low)));
        }
      case JA =>
    }
    taken.Set(dst, ts);
    fall.Set(dst, fs);
  }

  /** `count_ones() == 1` */
  method HasOneBit(bits: bv64) returns (single: bool)
    ensures single <==> SingleBit(bits)
  {
    hide BitAt;
    single := false;
    for i := 0 to 64
      invariant single <==> exists k: nat :: k < i && IsBit(bits, k)
    {
      if IsBit(bits, i) {
        single := true;
      }
    }
  }

  /** What both sides of a branch learn from the comparison. */
  method RefineBranchStates(taken: VerifierState, takenStack: StackState, fall: VerifierState, fallStack: StackState,
                            insn: BpfInsn, op: JmpOp, source: Source, is32: bool)
    requires taken.Valid() && takenStack.Valid() && fall.Valid() && fallStack.Valid()
    requires taken.regs != fall.regs && takenStack != fallStack && takenStack.init != fallStack.init
    requires taken.View() == fall.View() && takenStack.View() == fallStack.View()
    modifies taken.regs, fall.regs, takenStack, fallStack
    ensures Branches(taken.View(), takenStack.View(), fall.View(), fallStack.View())
         == RefineBranch(old(fall.View()), old(fallStack.View()), insn, op, source, is32)
  {
    hide CompareValue, U, Refine64, Refine32, Resolve;
    var cmp := CompareValue(fall.View(), insn, source, is32);
    var dst := fall.regs[insn.dst];
    if cmp.Some? && U(cmp.value) == 0 && dst.kind.PtrOrNull? {
      var inner, id := dst.kind.inner, dst.kind.id;
      if op == JEQ {
        taken.RefineAllWithId(id, Null);
        takenStack.RefineSpillsWithId(id, Null);
        fall.RefineAllWithId(id, inner);
        fallStack.RefineSpillsWithId(id, inner);
      } else if op == JNE {
        taken.RefineAllWithId(id, inner);
        takenStack.RefineSpillsWithId(id, inner);
        fall.RefineAllWithId(id, Null);
        fallStack.RefineSpillsWithId(id, Null);
      }
    } else if cmp.Some? && dst.kind.Scalar? {
      if is32 {
        RefineScalar32(taken, fall, insn.dst, op, cmp.value);
      } else {
        RefineScalar64(taken, fall, insn.dst, op, cmp.value);
      }
    }
  }
}

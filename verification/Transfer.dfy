/** What the checker does with one instruction, as functions from abstract state to abstract state. */
module Transfer {
  import opened Wrappers
  import opened Words
  import opened Tnums
  import opened Instructions
  import opened HelperTable
  import opened RegStates
  import opened AbstractStates
  import opened ControlFlow

  /** The kinds of verification error, without their diagnostic payload. */
  datatype ErrorKind =
    | UninitStackRead
    | OutOfBoundsAccess
    | NullPointerDeref
    | InvalidPointerDeref
    | UnknownHelper
    | InvalidHelperArg
    | ComplexityExceeded
    | UninitRegRead
    | InvalidPointerArith
    | DivByZero
    | FallThrough
    | UnknownOpcode
    | ShiftOverflow
    | PtrLeak
    | UninitReturn

  const CTX_SIZE: int := 4096
  const DEFAULT_MAP_VALUE_SIZE: U32 := 65536
  const DEFAULT_RINGBUF_SIZE: U32 := 65536

  /** r10 always counts as readable. */
  predicate CanRead(regs: Regs, r: RegId) {
    r == 10 || regs[r].IsReadable()
  }

  // --- ALU instructions ---

  /** The type of a pointer moved by `delta`, or with its offset reset when the distance is unknown. */
  function MovePointer(kind: RegType, delta: Option<I64>): RegType
    requires kind.IsPtr()
  {
    if kind.KernelPtr? || kind.DataPtr? then kind
    else kind.(offset := if delta.Some? then WrapI64(kind.offset + delta.value) else 0)
  }

  /** The tracked number of a scalar operation. */
  function ScalarTnum(op: AluOp, d: Tnum, s: Tnum): Tnum
    requires op != MOV && op != NEG
  {
    match op
    case ADD => d.Add(s)
    case SUB => d.Sub(s)
    case AND => d.And(s)
    case OR => d.Or(s)
    case XOR => d.Xor(s)
    case LSH => if s.IsKnown() then d.Lsh(U(Low(s.value))) else Tnum.Unknown()
    case RSH => if s.IsKnown() then d.Rsh(U(Low(s.value))) else Tnum.Unknown()
    case ARSH =>
      if d.IsKnown() && s.IsKnown() then Tnum.Constant(Sar(d.value, U(s.value) % 64)) else Tnum.Unknown()
    case MUL => if d.IsKnown() && s.IsKnown() then Tnum.Constant(Times(d.value, s.value)) else Tnum.Unknown()
    case DIV =>
      if d.IsKnown() && s.IsKnown() && U(s.value) != 0
      then Tnum.Constant(Quotient(d.value, s.value)) else Tnum.Unknown()
    case MOD =>
      if d.IsKnown() && s.IsKnown() && U(s.value) != 0
      then Tnum.Constant(Remainder(d.value, s.value)) else Tnum.Unknown()
  }

  /** The scalar state built from a tracked number: all four bounds are read off it. */
  function FromTracked(t: Tnum): RegState {
    RegState(Scalar, t, AsI64(t.MinValue()), AsI64(t.MaxValue()), t.MinValue(), t.MaxValue()).Refined()
  }

  function ScalarResult(op: AluOp, d: Tnum, s: Tnum, is64: bool): RegState
    requires op != MOV && op != NEG
  {
    var t := ScalarTnum(op, d, s);
    FromTracked(if is64 then t else t.Trunc32())
  }

  /** A 32-bit move: the upper half is cleared and a pointer becomes a scalar. */
  function Truncated(r: RegState): RegState {
    RegState(Scalar, r.tnum.Trunc32(), Max(r.smin, 0), Min(r.smax, 0xFFFF_FFFF), r.umin, Min(r.umax, U32_MAX))
  }

  /** The second operand as a register state. */
  function Operand(regs: Regs, insn: BpfInsn, source: Source, is64: bool): RegState {
    if source.FromImm? then ScalarValue(ImmOperand(insn.imm, is64)) else regs[insn.src]
  }

  predicate DivisorMayBeZero(regs: Regs, insn: BpfInsn, source: Source) {
    if source.FromImm? then insn.imm == 0 else regs[insn.src].umin == 0
  }

  predicate ShiftTooFar(regs: Regs, insn: BpfInsn, source: Source, is64: bool) {
    var maxShift := if is64 then 63 else 31;
    if source.FromImm? then AsU64(insn.imm) > maxShift else regs[insn.src].umax > maxShift
  }

  function PointerResult(op: AluOp, dst: RegType, src: RegState): Result<RegState, ErrorKind>
    requires dst.IsPtr()
  {
    if op != ADD && op != SUB then Failure(InvalidPointerArith)
    else if src.kind.IsPtr() then
      if op == SUB then Success(ScalarUnknown()) else Failure(InvalidPointerArith)
    else
      var known := src.tnum.KnownValue();
      var delta := if known.None? then None
                   else if op == ADD then Some(S(known.value))
                   else Some(WrapI64(0 - S(known.value)));
      Success(AnyValue(MovePointer(dst, delta)))
  }

  /** The new state of the destination register. */
  function AluResult(regs: Regs, insn: BpfInsn, op: AluOp, source: Source, is64: bool): Result<RegState, ErrorKind> {
    var dst := regs[insn.dst];
    var src := Operand(regs, insn, source, is64);
    if op == MOV then
      Success(if source.FromReg? && !is64 then Truncated(src) else src)
    else if op == NEG then
      if dst.kind.IsPtr() then Failure(InvalidPointerArith) else Success(ScalarUnknown())
    else if (op == DIV || op == MOD) && DivisorMayBeZero(regs, insn, source) then
      Failure(DivByZero)
    else if (op == LSH || op == RSH || op == ARSH) && ShiftTooFar(regs, insn, source, is64) then
      Failure(ShiftOverflow)
    else if dst.kind.IsPtr() then
      PointerResult(op, dst.kind, src)
    else if op == ADD && src.kind.IsPtr() then
      var known := dst.tnum.KnownValue();
      Success(AnyValue(MovePointer(src.kind, if known.Some? then Some(S(known.value)) else None)))
    else
      Success(ScalarResult(op, dst.tnum, src.tnum, is64))
  }

  // --- Helper calls ---

  predicate ArgAccepted(expected: ArgType, actual: RegType) {
    match expected
    case AnyArg => true
    case ScalarArg => actual.Scalar? || actual.KernelPtr? || actual.Null?
    case Size => actual.Scalar? || actual.KernelPtr? || actual.Null?
    case Flags => actual.Scalar? || actual.KernelPtr? || actual.Null?
    case PtrToStack => actual.FramePtr?
    case MapPtr => actual.Scalar?
    case PtrToMapKey => actual.FramePtr? || actual.MapValuePtr? || actual.DataPtr?
    case PtrToMapValue => actual.FramePtr? || actual.MapValuePtr? || actual.DataPtr?
    case PtrToRingBuf => actual.RingBufPtr?
    case PtrToMem => actual.FramePtr? || actual.MapValuePtr? || actual.RingBufPtr?
    case PtrToReadonlyMem => actual.FramePtr? || actual.MapValuePtr? || actual.DataPtr?
  }

  /** The first argument register, from r(1+i) on, that the helper rejects. */
  function ArgError(args: seq<ArgType>, regs: Regs, i: nat): Option<ErrorKind>
    requires i <= |args| <= 5
    decreases |args| - i
  {
    if i == |args| then None
    else if regs[1 + i].kind.Uninit? then Some(UninitRegRead)
    else if !ArgAccepted(args[i], regs[1 + i].kind) then Some(InvalidHelperArg)
    else ArgError(args, regs, i + 1)
  }

  /** What a call leaves in r0; a nullable pointer gets the fresh identifier `id`. */
  function ReturnValue(ret: HelperReturn, regs: Regs, pc: nat, id: nat): RegState {
    match ret
    case RetScalar => ScalarUnknown()
    case RetErrorCode => ScalarUnknown()
    case RetKernelPtr => AnyValue(KernelPtr)
    case RetMapPtr => AnyValue(PtrOrNull(MapValuePtr(id, 0, DEFAULT_MAP_VALUE_SIZE, pc), Some(pc), id))
    case RetRingBufPtr =>
      var known := regs[2].tnum.KnownValue();
      var size: U32 := if known.Some? then LowFits(known.value); U(Low(known.value)) else DEFAULT_RINGBUF_SIZE;
      AnyValue(PtrOrNull(RingBufPtr(id, 0, size, pc), Some(pc), id))
  }

  predicate IsNullable(ret: HelperReturn) { ret.RetMapPtr? || ret.RetRingBufPtr? }

  /** r0 receives the result and r1 to r5 are clobbered. */
  function AfterCall(regs: Regs, result: RegState): Regs {
    regs[0 := result][1 := UninitReg()][2 := UninitReg()][3 := UninitReg()][4 := UninitReg()][5 := UninitReg()]
  }

  /** How many bytes a buffer-filling helper is taken to write; the count is truncated to eight bits. */
  function WriteSize(regs: Regs): nat {
    var known := regs[2].tnum.KnownValue();
    (if known.Some? then Min(U(known.value), 512) else 0) % 256
  }

  predicate FillsBuffer(spec: HelperSpec) {
    |spec.args| > 0 && (spec.args[0].PtrToMem? || spec.args[0].PtrToStack?)
  }

  function FrameAfterCall(spec: HelperSpec, helperId: int, regs: Regs, frame: Frame): Frame {
    if FillsBuffer(spec) && regs[1].kind.FramePtr? then
      var size := WriteSize(regs);
      var written := if size > 0 then MarkWritten(frame, regs[1].kind.offset, size) else frame;
      if size == 8 && helperId in {4, 113, 115}
      then Spill(written, regs[1].kind.offset, AnyValue(KernelPtr))
      else written
    else frame
  }

  // --- Loads and stores ---

  predicate InRegion(offset: I64, width: nat, size: int) {
    offset >= 0 && WrapI64(offset + width) <= size
  }

  function LoadResult(regs: Regs, frame: Frame, insn: BpfInsn, w: MemWidth): Result<RegState, ErrorKind> {
    var base := regs[insn.src].kind;
    var width := WidthBytes(w);
    var loaded := if w == W64 then AnyValue(KernelPtr) else ScalarUnknown();
    match base
    case FramePtr(ptrOff) =>
      var off := WrapI64(ptrOff + insn.offset);
      if !CheckBounds(off, width) then Failure(OutOfBoundsAccess)
      else if !CheckReadable(frame, off, width) then Failure(UninitStackRead)
      else if width == 8 && off in frame.spills then Success(frame.spills[off])
      else Success(ScalarUnknown())
    case MapValuePtr(_, ptrOff, size, _) =>
      if InRegion(WrapI64(ptrOff + insn.offset), width, size) then Success(ScalarUnknown())
      else Failure(OutOfBoundsAccess)
    case CtxPtr(ptrOff) =>
      if InRegion(WrapI64(ptrOff + insn.offset), width, CTX_SIZE) then Success(loaded)
      else Failure(OutOfBoundsAccess)
    case RingBufPtr(_, ptrOff, size, _) =>
      if InRegion(WrapI64(ptrOff + insn.offset), width, size) then Success(ScalarUnknown())
      else Failure(OutOfBoundsAccess)
    case KernelPtr => Success(loaded)
    case DataPtr(_) => Success(ScalarUnknown())
    case PtrOrNull(_, _, _) => Failure(NullPointerDeref)
    case Null => Failure(NullPointerDeref)
    case Scalar => Failure(InvalidPointerDeref)
    case Uninit => Failure(UninitRegRead)
  }

  /** The frame after a store; `isSt` distinguishes an immediate from a register operand. */
  function StoreResult(regs: Regs, frame: Frame, insn: BpfInsn, w: MemWidth, isSt: bool): Result<Frame, ErrorKind> {
    var base := regs[insn.dst].kind;
    var val := regs[insn.src];
    var width := WidthBytes(w);
    var tracked := base.FramePtr? || base.MapValuePtr? || base.RingBufPtr?;
    if !isSt && (val.kind.FramePtr? || val.kind.CtxPtr?) && !tracked then Failure(PtrLeak)
    else
      match base
      case FramePtr(ptrOff) =>
        var off := WrapI64(ptrOff + insn.offset);
        if !CheckBounds(off, width) then Failure(OutOfBoundsAccess)
        else if !isSt && width == 8 && (val.kind.IsPtr() || val.kind.PtrOrNull?) then Success(Spill(frame, off, val))
        else Success(MarkWritten(ClearSpill(frame, off), off, width))
      case MapValuePtr(_, ptrOff, size, _) =>
        if InRegion(WrapI64(ptrOff + insn.offset), width, size) then Success(frame) else Failure(OutOfBoundsAccess)
      case CtxPtr(ptrOff) =>
        if InRegion(WrapI64(ptrOff + insn.offset), width, CTX_SIZE) then Success(frame) else Failure(OutOfBoundsAccess)
      case RingBufPtr(_, ptrOff, size, _) =>
        if InRegion(WrapI64(ptrOff + insn.offset), width, size) then Success(frame) else Failure(OutOfBoundsAccess)
      case KernelPtr => Success(frame)
      case DataPtr(_) => Success(frame)
      case PtrOrNull(_, _, _) => Failure(NullPointerDeref)
      case Null => Failure(NullPointerDeref)
      case Scalar => Failure(InvalidPointerDeref)
      case Uninit => Failure(UninitRegRead)
  }

  // --- Branches ---

  function WithUmin(r: RegState, lo: U64): RegState { r.(umin := Max(r.umin, lo)).Refined() }

  function WithUmax(r: RegState, hi: U64): RegState { r.(umax := Min(r.umax, hi)).Refined() }

  function WithSmin(r: RegState, lo: I64): RegState { r.(smin := Max(r.smin, lo)).Refined() }

  function WithSmax(r: RegState, hi: I64): RegState { r.(smax := Min(r.smax, hi)).Refined() }

  function SatInc(n: U64): U64 { if n == U64_MAX then n else n + 1 }

  function SatDec(n: U64): U64 { if n == 0 then n else n - 1 }

  function SatIncS(n: I64): I64 { if n == I64_MAX then n else n + 1 }

  function SatDecS(n: I64): I64 { if n == I64_MIN then n else n - 1 }

  /** Read the unsigned bounds off the tracked number. */
  function TightenToTnum(r: RegState): RegState {
    r.(umin := Max(r.umin, r.tnum.MinValue()), umax := Min(r.umax, r.tnum.MaxValue()))
  }

  function ClearBits(t: Tnum, bits: bv64): Tnum { Tnum(AndNot(t.value, bits), AndNot(t.mask, bits)) }

  function SetBits(t: Tnum, bits: bv64): Tnum { Tnum(Or(t.value, bits), AndNot(t.mask, bits)) }

  predicate IsBit(bits: bv64, i: nat) { bits == BitAt(i) }

  /** `bits` has exactly one bit set. */
  predicate SingleBit(bits: bv64) {
    exists i: nat :: i < 64 && IsBit(bits, i)
  }

  /** The destination on the taken and on the fall-through path of a 64-bit comparison with a known value. */
  function Refine64(r: RegState, op: JmpOp, val: bv64): (RegState, RegState) {
    var u, s := U(val), S(val);
    match op
    case JEQ => (ScalarValue(val), r)
    case JNE => (r, ScalarValue(val))
    case JGT => (WithUmin(r, SatInc(u)), WithUmax(r, u))
    case JGE => (WithUmin(r, u), WithUmax(r, SatDec(u)))
    case JLT => (WithUmax(r, SatDec(u)), WithUmin(r, u))
    case JLE => (WithUmax(r, u), WithUmin(r, SatInc(u)))
    case JSGT => (WithSmin(r, SatIncS(s)), WithSmax(r, s))
    case JSGE => (WithSmin(r, s), WithSmax(r, SatDecS(s)))
    case JSLT => (WithSmax(r, SatDecS(s)), WithSmin(r, s))
    case JSLE => (WithSmax(r, s), WithSmin(r, SatIncS(s)))
    case JSET =>
      (if SingleBit(val) then TightenToTnum(r.(tnum := SetBits(r.tnum, val))).Refined() else r,
       TightenToTnum(r.(tnum := ClearBits(r.tnum, val))).Refined())
    case JA => (r, r)
  }

  /** Bounds move only when the whole 64-bit range lies in the 32-bit domain. */
  predicate Is32Bit(r: RegState) { r.umax <= U32_MAX }

  function ClampMin(r: RegState, lo: U64): RegState {
    (if Is32Bit(r) then r.(umin := Max(r.umin, lo)) else r).Refined()
  }

  function ClampMax(r: RegState, hi: U64): RegState {
    (if Is32Bit(r) then r.(umax := Min(r.umax, hi)) else r).Refined()
  }

  function ClampSmin(r: RegState, lo: I64): RegState { if Is32Bit(r) then WithSmin(r, lo) else r }

  function ClampSmax(r: RegState, hi: I64): RegState { if Is32Bit(r) then WithSmax(r, hi) else r }

  function ReplaceLow(t: Tnum, low: bv64): Tnum {
    Tnum(Or(AndNot(t.value, 0xFFFF_FFFF), low), AndNot(t.mask, 0xFFFF_FFFF))
  }

  function EqualLow(r: RegState, low: bv64): RegState {
    var r' := r.(tnum := ReplaceLow(r.tnum, low));
    (if Is32Bit(r') then r'.(umin := Max(r'.umin, U(low)), umax := Min(r'.umax, U(low))) else r').Refined()
  }

  function Tighten32(r: RegState): RegState {
    (if Is32Bit(r) then TightenToTnum(r) else r).Refined()
  }

  function Refine32(r: RegState, op: JmpOp, val: bv64): (RegState, RegState) {
    var low := Low(val);
    var u, s := U(low), S32(val);
    match op
    case JEQ => (EqualLow(r, low), r)
    case JNE => (r, EqualLow(r, low))
    case JGT => (ClampMin(r, SatInc(u)), ClampMax(r, u))
    case JGE => (ClampMin(r, u), ClampMax(r, SatDec(u)))
    case JLT => (ClampMax(r, SatDec(u)), ClampMin(r, u))
    case JLE => (ClampMax(r, u), ClampMin(r, SatInc(u)))
    case JSGT => (ClampSmin(r, SatIncS(s)), ClampSmax(r, s))
    case JSGE => (ClampSmin(r, s), ClampSmax(r, SatDecS(s)))
    case JSLT => (ClampSmax(r, SatDecS(s)), ClampSmin(r, s))
    case JSLE => (ClampSmax(r, s), ClampSmin(r, SatIncS(s)))
    case JSET =>
      (if SingleBit(low) then Tighten32(r.(tnum := SetBits(r.tnum, low))) else r,
       Tighten32(r.(tnum := ClearBits(r.tnum, low))))
    case JA => (r, r)
  }

  /** The value the destination is compared with, when the checker knows it. */
  function CompareValue(regs: Regs, insn: BpfInsn, source: Source, is32: bool): Option<bv64> {
    if source.FromImm? then Some(ImmOperand(insn.imm, !is32)) else regs[insn.src].tnum.KnownValue()
  }

  datatype Branches = Branches(taken: Regs, takenFrame: Frame, fall: Regs, fallFrame: Frame)

  function RefineBranch(regs: Regs, frame: Frame, insn: BpfInsn, op: JmpOp, source: Source, is32: bool): Branches {
    var val := CompareValue(regs, insn, source, is32);
    var dst := regs[insn.dst];
    if val.None? then
      Branches(regs, frame, regs, frame)
    else if U(val.value) == 0 && dst.kind.PtrOrNull? then
      var id, inner := dst.kind.id, dst.kind.inner;
      var nullRegs, nullFrame := ResolveRegs(regs, id, Null), ResolveSpills(frame, id, Null);
      var ptrRegs, ptrFrame := ResolveRegs(regs, id, inner), ResolveSpills(frame, id, inner);
      if op == JEQ then Branches(nullRegs, nullFrame, ptrRegs, ptrFrame)
      else if op == JNE then Branches(ptrRegs, ptrFrame, nullRegs, nullFrame)
      else Branches(regs, frame, regs, frame)
    else if dst.kind.Scalar? then
      var (taken, fall) := if is32 then Refine32(dst, op, val.value) else Refine64(dst, op, val.value);
      Branches(regs[insn.dst := taken], frame, regs[insn.dst := fall], frame)
    else
      Branches(regs, frame, regs, frame)
  }

  // --- One instruction ---

  /** What a relocation puts into the register of a wide load. */
  datatype Reloc = MapReloc | DataReloc(name: string) | CoreFieldReloc

  datatype Config = Config(pc: nat, regs: Regs, frame: Frame)

  /** An error, the end of a path, one successor, or both sides of a branch. */
  datatype Outcome =
    | Fails(kind: ErrorKind)
    | Exits
    | Continues(next: Config)
    | Splits(taken: Config, fall: Config)

  function WideLoad(insn: BpfInsn, reloc: Option<Reloc>): RegState {
    match reloc
    case None => ScalarValue(WideImm(insn))
    case Some(MapReloc) => ScalarUnknown()
    case Some(DataReloc(name)) => AnyValue(DataPtr(name))
    case Some(CoreFieldReloc) => AnyValue(KernelPtr)
  }

  function CheckExit(regs: Regs): Option<ErrorKind> {
    if regs[0].kind.Uninit? then Some(UninitReturn)
    else if regs[0].kind.IsPtr() then Some(PtrLeak)
    else None
  }

  /** The outcome of one instruction, with `id` as the next fresh identifier. */
  ghost function Step(prog: Program, relocs: map<nat, Reloc>, c: Config, id: nat): Outcome
    requires c.pc < |prog|
  {
    var insn, next := prog[c.pc], c.pc + 1;
    match insn.opcode
    case Unknown(_) => Fails(UnknownOpcode)
    case Exit =>
      var err := CheckExit(c.regs);
      if err.Some? then Fails(err.value) else Exits
    case Call => StepCall(c, insn, id)
    case JmpJa =>
      var target := Target(prog, c.pc, insn.offset);
      if target.Some? then Continues(c.(pc := target.value)) else Fails(FallThrough)
    case Jmp64(op, source) => StepBranch(c, insn, op, source, false, Target(prog, c.pc, insn.offset))
    case Jmp32(op, source) => StepBranch(c, insn, op, source, true, Target(prog, c.pc, insn.offset))
    case Alu64(op, source) => StepAlu(c, insn, op, source, true)
    case Alu32(op, source) => StepAlu(c, insn, op, source, false)
    case LdImm64 =>
      var reloc := if c.pc in relocs then Some(relocs[c.pc]) else None;
      Continues(Config(next, c.regs[insn.dst := WideLoad(insn, reloc)], c.frame))
    case Ldx(w) =>
      if !CanRead(c.regs, insn.src) then Fails(UninitRegRead)
      else
        var r := LoadResult(c.regs, c.frame, insn, w);
        if r.Failure? then Fails(r.error) else Continues(Config(next, c.regs[insn.dst := r.value], c.frame))
    case Stx(w) =>
      if !CanRead(c.regs, insn.dst) || !CanRead(c.regs, insn.src) then Fails(UninitRegRead)
      else StepStore(c, insn, w, false)
    case St(w) =>
      if !CanRead(c.regs, insn.dst) then Fails(UninitRegRead) else StepStore(c, insn, w, true)
  }

  function StepStore(c: Config, insn: BpfInsn, w: MemWidth, isSt: bool): Outcome {
    var r := StoreResult(c.regs, c.frame, insn, w, isSt);
    if r.Failure? then Fails(r.error) else Continues(Config(c.pc + 1, c.regs, r.value))
  }

  function StepAlu(c: Config, insn: BpfInsn, op: AluOp, source: Source, is64: bool): Outcome {
    if op != MOV && !CanRead(c.regs, insn.dst) then Fails(UninitRegRead)
    else if source.FromReg? && !CanRead(c.regs, insn.src) then Fails(UninitRegRead)
    else
      var r := AluResult(c.regs, insn, op, source, is64);
      if r.Failure? then Fails(r.error) else Continues(Config(c.pc + 1, c.regs[insn.dst := r.value], c.frame))
  }

  function StepCall(c: Config, insn: BpfInsn, id: nat): Outcome {
    var helper := GetHelper(insn.imm);
    if helper.None? then Fails(UnknownHelper)
    else
      var spec := helper.value;
      var err := ArgError(spec.args, c.regs, 0);
      if err.Some? then Fails(err.value)
      else Continues(Config(c.pc + 1, AfterCall(c.regs, ReturnValue(spec.ret, c.regs, c.pc, id)),
                            FrameAfterCall(spec, insn.imm, c.regs, c.frame)))
  }

  function StepBranch(c: Config, insn: BpfInsn, op: JmpOp, source: Source, is32: bool, target: Option<nat>): Outcome {
    if !CanRead(c.regs, insn.dst) then Fails(UninitRegRead)
    else if source.FromReg? && !CanRead(c.regs, insn.src) then Fails(UninitRegRead)
    else if target.None? then Fails(FallThrough)
    else
      var b := RefineBranch(c.regs, c.frame, insn, op, source, is32);
      Splits(Config(target.value, b.taken, b.takenFrame), Config(c.pc + 1, b.fall, b.fallFrame))
  }

  /** The counter of fresh identifiers after the instruction. */
  function NextId(insn: BpfInsn, id: nat): nat {
    if insn.opcode.Call? then
      var helper := GetHelper(insn.imm);
      if helper.Some? && IsNullable(helper.value.ret) then id + 1 else id
    else id
  }
}

/** The executable semantics: one instruction, and programs run with fuel or in chunks. `None` is undefined
    behaviour. */
module ObjSemantics {
  import opened Wrappers
  import opened Words
  import opened Instructions
  import opened ObjState
  import opened ObjHelpers

  datatype Insn =
    | Alu64Reg(op: AluOp, dst: RegId, src: RegId)
    | Alu64Imm(op: AluOp, dst: RegId, imm: I32)
    | Alu32Reg(op: AluOp, dst: RegId, src: RegId)
    | Alu32Imm(op: AluOp, dst: RegId, imm: I32)
    | Load(width: MemWidth, dst: RegId, src: RegId, off: I32)
    | Store(width: MemWidth, dst: RegId, src: RegId, off: I32)
    | StoreImm(width: MemWidth, dst: RegId, off: I32, imm: I32)
    | LoadImm64(dst: RegId, value: bv64)
    | Jump64Reg(cond: JmpOp, dst: RegId, src: RegId, target: int)
    | Jump64Imm(cond: JmpOp, dst: RegId, imm: I32, target: int)
    | Jump32Reg(cond: JmpOp, dst: RegId, src: RegId, target: int)
    | Jump32Imm(cond: JmpOp, dst: RegId, imm: I32, target: int)
    | Goto(target: int)
    | CallHelper(helper: HelperId)
    | Halt

  type Program = seq<Insn>

  // --- Arithmetic and comparisons ---

  function Alu64Value(op: AluOp, d: bv64, s: bv64): bv64 {
    var k := U(s) % 64;
    match op
    case ADD => Plus(d, s)
    case SUB => Minus(d, s)
    case MUL => Times(d, s)
    case DIV => if U(s) == 0 then 0 else Quotient(d, s)
    case MOD => if U(s) == 0 then d else Remainder(d, s)
    case OR => Or(d, s)
    case AND => And(d, s)
    case XOR => Xor(d, s)
    case MOV => s
    case NEG => Minus(0, d)
    case LSH => Shl(d, k)
    case RSH => Shr(d, k)
    case ARSH => if U(d) >= TWO63 && k > 0 then Or(Shr(d, k), Minus(0, Shl(1, 64 - k))) else Shr(d, k)
  }

  /** Operates on the low halves; a modulus by zero returns the whole destination. */
  function Alu32Value(op: AluOp, d: bv64, s: bv64): bv64 {
    var d32, s32 := Low(d), Low(s);
    var k := U(s32) % 32;
    match op
    case ADD => Low(Plus(d32, s32))
    case SUB => Low(Minus(d32, s32))
    case MUL => Low(Times(d32, s32))
    case DIV => if U(s32) == 0 then 0 else Low(Quotient(d32, s32))
    case MOD => if U(s32) == 0 then d else Low(Remainder(d32, s32))
    case OR => Or(d32, s32)
    case AND => And(d32, s32)
    case XOR => Xor(d32, s32)
    case MOV => s32
    case NEG => Low(Minus(0, d32))
    case LSH => Low(Shl(d32, k))
    case RSH => Shr(d32, k)
    case ARSH =>
      if U(d32) >= 0x8000_0000 && k > 0 then Or(Shr(d32, k), Low(Minus(0, Low(Shl(1, 32 - k))))) else Shr(d32, k)
  }

  predicate Evaluate(cond: JmpOp, d: int, s: int, signedD: int, signedS: int, common: bool) {
    match cond
    case JA => true
    case JEQ => d == s
    case JGT => d > s
    case JGE => d >= s
    case JSET => common
    case JNE => d != s
    case JLT => d < s
    case JLE => d <= s
    case JSGT => signedD > signedS
    case JSGE => signedD >= signedS
    case JSLT => signedD < signedS
    case JSLE => signedD <= signedS
  }

  predicate EvalJump64(cond: JmpOp, d: bv64, s: bv64) {
    Evaluate(cond, U(d), U(s), S(d), S(s), And(d, s) != 0)
  }

  predicate EvalJump32(cond: JmpOp, d: bv64, s: bv64) {
    Evaluate(cond, U(Low(d)), U(Low(s)), S32(d), S32(s), And(Low(d), Low(s)) != 0)
  }

  function ValueForJump(v: RegVal): Option<bv64> {
    match v
    case Scalar(n) => Some(n)
    case Null => Some(0)
    case _ => None
  }

  /** Pointers are not zero, null is. */
  predicate IsZero(v: RegVal) {
    match v
    case Scalar(n) => U(n) == 0
    case Null => true
    case _ => false
  }

  // --- One instruction ---

  function ExecAlu64Reg(st: State, op: AluOp, dst: RegId, src: RegId): Option<State> {
    if op == MOV then Some(st.SetReg(dst, st.regs[src]))
    else
      var d, s := st.regs[dst], st.regs[src];
      if d.Scalar? && s.Scalar? then Some(st.SetReg(dst, Scalar(Alu64Value(op, d.value, s.value)))) else None
  }

  /** Adding a constant to, or subtracting one from, a frame or context pointer moves it. */
  function ExecAlu64Imm(st: State, op: AluOp, dst: RegId, imm: I32): Option<State> {
    var d := st.regs[dst];
    if op == MOV then Some(st.SetReg(dst, Scalar(SignExtended(imm))))
    else if d.Scalar? then Some(st.SetReg(dst, Scalar(Alu64Value(op, d.value, SignExtended(imm)))))
    else if op != ADD && op != SUB then None
    else
      var delta := if op == ADD then imm as int else 0 - imm;
      if d.FramePtr? then Some(st.SetReg(dst, FramePtr(d.offset + delta)))
      else if d.CtxPtr? then Some(st.SetReg(dst, CtxPtr(d.offset + delta)))
      else None
  }

  function ExecAlu32Reg(st: State, op: AluOp, dst: RegId, src: RegId): Option<State> {
    var d, s := st.regs[dst], st.regs[src];
    if op == MOV then
      if s.Scalar? then Some(st.SetReg(dst, Scalar(Alu32Value(MOV, s.value, s.value)))) else None
    else if d.Scalar? && s.Scalar? then Some(st.SetReg(dst, Scalar(Alu32Value(op, d.value, s.value))))
    else None
  }

  /** The immediate of a 32-bit move is zero-extended. */
  function ExecAlu32Imm(st: State, op: AluOp, dst: RegId, imm: I32): Option<State> {
    var d := st.regs[dst];
    if op == MOV then Some(st.SetReg(dst, Scalar(ZeroExtended(imm))))
    else if d.Scalar? then Some(st.SetReg(dst, Scalar(Alu32Value(op, d.value, SignExtended(imm)))))
    else None
  }

  /** A load from anything but the stack. */
  function ExecOtherLoad(st: State, w: MemWidth, dst: RegId, base: RegVal, off: I32): Option<State>
    requires !base.FramePtr?
  {
    match base
    case MapValuePtr(id) =>
      var v := MapValueRead(st.mapValues, id);
      if v.Some? then Some(st.SetReg(dst, Scalar(v.value))) else None
    case RingBufPtr(id) => Some(st.SetReg(dst, Scalar(RingRead(st.ringbuf, id, off, w).GetOr(0))))
    case CtxPtr(_) => Some(st.SetReg(dst, Scalar(0)))
    case Null => None
    case Scalar(_) => None
  }

  function ExecLoad(st: State, w: MemWidth, dst: RegId, src: RegId, off: I32): Option<State> {
    var base := st.regs[src];
    if base.FramePtr? then
      var v := StackLoad(st, base.offset + off, w);
      if v.Some? then Some(st.SetReg(dst, Scalar(v.value))) else None
    else ExecOtherLoad(st, w, dst, base, off)
  }

  /** Storing a known number through the base register. */
  function ExecStoreValue(st: State, w: MemWidth, base: RegVal, off: I32, v: bv64): Option<State> {
    match base
    case FramePtr(ptrOff) => StackStore(st, ptrOff + off, w, v)
    case RingBufPtr(id) => Some(RingStore(st, id, off, w, v))
    case _ => None
  }

  function ExecStore(st: State, w: MemWidth, dst: RegId, src: RegId, off: I32): Option<State> {
    if st.regs[src].Scalar? then ExecStoreValue(st, w, st.regs[dst], off, st.regs[src].value) else None
  }

  function ExecJump64Reg(st: State, cond: JmpOp, dst: RegId, src: RegId, target: int): Option<State> {
    var d, s := ValueForJump(st.regs[dst]), ValueForJump(st.regs[src]);
    if d.Some? && s.Some? then Some(st.Jump(EvalJump64(cond, d.value, s.value), target)) else None
  }

  /** Equality with a non-zero immediate is decided from whether the register is zero. */
  function ExecJump64Imm(st: State, cond: JmpOp, dst: RegId, imm: I32, target: int): Option<State> {
    var v, s := st.regs[dst], SignExtended(imm);
    if cond == JEQ || cond == JNE then
      var same := if U(s) == 0 then IsZero(v) else !IsZero(v);
      Some(st.Jump(if cond == JEQ then same else !same, target))
    else if v.Scalar? then Some(st.Jump(EvalJump64(cond, v.value, s), target))
    else None
  }

  function ExecJump32Reg(st: State, cond: JmpOp, dst: RegId, src: RegId, target: int): Option<State> {
    var d, s := st.regs[dst], st.regs[src];
    if d.Scalar? && s.Scalar? then Some(st.Jump(EvalJump32(cond, d.value, s.value), target)) else None
  }

  function ExecJump32Imm(st: State, cond: JmpOp, dst: RegId, imm: I32, target: int): Option<State> {
    var d := st.regs[dst];
    if d.Scalar? then Some(st.Jump(EvalJump32(cond, d.value, SignExtended(imm)), target)) else None
  }

  function ExecInsn(st: State, insn: Insn): Option<State> {
    match insn
    case Alu64Reg(op, dst, src) => ExecAlu64Reg(st, op, dst, src)
    case Alu64Imm(op, dst, imm) => ExecAlu64Imm(st, op, dst, imm)
    case Alu32Reg(op, dst, src) => ExecAlu32Reg(st, op, dst, src)
    case Alu32Imm(op, dst, imm) => ExecAlu32Imm(st, op, dst, imm)
    case LoadImm64(dst, v) => Some(st.SetReg(dst, Scalar(v)))
    case Load(w, dst, src, off) => ExecLoad(st, w, dst, src, off)
    case Store(w, dst, src, off) => ExecStore(st, w, dst, src, off)
    case StoreImm(w, dst, off, imm) => ExecStoreValue(st, w, st.regs[dst], off, SignExtended(imm))
    case Jump64Reg(cond, dst, src, target) => ExecJump64Reg(st, cond, dst, src, target)
    case Jump64Imm(cond, dst, imm, target) => ExecJump64Imm(st, cond, dst, imm, target)
    case Jump32Reg(cond, dst, src, target) => ExecJump32Reg(st, cond, dst, src, target)
    case Jump32Imm(cond, dst, imm, target) => ExecJump32Imm(st, cond, dst, imm, target)
    case Goto(target) => Some(st.Jump(true, target))
    case CallHelper(helper) =>
      var spec := GetHelperSpec(helper);
      if spec.Some? then Some(ExecHelper(st, spec.value)) else None
    case Halt => Some(st)
  }

  // --- What comes back from memory ---

  /** A number stored through a ring-buffer pointer is loaded through any register that holds that pointer. */
  lemma RingRoundTrip(st: State, w: MemWidth, dst: RegId, src: RegId, off: I32, to: RegId, from: RegId)
    requires st.regs[dst].RingBufPtr? && st.regs[from] == st.regs[dst] && st.regs[src].Scalar?
    ensures var stored := ExecInsn(st, Store(w, dst, src, off));
            stored.Some? &&
            var loaded := ExecInsn(stored.value, Load(w, to, from, off));
            loaded.Some? && loaded.value.regs == st.regs[to := st.regs[src]]
  {
    RingStoreThenRead(st, st.regs[dst].id, off, w, st.regs[src].value);
  }

  /** A lookup returns a pointer not returned before, to a value that reads as zero, and leaves the other registers. */
  lemma LookupThenLoad(st: State, w: MemWidth, to: RegId, off: I32)
    ensures var called := ExecInsn(st, CallHelper(MapLookupElem));
            called.Some? && called.value.regs == st.regs[0 := MapValuePtr(st.nextMapId)]
            && called.value.nextMapId > st.nextMapId &&
            var loaded := ExecInsn(called.value, Load(w, to, 0, off));
            loaded.Some? && loaded.value.regs[to] == Scalar(0)
  {}

  /** A helper that reads into a buffer on the stack leaves the placeholder zero there, and all other slots as they
      were. */
  lemma BufferIsFilled(st: State, helper: HelperId, offset: int, w: MemWidth)
    requires helper in {ProbeRead, ProbeReadStr, ProbeReadUser, ProbeReadKernel, ProbeReadKernelStr, DPath,
                        GetCurrentComm}
    requires st.regs[1].FramePtr?
    ensures var called := ExecInsn(st, CallHelper(helper));
            called.Some? && called.value.regs == st.regs[0 := Scalar(0)] &&
            StackRead(called.value.stack, offset, w)
              == if offset == st.regs[1].offset && w == W64 then Some(0) else StackRead(st.stack, offset, w)
  {
    assert StackWrite(st.stack, st.regs[1].offset, W64, 0)[1..] == st.stack;
  }

  // --- Programs ---

  /** The instruction at `pc`; a negative counter reads the first one. */
  function Fetch(prog: Program, pc: int): Option<Insn> {
    var i := if pc >= 0 then pc else 0;
    if i < |prog| then Some(prog[i]) else None
  }

  /** Up to `count` instructions; stops early at the end of the program. */
  function ExecChunk(st: State, prog: Program, count: nat): Option<State>
    decreases count
  {
    if count == 0 then Some(st)
    else
      var insn := Fetch(prog, st.pc);
      if insn.None? then None
      else if insn.value.Halt? then Some(st)
      else
        var next := ExecInsn(st, insn.value);
        if next.None? then None else ExecChunk(next.value, prog, count - 1)
  }

  /** Run to the exit instruction within `fuel` steps. */
  function ExecProgram(st: State, prog: Program, fuel: nat): Option<State>
    decreases fuel
  {
    if fuel == 0 then None
    else
      var insn := Fetch(prog, st.pc);
      if insn.None? then None
      else if insn.value.Halt? then Some(st)
      else
        var next := ExecInsn(st, insn.value);
        if next.None? then None else ExecProgram(next.value, prog, fuel - 1)
  }

  // --- Fuel and chunks ---

  /** A result found is not changed by more fuel. */
  lemma {:induction false} MoreFuel(st: State, prog: Program, fuel: nat, more: nat)
    requires ExecProgram(st, prog, fuel).Some? && fuel <= more
    ensures ExecProgram(st, prog, more) == ExecProgram(st, prog, fuel)
    decreases fuel
  {
    hide ExecInsn;
    var insn := Fetch(prog, st.pc);
    if insn.Some? && !insn.value.Halt? {
      MoreFuel(ExecInsn(st, insn.value).value, prog, fuel - 1, more - 1);
    }
  }

  /** A chunk of m + n steps is a chunk of m steps followed by one of n. */
  lemma {:induction false} ChunksCompose(st: State, prog: Program, m: nat, n: nat)
    ensures ExecChunk(st, prog, m + n) ==
              match ExecChunk(st, prog, m)
              case Some(mid) => ExecChunk(mid, prog, n)
              case None => None
    decreases m
  {
    hide ExecInsn;
    if m > 0 {
      var insn := Fetch(prog, st.pc);
      if insn.Some? && !insn.value.Halt? {
        var next := ExecInsn(st, insn.value);
        if next.Some? {
          ChunksCompose(next.value, prog, m - 1, n);
        }
      } else if insn.Some? {
        assert ExecChunk(st, prog, n) == Some(st);
      }
    }
  }

  /** A program's result is the state a long enough chunk stops in at the exit instruction, and conversely. */
  lemma {:induction false} ProgramIsChunk(st: State, prog: Program, fuel: nat, r: State)
    ensures ExecProgram(st, prog, fuel + 1) == Some(r) <==>
              ExecChunk(st, prog, fuel) == Some(r) && Fetch(prog, r.pc) == Some(Halt)
    decreases fuel
  {
    hide ExecInsn;
    var insn := Fetch(prog, st.pc);
    if fuel > 0 && insn.Some? && !insn.value.Halt? {
      var next := ExecInsn(st, insn.value);
      if next.Some? {
        ProgramIsChunk(next.value, prog, fuel - 1, r);
      }
    } else if fuel == 0 && insn.Some? && !insn.value.Halt? {
      assert ExecInsn(st, insn.value).Some? ==> ExecProgram(ExecInsn(st, insn.value).value, prog, 0).None?;
    }
  }
}

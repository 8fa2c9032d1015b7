/** What the checks before an arithmetic operation reject, and what they spare a run. */
module OperandChecks {
  import opened Wrappers
  import opened Words
  import opened Tnums
  import opened TnumSubtraction
  import opened Instructions
  import opened RegStates
  import opened AbstractStates
  import opened ControlFlow
  import opened Transfer
  import opened Certificates
  import opened Machine
  import opened AluSoundness
  import opened ValueSoundness

  predicate IsDivision(op: AluOp) { op in {DIV, MOD} }

  predicate IsShift(op: AluOp) { op in {LSH, RSH, ARSH} }

  function MaxShift(is64: bool): nat { if is64 then 63 else 31 }

  /** Which check an operation fails, if any. */
  lemma AluErrors(regs: Regs, insn: BpfInsn, op: AluOp, source: Source, is64: bool)
    ensures var r := AluResult(regs, insn, op, source, is64);
            && (r == Failure(DivByZero) <==> IsDivision(op) && DivisorMayBeZero(regs, insn, source))
            && (r == Failure(ShiftOverflow) <==> IsShift(op) && ShiftTooFar(regs, insn, source, is64))
            && (r.Failure? ==> r.error in {DivByZero, ShiftOverflow, InvalidPointerArith})
  {
    hide U, S, WrapI64, ScalarResult, MovePointer, Operand, DivisorMayBeZero, ShiftTooFar, Truncated;
  }

  // --- Divisors and distances ---

  /** Some word within the unsigned bounds is zero, or above the limit. */
  ghost predicate MayBeZero(r: RegState) { exists v: bv64 :: r.umin <= U(v) <= r.umax && U(v) == 0 }

  ghost predicate MayExceed(r: RegState, limit: nat) { exists v: bv64 :: r.umin <= U(v) <= r.umax && U(v) > limit }

  lemma BoundIsReached(r: RegState) returns (low: bv64, high: bv64)
    ensures U(low) == r.umin && U(high) == r.umax
  {
    hide U, B;
    low, high := B(r.umin), B(r.umax);
    UOfB(r.umin);
    UOfB(r.umax);
  }

  /** A division is rejected for its divisor if and only if that may be zero, as far as the unsigned bounds say. */
  lemma DivisionRejected(regs: Regs, insn: BpfInsn, op: AluOp, source: Source, is64: bool)
    requires IsDivision(op) && regs[insn.src].umin <= regs[insn.src].umax
    ensures AluResult(regs, insn, op, source, is64) == Failure(DivByZero) <==>
              if source.FromImm? then insn.imm == 0 else MayBeZero(regs[insn.src])
  {
    hide U, AluResult;
    AluErrors(regs, insn, op, source, is64);
    var low, high := BoundIsReached(regs[insn.src]);
  }

  lemma ImmediateIsFar(imm: I32, limit: nat)
    requires limit < 64
    ensures AsU64(imm) > limit <==> imm < 0 || imm > limit
  {}

  /** A shift is rejected for its distance if and only if that may exceed the width, as far as the unsigned bounds
      say. */
  lemma ShiftRejected(regs: Regs, insn: BpfInsn, op: AluOp, source: Source, is64: bool)
    requires IsShift(op) && regs[insn.src].umin <= regs[insn.src].umax
    ensures AluResult(regs, insn, op, source, is64) == Failure(ShiftOverflow) <==>
              if source.FromImm? then insn.imm < 0 || insn.imm > MaxShift(is64)
              else MayExceed(regs[insn.src], MaxShift(is64))
  {
    hide U, AluResult, AsU64;
    AluErrors(regs, insn, op, source, is64);
    ImmediateIsFar(insn.imm, MaxShift(is64));
    var low, high := BoundIsReached(regs[insn.src]);
  }

  /** Every accepted divisor of the bounds has a low half that is not zero. */
  ghost predicate LowDivisorsSafe(lo: U64, hi: U64) {
    forall v: bv64 :: lo <= U(v) <= hi ==> U(Low(v)) != 0
  }

  lemma MultipleBetween(lo: nat, hi: nat, m: nat)
    requires lo <= hi && m > 0 && lo / m != hi / m
    ensures lo <= hi / m * m <= hi
  {
    var a, b := lo / m, hi / m;
    assert lo == a * m + lo % m && hi == b * m + hi % m;
    LaterMultiple(m, a, b);
    LaterMultiple(m, b, a);
  }

  lemma MultipleIsZero(n: nat, m: nat)
    requires m > 0
    ensures (n * m) % m == 0
  {
    ModUnique(n * m, m, n, 0);
  }

  lemma LaterMultiple(m: nat, a: nat, b: nat)
    ensures a < b ==> m * a + m <= m * b
  {
    if a < b {
      ApartByOne(m, a, b);
    }
  }

  lemma BetweenMultiples(lo: nat, hi: nat, k: nat, m: nat)
    requires lo <= k * m <= hi && m > 0
    ensures lo % m == 0 || lo / m != hi / m
  {
    var a := lo / m;
    assert lo == a * m + lo % m && hi == hi / m * m + hi % m;
    LaterMultiple(m, k, a);
    LaterMultiple(m, a, k);
  }

  /** 32-bit division uses low halves, but the check looks at all 64 bits: it spares them a zero exactly when no
      multiple of 2^32 lies within the bounds. */
  lemma LowDivisorsExact(lo: U64, hi: U64)
    requires 0 < lo <= hi
    ensures LowDivisorsSafe(lo, hi) <==> lo / TWO32 == hi / TWO32 && lo % TWO32 != 0
  {
    hide U, B, Low;
    UConstants();
    if lo / TWO32 == hi / TWO32 && lo % TWO32 != 0 {
      forall v: bv64 | lo <= U(v) <= hi
        ensures U(Low(v)) != 0
      {
        LowIsMod(v);
        if U(v) % TWO32 == 0 {
          BetweenMultiples(lo, hi, U(v) / TWO32, TWO32);
        }
      }
    } else {
      if lo % TWO32 != 0 {
        MultipleBetween(lo, hi, TWO32);
        MultipleIsZero(hi / TWO32, TWO32);
      }
      var n: U64 := if lo % TWO32 == 0 then lo else hi / TWO32 * TWO32;
      UOfB(n);
      LowIsMod(B(n));
      assert lo <= U(B(n)) <= hi && U(Low(B(n))) == 0;
    }
  }

  // --- Pointers ---

  /** A pointer takes part in no arithmetic but the addition or subtraction of a number, and the subtraction of another
      pointer; what is left of the latter is a number of which nothing is known. */
  lemma PointerArithmetic(regs: Regs, insn: BpfInsn, op: AluOp, source: Source, is64: bool)
    requires regs[insn.dst].kind.IsPtr() && op != MOV
    ensures var r, src := AluResult(regs, insn, op, source, is64), Operand(regs, insn, source, is64);
            && (r.Success? <==> op == SUB || (op == ADD && !src.kind.IsPtr()))
            && (op == SUB && src.kind.IsPtr() ==> r.value == ScalarUnknown())
  {
    hide U, S, WrapI64, ScalarResult, MovePointer, Operand, DivisorMayBeZero, ShiftTooFar, Truncated;
  }

  /** The divisor is a known or possible zero, or the distance known or possible to exceed the width. */
  ghost predicate OperandMayBeBad(regs: Regs, insn: BpfInsn, op: AluOp, source: Source, is64: bool) {
    var imm, src := insn.imm, regs[insn.src];
    match source
    case FromImm => (IsDivision(op) && imm == 0) || (IsShift(op) && (imm < 0 || imm > MaxShift(is64)))
    case FromReg => (IsDivision(op) && MayBeZero(src)) || (IsShift(op) && MayExceed(src, MaxShift(is64)))
  }

  /** Arithmetic passes if and only if it is a move, or arithmetic of numbers whose second operand cannot be bad, or an
      addition or subtraction that pointers take part in. */
  lemma ArithmeticAccepted(regs: Regs, insn: BpfInsn, op: AluOp, source: Source, is64: bool)
    requires regs[insn.src].umin <= regs[insn.src].umax
    ensures AluResult(regs, insn, op, source, is64).Success? <==>
              if op == MOV then true
              else if regs[insn.dst].kind.IsPtr() then
                op == SUB || (op == ADD && !Operand(regs, insn, source, is64).kind.IsPtr())
              else !OperandMayBeBad(regs, insn, op, source, is64)
  {
    hide U, AluResult, Operand, MayBeZero, MayExceed;
    AluErrors(regs, insn, op, source, is64);
    if op != MOV && regs[insn.dst].kind.IsPtr() {
      PointerArithmetic(regs, insn, op, source, is64);
    } else {
      NumbersFailChecks(regs, insn, op, source, is64);
      if IsDivision(op) {
        DivisionRejected(regs, insn, op, source, is64);
      } else if IsShift(op) {
        ShiftRejected(regs, insn, op, source, is64);
      }
    }
  }

  lemma NumbersFailChecks(regs: Regs, insn: BpfInsn, op: AluOp, source: Source, is64: bool)
    requires op == MOV || !regs[insn.dst].kind.IsPtr()
    ensures AluResult(regs, insn, op, source, is64).Failure? ==>
              AluResult(regs, insn, op, source, is64).error in {DivByZero, ShiftOverflow}
  {
    hide U, S, WrapI64, ScalarResult, MovePointer, Operand, DivisorMayBeZero, ShiftTooFar, Truncated;
  }

  // --- Known operands ---

  lemma NothingUnknown(s: bv64)
    ensures Plus(s, 0) == s && SumMask(s, s, 0, 0) == 0 && AndNot(s, 0) == s
  {}

  lemma KnownSum(x: bv64, y: bv64)
    ensures Tnum.Constant(x).Add(Tnum.Constant(y)) == Tnum.Constant(Plus(x, y))
  {
    hide Plus, SumMask, AndNot;
    NothingUnknown(0);
    NothingUnknown(Plus(x, y));
  }

  lemma KnownDifference(x: bv64, y: bv64)
    ensures Tnum.Constant(x).Sub(Tnum.Constant(y)) == Tnum.Constant(Minus(x, y))
  {
    hide Plus, Minus, Tnum.Add;
    KnownSum(x, Minus(0, y));
    NegativeRaw(y);
    PlusNegative(x, y);
  }

  lemma KnownBitwise(x: bv64, y: bv64)
    ensures Tnum.Constant(x).And(Tnum.Constant(y)) == Tnum.Constant(And(x, y))
    ensures Tnum.Constant(x).Or(Tnum.Constant(y)) == Tnum.Constant(Or(x, y))
    ensures Tnum.Constant(x).Xor(Tnum.Constant(y)) == Tnum.Constant(Xor(x, y))
  {}

  lemma {:induction false} ShiftedZero(k: nat)
    ensures Shl(0, k) == 0 && Shr(0, k) == 0
    decreases k
  {
    if k > 0 {
      ShiftedZero(k - 1);
    }
  }

  lemma KnownShift(op: AluOp, x: bv64, y: bv64)
    requires op in {LSH, RSH} && U(y) < 64
    ensures ScalarTnum(op, Tnum.Constant(x), Tnum.Constant(y)) == Tnum.Constant(AluValue64(op, x, y))
  {
    hide U, Low, Shl, Shr;
    ShiftedZero(U(y));
    SmallIsLow(y);
    ShiftOf(op, x, y);
  }

  /** The operation on known operands gives the known result, and nothing else. */
  lemma KnownOperandsFold(op: AluOp, x: bv64, y: bv64)
    requires Guarded(op, Tnum.Constant(y), true)
    ensures ScalarTnum(op, Tnum.Constant(x), Tnum.Constant(y)) == Tnum.Constant(AluValue64(op, x, y))
  {
    hide U, Plus, Minus, And, Or, Xor, Times, Quotient, Remainder, Sar, Tnum.Add, Tnum.Sub, Tnum.And, Tnum.Or, Tnum.Xor;
    match op {
      case ADD => KnownSum(x, y);
      case SUB => KnownDifference(x, y);
      case LSH => KnownShift(op, x, y);
      case RSH => KnownShift(op, x, y);
      case AND => KnownBitwise(x, y);
      case OR => KnownBitwise(x, y);
      case XOR => KnownBitwise(x, y);
      case _ => KnownTnum(op, Tnum.Constant(x), Tnum.Constant(y));
    }
  }

  /** A move of an immediate leaves that number and nothing else; a 64-bit move of a register leaves a copy, a 32-bit
      one a number, never a pointer. */
  lemma MovesExactly(regs: Regs, insn: BpfInsn, is64: bool, v: bv64)
    ensures var r := AluResult(regs, insn, MOV, FromImm, is64);
            r.Success? && r.value.kind.Scalar? && (r.value.Contains(v) <==> v == ImmOperand(insn.imm, is64))
    ensures AluResult(regs, insn, MOV, FromReg, true) == Success(regs[insn.src])
    ensures AluResult(regs, insn, MOV, FromReg, false).Success?
    ensures AluResult(regs, insn, MOV, FromReg, false).value.kind.Scalar?
  {
    hide U, S, ImmOperand, Member, Low;
    KnownMembers(Tnum.Constant(ImmOperand(insn.imm, is64)), v);
  }

  // --- Runs ---

  lemma PassedChecks(prog: Program, relocs: map<nat, Reloc>, v: Visit, op: AluOp, is64: bool)
    requires v.at.pc < |prog| && !Failing(prog, relocs, v)
    requires prog[v.at.pc].opcode == if is64 then Alu64(op, FromReg) else Alu32(op, FromReg)
    ensures IsDivision(op) ==> v.at.regs[prog[v.at.pc].src].umin > 0
    ensures IsShift(op) ==> v.at.regs[prog[v.at.pc].src].umax <= MaxShift(is64)
  {
    hide CanRead, AluResult;
    AluErrors(v.at.regs, prog[v.at.pc], op, FromReg, is64);
  }

  /** Where values are represented, no run divides by a number that is zero, and none shifts by a number that is not
      less than the width. */
  lemma NumbersPassChecks(prog: Program, relocs: map<nat, Reloc>, visits: set<Visit>, run: seq<State>, op: AluOp,
                          is64: bool)
    returns (v: Visit)
    requires Certificate(prog, relocs, visits) && Safe(prog, relocs, visits)
    requires IsRun(prog, relocs.Keys, run) && run[|run| - 1].pc < |prog|
    requires prog[run[|run| - 1].pc].opcode == if is64 then Alu64(op, FromReg) else Alu32(op, FromReg)
    ensures v in visits && v.at.pc == run[|run| - 1].pc
    ensures var src := prog[v.at.pc].src;
            v.at.regs[src].kind.Scalar? ==>
              && (IsDivision(op) ==> U(run[|run| - 1].regs[src]) != 0)
              && (IsShift(op) ==> U(run[|run| - 1].regs[src]) <= MaxShift(is64))
  {
    hide Covered, Successors, VisitOk, Failing, SafeVisit, NoTypeClash, Represents, Steps, U, S, Member;
    v := RunIsRepresented(prog, relocs, visits, run);
    PassedChecks(prog, relocs, v, op, is64);
    var src := prog[v.at.pc].src;
    if v.at.regs[src].kind.Scalar? {
      ScalarContains(v.at.regs, run[|run| - 1].regs, src);
    }
  }
}

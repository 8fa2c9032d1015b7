/** The arithmetic of the executable semantics against RFC 9669, section 4.1. */
module ObjArithmetic {
  import opened Words
  import opened Shifts
  import opened TnumProofs
  import opened LowHalves
  import opened Instructions
  import Machine
  import opened Wrappers
  import ObjState
  import ObjSemantics

  // --- The bits an arithmetic shift fills in ---

  const ALL: bv64 := 0xFFFF_FFFF_FFFF_FFFF
  const SIGN: bv64 := 0x8000_0000_0000_0000

  lemma NegTwiceRaw(x: bv64)
    ensures Minus(0, x << 1) == (0 - x) << 1
  {}

  lemma NegTwice(x: bv64)
    ensures Minus(0, Twice(x)) == Twice(Minus(0, x))
  {
    NegTwiceRaw(x);
  }

  lemma NegOne()
    ensures Minus(0, 1) == ALL
  {}

  /** Negating a power of two sets its bit and all above. */
  lemma {:induction false} FillIsShl(n: nat)
    ensures Minus(0, Shl(1, n)) == Shl(ALL, n)
    decreases n
  {
    hide *;
    if n == 0 {
      NegOne();
      NoShift(1);
      NoShift(ALL);
    } else {
      FillIsShl(n - 1);
      ShlLast(1, n - 1);
      ShlLast(ALL, n - 1);
      NegTwice(Shl(1, n - 1));
    }
  }

  lemma AllIs()
    ensures ALL == Or(1, Twice(ALL))
  {}

  lemma FillStep(n: nat)
    ensures Shl(ALL, n) == Or(Shl(1, n), Shl(ALL, n + 1))
  {
    hide *;
    AllIs();
    ShlOr(1, Twice(ALL), n);
    ShlStep(ALL, n + 1);
  }

  lemma BitStep(m: nat)
    requires m > 0
    ensures BitAt(m) == Twice(BitAt(m - 1))
  {}

  lemma FirstBit()
    ensures BitAt(0) == 1
  {}

  lemma {:induction false} OneIsBit(m: nat)
    ensures Shl(1, m) == BitAt(m)
    decreases m
  {
    hide *;
    if m == 0 {
      NoShift(1);
      FirstBit();
    } else {
      OneIsBit(m - 1);
      ShlLast(1, m - 1);
      BitStep(m);
    }
  }

  lemma HalfTwice(x: bv64)
    requires Sub(x, 0x7FFF_FFFF_FFFF_FFFF)
    ensures Half(Twice(x)) == x
  {}

  lemma LowBit(m: nat)
    requires m <= 62
    ensures Sub(Shl(1, m), 0x7FFF_FFFF_FFFF_FFFF)
  {
    hide *;
    OneIsBit(m);
    BitInMask(m);
    LowMasksNest(m + 1, 63);
    LowMask64();
    SubTrans(BitAt(m), LowMask(m + 1), 0x7FFF_FFFF_FFFF_FFFF);
  }

  lemma TopBit()
    ensures BitAt(63) == SIGN
  {
    assert BitAt(8) == 0x100;
    assert BitAt(16) == 0x1_0000;
    assert BitAt(24) == 0x100_0000;
    assert BitAt(32) == 0x1_0000_0000;
    assert BitAt(40) == 0x100_0000_0000;
    assert BitAt(48) == 0x1_0000_0000_0000;
    assert BitAt(56) == 0x100_0000_0000_0000;
  }

  /** The sign bit moves down one position at a time. */
  lemma {:induction false} SignMoves(k: nat)
    requires k <= 63
    ensures Shr(SIGN, k) == Shl(1, 63 - k)
    decreases k
  {
    hide *;
    if k == 0 {
      NoShift(SIGN);
      OneIsBit(63);
      TopBit();
    } else {
      SignMoves(k - 1);
      ShrLast(SIGN, k - 1);
      ShlLast(1, 63 - k);
      LowBit(63 - k);
      HalfTwice(Shl(1, 63 - k));
    }
  }

  // --- Arithmetic right shift ---

  /** One step of an arithmetic right shift. */
  function Sink(x: bv64): bv64 { (x >> 1) | (x & 0x8000_0000_0000_0000) }

  lemma SarStep(x: bv64, k: nat)
    requires k > 0
    ensures Sar(x, k) == Sar(Sink(x), k - 1)
  {}

  lemma ClearSinks(x: bv64)
    requires SignClear(x)
    ensures Sink(x) == Half(x) && SignClear(Half(x))
  {}

  lemma {:induction false} SarClear(x: bv64, k: nat)
    requires SignClear(x)
    ensures Sar(x, k) == Shr(x, k)
    decreases k
  {
    hide *;
    if k == 0 {
      NoShift(x);
    } else {
      ClearSinks(x);
      SarStep(x, k);
      ShrStep(x, k);
      SarClear(Half(x), k - 1);
    }
  }

  lemma SetSinks(x: bv64)
    requires !SignClear(x)
    ensures Sink(x) == Or(Half(x), SIGN)
  {}

  lemma SetStays(h: bv64)
    ensures !SignClear(Or(h, SIGN))
  {}

  lemma OrAssociatesRaw(a: bv64, b: bv64, c: bv64)
    ensures Or(a | b, c) == Or(a, b | c)
  {}

  lemma OrAssociates(a: bv64, b: bv64, c: bv64)
    ensures Or(Or(a, b), c) == Or(a, Or(b, c))
  {
    OrAssociatesRaw(a, b, c);
  }

  lemma AllTop()
    ensures Shl(ALL, 63) == SIGN
  {
    hide *;
    FillIsShl(63);
    OneIsBit(63);
    TopBit();
    NegSign();
  }

  lemma NegSign()
    ensures Minus(0, SIGN) == SIGN
  {}

  /** A negative word is shifted with ones filled in from above. */
  lemma {:induction false} SarSet(x: bv64, k: nat)
    requires !SignClear(x) && 1 <= k <= 63
    ensures Sar(x, k) == Or(Shr(x, k), Shl(ALL, 64 - k))
    decreases k
  {
    hide *;
    var h := Half(x);
    SetSinks(x);
    SetStays(h);
    SarStep(x, k);
    ShrStep(x, k);
    if k == 1 {
      AllTop();
      NoShift(Or(h, SIGN));
      NoShift(h);
    } else {
      SarSet(Or(h, SIGN), k - 1);
      ShrOr(h, SIGN, k - 1);
      SignMoves(k - 1);
      FillStep(64 - k);
      OrAssociates(Shr(h, k - 1), Shl(1, 64 - k), Shl(ALL, 65 - k));
    }
  }

  lemma SignMeans(x: bv64)
    ensures SignClear(x) <==> U(x) < TWO63
  {
    hide U;
    SignBit(x);
  }

  lemma Arsh64(d: bv64, s: bv64)
    ensures ObjSemantics.Alu64Value(ARSH, d, s) == Sar(d, U(s) % 64)
  {
    hide U, Shl, Shr, Sar, Minus, Or, SignClear;
    var k := U(s) % 64;
    SignMeans(d);
    if k == 0 {
      NoShift(d);
    } else if SignClear(d) {
      SarClear(d, k);
    } else {
      SarSet(d, k);
      FillIsShl(64 - k);
    }
  }

  /** 64-bit arithmetic is that of RFC 9669, for every operation and all operands. */
  lemma Alu64IsStandard(op: AluOp, d: bv64, s: bv64)
    ensures ObjSemantics.Alu64Value(op, d, s) == Machine.AluValue64(op, d, s)
  {
    hide U, Shl, Shr, Sar, Plus, Minus, Times, Quotient, Remainder, And, Or, Xor;
    if op == ARSH {
      Arsh64(d, s);
    }
  }

  // --- Words as sums of their halves ---

  lemma DisjointHalves(x: bv64, y: bv64)
    requires x & y == 0
    ensures Half(x) & Half(y) == 0 && Bit0(x) + Bit0(y) <= 1
  {}

  lemma OrBit0(x: bv64, y: bv64)
    requires x & y == 0
    ensures Bit0(Or(x, y)) == Bit0(x) + Bit0(y)
  {}

  lemma {:induction false} DisjointSum(x: bv64, y: bv64, n: nat)
    requires x & y == 0
    ensures Value(Or(x, y), n) == Value(x, n) + Value(y, n)
    decreases n
  {
    hide Half, Bit0, Or;
    if n > 0 {
      DisjointHalves(x, y);
      OrBit0(x, y);
      OrHalf(x, y);
      DisjointSum(Half(x), Half(y), n - 1);
    }
  }

  const HIGH: bv64 := 0xFFFF_FFFF_0000_0000

  lemma HighParts()
    ensures HIGH & 0xFFFF_FFFF == 0 && Or(HIGH, 0xFFFF_FFFF) == ALL
  {}

  lemma LowMissesHigh(x: bv64)
    ensures (x & 0xFFFF_FFFF) & HIGH == 0
  {}

  lemma HighValue()
    ensures U(HIGH) == TWO64 - TWO32
  {
    hide Value, Or;
    HighParts();
    DisjointSum(HIGH, 0xFFFF_FFFF, 64);
    UConstants();
  }

  /** A negative 32-bit number, sign-extended, has its low half and ones above. */
  lemma SignExtension(x: bv64)
    requires U(Low(x)) >= 0x8000_0000
    ensures FromSigned(S32(x)) == Or(Low(x), HIGH)
  {
    hide Value, Or, B;
    LowFits(x);
    LowMissesHigh(x);
    DisjointSum(x & 0xFFFF_FFFF, HIGH, 64);
    HighValue();
    UOfB(U(Low(x)) - TWO32 + TWO64);
    UInjective(FromSigned(S32(x)), Or(Low(x), HIGH));
  }

  // --- Low halves of shifted words ---

  lemma TwiceIsCons(x: bv64)
    ensures Twice(x) == Cons(x, 0)
  {}

  /** Shifting left by `k` leaves the low `k` bits zero. */
  lemma {:induction false} ShlValue(x: bv64, k: nat, n: nat)
    requires n <= k && n <= 64
    ensures Value(Shl(x, k), n) == 0
    decreases k
  {
    hide Shl, Half, Bit0, Cons, Twice;
    if n > 0 {
      ShlLast(x, k - 1);
      TwiceIsCons(Shl(x, k - 1));
      ValueOfCons(Shl(x, k - 1), 0, n - 1);
      ShlValue(x, k - 1, n - 1);
    }
  }

  lemma LowShifted(x: bv64, k: nat)
    requires k >= 32
    ensures Low(Shl(x, k)) == 0
  {
    hide Low, Shl, Value;
    ShlValue(x, k, 32);
    ValueMod(Shl(x, k), 32, 32);
    Pow2Facts();
    LowIsMod(Shl(x, k));
    UZero(Low(Shl(x, k)));
  }

  lemma SameTransitive(x: bv64, y: bv64, z: bv64, m: bv64)
    requires Same(x, y, m) && Same(y, z, m)
    ensures Same(x, z, m)
  {}

  lemma SameOnPart(x: bv64, y: bv64, m: bv64, n: bv64)
    requires Same(x, y, n) && Sub(m, n)
    ensures Same(x, y, m)
  {}

  lemma TwiceThenHalf(x: bv64, m: bv64)
    requires Sub(m, 0x7FFF_FFFF_FFFF_FFFF)
    ensures Same(Half(Twice(x)), x, m)
  {}

  lemma AllHigh()
    ensures HIGH == Shl(ALL, 32)
  {
    hide *;
    FillIsShl(32);
    OneIsBit(32);
    Bit32();
  }

  lemma Bit32()
    ensures Minus(0, BitAt(32)) == HIGH
  {
    assert BitAt(8) == 0x100;
    assert BitAt(16) == 0x1_0000;
    assert BitAt(24) == 0x100_0000;
    assert BitAt(32) == 0x1_0000_0000;
  }

  /** Below the bits shifted in, shifting left by 32 and right by `k` is shifting left by 32 - `k`. */
  lemma {:induction false} ShiftBack(k: nat)
    requires k <= 32
    ensures Same(Shr(HIGH, k), Shl(ALL, 32 - k), LowMask(64 - k))
    decreases k
  {
    hide *;
    if k == 0 {
      AllHigh();
      NoShift(HIGH);
      SameReflexive(HIGH, LowMask(64));
    } else {
      var z, m := Shl(ALL, 32 - k), LowMask(64 - k);
      ShiftBack(k - 1);
      ShrLast(HIGH, k - 1);
      ShlLast(ALL, 32 - k);
      NextMask(64 - k);
      SameStepDown(Shr(HIGH, k - 1), Twice(z), m);
      LowMasksNest(64 - k, 63);
      LowMask64();
      TwiceThenHalf(z, m);
      SameTransitive(Shr(HIGH, k), Half(Twice(z)), z, m);
    }
  }

  lemma HighShifted(k: nat)
    requires k <= 32
    ensures Low(Shr(HIGH, k)) == Low(Shl(ALL, 32 - k))
  {
    hide *;
    ShiftBack(k);
    LowMasksNest(32, 64 - k);
    LowMask32();
    SameOnPart(Shr(HIGH, k), Shl(ALL, 32 - k), LowMask(32), LowMask(64 - k));
    LowsEqual(Shr(HIGH, k), Shl(ALL, 32 - k));
  }

  // --- 32-bit arithmetic right shift ---

  lemma LowStaysLow(x: bv64, k: nat)
    ensures Low(Shr(Low(x), k)) == Shr(Low(x), k)
  {
    hide *;
    LowTwice(x);
    SubSelf(Low(x));
    ShrPart(Low(x), Low(x), k);
  }

  lemma OrNothing(x: bv64)
    ensures Or(x, 0) == x
  {}

  /** The ones a 32-bit arithmetic shift fills in. */
  lemma Fill32(k: nat)
    requires 1 <= k <= 31
    ensures Low(Minus(0, Low(Shl(1, 32 - k)))) == Low(Shl(ALL, 32 - k))
  {
    hide *;
    LowTwice(Shl(1, 32 - k));
    LowMinus(0, Low(Shl(1, 32 - k)), 0, Shl(1, 32 - k));
    FillIsShl(32 - k);
  }

  lemma NegativeShift(x: bv64, k: nat)
    requires U(Low(x)) >= 0x8000_0000 && 1 <= k <= 31
    ensures Low(Sar(FromSigned(S32(x)), k)) == Or(Shr(Low(x), k), Low(Minus(0, Low(Shl(1, 32 - k)))))
  {
    hide U, Low, Or, Shr, Shl, Sar, Minus, SignClear, FromSigned, S32;
    var l, w := Low(x), Or(Low(x), HIGH);
    SignExtension(x);
    ExtensionIsNegative(x);
    SarSet(w, k);
    ShrOr(l, HIGH, k);
    LowOr(Shr(w, k), Shl(ALL, 64 - k));
    LowOr(Shr(l, k), Shr(HIGH, k));
    LowStaysLow(x, k);
    LowShifted(ALL, 64 - k);
    HighShifted(k);
    Fill32(k);
    OrNothing(Or(Shr(l, k), Low(Shl(ALL, 32 - k))));
  }

  lemma ExtensionIsNegative(x: bv64)
    ensures !SignClear(Or(Low(x), HIGH))
  {}

  lemma PositiveShift(x: bv64, k: nat)
    requires U(Low(x)) < 0x8000_0000
    ensures Low(Sar(FromSigned(S32(x)), k)) == Shr(Low(x), k)
  {
    hide Value, Low, Shr, Sar, SignClear, B;
    LowFits(x);
    BOfU(Low(x));
    SignMeans(Low(x));
    SarClear(Low(x), k);
    LowStaysLow(x, k);
  }

  lemma LowOfExtension(x: bv64)
    ensures Low(FromSigned(S32(x))) == Low(x)
  {
    hide Value, Low, B;
    LowFits(x);
    var s := S32(x);
    UOfB(if s < 0 then s + TWO64 else s);
    LowIsMod(FromSigned(s));
    UInjective(Low(FromSigned(s)), Low(x));
  }

  lemma Arsh32(d: bv64, s: bv64)
    ensures ObjSemantics.Alu32Value(ARSH, d, s) == Machine.AluValue32(ARSH, d, s)
  {
    hide U, Shl, Shr, Sar, Minus, Or, Low, FromSigned, S32;
    var k := U(Low(s)) % 32;
    if U(Low(d)) < 0x8000_0000 {
      PositiveShift(d, k);
    } else if k == 0 {
      NoShift(FromSigned(S32(d)));
      NoShift(Low(d));
      LowOfExtension(d);
    } else {
      NegativeShift(d, k);
    }
  }

  /** 32-bit arithmetic is that of RFC 9669 with one exception: a modulus by zero leaves the upper half of the
      destination in place where the standard clears it. */
  lemma Alu32IsStandard(op: AluOp, d: bv64, s: bv64)
    ensures ObjSemantics.Alu32Value(op, d, s) == Machine.AluValue32(op, d, s) <==>
              !(op == MOD && U(Low(s)) == 0 && Low(d) != d)
  {
    hide U, Shl, Shr, Sar, Plus, Minus, Times, Quotient, Remainder, And, Or, Xor, Low, FromSigned, S32;
    if op == ARSH {
      Arsh32(d, s);
    }
  }

  /** The instruction puts the number into its register, goes on to the next, and does nothing else. */
  predicate Puts(st: ObjState.State, insn: ObjSemantics.Insn, dst: RegId, v: bv64) {
    var next := ObjSemantics.ExecInsn(st, insn);
    && next.Some? && next.value.regs == st.regs[dst := ObjState.Scalar(v)] && next.value.pc == st.pc + 1
    && next.value.stack == st.stack && next.value.mapValues == st.mapValues && next.value.ringbuf == st.ringbuf
  }

  /** On numbers an arithmetic instruction computes what RFC 9669 says. */
  lemma AluInsnsAreStandard(st: ObjState.State, op: AluOp, dst: RegId, src: RegId, imm: I32)
    requires st.regs[dst].Scalar? && st.regs[src].Scalar?
    ensures var d, s := st.regs[dst].value, st.regs[src].value;
            && Puts(st, ObjSemantics.Alu64Reg(op, dst, src), dst, Machine.AluValue64(op, d, s))
            && Puts(st, ObjSemantics.Alu64Imm(op, dst, imm), dst, Machine.AluValue64(op, d, SignExtended(imm)))
            && (op != MOD ==> Puts(st, ObjSemantics.Alu32Reg(op, dst, src), dst, Machine.AluValue32(op, d, s)))
  {
    hide U, Shl, Shr, Sar, Plus, Minus, Times, Quotient, Remainder, And, Or, Xor, Low, FromSigned, S32, SignExtended;
    hide ObjSemantics.Alu64Value, ObjSemantics.Alu32Value, Machine.AluValue64, Machine.AluValue32;
    var d, s := st.regs[dst].value, st.regs[src].value;
    Alu64IsStandard(op, d, s);
    Alu64IsStandard(op, d, SignExtended(imm));
    Alu32IsStandard(op, d, s);
    MovesAreCopies(d, s);
    MovesAreCopies(d, SignExtended(imm));
  }

  lemma MovesAreCopies(d: bv64, s: bv64)
    ensures Machine.AluValue64(MOV, d, s) == s
    ensures ObjSemantics.Alu32Value(MOV, s, s) == ObjSemantics.Alu32Value(MOV, d, s)
  {
    hide Low;
  }

  // --- Comparisons ---

  lemma Jump64IsStandard(cond: JmpOp, d: bv64, s: bv64)
    ensures ObjSemantics.EvalJump64(cond, d, s) == Machine.Holds64(cond, d, s)
  {
    hide U, S, And;
    if U(d) == U(s) {
      UInjective(d, s);
    }
  }

  lemma Jump32IsStandard(cond: JmpOp, d: bv64, s: bv64)
    ensures ObjSemantics.EvalJump32(cond, d, s) == Machine.Holds32(cond, d, s)
  {
    hide U, S32, And, Low;
    if U(Low(d)) == U(Low(s)) {
      UInjective(Low(d), Low(s));
    }
  }

  lemma JumpsDiffer(st: ObjState.State, a: bool, b: bool, target: int)
    ensures st.Jump(a, target) == st.Jump(b, target) <==> a == b || target == 0
  {
    assert st.Jump(a, target).pc == st.pc + 1 + if a then target else 0;
    assert st.Jump(b, target).pc == st.pc + 1 + if b then target else 0;
  }

  /** The operation of a jump and its second operand, as a number, if the jump compares numbers. */
  function Comparison(st: ObjState.State, insn: ObjSemantics.Insn): Option<(bool, JmpOp, RegId, bv64, int)> {
    match insn
    case Jump64Reg(cond, dst, src, target) =>
      if st.regs[src].Scalar? then Some((false, cond, dst, st.regs[src].value, target)) else None
    case Jump32Reg(cond, dst, src, target) =>
      if st.regs[src].Scalar? then Some((true, cond, dst, st.regs[src].value, target)) else None
    case Jump64Imm(cond, dst, imm, target) => Some((false, cond, dst, SignExtended(imm), target))
    case Jump32Imm(cond, dst, imm, target) => Some((true, cond, dst, SignExtended(imm), target))
    case _ => None
  }

  /** A jump that compares numbers goes to its target if the comparison of RFC 9669 holds, and to the next instruction
      otherwise; the equality of a number with a non-zero immediate is the exception (`NonzeroEquality`). */
  lemma JumpsAreStandard(st: ObjState.State, insn: ObjSemantics.Insn)
    requires Comparison(st, insn).Some? && st.regs[Comparison(st, insn).value.2].Scalar?
    requires insn.Jump64Imm? && insn.cond in {JEQ, JNE} ==> insn.imm == 0
    ensures var (is32, cond, dst, y, target) := Comparison(st, insn).value;
            var next := ObjSemantics.ExecInsn(st, insn);
            && next.Some? && next.value.regs == st.regs
            && next.value.pc
                == st.pc + 1 + if Machine.Holds(cond, is32, st.regs[dst].value, y) then target else 0
  {
    hide U, S, B, S32, Low, And, FromSigned, ObjSemantics.EvalJump64, ObjSemantics.EvalJump32, Machine.Holds64;
    hide Machine.Holds32;
    var (is32, cond, dst, y, target) := Comparison(st, insn).value;
    Jump64IsStandard(cond, st.regs[dst].value, y);
    Jump32IsStandard(cond, st.regs[dst].value, y);
    if insn.Jump64Imm? && cond in {JEQ, JNE} {
      ZeroTest(st, cond, dst, target);
    }
  }

  /** Comparing a number with zero. */
  lemma ZeroTest(st: ObjState.State, cond: JmpOp, dst: RegId, target: int)
    requires st.regs[dst].Scalar? && cond in {JEQ, JNE}
    ensures ObjSemantics.ExecJump64Imm(st, cond, dst, 0, target)
         == Some(st.Jump(Machine.Holds64(cond, st.regs[dst].value, SignExtended(0)), target))
  {
    hide U, B, ObjState.State.Jump;
    SignedZero();
    UZero(st.regs[dst].value);
  }

  lemma SignedZero()
    ensures SignExtended(0) == 0 && U(SignExtended(0)) == 0
  {
    hide U, B;
    CastsAgree(0, 0);
    UZero(FromSigned(0));
  }

  /** A 64-bit test for equality or inequality of a number with a non-zero immediate only asks whether the number is
      zero. It agrees with the standard exactly when the number is zero or equals the immediate. */
  lemma NonzeroEquality(st: ObjState.State, cond: JmpOp, dst: RegId, imm: I32, target: int)
    requires st.regs[dst].Scalar? && imm != 0 && cond in {JEQ, JNE}
    ensures var d := st.regs[dst].value;
            ObjSemantics.ExecJump64Imm(st, cond, dst, imm, target)
              == Some(st.Jump(Machine.Holds64(cond, d, SignExtended(imm)), target))
            <==> target == 0 || U(d) == 0 || d == SignExtended(imm)
  {
    hide U, B, ObjState.State.Jump, FromSigned;
    var d := st.regs[dst].value;
    NonzeroWord(imm);
    var taken := if cond == JEQ then U(d) != 0 else U(d) == 0;
    assert ObjSemantics.ExecJump64Imm(st, cond, dst, imm, target) == Some(st.Jump(taken, target));
    JumpsDiffer(st, taken, Machine.Holds64(cond, d, SignExtended(imm)), target);
    ZeroIsNot(d, imm);
  }

  lemma NonzeroWord(imm: I32)
    requires imm != 0
    ensures U(SignExtended(imm)) != 0
  {
    hide U, B;
    CastsAgree(0, imm);
  }

  lemma ZeroIsNot(d: bv64, imm: I32)
    requires imm != 0
    ensures U(d) == 0 ==> d != SignExtended(imm)
  {
    hide U, B, FromSigned;
    NonzeroWord(imm);
  }
}

/** When the abstract arithmetic covers the concrete arithmetic. */
module AluSoundness {
  import opened Words
  import opened Tnums
  import opened TnumProofs
  import opened TnumSubtraction
  import opened SumSigns
  import opened Instructions
  import opened RegStates
  import opened RegStateProofs
  import opened AbstractStates
  import opened Transfer
  import opened TnumWellFormed
  import opened LowHalves
  import opened Machine

  // --- Reading the bounds off a tracked number ---

  /** The sign bit of the number is known. */
  predicate SignKnown(t: Tnum) { SignClear(t.mask) }

  lemma SignClearMeans(x: bv64)
    ensures SignClear(x) <==> U(x) < TWO63
  {
    hide U;
    SignBit(x);
  }

  lemma SignOfOr(v: bv64, m: bv64)
    requires SignClear(m)
    ensures SignClear(Or(v, m)) <==> SignClear(v)
  {}

  lemma SignUnknown(v: bv64, m: bv64)
    requires !SignClear(m) && Disjoint(v, m)
    ensures SignClear(v) && !SignClear(Or(v, m))
  {}

  function Bounded(t: Tnum): RegState {
    RegState(Scalar, t, AsI64(t.MinValue()), AsI64(t.MaxValue()), t.MinValue(), t.MaxValue())
  }

  lemma KnownSignContains(t: Tnum, v: bv64)
    requires t.Has(v) && SignKnown(t)
    ensures FromTracked(t).Contains(v)
  {
    hide U, Member, Or, SignClear, RegState.Refined;
    MemberRange(t, v);
    SignOfOr(t.value, t.mask);
    SignClearMeans(t.value);
    SignClearMeans(Or(t.value, t.mask));
    assert Bounded(t).Contains(v);
    RefineSound(Bounded(t), v);
  }

  /** With an unknown sign bit refining changes nothing, */
  lemma UnknownSignIsBounded(t: Tnum)
    requires t.WellFormed() && !SignKnown(t)
    ensures FromTracked(t) == Bounded(t) && t.MinValue() < TWO63 <= t.MaxValue()
  {
    hide U, Member, Or, SignClear, Disjoint, B;
    SignUnknown(t.value, t.mask);
    SignClearMeans(t.value);
    SignClearMeans(Or(t.value, t.mask));
  }

  /** and the signed bounds contradict each other: the state stands for nothing. */
  lemma UnknownSignIsEmpty(t: Tnum, v: bv64)
    requires t.WellFormed() && !SignKnown(t)
    ensures !FromTracked(t).Contains(v)
  {
    hide U, Member, Or, SignClear, Disjoint, FromTracked;
    UnknownSignIsBounded(t);
  }

  ghost predicate CoversMembers(t: Tnum) {
    forall v :: t.Has(v) ==> FromTracked(t).Contains(v)
  }

  /** Bounds read off a tracked number are right exactly when its sign bit is known. */
  lemma FromTrackedExact(t: Tnum)
    requires t.WellFormed()
    ensures CoversMembers(t) <==> SignKnown(t)
  {
    hide U, Member, Or, SignClear, Disjoint, FromTracked, RegState.Contains;
    SmallestIsMember(t.value, t.mask);
    if SignKnown(t) {
      forall v | t.Has(v)
        ensures FromTracked(t).Contains(v)
      {
        KnownSignContains(t, v);
      }
    } else {
      UnknownSignIsEmpty(t, t.value);
    }
  }

  /** A word outside the tracked number is not in the state built from it. */
  lemma NothingElse(t: Tnum, v: bv64)
    requires t.WellFormed() && FromTracked(t).Contains(v)
    ensures t.Has(v)
  {
    hide U, Member, Or, SignClear, Disjoint, RegState.Refined;
    if SignKnown(t) {
      SmallestIsMember(t.value, t.mask);
      MemberRange(t, t.value);
      SignOfOr(t.value, t.mask);
      SignClearMeans(t.value);
      SignClearMeans(Or(t.value, t.mask));
      assert Bounded(t).Contains(t.value);
      RefineExact(Bounded(t), v, t.value);
    } else {
      UnknownSignIsEmpty(t, v);
    }
  }

  // --- 64-bit operations ---

  /** What the guards before the arithmetic leave: a known divisor is not zero and a known shift is in range. */
  predicate Guarded(op: AluOp, s: Tnum, is64: bool) {
    && op != MOV && op != NEG
    && ((op == DIV || op == MOD) && s.IsKnown() ==> U(s.value) != 0)
    && ((op == LSH || op == RSH || op == ARSH) && s.IsKnown() ==> U(s.value) < if is64 then 64 else 32)
  }

  lemma KnownMembers(t: Tnum, v: bv64)
    requires t.IsKnown()
    ensures t.Has(v) <==> v == t.value
  {}

  lemma UnknownHas(v: bv64)
    ensures Tnum.Unknown().Has(v) && !SignKnown(Tnum.Unknown())
  {}

  lemma SmallIsLow(v: bv64)
    requires U(v) < TWO32
    ensures Low(v) == v
  {
    hide U, Low;
    LowFits(v);
  }

  lemma ShiftOf(op: AluOp, x: bv64, y: bv64)
    requires (op == LSH || op == RSH) && U(y) < 64
    ensures AluValue64(op, x, y) == if op == LSH then Shl(x, U(y)) else Shr(x, U(y))
  {
    hide U, Shl, Shr;
  }

  lemma ShiftCovers(op: AluOp, d: Tnum, s: Tnum, x: bv64, y: bv64)
    requires op == LSH || op == RSH
    requires Guarded(op, s, true) && d.Has(x) && s.Has(y)
    ensures ScalarTnum(op, d, s).Has(AluValue64(op, x, y))
  {
    hide U, Tnum.Has, Tnum.Lsh, Tnum.Rsh, Tnum.Unknown, Tnum.IsKnown, Shl, Shr, ScalarTnum, SignKnown, AluValue64;
    ShiftTnum(op, d, s);
    UnknownHas(AluValue64(op, x, y));
    if s.IsKnown() {
      KnownMembers(s, y);
      ShiftOf(op, x, y);
      if op == LSH {
        LshSound(d, x, U(y));
      } else {
        RshSound(d, x, U(y));
      }
    }
  }

  lemma ConstantCovers(op: AluOp, d: Tnum, s: Tnum, x: bv64, y: bv64)
    requires op in {MUL, DIV, MOD, ARSH}
    requires Guarded(op, s, true) && d.Has(x) && s.Has(y)
    ensures ScalarTnum(op, d, s).Has(AluValue64(op, x, y))
  {
    hide U, Member, Tnum.Unknown, Tnum.IsKnown, ScalarTnum, AluValue64, SignKnown;
    KnownTnum(op, d, s);
    UnknownHas(AluValue64(op, x, y));
    if d.IsKnown() && s.IsKnown() {
      KnownMembers(d, x);
      KnownMembers(s, y);
      ConstantMember(AluValue64(op, x, y));
    }
  }

  /** The tracked number covers every result of members; for a subtraction, when the extremes are covered. */
  lemma TnumCovers(op: AluOp, d: Tnum, s: Tnum, x: bv64, y: bv64)
    requires Guarded(op, s, true) && d.Has(x) && s.Has(y)
    requires op == SUB ==> ExtremesCovered(d, s)
    ensures ScalarTnum(op, d, s).Has(AluValue64(op, x, y))
  {
    hide U, Tnum.Has, Low, ExtremesCovered, Tnum.Add, Tnum.Sub, Tnum.And, Tnum.Or, Tnum.Xor, Tnum.Lsh, Tnum.Rsh;
    hide And, Or, Xor, Plus, Minus, Times, Quotient, Remainder, Shl, Shr, Sar;
    match op
    case ADD => AddSound(d, s, x, y);
    case SUB => CoveredDifference(d, s, x, y);
    case AND => AndSound(d, s, x, y);
    case OR => OrSound(d, s, x, y);
    case XOR => XorSound(d, s, x, y);
    case LSH => ShiftCovers(op, d, s, x, y);
    case RSH => ShiftCovers(op, d, s, x, y);
    case _ => ConstantCovers(op, d, s, x, y);
  }

  /** Whatever is known of the sign bit, the tracked number and the unsigned bounds of the result are right. */
  lemma UnsignedSound(op: AluOp, d: Tnum, s: Tnum, x: bv64, y: bv64)
    requires d.WellFormed() && s.WellFormed() && Guarded(op, s, true) && d.Has(x) && s.Has(y)
    requires op == SUB ==> ExtremesCovered(d, s)
    ensures var r, v := ScalarResult(op, d, s, true), AluValue64(op, x, y); r.tnum.Has(v) && r.umin <= U(v) <= r.umax
  {
    hide U, Member, Or, SignClear, Disjoint, B, ScalarTnum, AluValue64, ExtremesCovered, RegState.Refined;
    var t, v := ScalarTnum(op, d, s), AluValue64(op, x, y);
    TnumCovers(op, d, s, x, y);
    ScalarTnumWf(op, d, s);
    if SignKnown(t) {
      KnownSignContains(t, v);
    } else {
      MemberRange(t, v);
      UnknownSignIsBounded(t);
    }
  }

  /** Every concrete result of members lies in the abstract result. */
  ghost predicate AluSound(op: AluOp, d: Tnum, s: Tnum, is64: bool)
    requires op != MOV && op != NEG
  {
    forall x, y :: d.Has(x) && s.Has(y) ==> ScalarResult(op, d, s, is64).Contains(AluValue(op, is64, x, y))
  }

  /** The sign bit is known to be zero. */
  predicate SignZero(t: Tnum) { SignClear(t.value) && SignClear(t.mask) }

  /** What the operands must say for the sign of the result to be known. */
  predicate OperandSigns(op: AluOp, d: Tnum, s: Tnum)
    requires op != MOV && op != NEG
  {
    match op
    case AND => (SignKnown(d) && SignKnown(s)) || SignZero(d) || SignZero(s)
    case OR => (SignKnown(d) && SignKnown(s)) || !SignClear(d.value) || !SignClear(s.value)
    case XOR => SignKnown(d) && SignKnown(s)
    case LSH => s.IsKnown() && SignClear(Shl(d.mask, U(s.value)))
    case RSH => s.IsKnown() && SignClear(Shr(d.mask, U(s.value)))
    case ADD => SumKeepsSign(d, s)
    case SUB => DifferenceKeepsSign(d, s)
    case _ => d.IsKnown() && s.IsKnown()
  }

  lemma SignOfAnd(av: bv64, am: bv64, bv: bv64, bm: bv64)
    requires Disjoint(av, am) && Disjoint(bv, bm)
    ensures SignClear(AndMask(av, am, bv, bm)) <==>
              || (SignClear(am) && SignClear(bm))
              || (SignClear(av) && SignClear(am))
              || (SignClear(bv) && SignClear(bm))
  {}

  lemma SignOfOrMask(av: bv64, am: bv64, bv: bv64, bm: bv64)
    ensures SignClear(OrMask(av, am, bv, bm)) <==> (SignClear(am) && SignClear(bm)) || !SignClear(av) || !SignClear(bv)
  {}

  lemma SignOfUnion(am: bv64, bm: bv64)
    ensures SignClear(Or(am, bm)) <==> SignClear(am) && SignClear(bm)
  {}

  lemma SignOfConstants(v: bv64)
    ensures SignKnown(Tnum.Constant(v)) && !SignKnown(Tnum.Unknown())
  {}

  lemma SignOfResult(op: AluOp, d: Tnum, s: Tnum)
    requires d.WellFormed() && s.WellFormed() && Guarded(op, s, true)
    ensures SignKnown(ScalarTnum(op, d, s)) <==> OperandSigns(op, d, s)
  {
    hide U, SignClear, Disjoint, AndMask, OrMask, Or, And, Xor, AndNot, Low, Shl, Shr, Sar, Tnum.Add, Tnum.Sub;
    hide Times, Quotient, Remainder, Tnum.Constant, Tnum.Unknown, SumKeepsSign, DifferenceKeepsSign, AluValue64;
    SignOfConstants(0);
    match op
    case AND => SignOfAnd(d.value, d.mask, s.value, s.mask);
    case OR => SignOfOrMask(d.value, d.mask, s.value, s.mask);
    case XOR => SignOfUnion(d.mask, s.mask);
    case LSH => ShiftTnum(op, d, s);
    case RSH => ShiftTnum(op, d, s);
    case ADD => SumSignExact(d, s);
    case SUB => DifferenceSignExact(d, s);
    case _ =>
      KnownTnum(op, d, s);
      SignOfConstants(AluValue64(op, d.value, s.value));
  }

  /** Subtraction aside, a 64-bit operation is sound exactly when the operands fix the sign bit of its result;
      a subtraction must also cover its extreme differences. */
  lemma Alu64Exact(op: AluOp, d: Tnum, s: Tnum)
    requires d.WellFormed() && s.WellFormed() && Guarded(op, s, true)
    ensures AluSound(op, d, s, true) <==> OperandSigns(op, d, s) && (op == SUB ==> ExtremesCovered(d, s))
  {
    hide U, Member, SignClear, Disjoint, FromTracked, RegState.Contains, ScalarTnum, AluValue64, ExtremesCovered;
    hide SignKnown;
    hide OperandSigns;
    var t := ScalarTnum(op, d, s);
    SignOfResult(op, d, s);
    ScalarTnumWf(op, d, s);
    SmallestIsMember(d.value, d.mask);
    SmallestIsMember(s.value, s.mask);
    if SignKnown(t) && (op == SUB ==> ExtremesCovered(d, s)) {
      forall x, y | d.Has(x) && s.Has(y)
        ensures FromTracked(t).Contains(AluValue64(op, x, y))
      {
        TnumCovers(op, d, s, x, y);
        KnownSignContains(t, AluValue64(op, x, y));
      }
    }
    if AluSound(op, d, s, true) {
      var v := AluValue64(op, d.value, s.value);
      assert d.Has(d.value) && s.Has(s.value);
      assert ScalarResult(op, d, s, true).Contains(AluValue(op, true, d.value, s.value));
      if !SignKnown(t) {
        UnknownSignIsEmpty(t, v);
      }
      if op == SUB {
        SubIsCovered(d, s);
      }
    }
  }

  lemma SubIsCovered(d: Tnum, s: Tnum)
    requires d.WellFormed() && s.WellFormed() && AluSound(SUB, d, s, true)
    ensures ExtremesCovered(d, s)
  {
    hide U, Member, Disjoint, FromTracked, RegState.Contains, Tnum.Sub, ExtremesCovered, Minus;
    AddWellFormed(d, s);
    forall x, y | d.Has(x) && s.Has(y)
      ensures d.Sub(s).Has(Minus(x, y))
    {
      assert FromTracked(d.Sub(s)).Contains(AluValue(SUB, true, x, y));
      NothingElse(d.Sub(s), Minus(x, y));
    }
    SubExact(d, s);
  }

  // --- 32-bit operations ---

  /** The bits the low half of a subtraction does not have to get right. */
  predicate LowExtremesCovered(d: Tnum, s: Tnum) {
    SameOutside(LargestDifference(d, s), SmallestDifference(d, s), Or(d.Sub(s).mask, 0xFFFF_FFFF_0000_0000))
  }

  function QuotientOfLows(a: U64, b: U64): nat { if b % TWO32 == 0 then 0 else (a % TWO32) / (b % TWO32) }

  function RemainderOfLows(a: U64, b: U64): nat { if b % TWO32 == 0 then a % TWO32 else (a % TWO32) % (b % TWO32) }

  /** The low half of the quotient is the quotient of the low halves. */
  predicate QuotientsAgree(a: U64, b: U64)
    requires b != 0
  {
    (a / b) % TWO32 == QuotientOfLows(a, b)
  }

  predicate RemaindersAgree(a: U64, b: U64)
    requires b != 0
  {
    (a % b) % TWO32 == RemainderOfLows(a, b)
  }

  /** The `k` bits above the low half are copies of the low half's sign. */
  predicate SignFills(x: bv64, k: nat) { Same(x, FromSigned(S32(x)), LowMask(32 + k)) }

  /** The condition under which the 32-bit form of an operation is sound. */
  predicate Safe32(op: AluOp, d: Tnum, s: Tnum) {
    match op
    case SUB => LowExtremesCovered(d, s)
    case RSH => s.IsKnown() ==> Low(Shr(d.value, U(s.value))) == Shr(Low(d.value), U(s.value))
    case DIV => d.IsKnown() && s.IsKnown() && U(s.value) != 0 ==> QuotientsAgree(U(d.value), U(s.value))
    case MOD => d.IsKnown() && s.IsKnown() && U(s.value) != 0 ==> RemaindersAgree(U(d.value), U(s.value))
    case ARSH => d.IsKnown() && s.IsKnown() ==> SignFills(d.value, U(s.value))
    case _ => true
  }

  lemma WideMask(mu: bv64, high: bv64)
    ensures Sub(mu, Or(mu, high))
  {}

  lemma LowMember(v: bv64, dv: bv64, mu: bv64)
    requires SameOutside(v, dv, Or(mu, 0xFFFF_FFFF_0000_0000))
    ensures Member(Low(v), Low(AndNot(dv, mu)), Low(mu))
  {}

  /** The low half of every difference is covered when the low halves of the extremes are. */
  lemma LowDifference(d: Tnum, s: Tnum, x: bv64, y: bv64)
    requires d.Has(x) && s.Has(y) && LowExtremesCovered(d, s)
    ensures d.Sub(s).Trunc32().Has(Low(Minus(x, y)))
  {
    hide Member, Disjoint, Plus, Minus, AndNot, SameOutside, SumMask, Sub, Or, Low;
    hide LargestDifference, SmallestDifference, Tnum.Sub;
    var mu, dv := d.Sub(s).mask, Minus(d.value, s.value);
    var wide := Or(mu, 0xFFFF_FFFF_0000_0000);
    var high, low := LargestDifference(d, s), SmallestDifference(d, s);
    MemberDisjoint(x, d.value, d.mask);
    MemberDisjoint(y, s.value, s.mask);
    SmallestIsMember(d.value, d.mask);
    SmallestIsMember(s.value, s.mask);
    SubShape(d, s);
    WideMask(mu, 0xFFFF_FFFF_0000_0000);
    SubTrans(d.mask, mu, wide);
    SubTrans(s.mask, mu, wide);
    DifferenceWithin(d, s, x, y);
    DifferenceWithin(d, s, d.value, s.value);
    WideMaskCovers(Minus(x, y), high, low, d.mask, s.mask, wide);
    WideMaskCovers(dv, high, low, d.mask, s.mask, wide);
    OutsideTransitive(Minus(x, y), dv, high, wide);
    LowMember(Minus(x, y), dv, mu);
  }

  lemma LowMembersAgree(s: bv64, t: bv64, v: bv64, mu: bv64)
    requires Member(Low(s), v, Low(mu)) && Member(Low(t), v, Low(mu))
    ensures SameOutside(s, t, Or(mu, 0xFFFF_FFFF_0000_0000))
  {}

  lemma ShrMember(z: bv64, v: bv64, m: bv64, w: bv64)
    requires Member(z, v, m) && Sub(m, w) && Disjoint(v, w)
    ensures Member(z, v, w)
  {}

  /** A right shift of the low half is covered when no known one is shifted into it from above. */
  lemma LowShift(d: Tnum, x: bv64, k: nat)
    requires d.Has(x) && k < 32 && Low(Shr(d.value, k)) == Shr(Low(d.value), k)
    ensures d.Rsh(k).Trunc32().Has(Shr(Low(x), k))
  {
    hide Member, Disjoint, Low, Shr, Sub;
    MemberDisjoint(x, d.value, d.mask);
    LowBits(x, d.value, d.mask);
    RshBits(Low(x), Low(d.value), Low(d.mask), k);
    ShrOfLow(d.mask, k);
    ShrDisjoint(d.value, d.mask, k);
    LowDisjoint(Shr(d.value, k), Shr(d.mask, k));
    ShrMember(Shr(Low(x), k), Shr(Low(d.value), k), Shr(Low(d.mask), k), Low(Shr(d.mask, k)));
  }

  lemma OnlyPart(z: bv64, v: bv64, m: bv64)
    requires Member(z, v, m) && Sub(z, v)
    ensures z == v
  {}

  /** Conversely, a known one shifted in from above is wrong for the smallest member. */
  lemma LowShiftNeeds(d: Tnum, k: nat)
    requires d.WellFormed() && k < 32 && d.Rsh(k).Trunc32().Has(Shr(Low(d.value), k))
    ensures Low(Shr(d.value, k)) == Shr(Low(d.value), k)
  {
    hide Member, Disjoint, Low, Shr, Sub;
    ShrOfLow(d.value, k);
    OnlyPart(Shr(Low(d.value), k), Low(Shr(d.value, k)), Low(Shr(d.mask, k)));
  }

  /** Conversely, if the low halves of the two extreme differences are covered, they agree on the known bits. */
  lemma LowDifferenceNeeds(d: Tnum, s: Tnum)
    requires d.WellFormed() && s.WellFormed()
    requires d.Sub(s).Trunc32().Has(Low(Minus(Or(d.value, d.mask), s.value)))
    requires d.Sub(s).Trunc32().Has(Low(Minus(d.value, Or(s.value, s.mask))))
    ensures LowExtremesCovered(d, s)
  {
    hide Member, Disjoint, Minus, Or, SameOutside, LargestDifference, SmallestDifference, Tnum.Sub, Low;
    LargestOf(d, s);
    SmallestOf(d, s);
    LowMembersAgree(LargestDifference(d, s), SmallestDifference(d, s), Low(d.Sub(s).value), d.Sub(s).mask);
  }

  ghost predicate CoversLowDifferences(d: Tnum, s: Tnum) {
    forall x, y :: d.Has(x) && s.Has(y) ==> d.Sub(s).Trunc32().Has(Low(Minus(x, y)))
  }

  lemma LowDifferenceExact(d: Tnum, s: Tnum)
    requires d.WellFormed() && s.WellFormed()
    ensures CoversLowDifferences(d, s) <==> LowExtremesCovered(d, s)
  {
    hide Tnum.Has, Disjoint, Minus, Or, Tnum.Sub, Tnum.Trunc32, Low, LowExtremesCovered;
    if LowExtremesCovered(d, s) {
      forall x, y | d.Has(x) && s.Has(y)
        ensures d.Sub(s).Trunc32().Has(Low(Minus(x, y)))
      {
        LowDifference(d, s, x, y);
      }
    }
    if CoversLowDifferences(d, s) {
      ExtremeMembers(d);
      ExtremeMembers(s);
      LowDifferenceNeeds(d, s);
    }
  }

  // --- Each 32-bit operation ---

  lemma UnknownHasLow(v: bv64)
    ensures Tnum.Unknown().Trunc32().Has(Low(v))
  {
    hide Member, Low;
    UnknownHas(v);
    Trunc32Sound(Tnum.Unknown(), v);
  }

  lemma LowOfConstant(v: bv64)
    ensures Tnum.Constant(v).Trunc32().Has(Low(v))
  {
    hide Member, Low;
    ConstantMember(v);
    Trunc32Sound(Tnum.Constant(v), v);
  }

  lemma LowSums(op: AluOp, d: Tnum, s: Tnum, x: bv64, y: bv64)
    requires op in {ADD, SUB, AND, OR, XOR}
    requires d.Has(x) && s.Has(y) && (op == SUB ==> LowExtremesCovered(d, s))
    ensures ScalarTnum(op, d, s).Trunc32().Has(AluValue32(op, x, y))
  {
    hide U, Tnum.Has, Low, LowExtremesCovered, Tnum.Add, Tnum.Sub, Tnum.And, Tnum.Or, Tnum.Xor, Tnum.Trunc32;
    hide And, Or, Xor, Plus, Minus, Times, Quotient, Remainder, Shl, Shr, Sar;
    LowTwice(x);
    LowTwice(y);
    match op
    case ADD => AddSound(d, s, x, y); Trunc32Sound(d.Add(s), Plus(x, y)); LowPlus(x, y, Low(x), Low(y));
    case SUB => LowDifference(d, s, x, y); LowMinus(x, y, Low(x), Low(y));
    case AND => AndSound(d, s, x, y); Trunc32Sound(d.And(s), And(x, y)); LowAnd(x, y);
    case OR => OrSound(d, s, x, y); Trunc32Sound(d.Or(s), Or(x, y)); LowOr(x, y);
    case XOR => XorSound(d, s, x, y); Trunc32Sound(d.Xor(s), Xor(x, y)); LowXor(x, y);
    case _ =>
  }

  lemma LowLsh(d: Tnum, x: bv64, k: nat)
    requires d.Has(x) && k < 32
    ensures d.Lsh(k).Trunc32().Has(Low(Shl(Low(x), k)))
  {
    hide Tnum.Has, Tnum.Lsh, Tnum.Trunc32, Low, Shl;
    LowTwice(x);
    LshSound(d, x, k);
    Trunc32Sound(d.Lsh(k), Shl(x, k));
    LowShl(x, Low(x), k);
  }

  lemma LowShiftOf(op: AluOp, x: bv64, y: bv64)
    requires (op == LSH || op == RSH) && U(y) < 32
    ensures AluValue32(op, x, y) == if op == LSH then Low(Shl(Low(x), U(y))) else Shr(Low(x), U(y))
  {
    hide U, Low, Shl, Shr;
    SmallIsLow(y);
  }

  lemma ShiftTnum(op: AluOp, d: Tnum, s: Tnum)
    requires (op == LSH || op == RSH) && (s.IsKnown() ==> U(s.value) < TWO32)
    ensures ScalarTnum(op, d, s) ==
              if !s.IsKnown() then Tnum.Unknown() else if op == LSH then d.Lsh(U(s.value)) else d.Rsh(U(s.value))
  {
    hide U, Low, Tnum.Lsh, Tnum.Rsh, Tnum.Unknown;
    if s.IsKnown() {
      SmallIsLow(s.value);
    }
  }

  lemma LowResultOfShift(op: AluOp, x: bv64, y: bv64)
    requires op == LSH || op == RSH
    ensures Low(AluValue32(op, x, y)) == AluValue32(op, x, y)
  {
    hide U, Low, Shl, Shr;
    LowTwice(Shl(Low(x), U(Low(y)) % 32));
    ShrOfLow(x, U(Low(y)) % 32);
  }

  lemma LowShifts(op: AluOp, d: Tnum, s: Tnum, x: bv64, y: bv64)
    requires op == LSH || op == RSH
    requires Guarded(op, s, false) && d.Has(x) && s.Has(y) && Safe32(op, d, s)
    ensures ScalarTnum(op, d, s).Trunc32().Has(AluValue32(op, x, y))
  {
    hide U, Tnum.Has, Tnum.Lsh, Tnum.Rsh, Tnum.Trunc32, Tnum.Unknown, Tnum.IsKnown, Low, Shl, Shr, ScalarTnum;
    hide AluValue32;
    ShiftTnum(op, d, s);
    if s.IsKnown() {
      KnownMembers(s, y);
      LowShiftOf(op, x, y);
      if op == LSH {
        LowLsh(d, x, U(y));
      } else {
        LowShift(d, x, U(y));
      }
    } else {
      LowResultOfShift(op, x, y);
      UnknownHasLow(AluValue32(op, x, y));
    }
  }

  lemma LowResult(op: AluOp, x: bv64, y: bv64)
    requires op in {MUL, DIV, MOD, ARSH}
    ensures Low(AluValue32(op, x, y)) == AluValue32(op, x, y)
  {
    hide U, Low, Shl, Shr, Sar, Times, Quotient, Remainder, Plus, Minus, FromSigned, S32;
    LowTwice(x);
    LowTwice(Times(Low(x), Low(y)));
    LowTwice(Sar(FromSigned(S32(x)), U(Low(y)) % 32));
    LowZero();
    if U(Low(y)) != 0 {
      LowTwice(Quotient(Low(x), Low(y)));
      LowTwice(Remainder(Low(x), Low(y)));
    }
  }

  lemma QuotientValue(x: bv64, y: bv64)
    requires U(y) != 0
    ensures U(Quotient(x, y)) == U(x) / U(y) && U(Remainder(x, y)) == U(x) % U(y)
  {
    hide U, B;
    UOfB(U(x) / U(y));
    UOfB(U(x) % U(y));
  }

  lemma LowDivides(x: bv64, y: bv64)
    ensures U(AluValue32(DIV, x, y)) == QuotientOfLows(U(x), U(y))
    ensures U(AluValue32(MOD, x, y)) == RemainderOfLows(U(x), U(y))
  {
    hide U, Low, Quotient, Remainder;
    LowIsMod(x);
    LowIsMod(y);
    UConstants();
    if U(Low(y)) != 0 {
      QuotientValue(Low(x), Low(y));
      DividesBelow(U(Low(x)), U(Low(y)));
      LowFits(x);
      SmallIsLow(Quotient(Low(x), Low(y)));
      SmallIsLow(Remainder(Low(x), Low(y)));
    }
  }

  lemma DividesBelow(a: nat, b: nat)
    requires b > 0
    ensures a / b <= a && a % b <= a
  {
    var q, r := a / b, a % b;
    assert a == q * b + r;
    ApartByOne(q, 0, b);
  }

  lemma EqualNumbers(x: bv64, y: bv64)
    ensures x == y <==> U(x) == U(y)
  {
    hide U;
    if U(x) == U(y) {
      UInjective(x, y);
    }
  }

  lemma LowQuotient(x: bv64, y: bv64)
    requires U(y) != 0
    ensures AluValue32(DIV, x, y) == Low(AluValue64(DIV, x, y)) <==> QuotientsAgree(U(x), U(y))
    ensures AluValue32(MOD, x, y) == Low(AluValue64(MOD, x, y)) <==> RemaindersAgree(U(x), U(y))
  {
    hide U, Low, Quotient, Remainder, AluValue32, QuotientOfLows, RemainderOfLows;
    QuotientValue(x, y);
    LowDivides(x, y);
    LowIsMod(Quotient(x, y));
    LowIsMod(Remainder(x, y));
    EqualNumbers(AluValue32(DIV, x, y), Low(Quotient(x, y)));
    EqualNumbers(AluValue32(MOD, x, y), Low(Remainder(x, y)));
  }

  lemma LowArsh(x: bv64, y: bv64)
    requires U(y) < 32
    ensures AluValue32(ARSH, x, y) == Low(AluValue64(ARSH, x, y)) <==> SignFills(x, U(y))
  {
    hide U, Low, Sar, FromSigned, S32, Same, LowMask;
    SmallIsLow(y);
    LowSar(x, U(y));
  }

  lemma LowMul(x: bv64, y: bv64)
    ensures AluValue32(MUL, x, y) == Low(AluValue64(MUL, x, y))
  {
    hide U, Low, Times;
    LowTimes(x, y);
  }

  /** On known operands the 32-bit result is the low half of the 64-bit one exactly under the condition. */
  lemma LowOfKnown(op: AluOp, d: Tnum, s: Tnum)
    requires op in {MUL, DIV, MOD, ARSH} && d.IsKnown() && s.IsKnown() && Guarded(op, s, false)
    ensures AluValue32(op, d.value, s.value) == Low(AluValue64(op, d.value, s.value)) <==> Safe32(op, d, s)
  {
    hide U, Low, AluValue64, AluValue32, QuotientsAgree, RemaindersAgree, SignFills, LowExtremesCovered;
    match op
    case MUL => LowMul(d.value, s.value);
    case ARSH => LowArsh(d.value, s.value);
    case _ => LowQuotient(d.value, s.value);
  }

  lemma KnownTnum(op: AluOp, d: Tnum, s: Tnum)
    requires op in {MUL, DIV, MOD, ARSH} && ((op == DIV || op == MOD) && s.IsKnown() ==> U(s.value) != 0)
    ensures ScalarTnum(op, d, s) ==
              if d.IsKnown() && s.IsKnown() then Tnum.Constant(AluValue64(op, d.value, s.value)) else Tnum.Unknown()
  {
    hide U, Sar, Times, Quotient, Remainder, Tnum.Unknown;
  }

  lemma LowConstants(op: AluOp, d: Tnum, s: Tnum, x: bv64, y: bv64)
    requires op in {MUL, DIV, MOD, ARSH}
    requires Guarded(op, s, false) && d.Has(x) && s.Has(y) && Safe32(op, d, s)
    ensures ScalarTnum(op, d, s).Trunc32().Has(AluValue32(op, x, y))
  {
    hide U, Tnum.Has, Tnum.Trunc32, Tnum.Unknown, Tnum.IsKnown, Low, ScalarTnum, AluValue32, AluValue64, Tnum.Constant;
    hide Shr;
    hide Safe32;
    KnownTnum(op, d, s);
    if d.IsKnown() && s.IsKnown() {
      KnownMembers(d, x);
      KnownMembers(s, y);
      LowOfKnown(op, d, s);
      LowOfConstant(AluValue64(op, x, y));
    } else {
      LowResult(op, x, y);
      UnknownHasLow(AluValue32(op, x, y));
    }
  }

  lemma LowTnumCovers(op: AluOp, d: Tnum, s: Tnum, x: bv64, y: bv64)
    requires Guarded(op, s, false) && d.Has(x) && s.Has(y) && Safe32(op, d, s)
    ensures ScalarTnum(op, d, s).Trunc32().Has(AluValue32(op, x, y))
  {
    hide ScalarTnum, AluValue32, Tnum.Has, U, LowExtremesCovered, Low, Shr;
    match op
    case LSH => LowShifts(op, d, s, x, y);
    case RSH => LowShifts(op, d, s, x, y);
    case MUL => LowConstants(op, d, s, x, y);
    case DIV => LowConstants(op, d, s, x, y);
    case MOD => LowConstants(op, d, s, x, y);
    case ARSH => LowConstants(op, d, s, x, y);
    case _ => LowSums(op, d, s, x, y);
  }

  lemma SignOfLow(t: Tnum)
    ensures SignKnown(t.Trunc32())
  {}

  /** A 32-bit operation is sound whenever its condition holds: always, for most of them. */
  lemma Alu32Sound(op: AluOp, d: Tnum, s: Tnum, x: bv64, y: bv64)
    requires Guarded(op, s, false) && d.Has(x) && s.Has(y) && Safe32(op, d, s)
    ensures ScalarResult(op, d, s, false).Contains(AluValue32(op, x, y))
  {
    hide ScalarTnum, AluValue32, Tnum.Has, Tnum.Trunc32, SignKnown, Safe32, U, FromTracked, RegState.Contains;
    LowTnumCovers(op, d, s, x, y);
    SignOfLow(ScalarTnum(op, d, s));
    KnownSignContains(ScalarTnum(op, d, s).Trunc32(), AluValue32(op, x, y));
  }

  /** A 32-bit operation is sound exactly when its condition holds. */
  lemma Alu32Exact(op: AluOp, d: Tnum, s: Tnum)
    requires d.WellFormed() && s.WellFormed() && Guarded(op, s, false)
    ensures AluSound(op, d, s, false) <==> Safe32(op, d, s)
  {
    hide AluValue32, Tnum.Has, Tnum.Trunc32, FromTracked, RegState.Contains, Disjoint, Safe32, U, ScalarTnum;
    if Safe32(op, d, s) {
      forall x, y | d.Has(x) && s.Has(y)
        ensures ScalarResult(op, d, s, false).Contains(AluValue(op, false, x, y))
      {
        Alu32Sound(op, d, s, x, y);
      }
    }
    if AluSound(op, d, s, false) {
      forall x, y | d.Has(x) && s.Has(y)
        ensures ScalarTnum(op, d, s).Trunc32().Has(AluValue32(op, x, y))
      {
        assert ScalarResult(op, d, s, false).Contains(AluValue(op, false, x, y));
        ScalarTnumWf(op, d, s);
        TruncWf(ScalarTnum(op, d, s));
        NothingElse(ScalarTnum(op, d, s).Trunc32(), AluValue32(op, x, y));
      }
      Safe32Needed(op, d, s);
    }
  }

  lemma TruncWf(t: Tnum)
    requires t.WellFormed()
    ensures t.Trunc32().WellFormed()
  {
    hide Low, Disjoint;
    LowDisjoint(t.value, t.mask);
  }

  lemma Safe32Needed(op: AluOp, d: Tnum, s: Tnum)
    requires d.WellFormed() && s.WellFormed() && Guarded(op, s, false)
    requires forall x, y :: d.Has(x) && s.Has(y) ==> ScalarTnum(op, d, s).Trunc32().Has(AluValue32(op, x, y))
    ensures Safe32(op, d, s)
  {
    hide ScalarTnum, AluValue32, Tnum.Has, Tnum.Trunc32, Disjoint, U, Low, Shr, LowExtremesCovered, Tnum.IsKnown;
    hide SignFills;
    hide QuotientsAgree, RemaindersAgree;
    if op == SUB {
      SubNeeds(d, s);
    } else if op == RSH && s.IsKnown() {
      RshNeeds(d, s);
    } else if op in {DIV, MOD, ARSH} && d.IsKnown() && s.IsKnown() {
      KnownNeeds(op, d, s);
    }
  }

  lemma KnownNeeds(op: AluOp, d: Tnum, s: Tnum)
    requires op in {MUL, DIV, MOD, ARSH} && d.IsKnown() && s.IsKnown() && Guarded(op, s, false)
    requires forall x, y :: d.Has(x) && s.Has(y) ==> ScalarTnum(op, d, s).Trunc32().Has(AluValue32(op, x, y))
    ensures Safe32(op, d, s)
  {
    hide ScalarTnum, AluValue32, AluValue64, Tnum.Has, Tnum.Trunc32, U, Low, Tnum.IsKnown, Safe32, Tnum.Constant;
    KnownMembers(d, d.value);
    KnownMembers(s, s.value);
    KnownTnum(op, d, s);
    assert ScalarTnum(op, d, s).Trunc32().Has(AluValue32(op, d.value, s.value));
    KnownLow(AluValue64(op, d.value, s.value), AluValue32(op, d.value, s.value));
    LowOfKnown(op, d, s);
  }

  lemma KnownLow(v: bv64, w: bv64)
    ensures Tnum.Constant(v).Trunc32().Has(w) <==> w == Low(v)
  {}

  lemma SubNeeds(d: Tnum, s: Tnum)
    requires d.WellFormed() && s.WellFormed()
    requires forall x, y :: d.Has(x) && s.Has(y) ==> ScalarTnum(SUB, d, s).Trunc32().Has(AluValue32(SUB, x, y))
    ensures LowExtremesCovered(d, s)
  {
    hide Tnum.Has, Tnum.Trunc32, Disjoint, U, Low, Minus, Tnum.Sub, LowExtremesCovered;
    forall x, y | d.Has(x) && s.Has(y)
      ensures d.Sub(s).Trunc32().Has(Low(Minus(x, y)))
    {
      LowTwice(x);
      LowTwice(y);
      LowMinus(x, y, Low(x), Low(y));
      assert ScalarTnum(SUB, d, s).Trunc32().Has(AluValue32(SUB, x, y));
    }
    LowDifferenceExact(d, s);
  }

  lemma RshNeeds(d: Tnum, s: Tnum)
    requires d.WellFormed() && s.WellFormed() && s.IsKnown() && U(s.value) < 32
    requires forall x, y :: d.Has(x) && s.Has(y) ==> ScalarTnum(RSH, d, s).Trunc32().Has(AluValue32(RSH, x, y))
    ensures Low(Shr(d.value, U(s.value))) == Shr(Low(d.value), U(s.value))
  {
    hide Tnum.Has, Tnum.Trunc32, Tnum.IsKnown, Disjoint, U, Low, Shr, Tnum.Rsh, Or, ScalarTnum, AluValue32;
    ExtremeMembers(d);
    ExtremeMembers(s);
    ShiftTnum(RSH, d, s);
    LowShiftOf(RSH, d.value, s.value);
    assert ScalarTnum(RSH, d, s).Trunc32().Has(AluValue32(RSH, d.value, s.value));
    LowShiftNeeds(d, U(s.value));
  }

  // --- Moves ---

  /** A 32-bit register move keeps the bounds sound: the source is a 32-bit number, or its bounds say nothing below
      2^32. */
  predicate MoveSafe(r: RegState) {
    r.umax <= U32_MAX || (r.umin == 0 && r.smin <= 0 && r.smax >= 0xFFFF_FFFF)
  }

  lemma MoveSound(r: RegState, v: bv64)
    requires r.Contains(v) && MoveSafe(r)
    ensures Truncated(r).Contains(Low(v))
  {
    hide U, Tnum.Has, Low, Tnum.Trunc32;
    Trunc32Sound(r.tnum, v);
    LowFits(v);
  }

  /** The move covers every value of every state with these unsigned bounds. */
  ghost predicate MovesAll(lo: U64, hi: U64) {
    forall r: RegState, v :: r.umin == lo && r.umax == hi && r.Contains(v) ==> Truncated(r).Contains(Low(v))
  }

  /** Exactly the 32-bit bounds are safe whatever else is known of the source. */
  lemma MoveExact(lo: U64, hi: U64)
    requires lo <= hi
    ensures MovesAll(lo, hi) <==> hi <= U32_MAX
  {
    hide U, B, Tnum.Has, Low, Tnum.Trunc32, Truncated;
    if hi <= U32_MAX {
      forall r: RegState, v | r.umin == lo && r.umax == hi && r.Contains(v)
        ensures Truncated(r).Contains(Low(v))
      {
        MoveSound(r, v);
      }
    } else {
      var v := B(hi);
      UOfB(hi);
      UnknownHas(v);
      var r := RegState(Scalar, Tnum.Unknown(), S(v), S(v), lo, hi);
      assert r.Contains(v);
      LowFits(v);
      TightMove(r, Low(v));
    }
  }

  /** A single signed value outside 32 bits contradicts the bounds that a move imposes. */
  lemma TightMove(r: RegState, w: bv64)
    requires r.smin == r.smax && (r.smin < 0 || r.smin > U32_MAX)
    ensures !Truncated(r).Contains(w)
  {
    hide U, Low, Tnum.Trunc32, Member;
  }

  /** The move covers every value of every state with these unsigned bounds and nothing known of the signed value. */
  ghost predicate MovesUnsigned(lo: U64, hi: U64) {
    forall t: Tnum, v ::
      var r := RegState(Scalar, t, I64_MIN, I64_MAX, lo, hi); r.Contains(v) ==> Truncated(r).Contains(Low(v))
  }

  /** When nothing is known of the signed value, a range from zero is safe as well, and no other. */
  lemma UnsignedMoveExact(lo: U64, hi: U64)
    requires lo <= hi
    ensures MovesUnsigned(lo, hi) <==> hi <= U32_MAX || lo == 0
  {
    hide U, B, Tnum.Has, Low, Tnum.Trunc32, Truncated, RegState.Contains;
    if hi <= U32_MAX || lo == 0 {
      forall t: Tnum, v | RegState(Scalar, t, I64_MIN, I64_MAX, lo, hi).Contains(v)
        ensures Truncated(RegState(Scalar, t, I64_MIN, I64_MAX, lo, hi)).Contains(Low(v))
      {
        MoveSound(RegState(Scalar, t, I64_MIN, I64_MAX, lo, hi), v);
      }
    } else {
      MoveLosesLowValues(lo, hi, B(Max(lo, TWO32)));
    }
  }

  /** The low half of a value from 2^32 on lies below a positive lower bound that the move keeps. */
  lemma MoveLosesLowValues(lo: U64, hi: U64, v: bv64)
    requires 0 < lo <= hi && hi > U32_MAX && v == B(Max(lo, TWO32))
    ensures var r := RegState(Scalar, Tnum.Unknown(), I64_MIN, I64_MAX, lo, hi);
            r.Contains(v) && !Truncated(r).Contains(Low(v))
  {
    hide U, B, Low, Tnum.Trunc32, Member;
    UOfB(Max(lo, TWO32));
    UnknownHas(v);
    LowIsMod(v);
  }

  // --- Where the conditions matter ---

  /** Dividing 2^32 by 2 gives 0 in 32 bits, while the checker computes 2^31. */
  lemma Div32Wrong()
    ensures !AluSound(DIV, Tnum.Constant(B(TWO32)), Tnum.Constant(B(2)), false)
  {
    hide U, B, AluSound, Disjoint;
    KnownOperands(B(TWO32), B(2));
    UOfB(TWO32);
    UOfB(2);
    Alu32Exact(DIV, Tnum.Constant(B(TWO32)), Tnum.Constant(B(2)));
  }

  /** The remainder of 2^32 by 3 is 0 in 32 bits, while the checker computes 1. */
  lemma Mod32Wrong()
    ensures !AluSound(MOD, Tnum.Constant(B(TWO32)), Tnum.Constant(B(3)), false)
  {
    hide U, B, AluSound, Disjoint;
    KnownOperands(B(TWO32), B(3));
    UOfB(TWO32);
    UOfB(3);
    Alu32Exact(MOD, Tnum.Constant(B(TWO32)), Tnum.Constant(B(3)));
  }

  /** Shifting 2^32 right by one gives 0 in 32 bits, while the checker computes 2^31. */
  lemma Arsh32Wrong()
    ensures !AluSound(ARSH, Tnum.Constant(0x1_0000_0000), Tnum.Constant(B(1)), false)
  {
    hide U, B, AluSound, Disjoint, SignFills;
    KnownOperands(0x1_0000_0000, B(1));
    UOfB(1);
    HighBitDoesNotFill();
    Alu32Exact(ARSH, Tnum.Constant(0x1_0000_0000), Tnum.Constant(B(1)));
  }

  lemma HighBitDoesNotFill()
    ensures !SignFills(0x1_0000_0000, 1)
  {
    hide U;
    LowMask32();
    assert LowMask(33) == 0x1_FFFF_FFFF;
    assert Low(0x1_0000_0000) == 0;
    UConstants();
    assert S32(0x1_0000_0000) == 0;
    BOfU(0);
  }

  /** Sign-extended 32-bit numbers, negative ones included, are shifted right by any distance. */
  lemma SignExtendedShifts(n: I32, s: Tnum)
    requires s.WellFormed() && Guarded(ARSH, s, false)
    ensures AluSound(ARSH, Tnum.Constant(FromSigned(n)), s, false)
  {
    hide U, B, AluSound, Disjoint, FromSigned, Tnum.IsKnown, Guarded;
    KnownOperands(FromSigned(n), 0);
    if s.IsKnown() {
      ExtendedFills(n, U(s.value));
    }
    Alu32Exact(ARSH, Tnum.Constant(FromSigned(n)), s);
  }

  lemma ExtendedFills(n: I32, k: nat)
    ensures SignFills(FromSigned(n), k)
  {
    hide U, B, Low, LowMask;
    CastsAgree(0, n);
    LowIsMod(FromSigned(n));
    assert S32(FromSigned(n)) == n;
    SameAsItself(FromSigned(n), LowMask(32 + k));
  }

  lemma SameAsItself(x: bv64, m: bv64)
    ensures Same(x, x, m)
  {}

  lemma KnownOperands(x: bv64, y: bv64)
    ensures Tnum.Constant(x).WellFormed() && Tnum.Constant(y).WellFormed()
    ensures Tnum.Constant(x).IsKnown() && Tnum.Constant(y).IsKnown()
    ensures Tnum.Constant(x).value == x && Tnum.Constant(y).value == y
  {}

  /** Moving 2^32, known to lie between 5 and 2^32, gives 0, while the checker still claims at least 5. */
  lemma Move32Wrong()
    ensures !MovesUnsigned(5, TWO32)
  {
    hide MovesUnsigned;
    UnsignedMoveExact(5, TWO32);
  }

  /** A 64-bit multiplication by an unknown factor leaves a state that contains no value at all. */
  lemma UnknownProductIsEmpty(d: Tnum, s: Tnum, v: bv64)
    requires !d.IsKnown() || !s.IsKnown()
    ensures !ScalarResult(MUL, d, s, true).Contains(v)
  {
    hide U, FromTracked, RegState.Contains, SignKnown, Disjoint, Member;
    UnknownHas(v);
    ConstantDisjoint(0xFFFF_FFFF_FFFF_FFFF);
    UnknownSignIsEmpty(Tnum.Unknown(), v);
  }
}

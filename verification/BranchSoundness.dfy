/** What a branch teaches the checker is true of the values that take it. */
module BranchSoundness {
  import opened Words
  import opened Tnums
  import opened TnumProofs
  import opened Instructions
  import opened RegStates
  import opened RegStateProofs
  import opened Transfer
  import opened Machine

  /** The side of the branch that `v` goes to still contains it. */
  predicate Kept(r: RegState, sides: (RegState, RegState), v: bv64, taken: bool) {
    if taken then sides.0.Contains(v) else sides.1.Contains(v)
  }

  // --- Narrowing one bound ---

  lemma KeepUmin(r: RegState, lo: U64, v: bv64)
    requires r.Contains(v) && lo <= U(v)
    ensures WithUmin(r, lo).Contains(v)
  {
    hide U, Tnum.Has, RegState.Refined;
    RefineSound(r.(umin := Max(r.umin, lo)), v);
  }

  lemma KeepUmax(r: RegState, hi: U64, v: bv64)
    requires r.Contains(v) && U(v) <= hi
    ensures WithUmax(r, hi).Contains(v)
  {
    hide U, Tnum.Has, RegState.Refined;
    RefineSound(r.(umax := Min(r.umax, hi)), v);
  }

  lemma KeepSmin(r: RegState, lo: I64, v: bv64)
    requires r.Contains(v) && lo <= S(v)
    ensures WithSmin(r, lo).Contains(v)
  {
    hide U, Tnum.Has, RegState.Refined;
    RefineSound(r.(smin := Max(r.smin, lo)), v);
  }

  lemma KeepSmax(r: RegState, hi: I64, v: bv64)
    requires r.Contains(v) && S(v) <= hi
    ensures WithSmax(r, hi).Contains(v)
  {
    hide U, Tnum.Has, RegState.Refined;
    RefineSound(r.(smax := Min(r.smax, hi)), v);
  }

  lemma ScalarValueHas(v: bv64)
    ensures ScalarValue(v).Contains(v)
  {
    hide U;
  }

  // --- JSET ---

  lemma ClearKeeps(v: bv64, value: bv64, mask: bv64, bits: bv64)
    requires Member(v, value, mask) && And(v, bits) == 0
    ensures Member(v, AndNot(value, bits), AndNot(mask, bits))
  {}

  lemma SetKeeps(v: bv64, value: bv64, mask: bv64, bits: bv64)
    requires Member(v, value, mask) && Sub(bits, v)
    ensures Member(v, Or(value, bits), AndNot(mask, bits))
  {}

  lemma AtomSet(v: bv64, e: bv64)
    requires Atom(v, e) && And(v, e) != 0
    ensures Sub(e, v)
  {}

  /** A single bit that is not clear is set. */
  lemma SingleBitSet(v: bv64, bits: bv64)
    requires SingleBit(bits) && And(v, bits) != 0
    ensures Sub(bits, v)
  {
    hide And, Sub, Atom, BitAt;
    var i: nat :| i < 64 && IsBit(bits, i);
    BitIsAtom(v, i);
    AtomSet(v, bits);
  }

  lemma TightenKeeps(r: RegState, v: bv64)
    requires r.Contains(v)
    ensures TightenToTnum(r).Contains(v)
  {
    hide U, Member, Or;
    MemberRange(r.tnum, v);
  }

  lemma WithTnum(r: RegState, t: Tnum, v: bv64)
    requires r.Contains(v) && t.Has(v)
    ensures r.(tnum := t).Contains(v)
  {
    hide U, Tnum.Has;
  }

  lemma BitsKept(r: RegState, bits: bv64, v: bv64)
    requires r.Contains(v)
    ensures And(v, bits) == 0 ==> r.(tnum := ClearBits(r.tnum, bits)).Contains(v)
    ensures SingleBit(bits) && And(v, bits) != 0 ==> r.(tnum := SetBits(r.tnum, bits)).Contains(v)
  {
    hide U, Member, And, AndNot, Or, SingleBit, Sub;
    if And(v, bits) == 0 {
      ClearKeeps(v, r.tnum.value, r.tnum.mask, bits);
      WithTnum(r, ClearBits(r.tnum, bits), v);
    } else if SingleBit(bits) {
      SingleBitSet(v, bits);
      SetKeeps(v, r.tnum.value, r.tnum.mask, bits);
      WithTnum(r, SetBits(r.tnum, bits), v);
    }
  }

  lemma JsetSound(r: RegState, val: bv64, v: bv64)
    requires r.Contains(v)
    ensures Kept(r, Refine64(r, JSET, val), v, And(v, val) != 0)
  {
    hide RegState.Contains, RegState.Refined, TightenToTnum, ClearBits, SetBits, SingleBit, And, U, S;
    BitsKept(r, val, v);
    if And(v, val) == 0 {
      var t := r.(tnum := ClearBits(r.tnum, val));
      TightenKeeps(t, v);
      RefineSound(TightenToTnum(t), v);
    } else if SingleBit(val) {
      var t := r.(tnum := SetBits(r.tnum, val));
      TightenKeeps(t, v);
      RefineSound(TightenToTnum(t), v);
    }
  }

  // --- 64-bit comparisons ---

  /** For every operator: a value for which the comparison holds stays on the taken side, any other on the
      fall-through side. */
  lemma Refine64Sound(r: RegState, op: JmpOp, val: bv64, v: bv64)
    requires r.Contains(v)
    ensures Kept(r, Refine64(r, op, val), v, Holds64(op, v, val))
  {
    hide RegState.Contains, U, S, WithUmin, WithUmax, WithSmin, WithSmax, ScalarValue, And;
    var u, s := U(val), S(val);
    match op
    case JEQ => ScalarValueHas(val);
    case JNE => ScalarValueHas(val);
    case JGT => if U(v) > u { KeepUmin(r, SatInc(u), v); } else { KeepUmax(r, u, v); }
    case JGE => if U(v) >= u { KeepUmin(r, u, v); } else { KeepUmax(r, SatDec(u), v); }
    case JLT => if U(v) < u { KeepUmax(r, SatDec(u), v); } else { KeepUmin(r, u, v); }
    case JLE => if U(v) <= u { KeepUmax(r, u, v); } else { KeepUmin(r, SatInc(u), v); }
    case JSGT => if S(v) > s { KeepSmin(r, SatIncS(s), v); } else { KeepSmax(r, s, v); }
    case JSGE => if S(v) >= s { KeepSmin(r, s, v); } else { KeepSmax(r, SatDecS(s), v); }
    case JSLT => if S(v) < s { KeepSmax(r, SatDecS(s), v); } else { KeepSmin(r, s, v); }
    case JSLE => if S(v) <= s { KeepSmax(r, s, v); } else { KeepSmin(r, SatIncS(s), v); }
    case JSET => JsetSound(r, val, v);
    case JA =>
  }

  // --- 32-bit comparisons ---

  lemma LowOfSmall(v: bv64)
    requires U(v) <= U32_MAX
    ensures Low(v) == v && S(v) == U(v)
  {
    hide U, Low;
    LowFits(v);
  }

  lemma ClampMinKeeps(r: RegState, lo: U64, v: bv64)
    requires r.Contains(v) && lo <= U(Low(v))
    ensures ClampMin(r, lo).Contains(v)
  {
    hide U, Tnum.Has, Low, RegState.Refined;
    if Is32Bit(r) {
      LowOfSmall(v);
    }
    RefineSound(if Is32Bit(r) then r.(umin := Max(r.umin, lo)) else r, v);
  }

  lemma ClampMaxKeeps(r: RegState, hi: U64, v: bv64)
    requires r.Contains(v) && U(Low(v)) <= hi
    ensures ClampMax(r, hi).Contains(v)
  {
    hide U, Tnum.Has, Low, RegState.Refined;
    if Is32Bit(r) {
      LowOfSmall(v);
    }
    RefineSound(if Is32Bit(r) then r.(umax := Min(r.umax, hi)) else r, v);
  }

  /** Signed 32-bit refinement treats the 64-bit value as the signed 32-bit one; both agree below 2^31. */
  predicate SignedAgrees(r: RegState) {
    r.umax <= 0x7FFF_FFFF || r.umax > U32_MAX
  }

  lemma ClampSminKeeps(r: RegState, lo: I64, v: bv64)
    requires r.Contains(v) && lo <= S32(v) && SignedAgrees(r)
    ensures ClampSmin(r, lo).Contains(v)
  {
    hide U, Tnum.Has, Low, WithSmin;
    if Is32Bit(r) {
      LowOfSmall(v);
      KeepSmin(r, lo, v);
    }
  }

  lemma ClampSmaxKeeps(r: RegState, hi: I64, v: bv64)
    requires r.Contains(v) && S32(v) <= hi && SignedAgrees(r)
    ensures ClampSmax(r, hi).Contains(v)
  {
    hide U, Tnum.Has, Low, WithSmax;
    if Is32Bit(r) {
      LowOfSmall(v);
      KeepSmax(r, hi, v);
    }
  }

  lemma ReplaceKeeps(v: bv64, value: bv64, mask: bv64)
    requires Member(v, value, mask)
    ensures Member(v, Or(AndNot(value, 0xFFFF_FFFF), Low(v)), AndNot(mask, 0xFFFF_FFFF))
  {}

  lemma EqualLowKeeps(r: RegState, v: bv64)
    requires r.Contains(v)
    ensures EqualLow(r, Low(v)).Contains(v)
  {
    hide U, Member, Low, RegState.Refined, Or, AndNot;
    ReplaceKeeps(v, r.tnum.value, r.tnum.mask);
    var r' := r.(tnum := ReplaceLow(r.tnum, Low(v)));
    WithTnum(r, ReplaceLow(r.tnum, Low(v)), v);
    if Is32Bit(r') {
      LowOfSmall(v);
    }
    RefineSound(if Is32Bit(r') then r'.(umin := Max(r'.umin, U(Low(v))), umax := Min(r'.umax, U(Low(v)))) else r', v);
  }

  lemma AndLows(v: bv64, val: bv64)
    ensures And(v, val & 0xFFFF_FFFF) == And(v & 0xFFFF_FFFF, val & 0xFFFF_FFFF)
  {}

  lemma TightenLowKeeps(r: RegState, v: bv64)
    requires r.Contains(v)
    ensures Tighten32(r).Contains(v)
  {
    hide RegState.Contains, RegState.Refined, TightenToTnum;
    TightenKeeps(r, v);
    RefineSound(if Is32Bit(r) then TightenToTnum(r) else r, v);
  }

  lemma JsetLowSound(r: RegState, val: bv64, v: bv64)
    requires r.Contains(v)
    ensures Kept(r, Refine32(r, JSET, val), v, And(Low(v), Low(val)) != 0)
  {
    hide RegState.Contains, Tighten32, ClearBits, SetBits, SingleBit, And, U, S32;
    AndLows(v, val);
    BitsKept(r, Low(val), v);
    if And(v, Low(val)) == 0 {
      TightenLowKeeps(r.(tnum := ClearBits(r.tnum, Low(val))), v);
    } else if SingleBit(Low(val)) {
      TightenLowKeeps(r.(tnum := SetBits(r.tnum, Low(val))), v);
    }
  }

  predicate IsSignedOp(op: JmpOp) { op == JSGT || op == JSGE || op == JSLT || op == JSLE }

  lemma Unsigned32Sound(r: RegState, op: JmpOp, val: bv64, v: bv64)
    requires r.Contains(v) && !IsSignedOp(op)
    ensures Kept(r, Refine32(r, op, val), v, Holds32(op, v, val))
  {
    hide RegState.Contains, U, S32, Low, ClampMin, ClampMax, ClampSmin, ClampSmax, EqualLow, And;
    var u := U(Low(val));
    match op
    case JEQ => EqualLowKeeps(r, v);
    case JNE => EqualLowKeeps(r, v);
    case JGT => if U(Low(v)) > u { ClampMinKeeps(r, SatInc(u), v); } else { ClampMaxKeeps(r, u, v); }
    case JGE => if U(Low(v)) >= u { ClampMinKeeps(r, u, v); } else { ClampMaxKeeps(r, SatDec(u), v); }
    case JLT => if U(Low(v)) < u { ClampMaxKeeps(r, SatDec(u), v); } else { ClampMinKeeps(r, u, v); }
    case JLE => if U(Low(v)) <= u { ClampMaxKeeps(r, u, v); } else { ClampMinKeeps(r, SatInc(u), v); }
    case JSET => JsetLowSound(r, val, v);
    case _ =>
  }

  lemma Signed32Sound(r: RegState, op: JmpOp, val: bv64, v: bv64)
    requires r.Contains(v) && IsSignedOp(op) && SignedAgrees(r)
    ensures Kept(r, Refine32(r, op, val), v, Holds32(op, v, val))
  {
    hide RegState.Contains, U, S32, Low, ClampMin, ClampMax, ClampSmin, ClampSmax, EqualLow, And;
    var s := S32(val);
    match op
    case JSGT => if S32(v) > s { ClampSminKeeps(r, SatIncS(s), v); } else { ClampSmaxKeeps(r, s, v); }
    case JSGE => if S32(v) >= s { ClampSminKeeps(r, s, v); } else { ClampSmaxKeeps(r, SatDecS(s), v); }
    case JSLT => if S32(v) < s { ClampSmaxKeeps(r, SatDecS(s), v); } else { ClampSminKeeps(r, s, v); }
    case JSLE => if S32(v) <= s { ClampSmaxKeeps(r, s, v); } else { ClampSminKeeps(r, SatIncS(s), v); }
    case _ =>
  }

  /** A 32-bit branch keeps every value on its side: always for unsigned, equality and bit tests, and for signed
      comparisons when the two readings agree. */
  lemma Refine32Sound(r: RegState, op: JmpOp, val: bv64, v: bv64)
    requires r.Contains(v) && (IsSignedOp(op) ==> SignedAgrees(r))
    ensures Kept(r, Refine32(r, op, val), v, Holds32(op, v, val))
  {
    hide *;
    if IsSignedOp(op) {
      Signed32Sound(r, op, val, v);
    } else {
      Unsigned32Sound(r, op, val, v);
    }
  }

  // --- The signed condition is exact ---

  ghost predicate SignedSoundAt(umax: U64) {
    forall r: RegState, op, val, v ::
      r.umax == umax && r.Contains(v) && IsSignedOp(op) ==> Kept(r, Refine32(r, op, val), v, Holds32(op, v, val))
  }

  /** A 32-bit value with bit 31 set is negative for the comparison and positive for the bounds. */
  lemma SignedLosesValue(v: bv64)
    requires 0x8000_0000 <= U(v) <= U32_MAX
    ensures ScalarValue(v).Contains(v) && !Holds32(JSGT, v, 0) && !Refine32(ScalarValue(v), JSGT, 0).1.Contains(v)
  {
    hide U, Low, B, Member, Or;
    UConstants();
    LowOfSmall(v);
    LowOfSmall(0);
    OrZero(v);
    ScalarValueHas(v);
    assert Refine32(ScalarValue(v), JSGT, 0).1 == WithSmax(ScalarValue(v), 0);
    assert !WithSmax(ScalarValue(v), 0).Contains(v);
  }

  lemma Signed32Exact(umax: U64)
    ensures SignedSoundAt(umax) <==> umax <= 0x7FFF_FFFF || umax > U32_MAX
  {
    hide U, RegState.Contains, Kept, Refine32, Holds32, B, ScalarValue;
    if umax <= 0x7FFF_FFFF || umax > U32_MAX {
      forall r: RegState, op, val, v | r.umax == umax && r.Contains(v) && IsSignedOp(op)
        ensures Kept(r, Refine32(r, op, val), v, Holds32(op, v, val))
      {
        Signed32Sound(r, op, val, v);
      }
    } else {
      var v := B(umax);
      UOfB(umax);
      SignedLosesValue(v);
      UmaxOfValue(v);
      KeptOnFall(ScalarValue(v), Refine32(ScalarValue(v), JSGT, 0), v);
      assert IsSignedOp(JSGT);
    }
  }

  lemma UmaxOfValue(v: bv64)
    ensures ScalarValue(v).umax == U(v)
  {
    hide U;
  }

  lemma KeptOnFall(r: RegState, sides: (RegState, RegState), v: bv64)
    ensures Kept(r, sides, v, false) <==> sides.1.Contains(v)
  {
    hide RegState.Contains;
  }

  // --- Types of results ---

  lemma RefinedKind(r: RegState)
    ensures r.Refined().kind == r.kind
  {
    hide U, B, Or;
  }

  lemma RefinedSideKinds(r: RegState, op: JmpOp, val: bv64)
    requires r.kind.Scalar?
    ensures Refine64(r, op, val).0.kind.Scalar? && Refine64(r, op, val).1.kind.Scalar?
    ensures Refine32(r, op, val).0.kind.Scalar? && Refine32(r, op, val).1.kind.Scalar?
  {
    hide U, S, Or, AndNot, Low, S32, SingleBit, RegState.Refined, Tnum.MinValue, Tnum.MaxValue;
    forall x: RegState
      ensures x.Refined().kind == x.kind
    {
      RefinedKind(x);
    }
  }

  lemma ResultKind(op: AluOp, d: Tnum, s: Tnum, is64: bool)
    requires op != MOV && op != NEG
    ensures ScalarResult(op, d, s, is64).kind.Scalar?
  {
    hide ScalarTnum, U, RegState.Refined, Low, Or, S;
    var t := ScalarTnum(op, d, s);
    forall r: RegState
      ensures r.Refined().kind == r.kind
    {
      RefinedKind(r);
    }
  }

  lemma KindOfValue(v: bv64)
    ensures ScalarValue(v).kind.Scalar?
  {
    hide U, S;
  }
}

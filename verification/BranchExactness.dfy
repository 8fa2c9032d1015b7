/** A branch teaches the checker exactly what the comparison says, wherever a state can express it. */
module BranchExactness {
  import opened Words
  import opened Tnums
  import opened Instructions
  import opened RegStates
  import opened RegStateProofs
  import opened Transfer
  import opened Machine
  import opened BranchSoundness

  /** The states of a comparison's two sides, as one choice. */
  function Side(sides: (RegState, RegState), taken: bool): RegState {
    if taken then sides.0 else sides.1
  }

  /** On this side the comparison says something a state can express: not "different from", nor "some of these bits". */
  predicate Expressible(op: JmpOp, bits: bv64, taken: bool) {
    match op
    case JA => taken
    case JEQ => taken
    case JNE => !taken
    case JSET => taken ==> SingleBit(bits)
    case _ => true
  }

  // --- Bounds ---

  lemma UminExact(r: RegState, lo: U64, v: bv64, w: bv64)
    requires r.Contains(w) && lo <= U(w)
    ensures WithUmin(r, lo).Contains(v) <==> r.Contains(v) && lo <= U(v)
  {
    hide U, Tnum.Has, RegState.Refined;
    RefineExact(r.(umin := Max(r.umin, lo)), v, w);
  }

  lemma UmaxExact(r: RegState, hi: U64, v: bv64, w: bv64)
    requires r.Contains(w) && U(w) <= hi
    ensures WithUmax(r, hi).Contains(v) <==> r.Contains(v) && U(v) <= hi
  {
    hide U, Tnum.Has, RegState.Refined;
    RefineExact(r.(umax := Min(r.umax, hi)), v, w);
  }

  lemma SminExact(r: RegState, lo: I64, v: bv64, w: bv64)
    requires r.Contains(w) && lo <= S(w)
    ensures WithSmin(r, lo).Contains(v) <==> r.Contains(v) && lo <= S(v)
  {
    hide U, Tnum.Has, RegState.Refined;
    RefineExact(r.(smin := Max(r.smin, lo)), v, w);
  }

  lemma SmaxExact(r: RegState, hi: I64, v: bv64, w: bv64)
    requires r.Contains(w) && S(w) <= hi
    ensures WithSmax(r, hi).Contains(v) <==> r.Contains(v) && S(v) <= hi
  {
    hide U, Tnum.Has, RegState.Refined;
    RefineExact(r.(smax := Min(r.smax, hi)), v, w);
  }

  // --- Bits ---

  lemma ClearOnly(v: bv64, w: bv64, value: bv64, mask: bv64, bits: bv64)
    requires Member(w, value, mask) && And(w, bits) == 0
    requires Member(v, AndNot(value, bits), AndNot(mask, bits))
    ensures Member(v, value, mask) && And(v, bits) == 0
  {}

  lemma SetOnly(v: bv64, w: bv64, value: bv64, mask: bv64, bits: bv64)
    requires Member(w, value, mask) && Sub(bits, w)
    requires Member(v, Or(value, bits), AndNot(mask, bits))
    ensures Member(v, value, mask) && Sub(bits, v)
  {}

  lemma SubMeets(bits: bv64, v: bv64)
    requires Sub(bits, v) && bits != 0
    ensures And(v, bits) != 0
  {}

  lemma MeetsNothing(v: bv64)
    ensures And(v, 0) == 0
  {}

  lemma ClearExact(r: RegState, bits: bv64, v: bv64, w: bv64)
    requires r.Contains(w) && And(w, bits) == 0
    ensures r.(tnum := ClearBits(r.tnum, bits)).Contains(v) <==> r.Contains(v) && And(v, bits) == 0
  {
    hide U, Member, And, AndNot;
    if r.(tnum := ClearBits(r.tnum, bits)).tnum.Has(v) {
      ClearOnly(v, w, r.tnum.value, r.tnum.mask, bits);
    }
    if r.Contains(v) && And(v, bits) == 0 {
      ClearKeeps(v, r.tnum.value, r.tnum.mask, bits);
    }
  }

  lemma SetExact(r: RegState, bits: bv64, v: bv64, w: bv64)
    requires r.Contains(w) && And(w, bits) != 0 && SingleBit(bits)
    ensures r.(tnum := SetBits(r.tnum, bits)).Contains(v) <==> r.Contains(v) && And(v, bits) != 0
  {
    hide U, Member, And, AndNot, Or, Sub, SingleBit;
    SingleBitSet(w, bits);
    MeetsNothing(w);
    if r.(tnum := SetBits(r.tnum, bits)).tnum.Has(v) {
      SetOnly(v, w, r.tnum.value, r.tnum.mask, bits);
      SubMeets(bits, v);
    }
    if r.Contains(v) && And(v, bits) != 0 {
      SingleBitSet(v, bits);
      SetKeeps(v, r.tnum.value, r.tnum.mask, bits);
    }
  }

  lemma TightenExact(r: RegState, v: bv64)
    ensures TightenToTnum(r).Contains(v) <==> r.Contains(v)
  {
    hide U, Member, Or;
    if r.tnum.Has(v) {
      MemberRange(r.tnum, v);
    }
  }

  lemma TightenRefineExact(r: RegState, v: bv64, w: bv64)
    requires r.Contains(w)
    ensures TightenToTnum(r).Refined().Contains(v) <==> r.Contains(v)
  {
    hide RegState.Contains, TightenToTnum, RegState.Refined;
    TightenExact(r, w);
    TightenExact(r, v);
    RefineExact(TightenToTnum(r), v, w);
  }

  lemma JsetExact(r: RegState, val: bv64, taken: bool, v: bv64, w: bv64)
    requires r.Contains(w) && (And(w, val) != 0) == taken && (taken ==> SingleBit(val))
    ensures Side(Refine64(r, JSET, val), taken).Contains(v) <==> r.Contains(v) && (And(v, val) != 0) == taken
  {
    hide RegState.Contains, RegState.Refined, TightenToTnum, ClearBits, SetBits, SingleBit, And, U, S;
    if taken {
      SetExact(r, val, v, w);
      SetExact(r, val, w, w);
      TightenRefineExact(r.(tnum := SetBits(r.tnum, val)), v, w);
    } else {
      ClearExact(r, val, v, w);
      ClearExact(r, val, w, w);
      TightenRefineExact(r.(tnum := ClearBits(r.tnum, val)), v, w);
    }
  }

  // --- 64-bit comparisons ---

  lemma OnlyScalarValue(val: bv64, v: bv64)
    ensures ScalarValue(val).Contains(v) <==> v == val
  {
    hide U, Member;
    IsConstant(v, val);
  }

  /** If some value of the state goes this way, the side's state stands for exactly the values that do: those of the
      state for which the comparison comes out so. */
  lemma Refine64Exact(r: RegState, op: JmpOp, val: bv64, taken: bool, v: bv64, w: bv64)
    requires Expressible(op, val, taken) && r.Contains(w) && Holds64(op, w, val) == taken
    ensures Side(Refine64(r, op, val), taken).Contains(v) <==> r.Contains(v) && Holds64(op, v, val) == taken
  {
    hide RegState.Contains, U, S, WithUmin, WithUmax, WithSmin, WithSmax, ScalarValue, And, SingleBit;
    var u, s := U(val), S(val);
    match op
    case JA =>
    case JEQ => OnlyScalarValue(val, v);
    case JNE => OnlyScalarValue(val, v);
    case JGT => if taken { UminExact(r, SatInc(u), v, w); } else { UmaxExact(r, u, v, w); }
    case JGE => if taken { UminExact(r, u, v, w); } else { UmaxExact(r, SatDec(u), v, w); }
    case JLT => if taken { UmaxExact(r, SatDec(u), v, w); } else { UminExact(r, u, v, w); }
    case JLE => if taken { UmaxExact(r, u, v, w); } else { UminExact(r, SatInc(u), v, w); }
    case JSGT => if taken { SminExact(r, SatIncS(s), v, w); } else { SmaxExact(r, s, v, w); }
    case JSGE => if taken { SminExact(r, s, v, w); } else { SmaxExact(r, SatDecS(s), v, w); }
    case JSLT => if taken { SmaxExact(r, SatDecS(s), v, w); } else { SminExact(r, s, v, w); }
    case JSLE => if taken { SmaxExact(r, s, v, w); } else { SminExact(r, SatIncS(s), v, w); }
    case JSET => JsetExact(r, val, taken, v, w);
  }

  /** On the other sides nothing is learned. */
  lemma OtherSidesUnchanged(r: RegState, op: JmpOp, val: bv64, taken: bool)
    requires !Expressible(op, val, taken)
    ensures Side(Refine64(r, op, val), taken) == r
  {
    hide U, S, WithUmin, WithUmax, WithSmin, WithSmax, ScalarValue, SingleBit, TightenToTnum, RegState.Refined;
    hide ClearBits, SetBits;
  }

  // --- 32-bit comparisons ---

  lemma ClampMinExact(r: RegState, lo: U64, v: bv64, w: bv64)
    requires Is32Bit(r) && r.Contains(w) && lo <= U(w)
    ensures ClampMin(r, lo).Contains(v) <==> r.Contains(v) && lo <= U(v)
  {
    hide U, Tnum.Has, RegState.Refined;
    UminExact(r, lo, v, w);
  }

  lemma ClampMaxExact(r: RegState, hi: U64, v: bv64, w: bv64)
    requires Is32Bit(r) && r.Contains(w) && U(w) <= hi
    ensures ClampMax(r, hi).Contains(v) <==> r.Contains(v) && U(v) <= hi
  {
    hide U, Tnum.Has, RegState.Refined;
    UmaxExact(r, hi, v, w);
  }

  lemma EqualLowExact(r: RegState, low: bv64, v: bv64, w: bv64)
    requires Is32Bit(r) && r.Contains(w) && Low(w) == low
    ensures EqualLow(r, low).Contains(v) <==> v == w
  {
    hide U, Member, Low, RegState.Refined, Or, AndNot;
    LowOfSmall(w);
    ReplaceKeeps(w, r.tnum.value, r.tnum.mask);
    var pre := r.(tnum := ReplaceLow(r.tnum, low)).(umin := Max(r.umin, U(low)), umax := Min(r.umax, U(low)));
    assert pre.Contains(w);
    RefineExact(pre, v, w);
    if pre.Contains(v) {
      UInjective(v, w);
    }
  }

  lemma JsetLowExact(r: RegState, val: bv64, taken: bool, v: bv64, w: bv64)
    requires Is32Bit(r) && r.Contains(w)
    requires (And(Low(w), Low(val)) != 0) == taken && (taken ==> SingleBit(Low(val)))
    ensures Side(Refine32(r, JSET, val), taken).Contains(v) <==>
              r.Contains(v) && (And(Low(v), Low(val)) != 0) == taken
  {
    hide RegState.Contains, RegState.Refined, TightenToTnum, ClearBits, SetBits, SingleBit, And, U, S32;
    AndLows(w, val);
    AndLows(v, val);
    var low := Low(val);
    if taken {
      SetExact(r, low, v, w);
      SetExact(r, low, w, w);
      TightenRefineExact(r.(tnum := SetBits(r.tnum, low)), v, w);
    } else {
      ClearExact(r, low, v, w);
      ClearExact(r, low, w, w);
      TightenRefineExact(r.(tnum := ClearBits(r.tnum, low)), v, w);
    }
  }

  lemma ContainedIsSmall(r: RegState, v: bv64)
    requires Is32Bit(r) && r.Contains(v)
    ensures U(v) <= r.umax && Low(v) == v
    ensures r.umax <= 0x7FFF_FFFF ==> S32(v) == S(v)
  {
    hide U, Tnum.Has, Low;
    LowOfSmall(v);
  }

  lemma SameWord(r: RegState, v: bv64, w: bv64)
    requires Is32Bit(r) && r.Contains(v) && r.Contains(w) && Low(v) == Low(w)
    ensures v == w
  {
    hide RegState.Contains, U, Low;
    ContainedIsSmall(r, v);
    ContainedIsSmall(r, w);
  }

  lemma Signed32SideExact(r: RegState, op: JmpOp, val: bv64, taken: bool, v: bv64, w: bv64)
    requires Is32Bit(r) && IsSignedOp(op) && r.umax <= 0x7FFF_FFFF
    requires r.Contains(w) && Holds32(op, w, val) == taken
    ensures Side(Refine32(r, op, val), taken).Contains(v) <==> r.Contains(v) && Holds32(op, v, val) == taken
  {
    hide RegState.Contains, U, S, S32, Low, WithSmin, WithSmax, ClampMin, ClampMax, EqualLow, And, SingleBit;
    var s := S32(val);
    ContainedIsSmall(r, w);
    if r.Contains(v) {
      ContainedIsSmall(r, v);
    }
    match op
    case JSGT => if taken { SminExact(r, SatIncS(s), v, w); } else { SmaxExact(r, s, v, w); }
    case JSGE => if taken { SminExact(r, s, v, w); } else { SmaxExact(r, SatDecS(s), v, w); }
    case JSLT => if taken { SmaxExact(r, SatDecS(s), v, w); } else { SminExact(r, s, v, w); }
    case JSLE => if taken { SmaxExact(r, s, v, w); } else { SminExact(r, SatIncS(s), v, w); }
    case _ =>
  }

  lemma Equal32SideExact(r: RegState, op: JmpOp, val: bv64, taken: bool, v: bv64, w: bv64)
    requires Is32Bit(r) && op in {JEQ, JNE} && taken == (op == JEQ)
    requires r.Contains(w) && Holds32(op, w, val) == taken
    ensures Side(Refine32(r, op, val), taken).Contains(v) <==> r.Contains(v) && Holds32(op, v, val) == taken
  {
    hide RegState.Contains, U, S, S32, Low, EqualLow;
    EqualLowExact(r, Low(val), v, w);
    if r.Contains(v) && Low(v) == Low(w) {
      SameWord(r, v, w);
    }
  }

  lemma Unsigned32SideExact(r: RegState, op: JmpOp, val: bv64, taken: bool, v: bv64, w: bv64)
    requires Is32Bit(r) && op in {JGT, JGE, JLT, JLE}
    requires r.Contains(w) && Holds32(op, w, val) == taken
    ensures Side(Refine32(r, op, val), taken).Contains(v) <==> r.Contains(v) && Holds32(op, v, val) == taken
  {
    hide RegState.Contains, U, S, S32, Low, ClampMin, ClampMax;
    var u := U(Low(val));
    ContainedIsSmall(r, w);
    if r.Contains(v) {
      ContainedIsSmall(r, v);
    }
    match op
    case JGT => if taken { ClampMinExact(r, SatInc(u), v, w); } else { ClampMaxExact(r, u, v, w); }
    case JGE => if taken { ClampMinExact(r, u, v, w); } else { ClampMaxExact(r, SatDec(u), v, w); }
    case JLT => if taken { ClampMaxExact(r, SatDec(u), v, w); } else { ClampMinExact(r, u, v, w); }
    case JLE => if taken { ClampMaxExact(r, u, v, w); } else { ClampMinExact(r, SatInc(u), v, w); }
    case _ =>
  }

  /** The same for 32-bit comparisons of a state within 32 bits, and within 31 for signed ones. */
  lemma Refine32Exact(r: RegState, op: JmpOp, val: bv64, taken: bool, v: bv64, w: bv64)
    requires Is32Bit(r) && (IsSignedOp(op) ==> r.umax <= 0x7FFF_FFFF)
    requires Expressible(op, Low(val), taken) && r.Contains(w) && Holds32(op, w, val) == taken
    ensures Side(Refine32(r, op, val), taken).Contains(v) <==> r.Contains(v) && Holds32(op, v, val) == taken
  {
    hide RegState.Contains, U, S, S32, Low, WithSmin, WithSmax, ClampMin, ClampMax, EqualLow, And, SingleBit;
    match op
    case JA =>
    case JSET => JsetLowExact(r, val, taken, v, w);
    case _ =>
      if IsSignedOp(op) {
        Signed32SideExact(r, op, val, taken, v, w);
      } else if op in {JEQ, JNE} {
        Equal32SideExact(r, op, val, taken, v, w);
      } else {
        Unsigned32SideExact(r, op, val, taken, v, w);
      }
  }
}

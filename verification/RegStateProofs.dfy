/** Reduction, widening and order of register states, against the words they stand for. */
module RegStateProofs {
  import opened Words
  import opened Tnums
  import opened TnumProofs
  import opened RegStates

  // --- A member lies between the numbers its tracked number allows ---

  lemma MemberRange(t: Tnum, v: bv64)
    requires t.Has(v)
    ensures t.MinValue() <= U(v) <= t.MaxValue()
  {
    hide Member, U, Or, Sub;
    MemberAbove(v, t.value, t.mask);
    MemberBelow(v, t.value, t.mask);
    SubMonotone(t.value, v);
    SubMonotone(v, Or(t.value, t.mask));
  }

  lemma SubMonotone(x: bv64, y: bv64)
    requires Sub(x, y)
    ensures U(x) <= U(y)
  {
    hide U;
    UMonotone(x, y);
  }

  lemma OnlyValue(v: bv64, n: U64)
    requires U(v) == n
    ensures Tnum.Constant(B(n)).Has(v) && AsI64(n) == S(v)
    ensures forall w :: Tnum.Constant(B(n)).Has(w) ==> w == v
  {
    hide U, B, Member;
    BOfU(v);
    CastsAgree(v, 0);
    IsConstant(v, v);
    forall w | Member(w, v, 0)
      ensures w == v
    {
      IsConstant(w, v);
    }
  }

  lemma IsConstant(w: bv64, v: bv64)
    ensures Member(w, v, 0) <==> w == v
  {}

  // --- refine_bounds is an exact reduction ---

  lemma FromTnumExact(r: RegState, v: bv64)
    ensures r.Contains(v) <==> r.FromTnum().Contains(v)
  {
    hide U, Member, Or;
    if r.tnum.Has(v) {
      MemberRange(r.tnum, v);
    }
  }

  lemma CollapseTnumExact(r: RegState, v: bv64, w: bv64)
    requires r.Contains(w)
    ensures r.Contains(v) <==> r.CollapseTnum().Contains(v)
  {
    hide U, B, Member;
    if r.umin == r.umax {
      OnlyValue(w, r.umin);
      if U(v) == r.umin {
        UInjective(v, w);
      }
    }
  }

  lemma SignedExact(r: RegState, v: bv64)
    ensures r.Contains(v) <==> r.SignedFromUnsigned().Contains(v)
  {
    hide U, Member;
  }

  lemma UnsignedExact(r: RegState, v: bv64)
    ensures r.Contains(v) <==> r.UnsignedFromSigned().Contains(v)
  {
    hide U, Member;
  }

  lemma CollapseExact(r: RegState, v: bv64, w: bv64)
    requires r.Contains(w)
    ensures r.Contains(v) <==> r.Collapse().Contains(v)
  {
    hide U, B, Member;
    if r.umin == r.umax {
      OnlyValue(w, r.umin);
      if U(v) == r.umin {
        UInjective(v, w);
      }
    }
  }

  /** On a state that stands for something, refinement keeps exactly the same words. */
  lemma RefineExact(r: RegState, v: bv64, w: bv64)
    requires r.Contains(w)
    ensures r.Contains(v) <==> r.Refined().Contains(v)
  {
    hide U, B, Member;
    hide RegState.Contains, RegState.FromTnum, RegState.CollapseTnum, RegState.SignedFromUnsigned,
         RegState.UnsignedFromSigned, RegState.Collapse;
    var r1 := r.FromTnum();
    var r2 := r1.CollapseTnum();
    var r3 := r2.SignedFromUnsigned();
    var r4 := r3.UnsignedFromSigned();
    FromTnumExact(r, w);
    FromTnumExact(r, v);
    CollapseTnumExact(r1, w, w);
    CollapseTnumExact(r1, v, w);
    SignedExact(r2, w);
    SignedExact(r2, v);
    UnsignedExact(r3, w);
    UnsignedExact(r3, v);
    CollapseExact(r4, w, w);
    CollapseExact(r4, v, w);
  }

  lemma RefineSound(r: RegState, v: bv64)
    requires r.Contains(v)
    ensures r.Refined().Contains(v)
  {
    hide *;
    RefineExact(r, v, v);
  }

  /** Nothing is left to tighten. */
  predicate IsReduced(r: RegState) {
    r.Refined() == r
  }

  lemma ConstantRange(n: U64)
    ensures Tnum.Constant(B(n)).MinValue() == n && Tnum.Constant(B(n)).MaxValue() == n
  {
    hide U, B;
    UOfB(n);
    OrZero(B(n));
  }

  lemma OrZero(x: bv64)
    ensures Or(x, 0) == x
  {}

  predicate TnumBounds(r: RegState) {
    r.tnum.MinValue() <= r.umin <= r.umax <= r.tnum.MaxValue()
  }

  predicate Collapsed(r: RegState) {
    r.umin == r.umax ==> r.tnum == Tnum.Constant(B(r.umin)) && r.smin == r.smax == AsI64(r.umin)
  }

  predicate SignedGivesUnsigned(r: RegState) {
    r.smin >= 0 ==> r.smin <= r.umin && r.umax <= AsU64(r.smax)
  }

  predicate UnsignedGivesSigned(r: RegState) {
    r.umax <= I64_MAX ==> r.umin <= r.smin && r.smax <= r.umax
  }

  predicate AfterOnePass(r: RegState) {
    TnumBounds(r) && Collapsed(r) && SignedGivesUnsigned(r)
  }

  lemma FromTnumBounds(r: RegState, w: bv64)
    requires r.Contains(w)
    ensures TnumBounds(r.FromTnum().CollapseTnum())
  {
    hide U, B, Member, Or;
    MemberRange(r.tnum, w);
    ConstantRange(r.FromTnum().umin);
  }

  lemma SignedPasses(r: RegState, w: bv64)
    requires TnumBounds(r) && r.Contains(w)
    ensures TnumBounds(r.SignedFromUnsigned().UnsignedFromSigned())
    ensures SignedGivesUnsigned(r.SignedFromUnsigned().UnsignedFromSigned())
  {
    hide U, B, Member, Or;
    SignedExact(r, w);
    UnsignedExact(r.SignedFromUnsigned(), w);
  }

  lemma CollapsePass(r: RegState, w: bv64)
    requires TnumBounds(r) && SignedGivesUnsigned(r) && r.Contains(w)
    ensures AfterOnePass(r.Collapse())
  {
    hide U, B, Member, Or;
    ConstantRange(r.umin);
  }

  lemma OnePass(r: RegState, w: bv64)
    requires r.Contains(w)
    ensures AfterOnePass(r.Refined())
  {
    hide U, B, Member, Or, RegState.Contains, TnumBounds, Collapsed, SignedGivesUnsigned;
    hide RegState.FromTnum, RegState.CollapseTnum, RegState.SignedFromUnsigned,
         RegState.UnsignedFromSigned, RegState.Collapse;
    var r2 := r.FromTnum().CollapseTnum();
    FromTnumExact(r, w);
    CollapseTnumExact(r.FromTnum(), w, w);
    FromTnumBounds(r, w);
    SignedPasses(r2, w);
    SignedExact(r2, w);
    UnsignedExact(r2.SignedFromUnsigned(), w);
    CollapsePass(r2.SignedFromUnsigned().UnsignedFromSigned(), w);
  }

  lemma TwoPasses(r: RegState, w: bv64)
    requires AfterOnePass(r) && r.Contains(w)
    ensures AfterOnePass(r.Refined()) && UnsignedGivesSigned(r.Refined())
  {
    hide U, B, Member, Or, Tnum.MinValue, Tnum.MaxValue;
    OnePass(r, w);
  }

  lemma SettledIsReduced(r: RegState)
    requires AfterOnePass(r) && UnsignedGivesSigned(r)
    ensures IsReduced(r)
  {
    hide U, B, Member, Or, Tnum.MinValue, Tnum.MaxValue;
  }

  /** The bounds agree with one another and with the tracked number: the unsigned ones lie within it, equal ones settle
      everything, and of the signed and unsigned ranges each lies within the other wherever the signs allow it. */
  predicate Agrees(r: RegState) {
    && r.tnum.MinValue() <= r.umin <= r.umax <= r.tnum.MaxValue()
    && (r.umin == r.umax ==> r.tnum == Tnum.Constant(B(r.umin)) && r.smin == r.smax == AsI64(r.umin))
    && (r.smin >= 0 ==> r.smin <= r.umin && r.umax <= AsU64(r.smax))
    && (r.umax <= I64_MAX ==> r.umin <= r.smin && r.smax <= r.umax)
  }

  lemma AgreesIs(r: RegState)
    ensures Agrees(r) <==> AfterOnePass(r) && UnsignedGivesSigned(r)
  {}

  /** Two reductions reach a fixed point: a third changes nothing. */
  lemma RefineTwiceReduces(r: RegState, w: bv64)
    requires r.Contains(w)
    ensures IsReduced(r.Refined().Refined()) && Agrees(r.Refined().Refined())
  {
    hide *;
    OnePass(r, w);
    RefineSound(r, w);
    TwoPasses(r.Refined(), w);
    AgreesIs(r.Refined().Refined());
    SettledIsReduced(r.Refined().Refined());
  }

  /** The states that reduction leaves as they are, among those that stand for something, are those whose bounds
      agree. */
  lemma ReducedAgrees(r: RegState, w: bv64)
    requires r.Contains(w)
    ensures r.Refined() == r <==> Agrees(r)
  {
    hide AfterOnePass, UnsignedGivesSigned, Agrees, RegState.Refined, RegState.Contains;
    AgreesIs(r);
    if r.Refined() == r {
      OnePass(r, w);
      TwoPasses(r, w);
    }
    if Agrees(r) {
      SettledIsReduced(r);
    }
  }
}

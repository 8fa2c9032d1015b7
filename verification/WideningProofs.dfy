/** Widening as a join, and the order it is measured against. */
module WideningProofs {
  import opened Words
  import opened Tnums
  import opened TnumProofs
  import opened RegStates
  import opened RegStateProofs

  // --- The order ---

  lemma WithinBits(v: bv64, av: bv64, am: bv64, bv: bv64, bm: bv64)
    requires Refines(av, am, bv, bm) && Member(v, av, am) && Disjoint(bv, bm)
    ensures Member(v, bv, bm)
  {}

  /** A substate stands for no more words than the state above it. */
  lemma SubstateSound(a: RegState, b: RegState, v: bv64)
    requires a.BoundsWithin(b) && a.Contains(v) && b.tnum.WellFormed()
    ensures b.Contains(v)
  {
    hide U, Member, Refines, Disjoint;
    WithinBits(v, a.tnum.value, a.tnum.mask, b.tnum.value, b.tnum.mask);
  }

  lemma RefinesReflexive(v: bv64, m: bv64)
    ensures Refines(v, m, v, m)
  {}

  lemma RefinesTransitive(av: bv64, am: bv64, bv: bv64, bm: bv64, cv: bv64, cm: bv64)
    requires Refines(av, am, bv, bm) && Refines(bv, bm, cv, cm)
    ensures Refines(av, am, cv, cm)
  {}

  /** One state is a substate of another exactly when the types are the same and, of numbers, the ranges and the tracked
      number lie within. */
  lemma SubstateMeans(a: RegState, b: RegState)
    ensures a.IsSubstateOf(b) <==>
              && a.kind == b.kind
              && (a.kind.Scalar? ==>
                    && b.umin <= a.umin && a.umax <= b.umax && b.smin <= a.smin && a.smax <= b.smax
                    && a.tnum.Within(b.tnum))
  {
    hide Refines;
  }

  lemma SubstateReflexive(a: RegState)
    ensures a.IsSubstateOf(a)
  {
    hide Refines;
    RefinesReflexive(a.tnum.value, a.tnum.mask);
  }

  lemma SubstateTransitive(a: RegState, b: RegState, c: RegState)
    requires a.IsSubstateOf(b) && b.IsSubstateOf(c)
    ensures a.IsSubstateOf(c)
  {
    hide Refines;
    if a.kind.Scalar? {
      RefinesTransitive(a.tnum.value, a.tnum.mask, b.tnum.value, b.tnum.mask, c.tnum.value, c.tnum.mask);
    }
  }

  // --- Widening covers both sides ---

  lemma JoinCovers(v: bv64, av: bv64, am: bv64, bv: bv64, bm: bv64)
    requires Member(v, av, am) && Disjoint(bv, bm)
    ensures Member(v, And(av, bv), JoinMask(av, am, bv, bm))
  {}

  lemma JoinCommutes(av: bv64, am: bv64, bv: bv64, bm: bv64)
    ensures And(av, bv) == And(bv, av) && JoinMask(av, am, bv, bm) == JoinMask(bv, bm, av, am)
  {}

  lemma HullSound(a: RegState, b: RegState, v: bv64)
    requires a.tnum.WellFormed() && b.tnum.WellFormed()
    requires a.Contains(v) || b.Contains(v)
    ensures a.Hull(b).Contains(v)
  {
    hide U, Member, And, JoinMask, Disjoint;
    var ta, tb := a.tnum, b.tnum;
    if a.Contains(v) {
      JoinCovers(v, ta.value, ta.mask, tb.value, tb.mask);
    } else {
      JoinCovers(v, tb.value, tb.mask, ta.value, ta.mask);
      JoinCommutes(ta.value, ta.mask, tb.value, tb.mask);
    }
  }

  lemma WidenScalars(a: RegState, b: RegState)
    requires a.kind.Scalar? && b.kind.Scalar?
    ensures a.Widen(b) == a.Hull(b).Refined() && a.Widen(b).kind.Scalar?
  {
    hide U, B, And, Or, JoinMask;
  }

  /** Widening two scalars loses no word of either. */
  lemma WidenSound(a: RegState, b: RegState, v: bv64)
    requires a.kind.Scalar? && b.kind.Scalar? && a.tnum.WellFormed() && b.tnum.WellFormed()
    requires a.Contains(v) || b.Contains(v)
    ensures a.Widen(b).kind.Scalar? && a.Widen(b).Contains(v)
  {
    hide *;
    WidenScalars(a, b);
    HullSound(a, b, v);
    RefineSound(a.Hull(b), v);
  }

  // --- When widening over-approximates ---

  /** A register of this state may hold `v`: only scalars limit the value. */
  predicate Admits(r: RegState, v: bv64) { r.kind.Scalar? ==> r.Contains(v) }

  ghost predicate AdmitsAll(r: RegState) { forall v :: Admits(r, v) }

  /** Widening `a` by `b` admits whatever either of them admits. */
  ghost predicate OverApproximates(a: RegState, b: RegState) {
    forall v :: Admits(a, v) || Admits(b, v) ==> Admits(a.Widen(b), v)
  }

  lemma ZeroAndOnes(t: Tnum)
    requires t.Has(0) && t.Has(0xFFFF_FFFF_FFFF_FFFF)
    ensures t == Tnum.Unknown()
  {}

  /** A state admits every word exactly when it is no scalar or all its bounds are open. */
  lemma AdmitsAllExact(r: RegState)
    ensures AdmitsAll(r) <==> !r.kind.Scalar? || r.Unbounded()
  {
    hide U, Member;
    UConstants();
    if r.kind.Scalar? && AdmitsAll(r) {
      assert Admits(r, 0) && Admits(r, 0xFFFF_FFFF_FFFF_FFFF);
      assert Admits(r, 0x7FFF_FFFF_FFFF_FFFF);
      CastsAgree(0, I64_MIN);
      assert Admits(r, FromSigned(I64_MIN));
      ZeroAndOnes(r.tnum);
    }
    if r.Unbounded() {
      forall v
        ensures Admits(r, v)
      {
        EveryBitUnknown(v);
      }
    }
  }

  lemma EveryBitUnknown(v: bv64)
    ensures Tnum.Unknown().Has(v)
  {}

  lemma WidenedKind(a: RegState, b: RegState)
    ensures a.kind == b.kind && !a.kind.Scalar? ==> a.Widen(b) == a
    ensures a.kind != b.kind && !a.kind.Uninit? && !b.kind.Uninit? ==> a.Widen(b) == a
    ensures a.kind != b.kind && (a.kind.Uninit? || b.kind.Uninit?) ==> a.Widen(b).kind.Uninit?
  {
    hide RegState.Hull, RegState.Refined;
  }

  lemma WideningKeepsKind(a: RegState, b: RegState)
    ensures a.Widen(b).kind == a.kind || a.Widen(b).kind.Uninit?
  {
    hide U, B, Or;
  }

  /** Widening over-approximates both states exactly when it does not keep a limited scalar where a pointer arrives. */
  lemma WidenExact(a: RegState, b: RegState)
    requires a.tnum.WellFormed() && b.tnum.WellFormed()
    ensures OverApproximates(a, b) <==> (a.kind.Scalar? ==> b.kind.Scalar? || b.kind.Uninit? || a.Unbounded())
  {
    hide RegState.Contains, RegState.Widen, Disjoint, RegState.Unbounded;
    WidenedKind(a, b);
    AdmitsAllExact(a);
    if a.kind.Scalar? && b.kind.Scalar? {
      forall v | Admits(a, v) || Admits(b, v)
        ensures Admits(a.Widen(b), v)
      {
        WidenSound(a, b, v);
      }
    } else if a.kind.Scalar? && !b.kind.Uninit? && !a.Unbounded() {
      var v :| !Admits(a, v);
      assert Admits(b, v) && a.Widen(b) == a;
    }
  }

  // --- Widening is the least upper bound of reduced states ---

  /** A scalar state that refinement leaves alone and that stands for at least one word. */
  ghost predicate ReducedScalar(r: RegState) {
    r.kind.Scalar? && IsReduced(r) && exists w :: r.Contains(w)
  }

  lemma ReducedIsSettled(r: RegState)
    requires ReducedScalar(r)
    ensures AfterOnePass(r) && UnsignedGivesSigned(r) && r.smin <= r.smax && r.tnum.WellFormed()
  {
    hide U, Member, Disjoint, RegState.Refined, AfterOnePass, UnsignedGivesSigned;
    var w :| r.Contains(w);
    OnePass(r, w);
    TwoPasses(r, w);
    MemberDisjoint(w, r.tnum.value, r.tnum.mask);
  }

  lemma JoinExtremes(av: bv64, am: bv64, bv: bv64, bm: bv64)
    ensures Sub(And(av, bv), av) && Sub(Or(av, am), Or(And(av, bv), JoinMask(av, am, bv, bm)))
  {}

  lemma JoinRange(a: Tnum, b: Tnum)
    ensures a.Join(b).MinValue() <= a.MinValue() && a.MaxValue() <= a.Join(b).MaxValue()
    ensures a.Join(b).MinValue() <= b.MinValue() && b.MaxValue() <= a.Join(b).MaxValue()
  {
    hide U, And, Or, JoinMask, Sub;
    JoinExtremes(a.value, a.mask, b.value, b.mask);
    JoinExtremes(b.value, b.mask, a.value, a.mask);
    JoinCommutes(a.value, a.mask, b.value, b.mask);
    SubMonotone(And(a.value, b.value), a.value);
    SubMonotone(And(a.value, b.value), b.value);
    SubMonotone(Or(a.value, a.mask), Or(And(a.value, b.value), JoinMask(a.value, a.mask, b.value, b.mask)));
    SubMonotone(Or(b.value, b.mask), Or(And(a.value, b.value), JoinMask(a.value, a.mask, b.value, b.mask)));
  }

  lemma JoinSame(v: bv64)
    ensures And(v, v) == v && JoinMask(v, 0, v, 0) == 0
  {}

  lemma HullIsReduced(a: RegState, b: RegState)
    requires ReducedScalar(a) && ReducedScalar(b)
    ensures IsReduced(a.Hull(b)) && a.Widen(b) == a.Hull(b)
  {
    hide U, B, Member, And, Or, JoinMask, Disjoint, RegState.Refined, RegState.Contains, ReducedScalar;
    ReducedIsSettled(a);
    ReducedIsSettled(b);
    assert a.kind.Scalar? && b.kind.Scalar? by {
      ReducedIsScalar(a, b);
    }
    JoinRange(a.tnum, b.tnum);
    JoinSame(B(a.umin));
    SettledIsReduced(a.Hull(b));
  }

  lemma ReducedIsScalar(a: RegState, b: RegState)
    requires ReducedScalar(a) && ReducedScalar(b)
    ensures a.kind.Scalar? && b.kind.Scalar?
  {}

  lemma JoinAbove(av: bv64, am: bv64, bv: bv64, bm: bv64)
    ensures Refines(av, am, And(av, bv), JoinMask(av, am, bv, bm))
  {}

  /** `x` and `y` agree on the bits of `n`. */
  predicate Alike(x: bv64, y: bv64, n: bv64) { x & n == y & n }

  lemma RefinesMeans(av: bv64, am: bv64, bv: bv64, bm: bv64)
    ensures Refines(av, am, bv, bm) <==> Alike(am, 0, !bm) && Alike(av, bv, !bm)
  {}

  lemma AlikeBoth(av: bv64, bv: bv64, cv: bv64, n: bv64)
    requires Alike(av, cv, n) && Alike(bv, cv, n)
    ensures Alike(av ^ bv, 0, n) && Alike(av & bv, cv, n)
  {}

  lemma AlikeUnion(am: bv64, bm: bv64, x: bv64, n: bv64)
    requires Alike(am, 0, n) && Alike(bm, 0, n) && Alike(x, 0, n)
    ensures Alike(am | bm | x, 0, n)
  {}

  lemma JoinMeans(av: bv64, am: bv64, bv: bv64, bm: bv64)
    ensures JoinMask(av, am, bv, bm) == am | bm | (av ^ bv) && And(av, bv) == av & bv
  {}

  lemma JoinLeast(av: bv64, am: bv64, bv: bv64, bm: bv64, cv: bv64, cm: bv64)
    requires Refines(av, am, cv, cm) && Refines(bv, bm, cv, cm)
    ensures Refines(And(av, bv), JoinMask(av, am, bv, bm), cv, cm)
  {
    hide And, JoinMask, Refines, Alike;
    RefinesMeans(av, am, cv, cm);
    RefinesMeans(bv, bm, cv, cm);
    RefinesMeans(And(av, bv), JoinMask(av, am, bv, bm), cv, cm);
    AlikeBoth(av, bv, cv, !cm);
    AlikeUnion(am, bm, av ^ bv, !cm);
    JoinMeans(av, am, bv, bm);
  }

  lemma HullIsAbove(a: RegState, b: RegState)
    requires a.kind.Scalar? && b.kind.Scalar?
    ensures a.IsSubstateOf(a.Hull(b)) && b.IsSubstateOf(a.Hull(b))
  {
    hide And, JoinMask, Refines;
    var ta, tb := a.tnum, b.tnum;
    JoinAbove(ta.value, ta.mask, tb.value, tb.mask);
    JoinAbove(tb.value, tb.mask, ta.value, ta.mask);
    JoinCommutes(ta.value, ta.mask, tb.value, tb.mask);
  }

  lemma HullIsLeast(a: RegState, b: RegState, c: RegState)
    requires a.kind.Scalar? && b.kind.Scalar? && a.IsSubstateOf(c) && b.IsSubstateOf(c)
    ensures a.Hull(b).IsSubstateOf(c)
  {
    hide And, JoinMask, Refines;
    var ta, tb, tc := a.tnum, b.tnum, c.tnum;
    JoinLeast(ta.value, ta.mask, tb.value, tb.mask, tc.value, tc.mask);
  }

  /** On reduced scalar states, widening is the least upper bound of the order used for pruning. */
  lemma WidenIsLeastUpperBound(a: RegState, b: RegState, c: RegState)
    requires ReducedScalar(a) && ReducedScalar(b)
    ensures a.IsSubstateOf(a.Widen(b)) && b.IsSubstateOf(a.Widen(b))
    ensures a.IsSubstateOf(c) && b.IsSubstateOf(c) ==> a.Widen(b).IsSubstateOf(c)
    ensures ReducedScalar(a.Widen(b))
  {
    hide RegState.Contains, RegState.Hull, RegState.Refined, RegState.IsSubstateOf, RegState.Widen, IsReduced;
    HullIsReduced(a, b);
    HullIsAbove(a, b);
    if a.IsSubstateOf(c) && b.IsSubstateOf(c) {
      HullIsLeast(a, b, c);
    }
    ReducedIsSettled(a);
    ReducedIsSettled(b);
    var w :| a.Contains(w);
    HullSound(a, b, w);
    WidenScalars(a, b);
  }

  // --- Widening chains settle ---

  /** How many of the low `n` bits are set. */
  function Ones(x: bv64, n: nat): nat
    decreases n
  {
    if n == 0 then 0 else Bit0(x) + Ones(Half(x), n - 1)
  }

  lemma SubBits(x: bv64, y: bv64)
    requires Sub(x, y)
    ensures Bit0(x) <= Bit0(y) && Sub(Half(x), Half(y))
  {}

  lemma {:induction false} OnesGrow(x: bv64, y: bv64, n: nat)
    requires Sub(x, y)
    ensures Ones(x, n) <= Ones(y, n) <= n
    ensures Ones(x, n) == Ones(y, n) ==> Same(x, y, LowMask(n))
    decreases n
  {
    hide Sub, Same, Half, Bit0, Cons;
    if n == 0 {
      SameZero(x, y);
    } else {
      SubBits(x, y);
      OnesGrow(Half(x), Half(y), n - 1);
      if Ones(x, n) == Ones(y, n) {
        SameStepUp(x, y, LowMask(n - 1));
      }
    }
  }

  lemma SameEverywhere(x: bv64, y: bv64)
    requires Same(x, y, 0xFFFF_FFFF_FFFF_FFFF)
    ensures x == y
  {}

  lemma JoinGrows(av: bv64, am: bv64, bv: bv64, bm: bv64)
    ensures Sub(am, JoinMask(av, am, bv, bm))
  {}

  lemma JoinKeepsValue(av: bv64, am: bv64, bv: bv64, bm: bv64)
    requires JoinMask(av, am, bv, bm) == am && Disjoint(av, am)
    ensures And(av, bv) == av
  {}

  /** A widening that changes the tracked number makes at least one more bit unknown. */
  lemma ChangeCosts(a: RegState, b: RegState)
    requires ReducedScalar(a) && ReducedScalar(b)
    ensures Ones(a.tnum.mask, 64) <= Ones(a.Widen(b).tnum.mask, 64) <= 64
    ensures a.Widen(b).tnum != a.tnum ==> Ones(a.tnum.mask, 64) < Ones(a.Widen(b).tnum.mask, 64)
  {
    hide U, B, Member, And, Or, JoinMask, Disjoint, Sub, Same, Ones, RegState.Refined;
    var ta, tb := a.tnum, b.tnum;
    HullIsReduced(a, b);
    ReducedIsSettled(a);
    JoinGrows(ta.value, ta.mask, tb.value, tb.mask);
    OnesGrow(ta.mask, ta.Join(tb).mask, 64);
    if Ones(ta.mask, 64) == Ones(ta.Join(tb).mask, 64) {
      LowMask64();
      SameEverywhere(ta.mask, ta.Join(tb).mask);
      JoinKeepsValue(ta.value, ta.mask, tb.value, tb.mask);
    }
  }

  /** The states a loop head goes through when widened with `inputs`, one after the other. */
  function Chain(start: RegState, inputs: seq<RegState>): (states: seq<RegState>)
    ensures |states| == |inputs| + 1 && states[0] == start
    decreases |inputs|
  {
    if inputs == [] then [start] else [start] + Chain(start.Widen(inputs[0]), inputs[1..])
  }

  /** How often the tracked number changes along a sequence of states. */
  function TnumChanges(states: seq<RegState>): nat {
    if |states| <= 1 then 0
    else (if states[0].tnum != states[1].tnum then 1 else 0) + TnumChanges(states[1..])
  }

  lemma {:induction false} ChangesBounded(start: RegState, inputs: seq<RegState>)
    requires ReducedScalar(start) && forall i :: 0 <= i < |inputs| ==> ReducedScalar(inputs[i])
    ensures TnumChanges(Chain(start, inputs)) + Ones(start.tnum.mask, 64) <= 64
    decreases |inputs|
  {
    hide Ones, ReducedScalar, RegState.Widen;
    if inputs == [] {
      SubSelf(start.tnum.mask);
      OnesGrow(start.tnum.mask, start.tnum.mask, 64);
    } else {
      var next := start.Widen(inputs[0]);
      ChangeCosts(start, inputs[0]);
      WidenIsLeastUpperBound(start, inputs[0], start);
      ChangesBounded(next, inputs[1..]);
      assert Chain(start, inputs)[1..] == Chain(next, inputs[1..]);
    }
  }

  /** However long a loop head keeps being widened, its tracked number changes at most 64 times. */
  lemma ChainSettles(start: RegState, inputs: seq<RegState>)
    requires ReducedScalar(start) && forall i :: 0 <= i < |inputs| ==> ReducedScalar(inputs[i])
    ensures TnumChanges(Chain(start, inputs)) <= 64
  {
    ChangesBounded(start, inputs);
  }
}

/** Exactly when tracked-number subtraction covers every difference.

  `Sub` adds the negated value but keeps the mask, so it accounts for unknown bits of the subtrahend being
  added, not subtracted. It is right precisely when its own mask also covers the bits on which the largest
  and the smallest difference disagree; a fully known subtrahend always passes that test.
*/
module TnumSubtraction {
  import opened Words
  import opened Tnums
  import opened TnumProofs

  /** The largest difference of members minus the subtrahend's unknown bits left at zero. */
  function LargestDifference(a: Tnum, b: Tnum): bv64 { Plus(Minus(a.value, b.value), a.mask) }

  function SmallestDifference(a: Tnum, b: Tnum): bv64 { Minus(Minus(a.value, b.value), b.mask) }

  /** A caller can run this test on the operands: do the extreme differences agree on the result's known bits? */
  predicate ExtremesCovered(a: Tnum, b: Tnum) {
    SameOutside(LargestDifference(a, b), SmallestDifference(a, b), a.Sub(b).mask)
  }

  ghost predicate CoversDifferences(a: Tnum, b: Tnum) {
    forall x, y :: a.Has(x) && b.Has(y) ==> a.Sub(b).Has(Minus(x, y))
  }

  // --- Differences as sums of complements ---

  function Not(x: bv64): bv64 { !x }

  function NegLess1(x: bv64): bv64 { 0 - x - 1 }

  lemma NotIsNegLess1(x: bv64)
    ensures Not(x) == NegLess1(x)
  {}

  lemma DifferenceRaw(x: bv64, y: bv64)
    ensures Minus(x, y) == NegLess1(0 - x - 1 + y)
  {}

  lemma ComplementSumRaw(x: bv64, y: bv64)
    ensures Plus(0 - x - 1, y) == 0 - x - 1 + y
  {}

  lemma NegLess1Raw(x: bv64)
    ensures NegLess1(x) == 0 - x - 1
  {}

  /** `x - y` is the complement of `!x + y`. */
  lemma DifferenceIsSum(x: bv64, y: bv64)
    ensures Minus(x, y) == Not(Plus(Not(x), y))
  {
    hide *;
    NotIsNegLess1(x);
    NotIsNegLess1(Plus(Not(x), y));
    NegLess1Raw(x);
    ComplementSumRaw(x, y);
    DifferenceRaw(x, y);
  }

  lemma ComplementIsMember(x: bv64, v: bv64, m: bv64)
    requires Member(x, v, m)
    ensures Member(Not(x), Not(Or(v, m)), m)
  {}

  lemma ComplementOfLargest(v: bv64, m: bv64)
    requires Disjoint(v, m)
    ensures Or(Not(Or(v, m)), m) == Not(v)
  {}

  lemma ComplementBoth(s: bv64, low: bv64, high: bv64, am: bv64, bm: bv64)
    requires SameOutside(s, low, SumMask(low, high, am, bm))
    ensures SameOutside(Not(s), Not(low), SumMask(Not(low), Not(high), am, bm))
  {}

  lemma LargestRaw(av: bv64, am: bv64, bv: bv64)
    ensures Minus(av + am, bv) == Plus(av - bv, am)
  {}

  lemma LargestShift(av: bv64, am: bv64, bv: bv64)
    ensures Minus(Plus(av, am), bv) == Plus(Minus(av, bv), am)
  {
    LargestRaw(av, am, bv);
  }

  lemma LargestOf(a: Tnum, b: Tnum)
    requires a.WellFormed()
    ensures Minus(Or(a.value, a.mask), b.value) == LargestDifference(a, b)
  {
    hide Disjoint, Or, Plus, Minus;
    OrIsSum(a.value, a.mask);
    LargestShift(a.value, a.mask, b.value);
  }

  lemma SmallestRaw(av: bv64, bv: bv64, bm: bv64)
    ensures Minus(av, bv + bm) == Minus(av - bv, bm)
  {}

  lemma SmallestShift(av: bv64, bv: bv64, bm: bv64)
    ensures Minus(av, Plus(bv, bm)) == Minus(Minus(av, bv), bm)
  {
    SmallestRaw(av, bv, bm);
  }

  lemma SmallestOf(a: Tnum, b: Tnum)
    requires b.WellFormed()
    ensures Minus(a.value, Or(b.value, b.mask)) == SmallestDifference(a, b)
  {
    hide Disjoint, Or, Plus, Minus;
    OrIsSum(b.value, b.mask);
    SmallestShift(a.value, b.value, b.mask);
  }

  /** Every difference agrees with the largest one wherever the smallest one does. */
  lemma DifferenceWithin(a: Tnum, b: Tnum, x: bv64, y: bv64)
    requires a.Has(x) && b.Has(y)
    ensures SameOutside(Minus(x, y), LargestDifference(a, b),
                        SumMask(LargestDifference(a, b), SmallestDifference(a, b), a.mask, b.mask))
  {
    hide Member, Disjoint, Or, Not, Plus, Minus, SameOutside, SumMask;
    hide LargestDifference, SmallestDifference;
    var n := Not(Or(a.value, a.mask));
    MemberDisjoint(x, a.value, a.mask);
    MemberDisjoint(y, b.value, b.mask);
    ComplementIsMember(x, a.value, a.mask);
    ComplementOfLargest(a.value, a.mask);
    SumWithin(Not(x), y, n, a.mask, b.value, b.mask);
    ComplementBoth(Plus(Not(x), y), Plus(n, b.value), Plus(Not(a.value), Or(b.value, b.mask)), a.mask, b.mask);
    DifferenceIsSum(x, y);
    DifferenceIsSum(Or(a.value, a.mask), b.value);
    DifferenceIsSum(a.value, Or(b.value, b.mask));
    LargestOf(a, b);
    SmallestOf(a, b);
  }

  // --- The exact condition ---

  lemma WideMaskCovers(p: bv64, low: bv64, high: bv64, am: bv64, bm: bv64, mu: bv64)
    requires SameOutside(p, low, SumMask(low, high, am, bm)) && SameOutside(low, high, mu)
    requires Sub(am, mu) && Sub(bm, mu)
    ensures SameOutside(p, low, mu)
  {}

  lemma MasksInSum(low: bv64, high: bv64, am: bv64, bm: bv64)
    ensures Sub(am, SumMask(low, high, am, bm)) && Sub(bm, SumMask(low, high, am, bm))
  {}

  lemma OutsideTransitive(s: bv64, t: bv64, u: bv64, mu: bv64)
    requires SameOutside(s, u, mu) && SameOutside(t, u, mu)
    ensures SameOutside(s, t, mu)
  {}

  lemma MembersAgree(s: bv64, t: bv64, v: bv64, mu: bv64)
    requires Member(s, v, mu) && Member(t, v, mu)
    ensures SameOutside(s, t, mu)
  {}

  lemma PlusNegative(x: bv64, y: bv64)
    ensures Plus(x, 0 - y) == Minus(x, y)
  {}

  lemma NegativeRaw(y: bv64)
    ensures Minus(0, y) == 0 - y
  {}

  lemma SubShape(a: Tnum, b: Tnum)
    ensures a.Sub(b).value == AndNot(Minus(a.value, b.value), a.Sub(b).mask)
    ensures Sub(a.mask, a.Sub(b).mask) && Sub(b.mask, a.Sub(b).mask)
  {
    hide Plus, Minus, AndNot, SumMask, Sub;
    NegativeRaw(b.value);
    PlusNegative(a.value, b.value);
    var sv, sm := Plus(a.value, Minus(0, b.value)), Plus(a.mask, b.mask);
    MasksInSum(sv, Plus(sv, sm), a.mask, b.mask);
  }

  lemma CoveredDifference(a: Tnum, b: Tnum, x: bv64, y: bv64)
    requires a.Has(x) && b.Has(y) && ExtremesCovered(a, b)
    ensures a.Sub(b).Has(Minus(x, y))
  {
    hide Member, Disjoint, Plus, Minus, AndNot, SameOutside, SumMask, Sub;
    hide LargestDifference, SmallestDifference, Tnum.Sub;
    var mu, dv := a.Sub(b).mask, Minus(a.value, b.value);
    var high, low := LargestDifference(a, b), SmallestDifference(a, b);
    MemberDisjoint(x, a.value, a.mask);
    MemberDisjoint(y, b.value, b.mask);
    SmallestIsMember(a.value, a.mask);
    SmallestIsMember(b.value, b.mask);
    SubShape(a, b);
    DifferenceWithin(a, b, x, y);
    DifferenceWithin(a, b, a.value, b.value);
    WideMaskCovers(Minus(x, y), high, low, a.mask, b.mask, mu);
    WideMaskCovers(dv, high, low, a.mask, b.mask, mu);
    OutsideTransitive(Minus(x, y), dv, high, mu);
    KeptIsMember(Minus(x, y), dv, mu);
  }

  /** Subtraction covers every difference of members exactly when the extreme differences pass the test. */
  lemma SubExact(a: Tnum, b: Tnum)
    requires a.WellFormed() && b.WellFormed()
    ensures CoversDifferences(a, b) <==> ExtremesCovered(a, b)
  {
    hide Member, Disjoint, Minus, Or, SameOutside, LargestDifference, SmallestDifference, Tnum.Sub;
    if ExtremesCovered(a, b) {
      forall x, y | a.Has(x) && b.Has(y)
        ensures a.Sub(b).Has(Minus(x, y))
      {
        CoveredDifference(a, b, x, y);
      }
    }
    if CoversDifferences(a, b) {
      SmallestIsMember(a.value, a.mask);
      SmallestIsMember(b.value, b.mask);
      LargestIsMember(a.value, a.mask);
      LargestIsMember(b.value, b.mask);
      LargestOf(a, b);
      SmallestOf(a, b);
      MembersAgree(LargestDifference(a, b), SmallestDifference(a, b), a.Sub(b).value, a.Sub(b).mask);
    }
  }

  /** A fully known subtrahend always passes: this is the sound use of subtraction. */
  lemma SubKnownSound(a: Tnum, b: Tnum, x: bv64, y: bv64)
    requires a.Has(x) && b.Has(y) && b.IsKnown()
    ensures a.Sub(b).Has(Minus(x, y))
  {
    hide Member, Plus, Minus;
    KnownMember(y, b.value);
    AddNegative(a, b, x, y);
  }

  lemma KnownMember(y: bv64, v: bv64)
    requires Member(y, v, 0)
    ensures y == v
  {}

  lemma ConstantMember(v: bv64)
    ensures Member(v, v, 0)
  {}

  lemma AddNegative(a: Tnum, b: Tnum, x: bv64, y: bv64)
    requires a.Has(x) && b == Tnum(y, 0)
    ensures a.Sub(b).Has(Minus(x, y))
  {
    hide Member, Plus, Minus, SumMask, AndNot;
    ConstantMember(Minus(0, y));
    AddSound(a, Tnum(Minus(0, y), 0), x, Minus(0, y));
    NegativeRaw(y);
    PlusNegative(x, y);
  }

  /** Zero minus one unknown bit can be -1, which the result leaves out. */
  lemma SubMissesMinusOne()
    ensures var a, b := Tnum.Constant(0), Tnum(0, 1);
            a.Has(0) && b.Has(1) && !a.Sub(b).Has(Minus(0, 1)) && !ExtremesCovered(a, b)
  {
    var a, b := Tnum.Constant(0), Tnum(0, 1);
    assert Plus(0, Minus(0, 0)) == 0 && Plus(0, 1) == 1;
    assert a.Sub(b) == Tnum(0, 1);
  }
}

/** Tracked-number arithmetic is not only right but tightest: a bit is left unknown exactly when some members make
    it zero and others make it one. */
module TnumTightness {
  import opened Words
  import opened Tnums
  import opened TnumProofs

  lemma KnownBits(s: bv64, v: bv64, m: bv64, e: bv64)
    requires Member(s, v, m) && Disjoint(m, e)
    ensures s & e == v & e
  {}

  lemma KnownBitsFixed(s: bv64, t: bv64, v: bv64, m: bv64, e: bv64)
    requires Member(s, v, m) && Member(t, v, m) && !HasBit(m, e)
    ensures HasBit(s, e) == HasBit(t, e)
  {
    hide Member;
    KnownBits(s, v, m, e);
    KnownBits(t, v, m, e);
  }

  /** A bit that both values reach cannot be marked as known. */
  lemma BothMeansUnknown(op: (bv64, bv64) -> bv64, a: Tnum, b: Tnum, r: Tnum, e: bv64)
    requires forall x, y :: a.Has(x) && b.Has(y) ==> r.Has(op(x, y))
    requires ReachesBoth(op, a, b, e)
    ensures HasBit(r.mask, e)
  {
    hide Member, HasBit;
    var x, y, x', y' :| a.Has(x) && b.Has(y) && a.Has(x') && b.Has(y') && !HasBit(op(x, y), e) && HasBit(op(x', y'), e);
    if !HasBit(r.mask, e) {
      KnownBitsFixed(op(x, y), op(x', y'), r.value, r.mask, e);
    }
  }

  // --- Conjunction and disjunction ---

  lemma AndBitVaries(av: bv64, am: bv64, bv: bv64, bm: bv64, e: bv64)
    requires HasBit(AndMask(av, am, bv, bm), e) && Atom(AndMask(av, am, bv, bm), e)
    ensures !HasBit(And(av, bv), e) && HasBit(And(Or(av, am), Or(bv, bm)), e)
  {}

  lemma AndExact(a: Tnum, b: Tnum, i: nat)
    requires a.WellFormed() && b.WellFormed()
    ensures HasBit(a.And(b).mask, BitAt(i)) <==> ReachesBoth(And, a, b, BitAt(i))
  {
    hide Member, Disjoint, Or, HasBit, Atom, AndMask, And;
    var e := BitAt(i);
    forall x, y | a.Has(x) && b.Has(y)
      ensures a.And(b).Has(And(x, y))
    {
      AndSound(a, b, x, y);
    }
    if ReachesBoth(And, a, b, e) {
      BothMeansUnknown(And, a, b, a.And(b), e);
    }
    if HasBit(a.And(b).mask, e) {
      ExtremeMembers(a);
      ExtremeMembers(b);
      BitIsAtom(a.And(b).mask, i);
      AndBitVaries(a.value, a.mask, b.value, b.mask, e);
      TwoResults(And, a, b, a.value, b.value, Or(a.value, a.mask), Or(b.value, b.mask), e);
    }
  }

  lemma OrBitVaries(av: bv64, am: bv64, bv: bv64, bm: bv64, e: bv64)
    requires HasBit(OrMask(av, am, bv, bm), e) && Atom(OrMask(av, am, bv, bm), e)
    ensures !HasBit(Or(av, bv), e) && HasBit(Or(Or(av, am), Or(bv, bm)), e)
  {}

  lemma OrExact(a: Tnum, b: Tnum, i: nat)
    requires a.WellFormed() && b.WellFormed()
    ensures HasBit(a.Or(b).mask, BitAt(i)) <==> ReachesBoth(Or, a, b, BitAt(i))
  {
    hide Member, Disjoint, Or, HasBit, Atom, OrMask;
    var e := BitAt(i);
    forall x, y | a.Has(x) && b.Has(y)
      ensures a.Or(b).Has(Or(x, y))
    {
      OrSound(a, b, x, y);
    }
    if ReachesBoth(Or, a, b, e) {
      BothMeansUnknown(Or, a, b, a.Or(b), e);
    }
    if HasBit(a.Or(b).mask, e) {
      ExtremeMembers(a);
      ExtremeMembers(b);
      BitIsAtom(a.Or(b).mask, i);
      OrBitVaries(a.value, a.mask, b.value, b.mask, e);
      TwoResults(Or, a, b, a.value, b.value, Or(a.value, a.mask), Or(b.value, b.mask), e);
    }
  }

  // --- Exclusive or ---

  lemma EitherHas(am: bv64, bm: bv64, e: bv64)
    requires HasBit(Or(am, bm), e)
    ensures HasBit(am, e) || HasBit(bm, e)
  {}

  lemma AtomHas(m: bv64, e: bv64)
    requires HasBit(m, e) && Atom(m, e)
    ensures Sub(e, m) && e != 0
  {}

  lemma XorDiffers(x: bv64, y: bv64, e: bv64)
    requires Disjoint(x, e) && e != 0
    ensures !Same(Xor(x, y), Xor(Or(x, e), y), e)
  {}

  lemma XorCommutes(x: bv64, y: bv64)
    ensures Xor(x, y) == Xor(y, x)
  {}

  lemma XorVaries(a: Tnum, b: Tnum, i: nat)
    requires a.WellFormed() && b.WellFormed() && HasBit(a.mask, BitAt(i))
    ensures ReachesBoth(Xor, a, b, BitAt(i)) && ReachesBoth(Xor, b, a, BitAt(i))
  {
    hide Member, Disjoint, Or, HasBit, Atom, Sub, Xor, BitAt, Same;
    var e := BitAt(i);
    ExtremeMembers(a);
    ExtremeMembers(b);
    BitIsAtom(a.mask, i);
    AtomHas(a.mask, e);
    SetBitIsMember(a.value, a.mask, e);
    BitIsAtom(Xor(a.value, b.value), i);
    BitIsAtom(Xor(Or(a.value, e), b.value), i);
    XorDiffers(a.value, b.value, e);
    DifferentBits(Xor(a.value, b.value), Xor(Or(a.value, e), b.value), e);
    XorCommutes(a.value, b.value);
    XorCommutes(Or(a.value, e), b.value);
    TwoResults(Xor, a, b, a.value, b.value, Or(a.value, e), b.value, e);
    TwoResults(Xor, b, a, b.value, a.value, b.value, Or(a.value, e), e);
  }

  lemma XorExact(a: Tnum, b: Tnum, i: nat)
    requires a.WellFormed() && b.WellFormed()
    ensures HasBit(a.Xor(b).mask, BitAt(i)) <==> ReachesBoth(Xor, a, b, BitAt(i))
  {
    hide Member, Disjoint, Or, HasBit, Atom, AndNot, Xor;
    var e := BitAt(i);
    forall x, y | a.Has(x) && b.Has(y)
      ensures a.Xor(b).Has(Xor(x, y))
    {
      XorSound(a, b, x, y);
    }
    if ReachesBoth(Xor, a, b, e) {
      BothMeansUnknown(Xor, a, b, a.Xor(b), e);
    }
    if HasBit(a.Xor(b).mask, e) {
      EitherHas(a.mask, b.mask, e);
      if HasBit(a.mask, e) {
        XorVaries(a, b, i);
      } else {
        XorVaries(b, a, i);
      }
    }
  }

  // --- Addition ---

  lemma AddExact(a: Tnum, b: Tnum, i: nat)
    requires a.WellFormed() && b.WellFormed() && i < 64
    ensures HasBit(a.Add(b).mask, BitAt(i)) <==> ReachesBoth(Plus, a, b, BitAt(i))
  {
    hide Member, Disjoint, Plus, HasBit, BitAt, Tnum.Add;
    var e := BitAt(i);
    forall x, y | a.Has(x) && b.Has(y)
      ensures a.Add(b).Has(Plus(x, y))
    {
      AddSound(a, b, x, y);
    }
    if ReachesBoth(Plus, a, b, e) {
      BothMeansUnknown(Plus, a, b, a.Add(b), e);
    }
    if HasBit(a.Add(b).mask, e) {
      AddTight(a, b, i);
    }
  }
}

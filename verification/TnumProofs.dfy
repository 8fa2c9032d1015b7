/** What the tracked-number operations compute: they cover every result, and addition covers no more. */
module TnumProofs {
  import opened Words
  import opened Tnums
  import opened Addition

  // --- Logical operations and truncation ---

  lemma AndBits(x: bv64, y: bv64, av: bv64, am: bv64, bv: bv64, bm: bv64)
    requires Member(x, av, am) && Member(y, bv, bm)
    ensures Member(And(x, y), And(av, bv), AndMask(av, am, bv, bm))
  {}

  lemma AndSound(a: Tnum, b: Tnum, x: bv64, y: bv64)
    requires a.Has(x) && b.Has(y)
    ensures a.And(b).Has(And(x, y))
  {
    hide Member, And, AndMask;
    AndBits(x, y, a.value, a.mask, b.value, b.mask);
  }

  lemma OrBits(x: bv64, y: bv64, av: bv64, am: bv64, bv: bv64, bm: bv64)
    requires Member(x, av, am) && Member(y, bv, bm)
    ensures Member(Or(x, y), Or(av, bv), OrMask(av, am, bv, bm))
  {}

  lemma OrSound(a: Tnum, b: Tnum, x: bv64, y: bv64)
    requires a.Has(x) && b.Has(y)
    ensures a.Or(b).Has(Or(x, y))
  {
    hide Member, Or, OrMask;
    OrBits(x, y, a.value, a.mask, b.value, b.mask);
  }

  lemma XorBits(x: bv64, y: bv64, av: bv64, am: bv64, bv: bv64, bm: bv64)
    requires Member(x, av, am) && Member(y, bv, bm)
    ensures Member(Xor(x, y), AndNot(Xor(av, bv), Or(am, bm)), Or(am, bm))
  {
    XorBitsRaw(x, y, am, bm);
  }

  lemma XorBitsRaw(x: bv64, y: bv64, am: bv64, bm: bv64)
    ensures (x ^ y) & !(am | bm) == ((x & !am) ^ (y & !bm)) & !(am | bm)
  {}

  lemma XorSound(a: Tnum, b: Tnum, x: bv64, y: bv64)
    requires a.Has(x) && b.Has(y)
    ensures a.Xor(b).Has(Xor(x, y))
  {
    hide Member, Xor, Or, AndNot;
    XorBits(x, y, a.value, a.mask, b.value, b.mask);
  }

  lemma LowBits(x: bv64, av: bv64, am: bv64)
    requires Member(x, av, am)
    ensures Member(Low(x), Low(av), Low(am))
  {}

  lemma Trunc32Sound(a: Tnum, x: bv64)
    requires a.Has(x)
    ensures a.Trunc32().Has(Low(x))
  {
    hide Member, Low;
    LowBits(x, a.value, a.mask);
  }

  // --- Shifts ---

  lemma LshStep(v: bv64, m: bv64, x: bv64)
    requires Member(x, v, m)
    ensures Member(x << 1, v << 1, m << 1)
  {}

  lemma {:induction false} LshBits(x: bv64, v: bv64, m: bv64, k: nat)
    requires Member(x, v, m)
    ensures Member(Shl(x, k), Shl(v, k), Shl(m, k))
    decreases k
  {
    hide Member;
    if k > 0 {
      LshStep(v, m, x);
      LshBits(x << 1, v << 1, m << 1, k - 1);
    }
  }

  lemma RshStep(v: bv64, m: bv64, x: bv64)
    requires Member(x, v, m)
    ensures Member(x >> 1, v >> 1, m >> 1)
  {}

  lemma {:induction false} RshBits(x: bv64, v: bv64, m: bv64, k: nat)
    requires Member(x, v, m)
    ensures Member(Shr(x, k), Shr(v, k), Shr(m, k))
    decreases k
  {
    hide Member;
    if k > 0 {
      RshStep(v, m, x);
      RshBits(x >> 1, v >> 1, m >> 1, k - 1);
    }
  }

  lemma LshSound(a: Tnum, x: bv64, k: nat)
    requires a.Has(x) && k < 64
    ensures a.Lsh(k).Has(Shl(x, k))
  {
    hide Member, Shl;
    LshBits(x, a.value, a.mask, k);
  }

  lemma RshSound(a: Tnum, x: bv64, k: nat)
    requires a.Has(x) && k < 64
    ensures a.Rsh(k).Has(Shr(x, k))
  {
    hide Member, Shr;
    RshBits(x, a.value, a.mask, k);
  }

  // --- Members ---

  lemma MemberDisjoint(x: bv64, v: bv64, m: bv64)
    requires Member(x, v, m)
    ensures Disjoint(v, m)
  {}

  lemma MemberAbove(x: bv64, v: bv64, m: bv64)
    requires Member(x, v, m)
    ensures Sub(v, x)
  {}

  lemma MemberBelow(x: bv64, v: bv64, m: bv64)
    requires Member(x, v, m)
    ensures Sub(x, Or(v, m))
  {}

  lemma SmallestIsMember(v: bv64, m: bv64)
    requires Disjoint(v, m)
    ensures Member(v, v, m)
  {}

  lemma LargestIsMember(v: bv64, m: bv64)
    requires Disjoint(v, m)
    ensures Member(Or(v, m), v, m)
  {}

  lemma ExtremeMembers(t: Tnum)
    requires t.WellFormed()
    ensures t.Has(t.value) && t.Has(Or(t.value, t.mask))
  {
    hide Member, Disjoint, Or;
    SmallestIsMember(t.value, t.mask);
    LargestIsMember(t.value, t.mask);
  }

  // --- Addition ---

  predicate SameOutside(s: bv64, t: bv64, mu: bv64) { s & !mu == t & !mu }

  lemma MemberSameOutside(x: bv64, av: bv64, am: bv64, w: bv64)
    requires Member(x, av, am) && Sub(am, w)
    ensures SameOutside(x, av, w)
  {}

  lemma XorOutside(x: bv64, y: bv64, av: bv64, bv: bv64, w: bv64)
    requires SameOutside(x, av, w) && SameOutside(y, bv, w)
    ensures SameOutside(Xor(x, y), Xor(av, bv), w)
  {}

  lemma CarryDifference(p: bv64, k: bv64, p0: bv64, k0: bv64, w: bv64)
    requires SameOutside(p, p0, w)
    ensures SameOutside(Xor(Xor(p, k), Xor(p0, k0)), Xor(k, k0), w)
  {}

  lemma ParityIsXorRaw(x: bv64, y: bv64, k: bv64)
    ensures Parity(x, y, k) == Xor(x ^ y, k)
  {}

  lemma ParityIsXor(x: bv64, y: bv64, k: bv64)
    ensures Parity(x, y, k) == Xor(Xor(x, y), k)
  {
    hide Parity;
    ParityIsXorRaw(x, y, k);
  }

  lemma SubOr(am: bv64, bm: bv64)
    ensures Sub(am, Or(am, bm)) && Sub(bm, Or(am, bm))
  {}

  /** On the known bits of both operands, two sums differ exactly where their carries do. */
  lemma ParityOfMembers(x: bv64, y: bv64, k: bv64, av: bv64, bv: bv64, k0: bv64, am: bv64, bm: bv64)
    requires Member(x, av, am) && Member(y, bv, bm)
    ensures SameOutside(Xor(Parity(x, y, k), Parity(av, bv, k0)), Xor(k, k0), Or(am, bm))
  {
    hide *;
    SubOr(am, bm);
    MemberSameOutside(x, av, am, Or(am, bm));
    MemberSameOutside(y, bv, bm, Or(am, bm));
    XorOutside(x, y, av, bv, Or(am, bm));
    CarryDifference(Xor(x, y), k, Xor(av, bv), k0, Or(am, bm));
    ParityIsXor(x, y, k);
    ParityIsXor(av, bv, k0);
  }

  lemma CarriesBetween(k0: bv64, k: bv64, k1: bv64)
    requires Sub(k0, k) && Sub(k, k1)
    ensures Sub(Xor(k, k0), Xor(k1, k0))
  {}

  lemma DifferenceCovered(s: bv64, low: bv64, high: bv64, d: bv64, e: bv64, am: bv64, bm: bv64)
    requires SameOutside(Xor(s, low), d, Or(am, bm)) && SameOutside(Xor(high, low), e, Or(am, bm)) && Sub(d, e)
    ensures SameOutside(s, low, SumMask(low, high, am, bm))
  {}

  /** Every sum of members agrees with the smallest one wherever the largest one does. */
  lemma SumWithin(x: bv64, y: bv64, av: bv64, am: bv64, bv: bv64, bm: bv64)
    requires Member(x, av, am) && Member(y, bv, bm)
    ensures SameOutside(Plus(x, y), Plus(av, bv), SumMask(Plus(av, bv), Plus(Or(av, am), Or(bv, bm)), am, bm))
  {
    hide Plus, Carries, Member, Disjoint, Sub, SameOutside, Parity, Or, Xor, SumMask;
    var k, k0, k1 := Carries(x, y), Carries(av, bv), Carries(Or(av, am), Or(bv, bm));
    MemberDisjoint(x, av, am);
    MemberDisjoint(y, bv, bm);
    MemberAbove(x, av, am);
    MemberAbove(y, bv, bm);
    MemberBelow(x, av, am);
    MemberBelow(y, bv, bm);
    LargestIsMember(av, am);
    LargestIsMember(bv, bm);
    PlusIsXor(x, y);
    PlusIsXor(av, bv);
    PlusIsXor(Or(av, am), Or(bv, bm));
    CarriesMonotone(av, bv, x, y);
    CarriesMonotone(x, y, Or(av, am), Or(bv, bm));
    ParityOfMembers(x, y, k, av, bv, k0, am, bm);
    ParityOfMembers(Or(av, am), Or(bv, bm), k1, av, bv, k0, am, bm);
    CarriesBetween(k0, k, k1);
    DifferenceCovered(Plus(x, y), Plus(av, bv), Plus(Or(av, am), Or(bv, bm)), Xor(k, k0), Xor(k1, k0), am, bm);
  }

  lemma ReassociateRaw(av: bv64, am: bv64, bv: bv64, bm: bv64)
    ensures Plus(av + am, bv + bm) == Plus(av + bv, am + bm)
  {}

  lemma Reassociate(av: bv64, am: bv64, bv: bv64, bm: bv64)
    ensures Plus(Plus(av, am), Plus(bv, bm)) == Plus(Plus(av, bv), Plus(am, bm))
  {
    ReassociateRaw(av, am, bv, bm);
  }

  lemma OrIsSumRaw(x: bv64, y: bv64)
    requires Disjoint(x, y)
    ensures x | y == x + y
  {}

  lemma OrIsSum(x: bv64, y: bv64)
    requires Disjoint(x, y)
    ensures Or(x, y) == Plus(x, y)
  {
    hide Disjoint;
    OrIsSumRaw(x, y);
  }

  /** The largest sum is the smallest one plus both masks. */
  lemma LargestSum(av: bv64, am: bv64, bv: bv64, bm: bv64)
    requires Disjoint(av, am) && Disjoint(bv, bm)
    ensures Plus(Or(av, am), Or(bv, bm)) == Plus(Plus(av, bv), Plus(am, bm))
  {
    hide Plus, Disjoint, Or;
    OrIsSum(av, am);
    OrIsSum(bv, bm);
    Reassociate(av, am, bv, bm);
  }

  lemma KeptIsMember(s: bv64, low: bv64, mu: bv64)
    requires SameOutside(s, low, mu)
    ensures Member(s, AndNot(low, mu), mu)
  {}

  lemma AddSound(a: Tnum, b: Tnum, x: bv64, y: bv64)
    requires a.Has(x) && b.Has(y)
    ensures a.Add(b).Has(Plus(x, y))
  {
    hide Plus, SumMask, Member, Disjoint, SameOutside, AndNot, Or;
    MemberDisjoint(x, a.value, a.mask);
    MemberDisjoint(y, b.value, b.mask);
    SumWithin(x, y, a.value, a.mask, b.value, b.mask);
    LargestSum(a.value, a.mask, b.value, b.mask);
    KeptIsMember(Plus(x, y), Plus(a.value, b.value), a.Add(b).mask);
  }

  // --- Addition is tight ---

  predicate HasBit(x: bv64, e: bv64) { !Disjoint(x, e) }

  /** Bit `e` is zero for some results of members and one for others. */
  ghost predicate ReachesBoth(op: (bv64, bv64) -> bv64, a: Tnum, b: Tnum, e: bv64) {
    exists x, y, x', y' :: a.Has(x) && b.Has(y) && a.Has(x') && b.Has(y') && !HasBit(op(x, y), e)
          && HasBit(op(x', y'), e)
  }

  lemma TwoResults(op: (bv64, bv64) -> bv64, a: Tnum, b: Tnum, x: bv64, y: bv64, x': bv64, y': bv64, e: bv64)
    requires a.Has(x) && b.Has(y) && a.Has(x') && b.Has(y') && HasBit(op(x, y), e) != HasBit(op(x', y'), e)
    ensures ReachesBoth(op, a, b, e)
  {
    hide Member, HasBit;
  }

  /** `x` has all of `e` or none of it. */
  predicate Atom(x: bv64, e: bv64) { Disjoint(x, e) || Sub(e, x) }

  lemma NoneStep(x: bv64, e: bv64)
    requires Disjoint(Half(x), e)
    ensures Disjoint(x, e << 1)
  {}

  lemma AllStep(x: bv64, e: bv64)
    requires Sub(e, Half(x))
    ensures Sub(e << 1, x)
  {}

  lemma AtomOne(x: bv64)
    ensures Atom(x, 1)
  {}

  lemma {:induction false} BitIsAtom(x: bv64, i: nat)
    ensures Atom(x, BitAt(i))
    decreases i
  {
    hide Disjoint, Sub, Half;
    if i == 0 {
      AtomOne(x);
    } else {
      BitIsAtom(Half(x), i - 1);
      if Disjoint(Half(x), BitAt(i - 1)) {
        NoneStep(x, BitAt(i - 1));
      } else {
        AllStep(x, BitAt(i - 1));
      }
    }
  }

  lemma BothNone(s: bv64, t: bv64, e: bv64)
    requires Disjoint(s, e) && Disjoint(t, e)
    ensures Same(s, t, e)
  {}

  lemma BothAll(s: bv64, t: bv64, e: bv64)
    requires Sub(e, s) && Sub(e, t)
    ensures Same(s, t, e)
  {}

  lemma DifferentBits(s: bv64, t: bv64, e: bv64)
    requires !Same(s, t, e) && Atom(s, e) && Atom(t, e)
    ensures HasBit(s, e) != HasBit(t, e)
  {
    hide Disjoint, Sub, Same;
    if Disjoint(s, e) && Disjoint(t, e) {
      BothNone(s, t, e);
    } else if Sub(e, s) && Sub(e, t) {
      BothAll(s, t, e);
    }
  }

  lemma OutsideMask(low: bv64, high: bv64, am: bv64, bm: bv64, e: bv64)
    requires Disjoint(am, e) && Disjoint(bm, e) && Same(low, high, e)
    ensures Disjoint(SumMask(low, high, am, bm), e)
  {}

  lemma DisjointStep(e: bv64, m: bv64)
    requires Disjoint(e, m)
    ensures Disjoint(e << 1, Cons(m, 1))
  {}

  lemma DisjointZero(e: bv64)
    ensures Disjoint(e, 0)
  {}

  /** Bit `i` is the lowest one above the low mask of `i` bits. */
  lemma {:induction false} BitAboveMask(i: nat)
    ensures Disjoint(BitAt(i), LowMask(i))
    decreases i
  {
    hide Disjoint, Cons;
    if i == 0 {
      DisjointZero(BitAt(0));
    } else {
      BitAboveMask(i - 1);
      DisjointStep(BitAt(i - 1), LowMask(i - 1));
    }
  }

  lemma SubShift(e: bv64, m: bv64)
    requires Sub(e, m)
    ensures Sub(e << 1, Cons(m, 1))
  {}

  lemma SubOne(m: bv64)
    ensures Sub(1, Cons(m, 1))
  {}

  lemma {:induction false} BitInMask(i: nat)
    ensures Sub(BitAt(i), LowMask(i + 1))
    decreases i
  {
    hide Sub, Cons;
    if i == 0 {
      SubOne(LowMask(0));
    } else {
      BitInMask(i - 1);
      SubShift(BitAt(i - 1), LowMask(i));
    }
  }

  lemma SetBitAgrees(x: bv64, e: bv64, m: bv64)
    requires Disjoint(e, m)
    ensures Same(x, Or(x, e), m)
  {}

  lemma SetBitIsMember(v: bv64, m: bv64, e: bv64)
    requires Disjoint(v, m) && Sub(e, m)
    ensures Member(Or(v, e), v, m) && Disjoint(v, e)
  {}

  lemma SetBitDiffers(x: bv64, y: bv64, k: bv64, k': bv64, e: bv64, m: bv64)
    requires Same(k, k', m) && Sub(e, m) && Disjoint(x, e) && e != 0
    ensures !Same(Parity(x, y, k), Parity(Or(x, e), y, k'), e)
  {}

  lemma SameReflexive(x: bv64, m: bv64)
    ensures Same(x, x, m)
  {}

  lemma HasBitNonzero(x: bv64, e: bv64)
    requires HasBit(x, e)
    ensures e != 0
  {}

  /** Setting bit `i` of one operand flips bit `i` of the sum. */
  lemma FlipOperand(x: bv64, y: bv64, i: nat)
    requires i < 64 && Disjoint(x, BitAt(i)) && BitAt(i) != 0
    ensures HasBit(Plus(x, y), BitAt(i)) != HasBit(Plus(Or(x, BitAt(i)), y), BitAt(i))
  {
    hide *;
    var e := BitAt(i);
    var x' := Or(x, e);
    var k, k' := Carry(x, y, 0, 64), Carry(x', y, 0, 64);
    BitAboveMask(i);
    BitInMask(i);
    SetBitAgrees(x, e, LowMask(i));
    SameReflexive(0, 1);
    CarryLocal(x, x', y, 0, 0, i, 64);
    SetBitDiffers(x, y, k, k', e, LowMask(i + 1));
    PlusIsXor(x, y);
    PlusIsXor(x', y);
    CarriesDef(x, y);
    CarriesDef(x', y);
    BitIsAtom(Plus(x, y), i);
    BitIsAtom(Plus(x', y), i);
    DifferentBits(Plus(x, y), Plus(x', y), e);
  }

  lemma PlusCommutes(x: bv64, y: bv64)
    ensures Plus(x, y) == Plus(y, x)
  {}

  lemma AddMask(a: Tnum, b: Tnum)
    requires a.WellFormed() && b.WellFormed()
    ensures a.Add(b).mask == SumMask(Plus(a.value, b.value), Plus(Or(a.value, a.mask), Or(b.value, b.mask)), a.mask,
              b.mask)
  {
    hide Plus, Disjoint, SumMask, Or, AndNot;
    LargestSum(a.value, a.mask, b.value, b.mask);
  }

  lemma UnknownOperandBit(a: Tnum, b: Tnum, i: nat)
    requires a.WellFormed() && b.WellFormed() && i < 64
    requires HasBit(a.mask, BitAt(i))
    ensures ReachesBoth(Plus, a, b, BitAt(i))
  {
    hide Plus, Member, Disjoint, Sub, Or, BitAt;
    var e := BitAt(i);
    BitIsAtom(a.mask, i);
    SmallestIsMember(a.value, a.mask);
    SmallestIsMember(b.value, b.mask);
    SetBitIsMember(a.value, a.mask, e);
    HasBitNonzero(a.mask, e);
    FlipOperand(a.value, b.value, i);
    TwoResults(Plus, a, b, a.value, b.value, Or(a.value, e), b.value, e);
  }

  lemma BothValuesCommute(a: Tnum, b: Tnum, e: bv64)
    requires ReachesBoth(Plus, b, a, e)
    ensures ReachesBoth(Plus, a, b, e)
  {
    hide Plus, Member, HasBit;
    var x, y, x', y' :| b.Has(x) && a.Has(y) && b.Has(x') && a.Has(y') &&
                        !HasBit(Plus(x, y), e) && HasBit(Plus(x', y'), e);
    PlusCommutes(x, y);
    PlusCommutes(x', y');
    TwoResults(Plus, a, b, y, x, y', x', e);
  }

  lemma UnknownCarryBit(a: Tnum, b: Tnum, i: nat)
    requires a.WellFormed() && b.WellFormed()
    requires !Same(Plus(a.value, b.value), Plus(Or(a.value, a.mask), Or(b.value, b.mask)), BitAt(i))
    ensures ReachesBoth(Plus, a, b, BitAt(i))
  {
    hide Plus, Member, Disjoint, Same, Or, BitAt;
    var low, high := Plus(a.value, b.value), Plus(Or(a.value, a.mask), Or(b.value, b.mask));
    SmallestIsMember(a.value, a.mask);
    SmallestIsMember(b.value, b.mask);
    LargestIsMember(a.value, a.mask);
    LargestIsMember(b.value, b.mask);
    BitIsAtom(low, i);
    BitIsAtom(high, i);
    DifferentBits(low, high, BitAt(i));
    TwoResults(Plus, a, b, a.value, b.value, Or(a.value, a.mask), Or(b.value, b.mask), BitAt(i));
  }

  /** `Add` marks a bit unknown only when that bit really varies over the sums of members. */
  lemma AddTight(a: Tnum, b: Tnum, i: nat)
    requires a.WellFormed() && b.WellFormed() && i < 64
    requires HasBit(a.Add(b).mask, BitAt(i))
    ensures ReachesBoth(Plus, a, b, BitAt(i))
  {
    hide Plus, Disjoint, SumMask, Or, BitAt, Same, AndNot;
    hide ReachesBoth;
    var e := BitAt(i);
    var low, high := Plus(a.value, b.value), Plus(Or(a.value, a.mask), Or(b.value, b.mask));
    AddMask(a, b);
    if HasBit(a.mask, e) {
      UnknownOperandBit(a, b, i);
    } else if HasBit(b.mask, e) {
      UnknownOperandBit(b, a, i);
      BothValuesCommute(a, b, e);
    } else {
      if Same(low, high, e) {
        OutsideMask(low, high, a.mask, b.mask, e);
      }
      UnknownCarryBit(a, b, i);
    }
  }

  lemma KeptIsWellFormed(low: bv64, mu: bv64)
    ensures Disjoint(AndNot(low, mu), mu)
  {}

  lemma AddWellFormed(a: Tnum, b: Tnum)
    ensures a.Add(b).WellFormed() && a.Sub(b).WellFormed()
  {
    hide Disjoint, AndNot, Plus, Minus, SumMask;
    KeptIsWellFormed(Plus(a.value, b.value), a.Add(b).mask);
    KeptIsWellFormed(Plus(a.value, Minus(0, b.value)), a.Sub(b).mask);
  }
}

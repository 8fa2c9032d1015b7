/** Shifts and truncation of tracked numbers are tightest too: a bit is left unknown exactly when some member makes it
  zero and some member makes it one. */
module ShiftTightness {
  import opened Words
  import opened LowHalves
  import opened Shifts
  import opened Tnums
  import opened TnumProofs
  import opened TnumTightness
  import opened TnumWellFormed

  /** Bit `e` is zero for the result of some member and one for that of another. */
  ghost predicate Varies(f: bv64 -> bv64, a: Tnum, e: bv64) {
    (exists x :: a.Has(x) && !HasBit(f(x), e)) && (exists x :: a.Has(x) && HasBit(f(x), e))
  }

  lemma TwoValues(r: Tnum, s: bv64, t: bv64, e: bv64)
    requires r.Has(s) && r.Has(t) && !HasBit(s, e) && HasBit(t, e)
    ensures HasBit(r.mask, e)
  {
    hide Member, HasBit;
    if !HasBit(r.mask, e) {
      KnownBitsFixed(s, t, r.value, r.mask, e);
    }
  }

  lemma VariesMeansUnknown(f: bv64 -> bv64, a: Tnum, r: Tnum, e: bv64)
    requires (forall x :: a.Has(x) ==> r.Has(f(x))) && Varies(f, a, e)
    ensures HasBit(r.mask, e)
  {
    hide Tnum.Has, HasBit;
    var x :| a.Has(x) && !HasBit(f(x), e);
    var x' :| a.Has(x') && HasBit(f(x'), e);
    TwoValues(r, f(x), f(x'), e);
  }

  lemma UnknownBitVaries(v: bv64, m: bv64, e: bv64)
    requires Disjoint(v, m) && HasBit(m, e) && Atom(m, e)
    ensures !HasBit(v, e) && HasBit(Or(v, m), e)
  {}

  /** An operation that works bit by bit leaves exactly the varying bits unknown. */
  lemma BitwiseExact(f: bv64 -> bv64, a: Tnum, i: nat)
    requires a.WellFormed() && Disjoint(f(a.value), f(a.mask))
    requires f(Or(a.value, a.mask)) == Or(f(a.value), f(a.mask))
    requires forall x :: a.Has(x) ==> Tnum(f(a.value), f(a.mask)).Has(f(x))
    ensures HasBit(f(a.mask), BitAt(i)) <==> Varies(f, a, BitAt(i))
  {
    hide Member, Disjoint, Or, HasBit, Atom, BitAt;
    var e, r := BitAt(i), Tnum(f(a.value), f(a.mask));
    if Varies(f, a, e) {
      VariesMeansUnknown(f, a, r, e);
    }
    if HasBit(r.mask, e) {
      ExtremeMembers(a);
      BitIsAtom(r.mask, i);
      UnknownBitVaries(r.value, r.mask, e);
      assert a.Has(a.value) && a.Has(Or(a.value, a.mask));
    }
  }

  lemma LshExact(a: Tnum, k: nat, i: nat)
    requires a.WellFormed() && k < 64
    ensures HasBit(a.Lsh(k).mask, BitAt(i)) <==> Varies(x => Shl(x, k), a, BitAt(i))
  {
    hide Member, Disjoint, Or, HasBit, Shl, BitAt;
    forall x | a.Has(x)
      ensures a.Lsh(k).Has(Shl(x, k))
    {
      LshSound(a, x, k);
    }
    ShlDisjoint(a.value, a.mask, k);
    ShlOr(a.value, a.mask, k);
    BitwiseExact(x => Shl(x, k), a, i);
  }

  lemma RshExact(a: Tnum, k: nat, i: nat)
    requires a.WellFormed() && k < 64
    ensures HasBit(a.Rsh(k).mask, BitAt(i)) <==> Varies(x => Shr(x, k), a, BitAt(i))
  {
    hide Member, Disjoint, Or, HasBit, Shr, BitAt;
    forall x | a.Has(x)
      ensures a.Rsh(k).Has(Shr(x, k))
    {
      RshSound(a, x, k);
    }
    ShrDisjoint(a.value, a.mask, k);
    ShrOr(a.value, a.mask, k);
    BitwiseExact(x => Shr(x, k), a, i);
  }

  lemma Trunc32Exact(a: Tnum, i: nat)
    requires a.WellFormed()
    ensures HasBit(a.Trunc32().mask, BitAt(i)) <==> Varies(Low, a, BitAt(i))
  {
    hide Member, Disjoint, Or, HasBit, Low, BitAt;
    forall x | a.Has(x)
      ensures a.Trunc32().Has(Low(x))
    {
      Trunc32Sound(a, x);
    }
    LowDisjoint(a.value, a.mask);
    LowOr(a.value, a.mask);
    BitwiseExact(Low, a, i);
  }
}

/** When the sign bit of a sum or difference of tracked numbers is known: tests on the operands as numbers. */
module SumSigns {
  import opened Words
  import opened Addition
  import opened Addresses
  import opened TnumSubtraction
  import opened Tnums

  // --- Disjoint patterns add up ---

  lemma HalvesDisjoint(x: bv64, y: bv64)
    requires Disjoint(x, y)
    ensures Disjoint(Half(x), Half(y)) && Half(Or(x, y)) == Or(Half(x), Half(y))
    ensures Bit0(Or(x, y)) == Bit0(x) + Bit0(y)
  {}

  lemma {:induction false} ValueOfUnion(x: bv64, y: bv64, n: nat)
    requires Disjoint(x, y)
    ensures Value(Or(x, y), n) == Value(x, n) + Value(y, n)
    decreases n
  {
    hide Disjoint, Half, Bit0, Or;
    if n > 0 {
      HalvesDisjoint(x, y);
      ValueOfUnion(Half(x), Half(y), n - 1);
    }
  }

  /** A number below the sign bit and disjoint from another does not carry into it. */
  lemma UnionOfLows(v: bv64, m: bv64)
    requires Disjoint(v, m)
    ensures U(Or(v, m)) == U(v) + U(m) && (U(m) < TWO63 ==> U(v) % TWO63 + U(m) < TWO63)
  {
    hide Value, Disjoint, Or;
    Pow2Facts();
    ValueOfUnion(v, m, 64);
    ValueOfUnion(v, m, 63);
    Bound(Or(v, m), 63);
    ValueMod(v, 63, 1);
    ValueMod(m, 63, 1);
  }

  // --- The sign of a sum ---

  lemma SignOfSumMask(low: bv64, high: bv64, am: bv64, bm: bv64)
    ensures SignClear(SumMask(low, high, am, bm)) <==>
              SignClear(am) && SignClear(bm) && (SignClear(low) <==> SignClear(high))
  {}

  /** Masks below the sign bit, and the same sign at both ends. */
  predicate SignStays(low: U64, am: U64, bm: U64) {
    am < TWO63 && bm < TWO63 && (low < TWO63 <==> (low + am + bm) % TWO64 < TWO63)
  }

  lemma EndsOfSum(low: bv64, am: bv64, bm: bv64)
    ensures SignClear(SumMask(low, Plus(low, Plus(am, bm)), am, bm)) <==> SignStays(U(low), U(am), U(bm))
  {
    hide U, Plus, SumMask, SignClear;
    var high := Plus(low, Plus(am, bm));
    SignOfSumMask(low, high, am, bm);
    SignIsHigh(low);
    SignIsHigh(high);
    SignIsHigh(am);
    SignIsHigh(bm);
    UPlus(am, bm);
    UPlus(low, Plus(am, bm));
    SumsAssociate(U(low), U(am), U(bm));
    SumTwice(U(low), U(am), U(bm));
  }

  lemma SignIsHigh(x: bv64)
    ensures SignClear(x) <==> U(x) < TWO63
  {
    hide U;
    SignBit(x);
  }

  lemma SumTwice(a: U64, b: U64, c: U64)
    ensures (a + (b + c) % TWO64) % TWO64 == (a + b + c) % TWO64
  {
    assert (b + c) % TWO64 == b + c || (b + c) % TWO64 == b + c - TWO64;
  }

  /** Both ends of the sum lie in the same half of the numbers. */
  predicate SumKeepsSign(a: Tnum, b: Tnum) {
    (a.MinValue() + b.MinValue()) / TWO63 == (a.MaxValue() + b.MaxValue()) / TWO63
  }

  lemma HalvesOfSum(a: U64, am: U64, b: U64, bm: U64)
    requires am < TWO63 ==> a % TWO63 + am < TWO63
    requires bm < TWO63 ==> b % TWO63 + bm < TWO63
    ensures (a + b) / TWO63 == (a + am + b + bm) / TWO63 <==> SignStays((a + b) % TWO64, am, bm)
  {
    var low := (a + b) % TWO64;
    assert low == a + b || low == a + b - TWO64;
    if am >= TWO63 || bm >= TWO63 {
      assert (a + am + b + bm) / TWO63 > (a + b) / TWO63;
    } else {
      assert a == a % TWO63 || a == a % TWO63 + TWO63;
      assert b == b % TWO63 || b == b % TWO63 + TWO63;
    }
  }

  /** The sign bit of a sum is known exactly when its smallest and its largest value lie in the same half. */
  lemma SumSignExact(a: Tnum, b: Tnum)
    requires a.WellFormed() && b.WellFormed()
    ensures SignClear(a.Add(b).mask) <==> SumKeepsSign(a, b)
  {
    hide U, Plus, SumMask, SignClear, Or, SignStays, Disjoint, AndNot;
    UnionOfLows(a.value, a.mask);
    UnionOfLows(b.value, b.mask);
    EndsOfSum(Plus(a.value, b.value), a.mask, b.mask);
    UPlus(a.value, b.value);
    HalvesOfSum(U(a.value), U(a.mask), U(b.value), U(b.mask));
  }

  /** Difference of the smallest values, and that moved up by both masks, have the same sign. */
  predicate DifferenceKeepsSign(a: Tnum, b: Tnum) {
    SignStays((a.MinValue() - b.MinValue()) % TWO64, U(a.mask), U(b.mask))
  }

  lemma DifferenceSignExact(a: Tnum, b: Tnum)
    ensures SignClear(a.Sub(b).mask) <==> DifferenceKeepsSign(a, b)
  {
    hide U, Plus, Minus, SumMask, SignClear, SignStays, AndNot;
    NegativeRaw(b.value);
    PlusNegative(a.value, b.value);
    EndsOfSum(Minus(a.value, b.value), a.mask, b.mask);
    UMinus(a.value, b.value);
  }
}

/** 32-bit arithmetic as the low half of 64-bit arithmetic. */
module LowHalves {
  import opened Words
  import opened Addition
  import opened TnumProofs
  import opened TnumSubtraction

  lemma LowsAgree(x: bv64, y: bv64)
    requires Low(x) == Low(y)
    ensures Same(x, y, 0xFFFF_FFFF)
  {}

  lemma LowsEqual(x: bv64, y: bv64)
    requires Same(x, y, 0xFFFF_FFFF)
    ensures Low(x) == Low(y)
  {}

  lemma LowTwice(x: bv64)
    ensures Low(Low(x)) == Low(x)
  {}

  lemma LowZero()
    ensures Low(0) == 0
  {}

  lemma LowAnd(x: bv64, y: bv64)
    ensures Low(And(x, y)) == And(Low(x), Low(y))
  {}

  lemma LowOr(x: bv64, y: bv64)
    ensures Low(Or(x, y)) == Or(Low(x), Low(y))
  {}

  lemma LowXor(x: bv64, y: bv64)
    ensures Low(Xor(x, y)) == Xor(Low(x), Low(y))
  {}

  // --- Sums and differences ---

  lemma ParityOfLows(x: bv64, x': bv64, y: bv64, k: bv64, k': bv64)
    requires Same(x, x', 0xFFFF_FFFF) && Same(k, k', Cons(0xFFFF_FFFF, 1))
    ensures Same(Parity(x, y, k), Parity(x', y, k'), 0xFFFF_FFFF)
  {}

  lemma ReplaceAddend(x: bv64, x': bv64, y: bv64)
    requires Low(x) == Low(x')
    ensures Low(Plus(x, y)) == Low(Plus(x', y))
  {
    hide *;
    LowsAgree(x, x');
    LowMask32();
    SameReflexive(0, 1);
    CarryLocal(x, x', y, 0, 0, 32, 64);
    assert LowMask(33) == Cons(LowMask(32), 1) by { NextMask(32); }
    ParityOfLows(x, x', y, Carry(x, y, 0, 64), Carry(x', y, 0, 64));
    PlusIsXor(x, y);
    PlusIsXor(x', y);
    CarriesDef(x, y);
    CarriesDef(x', y);
    LowsEqual(Plus(x, y), Plus(x', y));
  }

  lemma NextMask(n: nat)
    ensures LowMask(n + 1) == Cons(LowMask(n), 1)
  {}

  /** The low half of a sum depends only on the low halves of the addends. */
  lemma LowPlus(x: bv64, y: bv64, x': bv64, y': bv64)
    requires Low(x) == Low(x') && Low(y) == Low(y')
    ensures Low(Plus(x, y)) == Low(Plus(x', y'))
  {
    hide *;
    ReplaceAddend(x, x', y);
    PlusCommutes(x', y);
    ReplaceAddend(y, y', x');
    PlusCommutes(x', y');
  }

  lemma LowNotRaw(x: bv64)
    ensures Low(!x) == AndNot(0xFFFF_FFFF, Low(x))
  {}

  lemma LowNot(x: bv64)
    ensures Low(Not(x)) == AndNot(0xFFFF_FFFF, Low(x))
  {
    hide Low, AndNot;
    LowNotRaw(x);
  }

  lemma LowMinus(x: bv64, y: bv64, x': bv64, y': bv64)
    requires Low(x) == Low(x') && Low(y) == Low(y')
    ensures Low(Minus(x, y)) == Low(Minus(x', y'))
  {
    hide *;
    LowNot(x);
    LowNot(x');
    LowPlus(Not(x), y, Not(x'), y');
    LowNot(Plus(Not(x), y));
    LowNot(Plus(Not(x'), y'));
    DifferenceIsSum(x, y);
    DifferenceIsSum(x', y');
  }

  // --- Products ---

  lemma ModTwice(n: nat)
    ensures n % TWO64 % TWO32 == n % TWO32
  {}

  lemma SameMod(n: nat, m: nat, k: nat)
    requires n == TWO32 * k + m
    ensures n % TWO32 == m % TWO32
  {}

  lemma SplitProduct(a: nat, b: nat, p: nat, a': nat, q: nat, b': nat, w: nat)
    requires a == w * p + a' && b == w * q + b'
    ensures a * b == w * (p * b + a' * q) + a' * b'
  {
    assert a * b == w * p * b + a' * b;
    assert a' * b == w * (a' * q) + a' * b';
  }

  lemma ModProduct(a: nat, b: nat)
    ensures (a * b) % TWO64 % TWO32 == ((a % TWO32) * (b % TWO32)) % TWO64 % TWO32
  {
    var a', b', p, q := a % TWO32, b % TWO32, a / TWO32, b / TWO32;
    ModTwice(a * b);
    ModTwice(a' * b');
    SplitProduct(a, b, p, a', q, b', TWO32);
    SameMod(a * b, a' * b', p * b + a' * q);
  }

  lemma LowTimes(x: bv64, y: bv64)
    ensures Low(Times(x, y)) == Low(Times(Low(x), Low(y)))
  {
    hide U, B, Low;
    var n, m := (U(x) * U(y)) % TWO64, (U(Low(x)) * U(Low(y))) % TWO64;
    UOfB(n);
    UOfB(m);
    LowIsMod(x);
    LowIsMod(y);
    LowIsMod(B(n));
    LowIsMod(B(m));
    ModProduct(U(x), U(y));
    UInjective(Low(B(n)), Low(B(m)));
  }

  // --- Shifts ---

  lemma LowShlStep(x: bv64, y: bv64)
    requires Low(x) == Low(y)
    ensures Low(x << 1) == Low(y << 1)
  {}

  lemma {:induction false} LowShl(x: bv64, y: bv64, k: nat)
    requires Low(x) == Low(y)
    ensures Low(Shl(x, k)) == Low(Shl(y, k))
    decreases k
  {
    hide Low;
    if k > 0 {
      LowShlStep(x, y);
      LowShl(x << 1, y << 1, k - 1);
    }
  }

  lemma LowIsPart(x: bv64)
    ensures Sub(Low(x), x)
  {}

  lemma ShrStepPart(x: bv64, y: bv64)
    requires Sub(x, y)
    ensures Sub(x >> 1, y >> 1)
  {}

  lemma ShrStepLow(x: bv64)
    requires Low(x) == x
    ensures Low(x >> 1) == x >> 1
  {}

  lemma {:induction false} ShrPart(x: bv64, y: bv64, k: nat)
    requires Sub(x, y) && Low(x) == x
    ensures Sub(Shr(x, k), Shr(y, k)) && Low(Shr(x, k)) == Shr(x, k)
    decreases k
  {
    hide Low, Sub;
    if k > 0 {
      ShrStepPart(x, y);
      ShrStepLow(x);
      ShrPart(x >> 1, y >> 1, k - 1);
    }
  }

  lemma PartOfLow(x: bv64, y: bv64)
    requires Sub(x, y) && Low(x) == x
    ensures Sub(x, Low(y))
  {}

  /** Shifting the low half right gives part of the low half of the shifted word. */
  lemma ShrOfLow(x: bv64, k: nat)
    ensures Sub(Shr(Low(x), k), Low(Shr(x, k))) && Low(Shr(Low(x), k)) == Shr(Low(x), k)
  {
    hide Low, Sub, Shr;
    LowTwice(x);
    LowIsPart(x);
    ShrPart(Low(x), x, k);
    PartOfLow(Shr(Low(x), k), Shr(x, k));
  }

  // --- Arithmetic right shifts ---

  function SarOnce(x: bv64): bv64 { (x >> 1) | (x & 0x8000_0000_0000_0000) }

  lemma SarStep(x: bv64, k: nat)
    requires k > 0
    ensures Sar(x, k) == Sar(SarOnce(x), k - 1)
  {}

  lemma BelowTop(x: bv64, m: bv64)
    requires Sub(m, 0x7FFF_FFFF_FFFF_FFFF)
    ensures Same(SarOnce(x), Half(x), m)
  {}

  lemma SameChain(a: bv64, b: bv64, c: bv64, d: bv64, m: bv64)
    requires Same(a, c, m) && Same(b, d, m) && Same(c, d, m)
    ensures Same(a, b, m)
  {}

  lemma SameBelowTop(x: bv64, y: bv64, m: bv64)
    requires Sub(m, 0x7FFF_FFFF_FFFF_FFFF)
    ensures Same(SarOnce(x), SarOnce(y), m) <==> Same(Half(x), Half(y), m)
  {
    hide Sub, Same, SarOnce, Half;
    BelowTop(x, m);
    BelowTop(y, m);
    SameFlips(SarOnce(x), Half(x), m);
    SameFlips(SarOnce(y), Half(y), m);
    if Same(Half(x), Half(y), m) {
      SameChain(SarOnce(x), SarOnce(y), Half(x), Half(y), m);
    }
    if Same(SarOnce(x), SarOnce(y), m) {
      SameChain(Half(x), Half(y), SarOnce(x), SarOnce(y), m);
    }
  }

  lemma SameFlips(a: bv64, b: bv64, m: bv64)
    requires Same(a, b, m)
    ensures Same(b, a, m)
  {}

  lemma {:induction false} SameDrops(x: bv64, y: bv64, n: nat)
    requires n > 0
    ensures Same(x, y, LowMask(n)) <==> Same(Half(x), Half(y), LowMask(n - 1)) && Bit0(x) == Bit0(y)
  {
    hide Same, Half, Bit0, Cons;
    var m := LowMask(n - 1);
    if Same(x, y, Cons(m, 1)) {
      SameStepDown(x, y, m);
    } else if Same(Half(x), Half(y), m) && Bit0(x) == Bit0(y) {
      SameStepUp(x, y, m);
    }
  }

  lemma BelowTopMask(n: nat)
    requires n <= 63
    ensures Sub(LowMask(n), 0x7FFF_FFFF_FFFF_FFFF)
  {
    hide Sub;
    LowMask64();
    LowMasksNest(n, 63);
  }

  /** Of two words that agree on the bits shifted out, the shifted words agree on `n` bits exactly when the words
      agree on the `n` bits above as well. */
  lemma {:induction false} SarAgrees(x: bv64, y: bv64, k: nat, n: nat)
    requires n + k <= 63 && Same(x, y, LowMask(k))
    ensures Same(Sar(x, k), Sar(y, k), LowMask(n)) <==> Same(x, y, LowMask(n + k))
    decreases k
  {
    hide Same, Half, Bit0, Cons, SarOnce, Sar, LowMask;
    if k == 0 {
      NoSar(x);
      NoSar(y);
    } else {
      SarStep(x, k);
      SarStep(y, k);
      SameDrops(x, y, k);
      SameDrops(x, y, n + k);
      BelowTopMask(k - 1);
      BelowTopMask(n + k - 1);
      SameBelowTop(x, y, LowMask(k - 1));
      SameBelowTop(x, y, LowMask(n + k - 1));
      SarAgrees(SarOnce(x), SarOnce(y), k - 1, n);
    }
  }

  lemma NoSar(x: bv64)
    ensures Sar(x, 0) == x
  {}

  /** The sign-extended low half has the low half it was made from. */
  lemma LowOfSigned(x: bv64)
    ensures Low(FromSigned(S32(x))) == Low(x)
  {
    hide U, B, Low;
    LowIsMod(x);
    CastsAgree(x, S32(x));
    LowIsMod(FromSigned(S32(x)));
    UInjective(Low(FromSigned(S32(x))), Low(x));
  }

  lemma PartOfMask(x: bv64, y: bv64, m: bv64, w: bv64)
    requires Same(x, y, w) && Sub(m, w)
    ensures Same(x, y, m)
  {}

  /** Shifting the whole word agrees with shifting its low half exactly when the bits shifted in are copies of the
      low half's sign. */
  lemma LowSar(x: bv64, k: nat)
    requires k < 32
    ensures Low(Sar(x, k)) == Low(Sar(FromSigned(S32(x)), k)) <==> Same(x, FromSigned(S32(x)), LowMask(32 + k))
  {
    hide Low, Sar, Same, FromSigned, S32, LowMask, Sub;
    var y := FromSigned(S32(x));
    LowOfSigned(x);
    LowsAgree(x, y);
    LowMask32();
    LowMasksNest(k, 32);
    PartOfMask(x, y, LowMask(k), LowMask(32));
    SarAgrees(x, y, k, 32);
    if Low(Sar(x, k)) == Low(Sar(y, k)) {
      LowsAgree(Sar(x, k), Sar(y, k));
    }
    if Same(Sar(x, k), Sar(y, k), LowMask(32)) {
      LowsEqual(Sar(x, k), Sar(y, k));
    }
  }
}

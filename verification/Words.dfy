/** 64-bit machine words.

  A register word is a bit pattern (`bv64`): masks, shifts and logical operations act on patterns.
  Range bounds are numbers: `U` reads a pattern as an unsigned 64-bit number, `S` as a signed one, and
  `B` goes back. The casts between `u64` and `i64` in the Rust code are `S(B(n))` and `U(FromSigned(n))`.

  The one-step functions (`Half`, `Bit0`, `Cons`) keep bit patterns and numbers apart in proofs: an
  induction over the 64 bits hides their bodies and uses one small lemma for each step.
*/
module Words {
  const TWO32: int := 0x1_0000_0000
  const TWO63: int := 0x8000_0000_0000_0000
  const TWO64: int := 0x1_0000_0000_0000_0000
  const U64_MAX: U64 := 0xFFFF_FFFF_FFFF_FFFF
  const U32_MAX: U64 := 0xFFFF_FFFF
  const I64_MIN: I64 := -0x8000_0000_0000_0000
  const I64_MAX: I64 := 0x7FFF_FFFF_FFFF_FFFF

  type U64 = n: int | 0 <= n < 0x1_0000_0000_0000_0000
  type I64 = n: int | -0x8000_0000_0000_0000 <= n < 0x8000_0000_0000_0000
  type I32 = n: int | -0x8000_0000 <= n < 0x8000_0000
  type I16 = n: int | -0x8000 <= n < 0x8000

  function Min(a: int, b: int): int { if a <= b then a else b }
  function Max(a: int, b: int): int { if a <= b then b else a }

  /** The value an `i64` operation leaves behind when it wraps. */
  function WrapI64(n: int): I64 {
    (n + TWO63) % TWO64 - TWO63
  }

  // --- One bit at a time ---

  function Half(x: bv64): bv64 { x >> 1 }

  function Bit0(x: bv64): (b: nat)
    ensures b <= 1
  {
    if x & 1 == 1 then 1 else 0
  }

  function Cons(h: bv64, b: nat): bv64 { if b == 1 then (h << 1) | 1 else h << 1 }

  function Pow2(n: nat): (p: nat)
    ensures p > 0
  {
    if n == 0 then 1 else 2 * Pow2(n - 1)
  }

  /** The pattern whose low `n` bits are set. */
  function LowMask(n: nat): bv64 { if n == 0 then 0 else Cons(LowMask(n - 1), 1) }

  /** The number written by the low `n` bits of `x`. */
  function Value(x: bv64, n: nat): nat { if n == 0 then 0 else 2 * Value(Half(x), n - 1) + Bit0(x) }

  /** The pattern of the low `n` bits of the number `v`. */
  function Pattern(v: nat, n: nat): bv64 { if n == 0 then 0 else Cons(Pattern(v / 2, n - 1), v % 2) }

  /** Every bit of `x` is also set in `y`. */
  predicate Sub(x: bv64, y: bv64) { x & y == x }

  /** The sign bit is zero. */
  predicate SignClear(x: bv64) { x & 0x8000_0000_0000_0000 == 0 }

  /** `x` and `y` agree on the bits of `m`. */
  predicate Same(x: bv64, y: bv64, m: bv64) { (x ^ y) & m == 0 }

  // --- The numeric views ---

  /** The unsigned reading of a pattern. */
  function U(x: bv64): U64 {
    Bound(x, 64);
    Pow2Facts();
    Value(x, 64)
  }

  /** The signed (two's complement) reading of a pattern. */
  function S(x: bv64): I64 {
    if U(x) < TWO63 then U(x) else U(x) - TWO64
  }

  /** The pattern of an unsigned number. */
  function B(n: U64): bv64 { Pattern(n, 64) }

  /** The pattern of a signed number. */
  function FromSigned(n: I64): bv64 { B(if n < 0 then n + TWO64 else n) }

  /** The cast of a `u64` to an `i64`. */
  function AsI64(n: U64): I64 { if n < TWO63 then n else n - TWO64 }

  /** The cast of an `i64` to a `u64`. */
  function AsU64(n: I64): U64 { if n < 0 then n + TWO64 else n }

  /** The low 32 bits of a word, zero-extended. */
  function Low(x: bv64): bv64 { x & 0xFFFF_FFFF }

  /** The signed reading of the low 32 bits. */
  function S32(x: bv64): I64 {
    LowFits(x);
    if U(Low(x)) < 0x8000_0000 then U(Low(x)) else U(Low(x)) - TWO32
  }

  // --- Arithmetic, logic and shifts on patterns ---

  function And(x: bv64, y: bv64): bv64 { x & y }

  function Or(x: bv64, y: bv64): bv64 { x | y }

  function Xor(x: bv64, y: bv64): bv64 { x ^ y }

  /** The bits of `x` outside `m`. */
  function AndNot(x: bv64, m: bv64): bv64 { x & !m }

  function Plus(x: bv64, y: bv64): bv64 { x + y }

  function Minus(x: bv64, y: bv64): bv64 { x - y }

  function Times(x: bv64, y: bv64): bv64 { B((U(x) * U(y)) % TWO64) }

  /** Unsigned division; callers exclude a zero divisor. */
  function Quotient(x: bv64, y: bv64): bv64
    requires U(y) != 0
  {
    B(U(x) / U(y))
  }

  function Remainder(x: bv64, y: bv64): bv64
    requires U(y) != 0
  {
    B(U(x) % U(y))
  }

  /** The word with only bit `i` set. */
  function BitAt(i: nat): bv64 { if i == 0 then 1 else BitAt(i - 1) << 1 }

  function Shl(x: bv64, k: nat): bv64
    decreases k
  {
    if k == 0 then x else Shl(x << 1, k - 1)
  }

  function Shr(x: bv64, k: nat): bv64
    decreases k
  {
    if k == 0 then x else Shr(x >> 1, k - 1)
  }

  /** Right shift that copies the sign bit. */
  function Sar(x: bv64, k: nat): bv64
    decreases k
  {
    if k == 0 then x else Sar((x >> 1) | (x & 0x8000_0000_0000_0000), k - 1)
  }

  // --- Constants ---

  lemma Pow2Facts()
    ensures Pow2(31) == 0x8000_0000 && Pow2(32) == 0x1_0000_0000
    ensures Pow2(63) == 0x8000_0000_0000_0000 && Pow2(64) == 0x1_0000_0000_0000_0000
  {
    assert Pow2(8) == 0x100;
    assert Pow2(16) == 0x1_0000;
    assert Pow2(24) == 0x100_0000;
    assert Pow2(32) == 0x1_0000_0000;
    assert Pow2(40) == 0x100_0000_0000;
    assert Pow2(48) == 0x1_0000_0000_0000;
    assert Pow2(56) == 0x100_0000_0000_0000;
  }

  lemma LowMask32()
    ensures LowMask(31) == 0x7FFF_FFFF && LowMask(32) == 0xFFFF_FFFF
  {
    assert LowMask(4) == 0xF;
    assert LowMask(8) == 0xFF;
    assert LowMask(12) == 0xFFF;
    assert LowMask(16) == 0xFFFF;
    assert LowMask(20) == 0xF_FFFF;
    assert LowMask(24) == 0xFF_FFFF;
    assert LowMask(28) == 0xFFF_FFFF;
  }

  lemma LowMask64()
    ensures LowMask(63) == 0x7FFF_FFFF_FFFF_FFFF && LowMask(64) == 0xFFFF_FFFF_FFFF_FFFF
  {
    LowMask32();
    assert LowMask(36) == 0xF_FFFF_FFFF;
    assert LowMask(40) == 0xFF_FFFF_FFFF;
    assert LowMask(44) == 0xFFF_FFFF_FFFF;
    assert LowMask(48) == 0xFFFF_FFFF_FFFF;
    assert LowMask(52) == 0xF_FFFF_FFFF_FFFF;
    assert LowMask(56) == 0xFF_FFFF_FFFF_FFFF;
    assert LowMask(60) == 0xFFF_FFFF_FFFF_FFFF;
  }

  // --- One-step facts ---

  lemma SameStepUp(x: bv64, y: bv64, m: bv64)
    requires Same(Half(x), Half(y), m) && Bit0(x) == Bit0(y)
    ensures Same(x, y, Cons(m, 1))
  {}

  lemma SameStepDown(x: bv64, y: bv64, m: bv64)
    requires Same(x, y, Cons(m, 1))
    ensures Same(Half(x), Half(y), m) && Bit0(x) == Bit0(y)
  {}

  lemma SameZero(x: bv64, y: bv64)
    ensures Same(x, y, 0)
  {}

  lemma SubStep(x: bv64, y: bv64)
    requires Sub(x, y)
    ensures Sub(Half(x), Half(y)) && Bit0(x) <= Bit0(y)
  {}

  lemma SubCons(a: bv64, b: bv64)
    requires Sub(a, b)
    ensures Sub(Cons(a, 1), Cons(b, 1))
  {}

  lemma SubSelf(x: bv64)
    ensures Sub(x, x)
  {}

  lemma SubTrans(a: bv64, b: bv64, c: bv64)
    requires Sub(a, b) && Sub(b, c)
    ensures Sub(a, c)
  {}

  lemma HalfOfCons(h: bv64, b: nat)
    requires b <= 1
    ensures Half(Cons(h, b)) == h & 0x7FFF_FFFF_FFFF_FFFF && Bit0(Cons(h, b)) == b
  {}

  lemma HalfOfZero()
    ensures Half(0) == 0 && Bit0(0) == 0
  {}

  // --- Numbers and patterns, by induction over the bits ---

  lemma {:induction false} Bound(x: bv64, n: nat)
    ensures Value(x, n) < Pow2(n)
    decreases n
  {
    hide Half;
    if n > 0 {
      Bound(Half(x), n - 1);
    }
  }

  lemma {:induction false} ValueSame(x: bv64, y: bv64, n: nat)
    ensures Value(x, n) == Value(y, n) <==> Same(x, y, LowMask(n))
    decreases n
  {
    hide Same, Half, Bit0, Cons;
    if n == 0 {
      SameZero(x, y);
    } else {
      var m := LowMask(n - 1);
      ValueSame(Half(x), Half(y), n - 1);
      if Same(x, y, Cons(m, 1)) {
        SameStepDown(x, y, m);
      } else if Same(Half(x), Half(y), m) && Bit0(x) == Bit0(y) {
        SameStepUp(x, y, m);
      }
    }
  }

  lemma {:induction false} Monotone(x: bv64, y: bv64, n: nat)
    requires Sub(x, y)
    ensures Value(x, n) <= Value(y, n)
    decreases n
  {
    hide Half, Bit0, Sub;
    if n > 0 {
      SubStep(x, y);
      Monotone(Half(x), Half(y), n - 1);
    }
  }

  lemma {:induction false} ValueOfZero(n: nat)
    ensures Value(0, n) == 0
    decreases n
  {
    if n > 0 {
      HalfOfZero();
      ValueOfZero(n - 1);
    }
  }

  lemma {:induction false} LowMasksNest(k: nat, n: nat)
    requires k <= n
    ensures Sub(LowMask(k), LowMask(n))
    decreases k
  {
    if k == 0 {
      assert LowMask(0) == 0;
    } else {
      hide Sub, Cons;
      LowMasksNest(k - 1, n - 1);
      SubCons(LowMask(k - 1), LowMask(n - 1));
    }
  }

  lemma TopBitDropped(x: bv64, m: bv64)
    requires Sub(m, 0x7FFF_FFFF_FFFF_FFFF)
    ensures Same(x & 0x7FFF_FFFF_FFFF_FFFF, x, m)
  {}

  lemma ValueDropsTop(x: bv64, n: nat)
    requires n <= 63
    ensures Value(x & 0x7FFF_FFFF_FFFF_FFFF, n) == Value(x, n)
  {
    hide Sub, Same, LowMask, Value;
    LowMasksNest(n, 63);
    LowMask64();
    TopBitDropped(x, LowMask(n));
    ValueSame(x & 0x7FFF_FFFF_FFFF_FFFF, x, n);
  }

  lemma ValueOfCons(h: bv64, b: nat, n: nat)
    requires b <= 1 && n <= 63
    ensures Value(Cons(h, b), n + 1) == 2 * Value(h, n) + b
  {
    hide Half, Bit0, Cons;
    HalfOfCons(h, b);
    ValueDropsTop(h, n);
  }

  lemma {:induction false} ValueOfPattern(v: nat, n: nat)
    requires v < Pow2(n) && n <= 64
    ensures Value(Pattern(v, n), n) == v
    decreases n
  {
    hide Half, Bit0, Cons, Value;
    if n > 0 {
      ValueOfPattern(v / 2, n - 1);
      ValueOfCons(Pattern(v / 2, n - 1), v % 2, n - 1);
    } else {
      ValueOfZero(0);
    }
  }

  lemma {:induction false} ValueOfLowMask(k: nat, n: nat)
    requires k <= n <= 64
    ensures Value(LowMask(k), n) == Pow2(k) - 1
    decreases k
  {
    hide Half, Bit0, Cons, Value;
    if k == 0 {
      ValueOfZero(n);
    } else {
      ValueOfLowMask(k - 1, n - 1);
      ValueOfCons(LowMask(k - 1), 1, n - 1);
    }
  }

  /** Outside the low `k` bits, `x` has no bit among its low `n` ones. */
  predicate Fits(x: bv64, m: bv64, k: bv64) { x & m & !k == 0 }

  lemma FitsZero(x: bv64, m: bv64)
    requires Same(x, 0, m)
    ensures Fits(x, m, 0)
  {}

  lemma FitsCons(x: bv64, m: bv64, k: bv64)
    requires Fits(Half(x), m, k)
    ensures Fits(x, Cons(m, 1), Cons(k, 1))
  {}

  lemma {:induction false} SmallFits(x: bv64, k: nat, n: nat)
    requires k <= n && Value(x, n) < Pow2(k)
    ensures Fits(x, LowMask(n), LowMask(k))
    decreases k
  {
    hide Half, Bit0, Cons, Same, Fits;
    if k == 0 {
      ValueOfZero(n);
      ValueSame(x, 0, n);
      FitsZero(x, LowMask(n));
    } else {
      SmallFits(Half(x), k - 1, n - 1);
      FitsCons(x, LowMask(n - 1), LowMask(k - 1));
    }
  }

  lemma {:induction false} ValueMod(x: bv64, n: nat, k: nat)
    ensures Value(x, n + k) % Pow2(n) == Value(x, n)
    decreases n
  {
    hide Half, Bit0;
    if n > 0 {
      ValueMod(Half(x), n - 1, k);
      DoubleMod(Value(Half(x), n - 1 + k), Bit0(x), Pow2(n - 1));
    }
  }

  lemma DoubleMod(a: nat, b: nat, p: nat)
    requires b <= 1 && p > 0
    ensures (2 * a + b) % (2 * p) == 2 * (a % p) + b
  {
    var q := a / p;
    assert a == p * q + a % p;
    assert 2 * a + b == (2 * p) * q + (2 * (a % p) + b);
    ModUnique(2 * a + b, 2 * p, q, 2 * (a % p) + b);
  }

  lemma ModUnique(n: nat, d: nat, q: nat, r: nat)
    requires d > 0 && n == d * q + r && r < d
    ensures n % d == r
  {
    var q', r' := n / d, n % d;
    assert n == d * q' + r';
    if q != q' {
      ApartByOne(d, Min(q, q'), Max(q, q'));
    }
  }

  lemma {:induction false} ApartByOne(d: nat, a: nat, b: nat)
    requires a < b
    ensures d * a + d <= d * b
    decreases b
  {
    assert d * b == d * (b - 1) + d;
    if a + 1 < b {
      ApartByOne(d, a, b - 1);
    }
  }

  // --- What the rest of the project uses ---

  lemma UInjective(x: bv64, y: bv64)
    requires U(x) == U(y)
    ensures x == y
  {
    hide Value;
    LowMask64();
    ValueSame(x, y, 64);
  }

  lemma UOfB(n: U64)
    ensures U(B(n)) == n
  {
    hide Value, Pattern;
    Pow2Facts();
    ValueOfPattern(n, 64);
  }

  lemma BOfU(x: bv64)
    ensures B(U(x)) == x
  {
    hide U, B;
    UOfB(U(x));
    UInjective(B(U(x)), x);
  }

  /** Setting more bits never makes the number smaller. */
  lemma UMonotone(x: bv64, y: bv64)
    requires x & y == x
    ensures U(x) <= U(y)
  {
    hide Value;
    Monotone(x, y, 64);
  }

  /** Bit 63 is the sign. */
  lemma SignBit(x: bv64)
    ensures U(x) < TWO63 <==> x & 0x8000_0000_0000_0000 == 0
  {
    hide Value;
    Pow2Facts();
    LowMask64();
    if U(x) < TWO63 {
      SmallFits(x, 63, 64);
    } else if x & 0x8000_0000_0000_0000 == 0 {
      ValueOfLowMask(63, 64);
      UMonotone(x, LowMask(63));
    }
  }

  lemma FitsLow(x: bv64)
    ensures Fits(x, 0xFFFF_FFFF_FFFF_FFFF, 0xFFFF_FFFF) <==> Low(x) == x
  {}

  lemma LowIsSub(x: bv64)
    ensures Low(x) & 0xFFFF_FFFF == Low(x)
  {}

  /** A number below 2^32 has no high bits, and conversely. */
  lemma LowFits(x: bv64)
    ensures U(x) < TWO32 <==> Low(x) == x
    ensures U(Low(x)) < TWO32
  {
    hide Value, Fits, Low;
    Pow2Facts();
    LowMask32();
    LowMask64();
    FitsLow(x);
    if U(x) < TWO32 {
      SmallFits(x, 32, 64);
    }
    ValueOfLowMask(32, 64);
    LowIsSub(x);
    UMonotone(Low(x), LowMask(32));
  }

  lemma LowIsMod(x: bv64)
    ensures U(Low(x)) == U(x) % TWO32
  {
    hide Value, Low;
    Pow2Facts();
    LowMask32();
    ValueMod(x, 32, 32);
    ValueMod(Low(x), 32, 32);
    LowFits(x);
    LowAgrees(x);
    ValueSame(x, Low(x), 32);
  }

  lemma LowAgrees(x: bv64)
    ensures Same(x, Low(x), 0xFFFF_FFFF)
  {}

  lemma UConstants()
    ensures U(0) == 0 && U(0xFFFF_FFFF) == U32_MAX && U(0xFFFF_FFFF_FFFF_FFFF) == U64_MAX
    ensures U(0x7FFF_FFFF_FFFF_FFFF) == I64_MAX
  {
    hide Value;
    Pow2Facts();
    LowMask32();
    LowMask64();
    ValueOfZero(64);
    ValueOfLowMask(32, 64);
    ValueOfLowMask(63, 64);
    ValueOfLowMask(64, 64);
  }

  lemma UZero(x: bv64)
    ensures U(x) == 0 <==> x == 0
  {
    hide U;
    UConstants();
    if U(x) == 0 {
      UInjective(x, 0);
    }
  }

  /** The casts agree with the two readings of one pattern. */
  lemma CastsAgree(x: bv64, s: I64)
    ensures AsI64(U(x)) == S(x) && AsU64(S(x)) == U(x)
    ensures AsI64(AsU64(s)) == s && S(FromSigned(s)) == s && U(FromSigned(s)) == AsU64(s)
  {
    hide U, B;
    UOfB(AsU64(s));
  }
}

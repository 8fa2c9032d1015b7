/** Arithmetic forms that the offset field selects (RFC 9669, sections 4.1 and 4.2). The checker treats them as the
  plain operation of the same opcode; this module says exactly when that is right. */
module OffsetForms {
  import opened Words
  import opened Tnums
  import opened Instructions
  import opened RegStates
  import opened Transfer
  import opened Machine
  import opened AluSoundness

  // --- Sign-extending moves ---

  function ExtendedLow(v: bv64, modulus: nat): bv64
    requires modulus in {0x100, 0x1_0000, 0x1_0000_0000}
  {
    FromSigned(SignedBelow(v, modulus))
  }

  lemma SignedModulo(n: I64, modulus: nat)
    requires modulus in {0x100, 0x1_0000, 0x1_0000_0000}
    ensures AsU64(n) % modulus == n % modulus
  {
    if modulus == 0x100 {
    } else if modulus == 0x1_0000 {
    } else {
    }
  }

  /** The move keeps exactly the values that fit the width. */
  lemma KeptBySignExtension(v: bv64, modulus: nat)
    requires modulus in {0x100, 0x1_0000, 0x1_0000_0000}
    ensures ExtendedLow(v, modulus) == v <==> -(modulus / 2) <= S(v) < modulus / 2
  {
    hide U, B;
    var n := SignedBelow(v, modulus);
    CastsAgree(v, n);
    SignedModulo(S(v), modulus);
    if -(modulus / 2) <= S(v) < modulus / 2 {
      assert n == S(v);
      BOfU(v);
    }
  }

  /** Every value of the state fits the width. */
  predicate FitsWidth(r: RegState, modulus: nat) { -(modulus / 2) <= r.smin && r.smax < modulus / 2 }

  lemma FittingIsKept(r: RegState, v: bv64, modulus: nat)
    requires modulus in {0x100, 0x1_0000, 0x1_0000_0000} && r.Contains(v) && FitsWidth(r, modulus)
    ensures ExtendedLow(v, modulus) == v
  {
    hide U, B, Member;
    KeptBySignExtension(v, modulus);
  }

  /** Copying the abstract state covers the moved value, for every state with these signed bounds. */
  ghost predicate CopyCovers(lo: I64, hi: I64, modulus: nat)
    requires modulus in {0x100, 0x1_0000, 0x1_0000_0000}
  {
    forall r: RegState, v :: r.smin == lo && r.smax == hi && r.Contains(v) ==> r.Contains(ExtendedLow(v, modulus))
  }

  /** A copy of the source's state is right exactly when its bounds fit the width. */
  lemma SignExtendingMoveExact(lo: I64, hi: I64, modulus: nat)
    requires modulus in {0x100, 0x1_0000, 0x1_0000_0000} && lo <= hi
    ensures CopyCovers(lo, hi, modulus) <==> -(modulus / 2) <= lo && hi < modulus / 2
  {
    hide U, B, Member, ExtendedLow;
    if -(modulus / 2) <= lo && hi < modulus / 2 {
      forall r: RegState, v | r.smin == lo && r.smax == hi && r.Contains(v)
        ensures r.Contains(ExtendedLow(v, modulus))
      {
        FittingIsKept(r, v, modulus);
      }
    } else {
      var n := if lo < -(modulus / 2) then lo else hi;
      var v := FromSigned(n);
      CastsAgree(v, n);
      KeptBySignExtension(v, modulus);
      KnownMembers(Tnum.Constant(v), v);
      KnownMembers(Tnum.Constant(v), ExtendedLow(v, modulus));
      var r := RegState(Scalar, Tnum.Constant(v), lo, hi, U(v), U(v));
      assert r.Contains(v) && !r.Contains(ExtendedLow(v, modulus));
    }
  }

  // --- Sign-extending moves in 32 bits ---

  lemma LowOfNumber(n: I64)
    ensures U(Low(FromSigned(n))) == n % TWO32
  {
    hide U, B, Low;
    CastsAgree(0, n);
    LowIsMod(FromSigned(n));
  }

  /** The 32-bit number is the sign extension of its low byte or half-word. */
  predicate IsExtended(n: int, modulus: nat) {
    0 <= n < modulus / 2 || TWO32 - modulus / 2 <= n < TWO32
  }

  lemma ExtendedInLow(v: bv64, modulus: nat)
    requires modulus in {0x100, 0x1_0000} && U(v) < TWO32
    ensures IsExtended(U(Low(ExtendedLow(v, modulus))), modulus)
    ensures U(Low(ExtendedLow(v, modulus))) == U(v) <==> IsExtended(U(v), modulus)
  {
    hide U, B, Low, FromSigned;
    LowOfNumber(SignedBelow(v, modulus));
    if modulus == 0x100 {
    } else {
    }
  }

  /** Truncating the abstract state covers the moved value, for every state with these unsigned bounds. */
  ghost predicate TruncationCovers(lo: U64, hi: U64, modulus: nat)
    requires modulus in {0x100, 0x1_0000}
  {
    forall r: RegState, v :: r.umin == lo && r.umax == hi && r.Contains(v) ==>
      Truncated(r).Contains(Low(ExtendedLow(v, modulus)))
  }

  /** The 32-bit form, taken for a plain 32-bit move, is right exactly when all numbers within the bounds are sign
      extensions of the width moved. */
  lemma SignExtendingMove32Exact(lo: U64, hi: U64, modulus: nat)
    requires modulus in {0x100, 0x1_0000} && lo <= hi
    ensures TruncationCovers(lo, hi, modulus) <==>
              hi < modulus / 2 || (TWO32 - modulus / 2 <= lo && hi < TWO32)
  {
    hide U, B, Tnum.Has, Low, Tnum.Trunc32, Truncated, ExtendedLow, IsExtended;
    if hi < modulus / 2 || (TWO32 - modulus / 2 <= lo && hi < TWO32) {
      forall r: RegState, v | r.umin == lo && r.umax == hi && r.Contains(v)
        ensures Truncated(r).Contains(Low(ExtendedLow(v, modulus)))
      {
        WithinExtends(U(v), lo, hi, modulus);
        ExtendedInLow(v, modulus);
        LowFits(v);
        MoveSound(r, v);
        EqualNumbers(Low(ExtendedLow(v, modulus)), Low(v));
      }
    } else if hi > U32_MAX {
      var v := B(hi);
      UOfB(hi);
      UnknownHas(v);
      var r := RegState(Scalar, Tnum.Unknown(), S(v), S(v), lo, hi);
      assert r.Contains(v);
      TightMove(r, Low(ExtendedLow(v, modulus)));
    } else {
      var v := B(Max(lo, modulus / 2));
      UOfB(Max(lo, modulus / 2));
      NotExtended(Max(lo, modulus / 2), modulus);
      ExtendedInLow(v, modulus);
      KnownMembers(Tnum.Constant(v), v);
      var r := RegState(Scalar, Tnum.Constant(v), S(v), S(v), lo, hi);
      assert r.Contains(v);
      KnownTruncation(r, v, Low(ExtendedLow(v, modulus)));
    }
  }

  lemma WithinExtends(n: nat, lo: nat, hi: nat, modulus: nat)
    requires lo <= n <= hi && modulus in {0x100, 0x1_0000}
    requires hi < modulus / 2 || (TWO32 - modulus / 2 <= lo && hi < TWO32)
    ensures n < TWO32 && IsExtended(n, modulus)
  {}

  lemma NotExtended(n: nat, modulus: nat)
    requires modulus in {0x100, 0x1_0000} && modulus / 2 <= n < TWO32 - modulus / 2
    ensures !IsExtended(n, modulus)
  {}

  /** The truncation of a known number holds no number but its low half. */
  lemma KnownTruncation(r: RegState, v: bv64, w: bv64)
    requires r.tnum == Tnum.Constant(v) && U(v) < TWO32 && U(w) != U(v)
    ensures !Truncated(r).Contains(w)
  {
    hide U, Low;
    KnownLow(v, w);
    LowFits(v);
    EqualNumbers(Low(v), v);
  }

  // --- Signed division as numbers ---

  /** The number that a signed one is when read without sign, `size` being two to the number of bits. */
  function Unsigned(a: int, size: nat): int { if a < 0 then a + size else a }

  predicate IsSigned(a: int, size: int) { size in {TWO32, TWO64} && -size / 2 <= a < size / 2 }

  /** Signed and unsigned division have the same quotient. */
  predicate SameQuotient(a: int, b: int) {
    if a >= 0 then b > 0 || a < -b else b == 1 || a == b
  }

  /** They leave the same remainder. */
  predicate SameRemainder(a: int, b: int, size: nat) {
    if a >= 0 then b > 0 || a < -b else a == b || (b > 0 && a % b == 0 && size % b == 0)
  }

  lemma DivisionIs(n: nat, d: nat, q: nat)
    requires d * q <= n < d * q + d
    ensures n / d == q && n % d == n - d * q
  {
    var q', r := n / d, n % d;
    assert n == d * q' + r;
    if q < q' {
      ApartByOne(d, q, q');
    } else if q' < q {
      ApartByOne(d, q', q);
    }
  }

  lemma SmallerQuotient(n: nat, d: nat)
    requires d > 0
    ensures n / d <= n && (n > 0 && d > 1 ==> n / d < n) && (n / d == 0 <==> n < d)
  {
    var q, r := n / d, n % d;
    assert n == q * d + r;
    ApartByOne(q, 0, d);
    if d > 1 {
      ApartByOne(q, 1, d);
    }
    if q > 0 {
      ApartByOne(d, 0, q);
    }
  }

  lemma HalfAtMost(n: nat, d: nat)
    requires d > 1
    ensures n / d <= n / 2
  {
    var q, r := n / d, n % d;
    assert n == q * d + r;
    if d > 2 {
      ApartByOne(q, 2, d);
    }
  }

  lemma WordOf(n: int, size: int)
    requires size in {TWO32, TWO64} && -size <= n < size
    ensures n % size == Unsigned(n, size)
  {}

  lemma NegativeByPositive(a: int, b: int, size: nat)
    requires IsSigned(a, size) && IsSigned(b, size) && a < 0 && 1 < b
    ensures Truncating(a, b) % size != Unsigned(a, size) / b
  {
    SmallerQuotient(-a, b);
    SmallerQuotient(a + size, b);
    HalfAtMost(-a, b);
    HalfAtMost(a + size, b);
    WordOf(-(-a / b), size);
  }

  lemma PositiveByNegative(a: int, b: int, size: nat)
    requires IsSigned(a, size) && IsSigned(b, size) && 0 <= a && b < 0
    ensures Unsigned(a, size) / Unsigned(b, size) == 0
    ensures Truncating(a, b) % size == 0 <==> a < -b
  {
    hide Truncating;
    TruncatingDown(a, b);
    SmallerQuotient(a, -b);
    DivisionIs(a, b + size, 0);
    WordOf(-(a / -b), size);
  }

  lemma TruncatingDown(a: int, b: int)
    requires a >= 0 > b
    ensures Truncating(a, b) == -(a / -b)
  {}

  /** The quotient of negative numbers is that of their sizes. */
  lemma BothNegative(a: int, b: int, size: nat)
    requires IsSigned(a, size) && IsSigned(b, size) && a < 0 && b < 0
    ensures Truncating(a, b) % size == Unsigned(a, size) / Unsigned(b, size) <==> a == b
  {
    hide Truncating, Unsigned;
    TruncatingSizes(a, b);
    QuotientOfSizes(-a, -b, size);
    WordOf(-a / -b, size);
    WrappedQuotient(a, b, size);
  }

  lemma TruncatingSizes(a: int, b: int)
    requires a < 0 && b < 0
    ensures Truncating(a, b) == -a / -b
  {}

  lemma QuotientOfSizes(m: nat, n: nat, size: nat)
    requires 0 < m <= size / 2 && 0 < n
    ensures 0 <= m / n < size && (m < n ==> m / n == 0) && (m == n ==> m / n == 1) && (m > n ==> m / n >= 1)
    ensures Unsigned(m / n, size) == m / n
  {
    SmallerQuotient(m, n);
    if m == n {
      DivisionIs(m, n, 1);
    }
  }

  lemma WrappedQuotient(a: int, b: int, size: nat)
    requires IsSigned(a, size) && IsSigned(b, size) && a < 0 && b < 0
    ensures Unsigned(a, size) / Unsigned(b, size) == if a >= b then 1 else 0
    ensures Unsigned(a, size) % Unsigned(b, size) == if a >= b then a - b else a + size
  {
    DivisionIs(a + size, b + size, if a >= b then 1 else 0);
  }

  lemma QuotientsMeet(a: int, b: int, size: nat)
    requires IsSigned(a, size) && IsSigned(b, size) && b != 0
    ensures Truncating(a, b) % size == Unsigned(a, size) / Unsigned(b, size) <==> SameQuotient(a, b)
  {
    if b < 0 {
      hide Truncating;
      if a >= 0 {
        PositiveByNegative(a, b, size);
      } else {
        BothNegative(a, b, size);
      }
    } else if a >= 0 {
      SmallerQuotient(a, b);
    } else if b > 1 {
      hide Truncating;
      NegativeByPositive(a, b, size);
    }
  }

  // --- Signed remainders as numbers ---

  /** The sign of the remainder is that of the dividend. */
  lemma RemainderIs(a: int, b: int)
    requires b != 0
    ensures SignedRemainder(a, b) == if a >= 0 then a % (if b > 0 then b else -b) else -(-a % (if b > 0 then b else -b))
  {
    var d, n := if b > 0 then b else -b, if a >= 0 then a else -a;
    assert n == d * (n / d) + n % d;
  }

  /** A number and its negation plus a multiple. */
  lemma RemainderOfWrapped(n: nat, b: nat, size: nat)
    requires 0 < b && n <= size && n % b == 0
    ensures (size - n) % b == size % b
  {
    var q, k := n / b, size / b;
    assert n == b * q;
    assert size == b * k + size % b;
    assert size - n == b * (k - q) + size % b;
    if k < q {
      ApartByOne(b, k, q);
    }
    DivisionIs(size - n, b, k - q);
  }

  lemma NegatedRemainder(n: int, b: int)
    requires n >= 0 && b > 0
    ensures -n % b == 0 <==> n % b == 0
  {
    var q := n / b;
    assert n == b * q + n % b;
    if n % b == 0 {
      assert -n == b * (-q);
      MultipleHasNoRemainder(b, -q);
    }
    if -n % b == 0 {
      assert n == b * (-(-n / b));
      MultipleHasNoRemainder(b, -(-n / b));
    }
  }

  lemma MultipleHasNoRemainder(b: nat, q: int)
    requires b > 0
    ensures (b * q) % b == 0
  {
    var r := (b * q) % b;
    assert b * q == b * ((b * q) / b) + r;
    if q < (b * q) / b {
      ApartByOneInt(b, q, (b * q) / b);
    } else if (b * q) / b < q {
      ApartByOneInt(b, (b * q) / b, q);
    }
  }

  lemma ApartByOneInt(d: nat, a: int, b: int)
    requires a < b
    ensures d * a + d <= d * b
  {
    assert d * b == d * a + d * (b - a);
    ApartByOne(d, 0, b - a);
  }

  lemma NegativeRemainder(a: int, b: int, size: nat)
    requires IsSigned(a, size) && IsSigned(b, size) && a < 0 < b
    ensures SignedRemainder(a, b) % size == Unsigned(a, size) % b <==> a % b == 0 && size % b == 0
  {
    hide SignedRemainder;
    RemainderIs(a, b);
    NegatedRemainder(-a, b);
    var m, u := -a % b, (a + size) % b;
    WordOf(-m, size);
    if m == 0 {
      RemainderOfWrapped(-a, b, size);
    } else {
      assert (-m) % size == size - m && size - m > b > u;
    }
  }

  lemma BothNegativeRemainder(a: int, b: int, size: nat)
    requires IsSigned(a, size) && IsSigned(b, size) && a < 0 && b < 0
    ensures SignedRemainder(a, b) % size == Unsigned(a, size) % Unsigned(b, size) <==> a == b
  {
    hide SignedRemainder;
    RemainderIs(a, b);
    WrappedQuotient(a, b, size);
    var m := -a % -b;
    WordOf(-m, size);
    if a > b {
      DivisionIs(-a, -b, 0);
    } else if a == b {
      DivisionIs(-a, -b, 1);
    }
  }

  lemma RemaindersMeet(a: int, b: int, size: nat)
    requires IsSigned(a, size) && IsSigned(b, size) && b != 0
    ensures SignedRemainder(a, b) % size == Unsigned(a, size) % Unsigned(b, size) <==> SameRemainder(a, b, size)
  {
    hide SignedRemainder;
    if a >= 0 {
      RemainderIs(a, b);
      if b > 0 {
        SmallerQuotient(a, b);
      } else {
        DivisionIs(a, b + size, 0);
        if a < -b {
          DivisionIs(a, -b, 0);
        }
      }
    } else if b > 0 {
      NegativeRemainder(a, b, size);
    } else {
      BothNegativeRemainder(a, b, size);
    }
  }

  // --- Signed division of known operands ---

  lemma WrapIsMod(n: int)
    ensures AsU64(WrapI64(n)) == n % TWO64
  {}

  /** The signed result as a number. */
  function SignedNumber(op: AluOp, a: int, b: int): int {
    if op == DIV then SignedQuotient(a, b) else SignedRemainder(a, b)
  }

  /** What the checker's unsigned division leaves. */
  function UnsignedNumber(op: AluOp, m: nat, n: nat): nat
    requires n != 0
  {
    if op == DIV then m / n else m % n
  }

  lemma SignedWord(op: AluOp, a: int, b: int)
    requires op == DIV || op == MOD
    ensures U(SignedDivision(op, a, b)) == SignedNumber(op, a, b) % TWO64
    ensures U(Low(SignedDivision(op, a, b))) == SignedNumber(op, a, b) % TWO32
  {
    hide U, B, Low, SignedQuotient, SignedRemainder, WrapI64, FromSigned;
    var n := SignedNumber(op, a, b);
    CastsAgree(0, WrapI64(n));
    WrapIsMod(n);
    LowOfNumber(WrapI64(n));
    WrapLow(n);
  }

  lemma WrapLow(n: int)
    ensures WrapI64(n) % TWO32 == n % TWO32
  {}

  lemma KnownResult(v: bv64, w: bv64)
    ensures FromTracked(Tnum.Constant(v)).Contains(w) <==> w == v
  {
    hide FromTracked, RegState.Contains, Disjoint;
    KnownOperands(v, w);
    KnownMembers(Tnum.Constant(v), w);
    SignOfConstants(v);
    if FromTracked(Tnum.Constant(v)).Contains(w) {
      NothingElse(Tnum.Constant(v), w);
    }
    if w == v {
      KnownSignContains(Tnum.Constant(v), w);
    }
  }

  lemma LowConstant(v: bv64)
    ensures Tnum.Constant(v).Trunc32() == Tnum.Constant(Low(v))
  {}

  lemma KnownDivision(op: AluOp, x: bv64, y: bv64)
    requires (op == DIV || op == MOD) && U(y) != 0
    ensures ScalarTnum(op, Tnum.Constant(x), Tnum.Constant(y)) == Tnum.Constant(AluValue64(op, x, y))
    ensures U(AluValue64(op, x, y)) == UnsignedNumber(op, U(x), U(y)) <= U(x)
  {
    hide U, B, Quotient, Remainder, Disjoint, ScalarTnum;
    KnownOperands(x, y);
    KnownTnum(op, Tnum.Constant(x), Tnum.Constant(y));
    QuotientValue(x, y);
    SmallerQuotient(U(x), U(y));
    if U(x) < U(y) {
      DivisionIs(U(x), U(y), 0);
    }
  }

  /** What the checker computes from known operands. */
  lemma CheckerDivides(op: AluOp, x: bv64, y: bv64, is64: bool, w: bv64)
    requires (op == DIV || op == MOD) && U(y) != 0
    ensures ScalarResult(op, Tnum.Constant(x), Tnum.Constant(y), is64).Contains(w) <==>
              var n := UnsignedNumber(op, U(x), U(y)); U(w) == if is64 then n else n % TWO32
  {
    hide U, FromTracked, RegState.Contains, ScalarTnum, Low, AluValue64, UnsignedNumber, Tnum.Constant;
    var v := AluValue64(op, x, y);
    KnownDivision(op, x, y);
    if is64 {
      KnownResult(v, w);
      EqualNumbers(w, v);
    } else {
      LowConstant(v);
      LowIsMod(v);
      KnownResult(Low(v), w);
      EqualNumbers(w, Low(v));
    }
  }

  lemma SignedReading(x: bv64)
    ensures IsSigned(S(x), TWO64) && Unsigned(S(x), TWO64) == U(x)
    ensures IsSigned(S32(x), TWO32) && (U(x) < TWO32 ==> Unsigned(S32(x), TWO32) == U(x))
  {
    hide U, Low;
    LowFits(x);
    LowIsMod(x);
  }

  /** For known operands the checker's quotient covers the signed one exactly when the two divisions agree. */
  lemma SignedDivisionExact(x: bv64, y: bv64)
    requires U(y) != 0
    ensures ScalarResult(DIV, Tnum.Constant(x), Tnum.Constant(y), true).Contains(SignedDivision(DIV, S(x), S(y)))
       <==> SameQuotient(S(x), S(y))
  {
    hide U, S, RegState.Contains, ScalarResult, Truncating, SameQuotient, SignedDivision, Unsigned, IsSigned;
    CheckerDivides(DIV, x, y, true, SignedDivision(DIV, S(x), S(y)));
    SignedWord(DIV, S(x), S(y));
    SignedReading(x);
    SignedReading(y);
    ZeroReading(y);
    QuotientsMeet(S(x), S(y), TWO64);
  }

  lemma ZeroReading(y: bv64)
    requires U(y) != 0
    ensures S(y) != 0 && (U(y) < TWO32 ==> S32(y) != 0)
  {
    hide U, Low;
    LowFits(y);
    LowIsMod(y);
  }

  /** So is its remainder right exactly when the two leave the same. */
  lemma SignedModulusExact(x: bv64, y: bv64)
    requires U(y) != 0
    ensures ScalarResult(MOD, Tnum.Constant(x), Tnum.Constant(y), true).Contains(SignedDivision(MOD, S(x), S(y)))
       <==> SameRemainder(S(x), S(y), TWO64)
  {
    hide U, S, RegState.Contains, ScalarResult, SignedRemainder, SameRemainder, SignedDivision, Unsigned, IsSigned;
    CheckerDivides(MOD, x, y, true, SignedDivision(MOD, S(x), S(y)));
    SignedWord(MOD, S(x), S(y));
    SignedReading(x);
    SignedReading(y);
    ZeroReading(y);
    RemaindersMeet(S(x), S(y), TWO64);
  }

  /** In 32 bits the checker divides all 64 bits without sign: right exactly when the result agrees with the signed one
      of the low halves in its low half. */
  lemma SignedDivision32Exact(op: AluOp, x: bv64, y: bv64)
    requires (op == DIV || op == MOD) && U(y) != 0
    ensures ScalarResult(op, Tnum.Constant(x), Tnum.Constant(y), false)
              .Contains(Low(SignedDivision(op, S32(x), S32(y))))
       <==> UnsignedNumber(op, U(x), U(y)) % TWO32 == SignedNumber(op, S32(x), S32(y)) % TWO32
  {
    hide U, S32, RegState.Contains, ScalarResult, SignedDivision, UnsignedNumber, SignedNumber, Low;
    CheckerDivides(op, x, y, false, Low(SignedDivision(op, S32(x), S32(y))));
    SignedWord(op, S32(x), S32(y));
  }

  /** Of 32-bit numbers, exactly when the two divisions agree as they must in 64 bits. */
  lemma SignedNumbers32Exact(op: AluOp, x: bv64, y: bv64)
    requires (op == DIV || op == MOD) && 0 < U(y) < TWO32 && U(x) < TWO32
    ensures ScalarResult(op, Tnum.Constant(x), Tnum.Constant(y), false)
              .Contains(Low(SignedDivision(op, S32(x), S32(y))))
       <==> if op == DIV then SameQuotient(S32(x), S32(y)) else SameRemainder(S32(x), S32(y), TWO32)
  {
    hide U, S32, RegState.Contains, ScalarResult, SignedDivision, SameQuotient, SameRemainder, Truncating, Low;
    hide SignedRemainder, Unsigned, IsSigned;
    SignedDivision32Exact(op, x, y);
    SignedReading(x);
    SignedReading(y);
    ZeroReading(y);
    SmallerQuotient(U(x), U(y));
    if op == DIV {
      QuotientsMeet(S32(x), S32(y), TWO32);
    } else {
      RemaindersMeet(S32(x), S32(y), TWO32);
    }
  }

  /** Minus one leaves minus one when divided by two with sign, and one without. */
  lemma SignedModulusWrong()
    ensures var x, y := FromSigned(-1), FromSigned(2);
            !ScalarResult(MOD, Tnum.Constant(x), Tnum.Constant(y), true).Contains(SignedDivision(MOD, S(x), S(y)))
  {
    hide U, B, RegState.Contains, ScalarResult, SignedDivision;
    CastsAgree(0, -1);
    CastsAgree(0, 2);
    SignedModulusExact(FromSigned(-1), FromSigned(2));
  }
}

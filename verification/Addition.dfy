/** Binary addition, bit by bit.

  `x + y` is `x ^ y ^ Carry(x, y)`, where the carries form a word that is monotone in both operands.
  That is what makes tracked-number addition sound, and it replaces any 64-bit adder reasoning.
*/
module Addition {
  import opened Words

  function Maj(x: bv64, y: bv64, c: bv64): bv64 { (x & y) | (x & c) | (y & c) }

  function Sum3(x: bv64, y: bv64, c: bv64): bv64 { x + y + c }

  function Lin(t: bv64, b: bv64): bv64 { 2 * t + b }

  function Push(b: bv64, k: bv64): bv64 { (b & 1) | (k << 1) }

  function Parity(x: bv64, y: bv64, c: bv64): bv64 { x ^ y ^ c }

  function Odd(x: bv64): bv64 { x & 1 }

  /** The carries into the low `n` bits of `x + y + (c & 1)`. */
  function Carry(x: bv64, y: bv64, c: bv64, n: nat): bv64
    decreases n
  {
    if n == 0 then 0 else Push(c, Carry(Half(x), Half(y), Maj(x, y, c), n - 1))
  }

  /** On the bits of `m`, `s` is `x ^ y ^ k`. */
  predicate Agree(s: bv64, x: bv64, y: bv64, k: bv64, m: bv64) { (s ^ x ^ y ^ k) & m == 0 }

  // --- Peeling the low bit off a sum ---

  lemma Peel(x: bv64)
    ensures x == Lin(Half(x), Odd(x))
  {}

  lemma FullAdder(x: bv64, y: bv64, c: bv64)
    ensures Sum3(Odd(x), Odd(y), Odd(c)) == Lin(Odd(Maj(x, y, c)), Odd(Parity(x, y, c)))
  {}

  lemma RegroupRaw(p: bv64, q: bv64, r: bv64, s: bv64, c: bv64)
    ensures Sum3(2 * p + q, 2 * r + s, c) == Lin(p + r, q + s + c)
  {}

  lemma Regroup(p: bv64, q: bv64, r: bv64, s: bv64, c: bv64)
    ensures Sum3(Lin(p, q), Lin(r, s), c) == Lin(Plus(p, r), Sum3(q, s, c))
  {
    RegroupRaw(p, q, r, s, c);
  }

  lemma AbsorbRaw(a: bv64, d: bv64, b: bv64, s: bv64)
    ensures Lin(a + d, 2 * b + s) == Lin(a + d + b, s)
  {}

  lemma Absorb(a: bv64, d: bv64, b: bv64, s: bv64)
    ensures Lin(Plus(a, d), Lin(b, s)) == Lin(Sum3(a, d, b), s)
  {
    AbsorbRaw(a, d, b, s);
  }

  lemma PeelSum(x: bv64, y: bv64, c: bv64)
    ensures Sum3(x, y, Odd(c)) == Lin(Sum3(Half(x), Half(y), Odd(Maj(x, y, c))), Odd(Parity(x, y, c)))
  {
    hide *;
    Peel(x);
    Peel(y);
    FullAdder(x, y, c);
    Regroup(Half(x), Odd(x), Half(y), Odd(y), Odd(c));
    Absorb(Half(x), Half(y), Odd(Maj(x, y, c)), Odd(Parity(x, y, c)));
  }

  lemma DoubleAndSet(t: bv64, b: bv64)
    ensures Lin(t, b & 1) == (t << 1) | (b & 1)
  {}

  lemma PushIsOr(b: bv64, k: bv64)
    ensures Push(b, k) == (k << 1) | (b & 1) && Odd(b) == b & 1
  {}

  lemma LinIsPush(t: bv64, b: bv64)
    ensures Lin(t, Odd(b)) == Push(b, t)
  {
    hide *;
    DoubleAndSet(t, b);
    PushIsOr(b, t);
  }

  lemma AgreeStepRaw(x: bv64, y: bv64, c: bv64, t: bv64, k: bv64, m: bv64)
    requires Agree(t, x >> 1, y >> 1, k, m)
    ensures Agree(((x ^ y ^ c) & 1) | (t << 1), x, y, (c & 1) | (k << 1), (m << 1) | 1)
  {}

  lemma AgreeStep(x: bv64, y: bv64, c: bv64, t: bv64, k: bv64, m: bv64)
    requires Agree(t, Half(x), Half(y), k, m)
    ensures Agree(Push(Parity(x, y, c), t), x, y, Push(c, k), Cons(m, 1))
  {
    hide Agree;
    AgreeStepRaw(x, y, c, t, k, m);
  }

  lemma AgreeNowhere(s: bv64, x: bv64, y: bv64, k: bv64)
    ensures Agree(s, x, y, k, 0)
  {}

  lemma {:induction false} SumIsXor(x: bv64, y: bv64, c: bv64, n: nat)
    ensures Agree(Sum3(x, y, Odd(c)), x, y, Carry(x, y, c, n), LowMask(n))
    decreases n
  {
    hide Agree, Sum3, Odd, Maj, Push, Half, Cons;
    if n == 0 {
      AgreeNowhere(Sum3(x, y, Odd(c)), x, y, 0);
    } else {
      var t := Sum3(Half(x), Half(y), Odd(Maj(x, y, c)));
      var k := Carry(Half(x), Half(y), Maj(x, y, c), n - 1);
      SumIsXor(Half(x), Half(y), Maj(x, y, c), n - 1);
      AgreeStep(x, y, c, t, k, LowMask(n - 1));
      PeelSum(x, y, c);
      LinIsPush(t, Parity(x, y, c));
    }
  }

  /** The carries of the 64-bit sum. */
  function Carries(x: bv64, y: bv64): bv64 { Carry(x, y, 0, 64) }

  lemma NothingToAdd(x: bv64, y: bv64)
    ensures Sum3(x, y, 0) == Plus(x, y)
  {
    assert Plus(x, y) == x + y;
    assert Sum3(x, y, 0) == x + y + 0;
  }

  lemma ZeroIsEven()
    ensures Odd(0) == 0
  {}

  lemma AgreeEverywhere(s: bv64, x: bv64, y: bv64, k: bv64)
    requires Agree(s, x, y, k, 0xFFFF_FFFF_FFFF_FFFF)
    ensures s == Parity(x, y, k)
  {}

  lemma PlusIsXor(x: bv64, y: bv64)
    ensures Plus(x, y) == Parity(x, y, Carries(x, y))
  {
    hide *;
    SumIsXor(x, y, 0, 64);
    NothingToAdd(x, y);
    ZeroIsEven();
    LowMask64();
    AgreeEverywhere(Plus(x, y), x, y, Carry(x, y, 0, 64));
    CarriesDef(x, y);
  }

  lemma CarriesDef(x: bv64, y: bv64)
    ensures Carries(x, y) == Carry(x, y, 0, 64)
  {}

  // --- Carries are monotone and local ---

  lemma MajMonotone(x: bv64, y: bv64, c: bv64, x': bv64, y': bv64, c': bv64)
    requires Sub(x, x') && Sub(y, y') && Sub(c, c')
    ensures Sub(Maj(x, y, c), Maj(x', y', c'))
  {}

  lemma PushMonotone(b: bv64, k: bv64, b': bv64, k': bv64)
    requires Sub(b, b') && Sub(k, k')
    ensures Sub(Push(b, k), Push(b', k'))
  {}

  lemma SubZero(x: bv64)
    ensures Sub(0, x)
  {}

  lemma {:induction false} CarryMonotone(x: bv64, y: bv64, c: bv64, x': bv64, y': bv64, c': bv64, n: nat)
    requires Sub(x, x') && Sub(y, y') && Sub(c, c')
    ensures Sub(Carry(x, y, c, n), Carry(x', y', c', n))
    decreases n
  {
    hide Sub, Push, Maj, Half;
    if n == 0 {
      SubZero(0);
    } else {
      SubStep(x, x');
      SubStep(y, y');
      MajMonotone(x, y, c, x', y', c');
      CarryMonotone(Half(x), Half(y), Maj(x, y, c), Half(x'), Half(y'), Maj(x', y', c'), n - 1);
      PushMonotone(c, Carry(Half(x), Half(y), Maj(x, y, c), n - 1),
                   c', Carry(Half(x'), Half(y'), Maj(x', y', c'), n - 1));
    }
  }

  lemma CarriesMonotone(x: bv64, y: bv64, x': bv64, y': bv64)
    requires Sub(x, x') && Sub(y, y')
    ensures Sub(Carries(x, y), Carries(x', y'))
  {
    hide Sub;
    SubZero(0);
    CarryMonotone(x, y, 0, x', y', 0, 64);
  }

  lemma SameHalf(x: bv64, x': bv64, y: bv64, c: bv64, c': bv64, m: bv64)
    requires Same(x, x', Cons(m, 1)) && Same(c, c', 1)
    ensures Same(Half(x), Half(x'), m) && Same(Maj(x, y, c), Maj(x', y, c'), 1)
  {}

  lemma SamePush(b: bv64, b': bv64, k: bv64, k': bv64, m: bv64)
    requires Same(b, b', 1) && Same(k, k', m)
    ensures Same(Push(b, k), Push(b', k'), Cons(m, 1))
  {}

  lemma SameLowest(b: bv64, b': bv64, k: bv64, k': bv64)
    requires Same(b, b', 1)
    ensures Same(Push(b, k), Push(b', k'), Cons(0, 1))
  {}

  /** The carry into bit `i` depends only on the bits below `i`. */
  lemma {:induction false} CarryLocal(x: bv64, x': bv64, y: bv64, c: bv64, c': bv64, i: nat, n: nat)
    requires i < n && Same(x, x', LowMask(i)) && Same(c, c', 1)
    ensures Same(Carry(x, y, c, n), Carry(x', y, c', n), LowMask(i + 1))
    decreases n
  {
    hide Same, Push, Maj, Half, Cons;
    var k, k' := Carry(Half(x), Half(y), Maj(x, y, c), n - 1), Carry(Half(x'), Half(y), Maj(x', y, c'), n - 1);
    if i == 0 {
      SameLowest(c, c', k, k');
      assert LowMask(1) == Cons(LowMask(0), 1) == Cons(0, 1);
    } else {
      SameHalf(x, x', y, c, c', LowMask(i - 1));
      CarryLocal(Half(x), Half(x'), Half(y), Maj(x, y, c), Maj(x', y, c'), i - 1, n - 1);
      SamePush(c, c', k, k', LowMask(i));
    }
  }

  // --- Sums as numbers ---

  function Carried(x: bv64, y: bv64, c: bv64): nat { Bit0(x) + Bit0(y) + Bit0(c) }

  lemma FullAdderCounts(x: bv64, y: bv64, c: bv64)
    ensures Carried(x, y, c) == 2 * Bit0(Maj(x, y, c)) + Bit0(Parity(x, y, c))
  {
    BitsOfMaj(x, y, c);
  }

  lemma BitsOfMaj(x: bv64, y: bv64, c: bv64)
    ensures Maj(x, y, c) & 1 == 1 <==>
              (x & 1 == 1 && y & 1 == 1) || (x & 1 == 1 && c & 1 == 1) || (y & 1 == 1 && c & 1 == 1)
    ensures Parity(x, y, c) & 1 == 1 <==> ((x & 1 == 1) != (y & 1 == 1)) != (c & 1 == 1)
  {}

  lemma PushZero(b: bv64, t: bv64)
    requires b & 1 == 0
    ensures Push(b, t) == t << 1
  {}

  lemma PushOne(b: bv64, t: bv64)
    requires b & 1 == 1
    ensures Push(b, t) == (t << 1) | 1
  {}

  lemma ZeroOrOne(b: bv64)
    ensures b & 1 == 0 || b & 1 == 1
  {}

  lemma PushIsCons(b: bv64, t: bv64)
    ensures Push(b, t) == Cons(t, Bit0(b))
  {
    hide Push;
    ZeroOrOne(b);
    if b & 1 == 1 {
      PushOne(b, t);
    } else {
      PushZero(b, t);
    }
  }

  lemma ValueOfLin(t: bv64, b: bv64, n: nat)
    requires n <= 63
    ensures Value(Lin(t, Odd(b)), n + 1) == 2 * Value(t, n) + Bit0(b)
  {
    hide Lin, Odd, Push, Cons, Value, Bit0;
    LinIsPush(t, b);
    PushIsCons(b, t);
    ValueOfCons(t, Bit0(b), n);
  }

  /** The low bits of a sum are the sum of the low bits, modulo their number. */
  lemma {:induction false} ValueOfSum(x: bv64, y: bv64, c: bv64, n: nat)
    requires n <= 64
    ensures Value(Sum3(x, y, Odd(c)), n) == (Value(x, n) + Value(y, n) + Bit0(c)) % Pow2(n)
    decreases n
  {
    hide Sum3, Odd, Maj, Parity, Half, Bit0, Lin;
    if n > 0 {
      var m, t := Maj(x, y, c), Sum3(Half(x), Half(y), Odd(Maj(x, y, c)));
      var a := Value(Half(x), n - 1) + Value(Half(y), n - 1) + Bit0(m);
      ValueOfSum(Half(x), Half(y), m, n - 1);
      PeelSum(x, y, c);
      ValueOfLin(t, Parity(x, y, c), n - 1);
      FullAdderCounts(x, y, c);
      DoubleMod(a, Bit0(Parity(x, y, c)), Pow2(n - 1));
    } else {
      ModOne(Bit0(c));
    }
  }

  lemma ModOne(n: nat)
    ensures n % 1 == 0
  {}

  lemma PlusIsSum3(x: bv64, y: bv64)
    ensures Plus(x, y) == Sum3(x, y, Odd(0)) && Bit0(0) == 0
  {}

  /** Addition of words is addition of numbers modulo 2^64. */
  lemma UPlus(x: bv64, y: bv64)
    ensures U(Plus(x, y)) == (U(x) + U(y)) % TWO64
  {
    hide Value, Plus, Sum3, Odd, Bit0;
    Pow2Facts();
    PlusIsSum3(x, y);
    ValueOfSum(x, y, 0, 64);
  }

  lemma SumsAssociate(a: U64, b: U64, c: U64)
    ensures ((a + b) % TWO64 + c) % TWO64 == (a + (b + c) % TWO64) % TWO64
  {
    assert (a + b) % TWO64 == a + b || (a + b) % TWO64 == a + b - TWO64;
    assert (b + c) % TWO64 == b + c || (b + c) % TWO64 == b + c - TWO64;
  }

  lemma PlusAssociates(x: bv64, y: bv64, z: bv64)
    ensures Plus(Plus(x, y), z) == Plus(x, Plus(y, z))
  {
    hide U, Plus;
    UPlus(x, y);
    UPlus(y, z);
    UPlus(Plus(x, y), z);
    UPlus(x, Plus(y, z));
    SumsAssociate(U(x), U(y), U(z));
    UInjective(Plus(Plus(x, y), z), Plus(x, Plus(y, z)));
  }

  lemma WrappedSum(m: I64, n: I64)
    ensures (AsU64(m) + AsU64(n)) % TWO64 == AsU64(WrapI64(m + n))
  {
    var a, b := AsU64(m) + AsU64(n), m + n;
    assert a == b || a == b + TWO64 || a == b + 2 * TWO64;
    assert WrapI64(b) == b || WrapI64(b) == b + TWO64 || WrapI64(b) == b - TWO64;
  }

  /** Adding signed numbers as words wraps like adding them as 64-bit integers. */
  lemma PlusOfSigned(m: I64, n: I64)
    ensures Plus(FromSigned(m), FromSigned(n)) == FromSigned(WrapI64(m + n))
  {
    hide U, B, Plus;
    UPlus(FromSigned(m), FromSigned(n));
    CastsAgree(0, m);
    CastsAgree(0, n);
    CastsAgree(0, WrapI64(m + n));
    WrappedSum(m, n);
    hide AsU64, WrapI64, FromSigned;
    UInjective(Plus(FromSigned(m), FromSigned(n)), FromSigned(WrapI64(m + n)));
  }
}

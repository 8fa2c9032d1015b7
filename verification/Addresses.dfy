/** Addresses as numbers: a start plus a signed offset, modulo two to the 64. */
module Addresses {
  import opened Words
  import opened Addition
  import opened TnumSubtraction
  import opened LowHalves

  function AddressAt(start: bv64, offset: I64): bv64 { Plus(start, FromSigned(offset)) }

  lemma SumsDiffer(a: U64, x: U64, y: U64)
    requires (a + x) % TWO64 == (a + y) % TWO64
    ensures x == y
  {
    assert (a + x) % TWO64 == a + x || (a + x) % TWO64 == a + x - TWO64;
    assert (a + y) % TWO64 == a + y || (a + y) % TWO64 == a + y - TWO64;
  }

  lemma AddressesDiffer(start: bv64, m: I64, n: I64)
    ensures AddressAt(start, m) == AddressAt(start, n) <==> m == n
  {
    hide U, B, Plus, FromSigned;
    if AddressAt(start, m) == AddressAt(start, n) {
      UPlus(start, FromSigned(m));
      UPlus(start, FromSigned(n));
      CastsAgree(0, m);
      CastsAgree(0, n);
      SumsDiffer(U(start), U(FromSigned(m)), U(FromSigned(n)));
    }
  }

  lemma AddressZero(start: bv64)
    ensures AddressAt(start, 0) == start
  {
    hide U, B, Plus;
    UPlus(start, FromSigned(0));
    CastsAgree(0, 0);
    UInjective(AddressAt(start, 0), start);
  }

  lemma StartsDiffer(offset: I64)
    ensures AddressAt(0, offset) != AddressAt(1, offset)
  {
    hide U, B, Plus;
    UPlus(0, FromSigned(offset));
    UPlus(1, FromSigned(offset));
    UConstants();
    UZero(1);
    if U(1) % TWO64 == 0 {
      assert false;
    }
  }

  // --- Subtraction as numbers ---

  lemma HalfOfNot(x: bv64)
    ensures Same(Half(Not(x)), Not(Half(x)), 0x7FFF_FFFF_FFFF_FFFF)
  {}

  lemma Bit0OfNot(x: bv64)
    ensures Bit0(Not(x)) == 1 - Bit0(x)
  {}

  lemma {:induction false} ValueOfNot(x: bv64, n: nat)
    requires n <= 64
    ensures Value(Not(x), n) == Pow2(n) - 1 - Value(x, n)
    decreases n
  {
    hide Half, Not, Bit0, Same, LowMask, Words.Sub;
    if n > 0 {
      HalfOfNot(x);
      Bit0OfNot(x);
      BelowTopMask(n - 1);
      PartOfMask(Half(Not(x)), Not(Half(x)), LowMask(n - 1), 0x7FFF_FFFF_FFFF_FFFF);
      ValueSame(Half(Not(x)), Not(Half(x)), n - 1);
      ValueOfNot(Half(x), n - 1);
    }
  }

  lemma UNot(x: bv64)
    ensures U(Not(x)) == U64_MAX - U(x)
  {
    hide Value, Not;
    Pow2Facts();
    ValueOfNot(x, 64);
  }

  lemma Complements(a: U64, b: U64)
    ensures U64_MAX - (U64_MAX - a + b) % TWO64 == (a - b) % TWO64
  {
    assert (U64_MAX - a + b) % TWO64 == U64_MAX - a + b || (U64_MAX - a + b) % TWO64 == U64_MAX - a + b - TWO64;
    assert (a - b) % TWO64 == a - b || (a - b) % TWO64 == a - b + TWO64;
  }

  lemma UMinus(x: bv64, y: bv64)
    ensures U(Minus(x, y)) == (U(x) - U(y)) % TWO64
  {
    hide U, Not, Minus, Plus;
    DifferenceIsSum(x, y);
    UNot(x);
    UPlus(Not(x), y);
    UNot(Plus(Not(x), y));
    Complements(U(x), U(y));
  }

  lemma NegatedSum(a: U64, n: I64)
    ensures (a - AsU64(n)) % TWO64 == (a + AsU64(WrapI64(0 - n))) % TWO64
  {
    var m := WrapI64(0 - n);
    assert m == 0 - n || m == 0 - n - TWO64;
    assert AsU64(m) == 0 - AsU64(n) || AsU64(m) == TWO64 - AsU64(n);
  }

  /** Subtracting a signed number is adding its negation. */
  lemma MinusSigned(x: bv64, n: I64)
    ensures Minus(x, FromSigned(n)) == Plus(x, FromSigned(WrapI64(0 - n)))
  {
    hide U, B, Minus, Plus, FromSigned, WrapI64, AsU64;
    UMinus(x, FromSigned(n));
    UPlus(x, FromSigned(WrapI64(0 - n)));
    CastsAgree(0, n);
    CastsAgree(0, WrapI64(0 - n));
    NegatedSum(U(x), n);
    UInjective(Minus(x, FromSigned(n)), Plus(x, FromSigned(WrapI64(0 - n))));
  }

  /** Moving an address moves its offset. */
  lemma MovedAddress(start: bv64, o: I64, n: I64)
    ensures Plus(AddressAt(start, o), FromSigned(n)) == AddressAt(start, WrapI64(o + n))
    ensures Minus(AddressAt(start, o), FromSigned(n)) == AddressAt(start, WrapI64(o + WrapI64(0 - n)))
  {
    hide Plus, Minus, FromSigned, WrapI64;
    PlusAssociates(start, FromSigned(o), FromSigned(n));
    PlusOfSigned(o, n);
    MinusSigned(AddressAt(start, o), n);
    PlusAssociates(start, FromSigned(o), FromSigned(WrapI64(0 - n)));
    PlusOfSigned(o, WrapI64(0 - n));
  }

  // --- Offsets of addresses ---

  /** How far an address lies behind a start, as a signed number. */
  function OffsetFrom(start: bv64, address: bv64): I64 { S(Minus(address, start)) }

  lemma SumLessTerm(a: U64, n: U64)
    ensures ((a + n) % TWO64 - a) % TWO64 == n
  {
    assert (a + n) % TWO64 == a + n || (a + n) % TWO64 == a + n - TWO64;
  }

  lemma OffsetOfAddress(start: bv64, n: I64)
    ensures OffsetFrom(start, AddressAt(start, n)) == n
  {
    hide U, B, Plus, Minus, FromSigned;
    UMinus(AddressAt(start, n), start);
    UPlus(start, FromSigned(n));
    SumLessTerm(U(start), U(FromSigned(n)));
    UInjective(Minus(AddressAt(start, n), start), FromSigned(n));
    CastsAgree(0, n);
  }

  /** Where an access through a register at a known offset goes. */
  lemma OffsetOfAccess(start: bv64, o: I64, n: I64)
    ensures OffsetFrom(start, Plus(AddressAt(start, o), FromSigned(n))) == WrapI64(o + n)
  {
    hide Plus, Minus, FromSigned, WrapI64, OffsetFrom, AddressAt;
    MovedAddress(start, o, n);
    OffsetOfAddress(start, WrapI64(o + n));
  }

  lemma DifferenceRestored(a: U64, b: U64)
    ensures (b + (a - b) % TWO64) % TWO64 == a
  {
    assert (a - b) % TWO64 == a - b || (a - b) % TWO64 == a - b + TWO64;
  }

  lemma AddressOfOffset(start: bv64, address: bv64)
    ensures AddressAt(start, OffsetFrom(start, address)) == address
  {
    hide U, B, Plus, Minus, FromSigned;
    var n := OffsetFrom(start, address);
    CastsAgree(Minus(address, start), n);
    UMinus(address, start);
    UPlus(start, FromSigned(n));
    DifferenceRestored(U(address), U(start));
    UInjective(AddressAt(start, n), address);
  }

  /** Offsets from one start and another differ by the distance between the two. */
  lemma OffsetsAdd(start: bv64, other: bv64, n: I64)
    ensures OffsetFrom(start, AddressAt(other, n)) == WrapI64(OffsetFrom(start, other) + n)
  {
    hide Plus, FromSigned, WrapI64, OffsetFrom;
    AddressOfOffset(start, other);
    OffsetOfAccess(start, OffsetFrom(start, other), n);
  }
}

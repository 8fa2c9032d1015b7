/** Shifts by any distance, taken apart into single steps. */
module Shifts {
  import opened Words

  function Twice(x: bv64): bv64 { x << 1 }

  lemma XorZero(a: bv64, b: bv64)
    requires Xor(a, b) == 0
    ensures a == b
  {}

  lemma OrHalfDifference(x: bv64, y: bv64)
    ensures Xor(Half(Or(x, y)), Or(Half(x), Half(y))) == 0
  {}

  lemma OrHalf(x: bv64, y: bv64)
    ensures Or(Half(x), Half(y)) == Half(Or(x, y))
  {
    hide *;
    OrHalfDifference(x, y);
    XorZero(Half(Or(x, y)), Or(Half(x), Half(y)));
  }

  lemma OrTwiceDifference(x: bv64, y: bv64)
    ensures Xor(Twice(Or(x, y)), Or(Twice(x), Twice(y))) == 0
  {}

  lemma OrTwice(x: bv64, y: bv64)
    ensures Or(Twice(x), Twice(y)) == Twice(Or(x, y))
  {
    hide *;
    OrTwiceDifference(x, y);
    XorZero(Twice(Or(x, y)), Or(Twice(x), Twice(y)));
  }

  lemma ShrStep(x: bv64, k: nat)
    requires k > 0
    ensures Shr(x, k) == Shr(Half(x), k - 1)
  {}

  lemma ShlStep(x: bv64, k: nat)
    requires k > 0
    ensures Shl(x, k) == Shl(Twice(x), k - 1)
  {}

  lemma NoShift(x: bv64)
    ensures Shl(x, 0) == x && Shr(x, 0) == x && Sar(x, 0) == x
  {}

  lemma {:induction false} ShrOr(x: bv64, y: bv64, k: nat)
    ensures Shr(Or(x, y), k) == Or(Shr(x, k), Shr(y, k))
    decreases k
  {
    hide *;
    if k == 0 {
      NoShift(x);
      NoShift(y);
      NoShift(Or(x, y));
    } else {
      ShrStep(x, k);
      ShrStep(y, k);
      ShrStep(Or(x, y), k);
      OrHalf(x, y);
      ShrOr(Half(x), Half(y), k - 1);
    }
  }

  lemma {:induction false} ShlOr(x: bv64, y: bv64, k: nat)
    ensures Shl(Or(x, y), k) == Or(Shl(x, k), Shl(y, k))
    decreases k
  {
    hide *;
    if k == 0 {
      NoShift(x);
      NoShift(y);
      NoShift(Or(x, y));
    } else {
      ShlStep(x, k);
      ShlStep(y, k);
      ShlStep(Or(x, y), k);
      OrTwice(x, y);
      ShlOr(Twice(x), Twice(y), k - 1);
    }
  }

  lemma {:induction false} ShlLast(x: bv64, k: nat)
    ensures Shl(x, k + 1) == Twice(Shl(x, k))
    decreases k
  {
    hide *;
    ShlStep(x, k + 1);
    if k == 0 {
      NoShift(x);
      NoShift(Twice(x));
    } else {
      ShlStep(x, k);
      ShlLast(Twice(x), k - 1);
    }
  }

  lemma {:induction false} ShrLast(x: bv64, k: nat)
    ensures Shr(x, k + 1) == Half(Shr(x, k))
    decreases k
  {
    hide *;
    ShrStep(x, k + 1);
    if k == 0 {
      NoShift(x);
      NoShift(Half(x));
    } else {
      ShrStep(x, k);
      ShrLast(Half(x), k - 1);
    }
  }
}

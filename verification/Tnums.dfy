/** Tracked numbers: which bits of a scalar are known, and to what. */
module Tnums {
  import opened Wrappers
  import opened Words

  /** Outside the unknown bits of `mask`, `v` is `value`. */
  predicate Member(v: bv64, value: bv64, mask: bv64) { v & !mask == value }

  predicate Disjoint(x: bv64, y: bv64) { x & y == 0 }

  function AndMask(av: bv64, am: bv64, bv: bv64, bm: bv64): bv64 { (av | am) & (bv | bm) & !(av & bv) }

  function OrMask(av: bv64, am: bv64, bv: bv64, bm: bv64): bv64 { (am | bm) & !(av | bv) }

  function JoinMask(av: bv64, am: bv64, bv: bv64, bm: bv64): bv64 { am | bm | (av ^ bv) }

  /** The unknown bits of a sum: where the smallest sum `low` and the sum of both masks `high` differ. */
  function SumMask(low: bv64, high: bv64, am: bv64, bm: bv64): bv64 { (high ^ low) | am | bm }

  /** The tracked number (av, am) knows every bit that (bv, bm) knows, with the same value. */
  predicate Refines(av: bv64, am: bv64, bv: bv64, bm: bv64) { am & !bm == 0 && av & !bm == bv & !bm }

  /** `value` holds the bits known to be one, `mask` the unknown bits. */
  datatype Tnum = Tnum(value: bv64, mask: bv64) {
    /** `v` is one of the words this tracked number stands for. */
    predicate Has(v: bv64) {
      Member(v, value, mask)
    }

    predicate WellFormed() {
      Disjoint(value, mask)
    }

    predicate IsKnown() {
      mask == 0
    }

    function KnownValue(): Option<bv64> {
      if IsKnown() then Some(value) else None
    }

    function And(other: Tnum): Tnum {
      Tnum(Words.And(value, other.value), AndMask(value, mask, other.value, other.mask))
    }

    function Or(other: Tnum): Tnum {
      Tnum(Words.Or(value, other.value), OrMask(value, mask, other.value, other.mask))
    }

    function Xor(other: Tnum): Tnum {
      var mu := Words.Or(mask, other.mask);
      Tnum(AndNot(Words.Xor(value, other.value), mu), mu)
    }

    function Lsh(shift: nat): Tnum {
      if shift >= 64 then Constant(0) else Tnum(Shl(value, shift), Shl(mask, shift))
    }

    function Rsh(shift: nat): Tnum {
      if shift >= 64 then Constant(0) else Tnum(Shr(value, shift), Shr(mask, shift))
    }

    function Add(other: Tnum): Tnum {
      var sv := Plus(value, other.value);
      var sm := Plus(mask, other.mask);
      var mu := SumMask(sv, Plus(sv, sm), mask, other.mask);
      Tnum(AndNot(sv, mu), mu)
    }

    function Sub(other: Tnum): Tnum {
      Add(Tnum(Minus(0, other.value), other.mask))
    }

    function Trunc32(): Tnum {
      Tnum(Low(value), Low(mask))
    }

    function MinValue(): U64 {
      U(value)
    }

    function MaxValue(): U64 {
      U(Words.Or(value, mask))
    }

    /** What a widening keeps: the bits known to the same value on both sides. */
    function Join(other: Tnum): Tnum {
      Tnum(Words.And(value, other.value), JoinMask(value, mask, other.value, other.mask))
    }

    /** At least as precise as `other`. */
    predicate Within(other: Tnum) {
      Refines(value, mask, other.value, other.mask)
    }

    static function Constant(v: bv64): Tnum {
      Tnum(v, 0)
    }

    static function Unknown(): Tnum {
      Tnum(0, 0xFFFF_FFFF_FFFF_FFFF)
    }
  }
}

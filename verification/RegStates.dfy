/** The abstract value of one register: a type, a tracked number and four range bounds. */
module RegStates {
  import opened Wrappers
  import opened Words
  import opened Tnums

  type U32 = n: int | 0 <= n < 0x1_0000_0000

  datatype RegType =
    | Uninit
    | Scalar
    | FramePtr(offset: I64)
    | MapValuePtr(id: nat, offset: I64, size: U32, originPc: nat)
    | CtxPtr(offset: I64)
    | RingBufPtr(id: nat, offset: I64, size: U32, originPc: nat)
    | KernelPtr
    | DataPtr(name: string)
    | PtrOrNull(inner: RegType, origin: Option<nat>, id: nat)
    | Null
  {
    /** A valid pointer: not null, not possibly null, not a scalar. */
    predicate IsPtr() {
      FramePtr? || MapValuePtr? || CtxPtr? || RingBufPtr? || KernelPtr? || DataPtr?
    }
  }

  datatype RegState = RegState(kind: RegType, tnum: Tnum, smin: I64, smax: I64, umin: U64, umax: U64) {
    predicate IsReadable() {
      !kind.Uninit?
    }

    /** `v` lies in the tracked number and in both ranges. */
    predicate Contains(v: bv64) {
      && tnum.Has(v)
      && umin <= U(v) <= umax
      && smin <= S(v) <= smax
    }

    // --- refine_bounds, step by step ---

    /** Step 1: unsigned bounds from the tracked number. */
    function FromTnum(): RegState {
      this.(umin := Max(umin, tnum.MinValue()), umax := Min(umax, tnum.MaxValue()))
    }

    /** Step 2: a single unsigned value makes the tracked number known. */
    function CollapseTnum(): RegState {
      if umin == umax then this.(tnum := Tnum.Constant(B(umin))) else this
    }

    /** Step 3: signed bounds from an unsigned range that stays non-negative. */
    function SignedFromUnsigned(): RegState {
      if umin <= I64_MAX && umax <= I64_MAX
      then this.(smin := Max(smin, AsI64(umin)), smax := Min(smax, AsI64(umax)))
      else this
    }

    /** Step 4: unsigned bounds from a signed range that starts non-negative. */
    function UnsignedFromSigned(): RegState {
      if smin >= 0
      then this.(umin := Max(umin, AsU64(smin)), umax := Min(umax, AsU64(smax)))
      else this
    }

    /** Step 5: a single value collapses everything. */
    function Collapse(): RegState {
      if umin == umax
      then this.(tnum := Tnum.Constant(B(umin)), smin := AsI64(umin), smax := AsI64(umin))
      else this
    }

    function Refined(): RegState {
      FromTnum().CollapseTnum().SignedFromUnsigned().UnsignedFromSigned().Collapse()
    }

    // --- Widening and order ---

    /** The union of two scalar states before refinement. */
    function Hull(other: RegState): RegState {
      RegState(Scalar, tnum.Join(other.tnum),
               Min(smin, other.smin), Max(smax, other.smax), Min(umin, other.umin), Max(umax, other.umax))
    }

    function Widen(other: RegState): RegState {
      if kind != other.kind then
        if kind.Uninit? || other.kind.Uninit? then UninitReg() else this
      else if kind.Scalar? then
        Hull(other).Refined()
      else
        this
    }

    /** The ranges and the tracked number of `this` lie within those of `other`. */
    predicate BoundsWithin(other: RegState) {
      && umin >= other.umin
      && umax <= other.umax
      && smin >= other.smin
      && smax <= other.smax
      && tnum.Within(other.tnum)
    }

    predicate IsSubstateOf(other: RegState) {
      if kind.Uninit? then other.kind.Uninit?
      else if other.kind.Uninit? then false
      else if kind != other.kind then false
      else if kind.Scalar? then BoundsWithin(other)
      else true
    }

    /** No information in the tracked number or the ranges. */
    predicate Unbounded() {
      tnum == Tnum.Unknown() && smin == I64_MIN && smax == I64_MAX && umin == 0 && umax == U64_MAX
    }
  }

  /** A register of the given type about whose value nothing is known. */
  function AnyValue(kind: RegType): RegState {
    RegState(kind, Tnum.Unknown(), I64_MIN, I64_MAX, 0, U64_MAX)
  }

  function UninitReg(): RegState { AnyValue(Uninit) }

  function ScalarUnknown(): RegState { AnyValue(Scalar) }

  function ScalarValue(v: bv64): RegState {
    RegState(Scalar, Tnum.Constant(v), S(v), S(v), U(v), U(v))
  }

  function NullReg(): RegState {
    RegState(Null, Tnum.Constant(0), 0, 0, 0, 0)
  }

  /** `refine_bounds`: each bound is tightened in place, one step after the other. */
  method RefineBounds(r: RegState) returns (refined: RegState)
    ensures refined == r.Refined()
  {
    var tnum, smin, smax, umin, umax := r.tnum, r.smin, r.smax, r.umin, r.umax;
    umin := Max(umin, tnum.MinValue());
    umax := Min(umax, tnum.MaxValue());
    if umin == umax {
      tnum := Tnum.Constant(B(umin));
    }
    if umin <= I64_MAX && umax <= I64_MAX {
      smin := Max(smin, AsI64(umin));
      smax := Min(smax, AsI64(umax));
    }
    if smin >= 0 {
      umin := Max(umin, AsU64(smin));
      umax := Min(umax, AsU64(smax));
    }
    if umin == umax {
      tnum := Tnum.Constant(B(umin));
      smin := AsI64(umin);
      smax := AsI64(umin);
    }
    refined := RegState(r.kind, tnum, smin, smax, umin, umax);
  }
}

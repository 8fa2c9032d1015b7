/** What pointer types say about addresses, when one such claim follows from another, what arithmetic makes of them, and
  what the bounds checks mean for them. */
module AddressClaims {
  import opened Wrappers
  import opened Words
  import opened Addition
  import opened TnumProofs
  import opened LowHalves
  import opened Addresses
  import opened Tnums
  import opened Instructions
  import opened RegStates
  import opened AbstractStates
  import opened Transfer
  import opened Certificates
  import opened Machine
  import opened AluSoundness
  import opened BranchSoundness

  // --- What a type says about the address a register holds ---

  /** An offset from the frame pointer, from the context, or from the start of the region that the call with this
      identifier returned, which may be null unless it was checked. */
  datatype Address =
    | NoAddress
    | FromFrame(offset: I64)
    | FromContext(offset: I64)
    | FromCall(id: nat, offset: I64, size: U32, checked: bool)

  /** What a program is given: the address of its frame's end and of the context. */
  datatype Bases = Bases(frame: bv64, context: bv64)

  /** What a call returned, and the size the checker gives it. */
  datatype Region = Region(start: bv64, size: U32)

  function AddressOf(kind: RegType): Address {
    match kind
    case FramePtr(o) => FromFrame(o)
    case CtxPtr(o) => FromContext(o)
    case MapValuePtr(id, o, size, _) => FromCall(id, o, size, true)
    case RingBufPtr(id, o, size, _) => FromCall(id, o, size, true)
    case PtrOrNull(inner, _, id) => FromCall(id, 0, if IsRegionPtr(inner) then inner.size else 0, false)
    case _ => NoAddress
  }

  predicate HasAddress(kind: RegType) { !AddressOf(kind).NoAddress? }

  /** `calls` maps identifiers to the regions returned. */
  predicate HoldsAddress(a: Address, bits: bv64, bases: Bases, calls: map<nat, Region>) {
    match a
    case NoAddress => true
    case FromFrame(o) => bits == AddressAt(bases.frame, o)
    case FromContext(o) => bits == AddressAt(bases.context, o)
    case FromCall(id, o, size, checked) =>
      && id in calls && bits == AddressAt(calls[id].start, o) && size == calls[id].size
      && (checked ==> calls[id].start != 0)
  }

  lemma NothingHolds(a: Address, bits: bv64, bases: Bases, calls: map<nat, Region>)
    requires a.NoAddress?
    ensures HoldsAddress(a, bits, bases, calls)
  {}

  // --- When one claim follows from another ---

  predicate Implies(c: Address, w: Address) {
    || w.NoAddress? || w == c
    || (w.FromCall? && c.FromCall? && w.id == c.id && w.offset == c.offset && w.size == c.size && !w.checked)
  }

  ghost predicate ClaimFollows(c: Address, w: Address) {
    forall bits, bases, calls :: HoldsAddress(c, bits, bases, calls) ==> HoldsAddress(w, bits, bases, calls)
  }

  lemma ImpliedClaim(c: Address, w: Address, bits: bv64, bases: Bases, calls: map<nat, Region>)
    requires Implies(c, w) && HoldsAddress(c, bits, bases, calls)
    ensures HoldsAddress(w, bits, bases, calls)
  {}

  /** A place where the first claim holds and the second does not. */
  lemma Separated(c: Address, w: Address, bits: bv64, bases: Bases, calls: map<nat, Region>)
    requires HoldsAddress(c, bits, bases, calls) && !HoldsAddress(w, bits, bases, calls)
    ensures !ClaimFollows(c, w)
  {
    hide HoldsAddress;
  }

  /** A base from which the address does not lie at the offset. */
  lemma BasesApart(bits: bv64, offset: I64) returns (base: bv64)
    ensures AddressAt(base, offset) != bits
  {
    hide AddressAt;
    base := if AddressAt(0, offset) == bits then 1 else 0;
    StartsDiffer(offset);
  }

  lemma NotFollowing(c: Address, w: Address)
    requires !Implies(c, w)
    ensures !ClaimFollows(c, w)
  {
    hide AddressAt, ClaimFollows;
    AddressZero(0);
    match c {
      case NoAddress =>
        if !w.FromCall? {
          var base := BasesApart(0, w.offset);
          Separated(c, w, 0, Bases(base, base), map[]);
        } else {
          Separated(c, w, 0, Bases(0, 0), map[]);
        }
      case FromFrame(o) => BaseSeparates(c, w);
      case FromContext(o) => BaseSeparates(c, w);
      case FromCall(id, o, size, checked) =>
        var start: bv64 := if checked then 1 else 0;
        var calls := map[id := Region(start, size)];
        if w.FromCall? {
          AddressesDiffer(start, o, w.offset);
          Separated(c, w, AddressAt(start, o), Bases(0, 0), calls);
        } else {
          var base := BasesApart(AddressAt(start, o), w.offset);
          Separated(c, w, AddressAt(start, o), Bases(base, base), calls);
        }
    }
  }

  lemma BaseSeparates(c: Address, w: Address)
    requires (c.FromFrame? || c.FromContext?) && !Implies(c, w)
    ensures !ClaimFollows(c, w)
  {
    hide AddressAt, ClaimFollows;
    var bits := AddressAt(0, c.offset);
    if w.FromCall? {
      Separated(c, w, bits, Bases(0, 0), map[]);
    } else {
      AddressesDiffer(0, c.offset, w.offset);
      var base := BasesApart(bits, w.offset);
      if c.FromFrame? == w.FromFrame? {
        Separated(c, w, bits, Bases(0, 0), map[]);
      } else {
        Separated(c, w, bits, if c.FromFrame? then Bases(0, base) else Bases(base, 0), map[]);
      }
    }
  }

  /** One type's claim follows from another's exactly when both name the same region, size and offset, and a checked
      pointer comes from a checked one. */
  lemma ImpliesExact(c: Address, w: Address)
    ensures ClaimFollows(c, w) <==> Implies(c, w)
  {
    hide HoldsAddress;
    if Implies(c, w) {
      forall bits, bases, calls | HoldsAddress(c, bits, bases, calls)
        ensures HoldsAddress(w, bits, bases, calls)
      {
        ImpliedClaim(c, w, bits, bases, calls);
      }
    } else {
      NotFollowing(c, w);
    }
  }

  // --- Moving a pointer ---

  lemma MovedHolds(kind: RegType, n: I64, bits: bv64, bases: Bases, calls: map<nat, Region>)
    requires kind.IsPtr() && HoldsAddress(AddressOf(kind), bits, bases, calls)
    ensures HoldsAddress(AddressOf(MovePointer(kind, Some(n))), Plus(bits, FromSigned(n)), bases, calls)
    ensures HoldsAddress(AddressOf(MovePointer(kind, Some(WrapI64(0 - n)))), Minus(bits, FromSigned(n)), bases, calls)
  {
    hide AddressAt, Plus, Minus, WrapI64;
    match AddressOf(kind) {
      case NoAddress =>
      case FromFrame(o) => MovedAddress(bases.frame, o, n);
      case FromContext(o) => MovedAddress(bases.context, o, n);
      case FromCall(id, o, _, _) => MovedAddress(calls[id].start, o, n);
    }
  }

  lemma SignedTwice(x: bv64)
    ensures FromSigned(S(x)) == x
  {
    hide U, B;
    CastsAgree(x, S(x));
    UInjective(FromSigned(S(x)), x);
  }

  /** The register an addition or subtraction of two registers takes for a number, if the other is a pointer. */
  function NumberReg(regs: Regs, insn: BpfInsn): RegId { if regs[insn.dst].kind.IsPtr() then insn.src else insn.dst }

  function PointerReg(regs: Regs, insn: BpfInsn): RegId { if regs[insn.dst].kind.IsPtr() then insn.dst else insn.src }

  /** How far the pointer moves, as far as the checker knows. */
  function KnownDistance(op: AluOp, t: Tnum): Option<I64> {
    if !t.IsKnown() then None
    else if op == ADD then Some(S(t.value))
    else Some(WrapI64(0 - S(t.value)))
  }

  /** Two registers that add up to a pointer: one is a pointer, moved by the other. */
  lemma MovedKind(regs: Regs, insn: BpfInsn, op: AluOp)
    requires AluResult(regs, insn, op, FromReg, true).Success? && op in {ADD, SUB}
    requires HasAddress(AluResult(regs, insn, op, FromReg, true).value.kind)
    ensures var p, n := PointerReg(regs, insn), NumberReg(regs, insn);
            && regs[p].kind.IsPtr() && !regs[n].kind.IsPtr() && (op == SUB ==> p == insn.dst)
            && AluResult(regs, insn, op, FromReg, true).value.kind
                == MovePointer(regs[p].kind, KnownDistance(op, regs[n].tnum))
  {
    hide ScalarResult, U, S, WrapI64, MovePointer, AddressOf;
    ResultKind(op, regs[insn.dst].tnum, regs[insn.src].tnum, true);
    NoAddressOfScalar();
  }

  lemma NoAddressOfScalar()
    ensures !HasAddress(Scalar)
  {}

  /** One operand of the addition or subtraction is a pointer and the other is not; the pointer is not subtracted. */
  predicate MovesPointer(regs: Regs, insn: BpfInsn, op: AluOp) {
    && op in {ADD, SUB} && regs[PointerReg(regs, insn)].kind.IsPtr() && !regs[NumberReg(regs, insn)].kind.IsPtr()
    && (op == SUB ==> regs[insn.dst].kind.IsPtr())
  }

  lemma MovedStays(kind: RegType, delta: Option<I64>)
    requires kind.IsPtr()
    ensures HasAddress(MovePointer(kind, delta)) <==> HasAddress(kind)
  {
    hide WrapI64;
  }

  /** Adding a pointer and a number, or subtracting a number from a pointer, is accepted and gives such a pointer. */
  lemma MoveAccepted(regs: Regs, insn: BpfInsn, op: AluOp)
    requires MovesPointer(regs, insn, op)
    ensures var r, p := AluResult(regs, insn, op, FromReg, true), PointerReg(regs, insn);
            r.Success? && (HasAddress(r.value.kind) <==> HasAddress(regs[p].kind))
  {
    hide ScalarResult, U, S, WrapI64, MovePointer, AddressOf, HasAddress;
    MovedStays(regs[PointerReg(regs, insn)].kind, KnownDistance(op, regs[NumberReg(regs, insn)].tnum));
  }

  /** A pointer plus or minus a known number, or a known number plus a pointer: the type of the result holds the address
      of the result. */
  lemma KnownMoveHolds(regs: Regs, values: Values, insn: BpfInsn, op: AluOp, bases: Bases, calls: map<nat, Region>)
    requires MovesPointer(regs, insn, op)
    requires var p, n := PointerReg(regs, insn), NumberReg(regs, insn);
             && HoldsAddress(AddressOf(regs[p].kind), values[p], bases, calls)
             && regs[n].tnum.IsKnown() && regs[n].tnum.Has(values[n])
    ensures var r := AluResult(regs, insn, op, FromReg, true);
            && r.Success? && (HasAddress(r.value.kind) <==> HasAddress(regs[PointerReg(regs, insn)].kind))
            && HoldsAddress(AddressOf(r.value.kind), AluValue64(op, values[insn.dst], values[insn.src]), bases, calls)
  {
    hide AluResult, MovePointer, WrapI64, Plus, Minus, HoldsAddress, S, Member, AddressOf;
    var p, n := PointerReg(regs, insn), NumberReg(regs, insn);
    MoveAccepted(regs, insn, op);
    if HasAddress(AluResult(regs, insn, op, FromReg, true).value.kind) {
      MovedKind(regs, insn, op);
      KnownMembers(regs[n].tnum, values[n]);
      SignedTwice(values[n]);
      MovedHolds(regs[p].kind, S(values[n]), values[p], bases, calls);
      PlusCommutes(values[insn.dst], values[insn.src]);
    } else {
      NothingHolds(AddressOf(AluResult(regs, insn, op, FromReg, true).value.kind),
                   AluValue64(op, values[insn.dst], values[insn.src]), bases, calls);
    }
  }

  /** Whatever the pointer's address and the number, the type of the result holds the address of the result. */
  ghost predicate MovesRight(regs: Regs, insn: BpfInsn, op: AluOp)
    requires AluResult(regs, insn, op, FromReg, true).Success?
  {
    forall values: Values, bases, calls ::
      && HoldsAddress(AddressOf(regs[PointerReg(regs, insn)].kind), values[PointerReg(regs, insn)], bases, calls)
      && regs[NumberReg(regs, insn)].tnum.Has(values[NumberReg(regs, insn)]) ==>
        HoldsAddress(AddressOf(AluResult(regs, insn, op, FromReg, true).value.kind),
                     AluValue64(op, values[insn.dst], values[insn.src]), bases, calls)
  }

  /** An address the type allows. */
  lemma SomeAddress(kind: RegType) returns (bits: bv64, bases: Bases, calls: map<nat, Region>)
    ensures HoldsAddress(AddressOf(kind), bits, bases, calls)
  {
    hide AddressAt;
    bits, bases, calls := 0, Bases(0, 0), map[];
    match AddressOf(kind) {
      case NoAddress =>
      case FromFrame(o) => bits := AddressAt(0, o);
      case FromContext(o) => bits := AddressAt(0, o);
      case FromCall(id, o, size, _) => bits, calls := AddressAt(1, o), map[id := Region(1, size)];
    }
  }

  lemma OneAddress(a: Address, x: bv64, y: bv64, bases: Bases, calls: map<nat, Region>)
    requires !a.NoAddress? && HoldsAddress(a, x, bases, calls) && HoldsAddress(a, y, bases, calls)
    ensures x == y
  {
    hide AddressAt;
  }

  lemma OtherMember(t: Tnum)
    requires t.WellFormed() && !t.IsKnown()
    ensures t.Has(t.value) && t.Has(Words.Or(t.value, t.mask)) && t.value != Words.Or(t.value, t.mask)
  {
    hide Member, Disjoint, Words.Or;
    ExtremeMembers(t);
    DisjointDiffer(t.value, t.mask);
  }

  lemma DisjointDiffer(v: bv64, m: bv64)
    requires Disjoint(v, m) && m != 0
    ensures v != Words.Or(v, m)
  {}

  lemma ResultsDiffer(op: AluOp, a: bv64, x: bv64, y: bv64)
    requires op in {ADD, SUB} && x != y
    ensures AluValue64(op, a, x) != AluValue64(op, a, y) && Plus(x, a) != Plus(y, a)
  {
    hide Plus, Minus, U;
    if U(x) == U(y) {
      UInjective(x, y);
    }
    UPlus(a, x);
    UPlus(a, y);
    UMinus(a, x);
    UMinus(a, y);
    PlusCommutes(a, x);
    PlusCommutes(a, y);
    if AluValue64(op, a, x) == AluValue64(op, a, y) || Plus(x, a) == Plus(y, a) {
      if (U(a) + U(x)) % TWO64 == (U(a) + U(y)) % TWO64 {
        SumsDiffer(U(a), U(x), U(y));
      } else {
        DifferencesDiffer(U(a), U(x), U(y));
      }
    }
  }

  lemma DifferencesDiffer(a: U64, x: U64, y: U64)
    requires (a - x) % TWO64 == (a - y) % TWO64
    ensures x == y
  {
    assert (a - x) % TWO64 == a - x || (a - x) % TWO64 == a - x + TWO64;
    assert (a - y) % TWO64 == a - y || (a - y) % TWO64 == a - y + TWO64;
  }

  lemma KnownMovesRight(regs: Regs, insn: BpfInsn, op: AluOp)
    requires MovesPointer(regs, insn, op) && regs[NumberReg(regs, insn)].tnum.IsKnown()
    ensures AluResult(regs, insn, op, FromReg, true).Success? && MovesRight(regs, insn, op)
  {
    hide AluResult, MovePointer, HoldsAddress, AddressOf, AluValue64, Member, MovesPointer;
    MoveAccepted(regs, insn, op);
    forall values: Values, bases, calls |
      && HoldsAddress(AddressOf(regs[PointerReg(regs, insn)].kind), values[PointerReg(regs, insn)], bases, calls)
      && regs[NumberReg(regs, insn)].tnum.Has(values[NumberReg(regs, insn)])
      ensures HoldsAddress(AddressOf(AluResult(regs, insn, op, FromReg, true).value.kind),
                           AluValue64(op, values[insn.dst], values[insn.src]), bases, calls)
    {
      KnownMoveHolds(regs, values, insn, op, bases, calls);
    }
  }

  /** The same address, and two numbers that give different results. */
  lemma ResultsApart(regs: Regs, insn: BpfInsn, op: AluOp, bits: bv64, x: bv64, y: bv64)
    requires MovesPointer(regs, insn, op) && x != y
    ensures var n := NumberReg(regs, insn);
            var low, high := seq(11, _ => bits)[n := x], seq(11, _ => bits)[n := y];
            AluValue64(op, low[insn.dst], low[insn.src]) != AluValue64(op, high[insn.dst], high[insn.src])
  {
    hide AluValue64;
    ResultsDiffer(op, bits, x, y);
    AddsUp(x, bits);
    AddsUp(y, bits);
  }

  /** A right type leaves the result no choice. */
  lemma OneResult(regs: Regs, insn: BpfInsn, op: AluOp, low: Values, high: Values, bases: Bases,
                  calls: map<nat, Region>)
    requires AluResult(regs, insn, op, FromReg, true).Success? && MovesRight(regs, insn, op)
    requires HasAddress(AluResult(regs, insn, op, FromReg, true).value.kind)
    requires var p, n := PointerReg(regs, insn), NumberReg(regs, insn);
             && HoldsAddress(AddressOf(regs[p].kind), low[p], bases, calls) && high[p] == low[p]
             && regs[n].tnum.Has(low[n]) && regs[n].tnum.Has(high[n])
    ensures AluValue64(op, low[insn.dst], low[insn.src]) == AluValue64(op, high[insn.dst], high[insn.src])
  {
    hide AluResult, HoldsAddress, AddressOf, AluValue64, Member, MovesRight, NumberReg, PointerReg;
    MoveIsRight(regs, insn, op, low, bases, calls);
    MoveIsRight(regs, insn, op, high, bases, calls);
    OneAddress(AddressOf(AluResult(regs, insn, op, FromReg, true).value.kind),
               AluValue64(op, low[insn.dst], low[insn.src]), AluValue64(op, high[insn.dst], high[insn.src]), bases,
               calls);
  }

  lemma UnknownMovesWrong(regs: Regs, insn: BpfInsn, op: AluOp)
    requires MovesPointer(regs, insn, op) && HasAddress(regs[PointerReg(regs, insn)].kind)
    requires regs[NumberReg(regs, insn)].tnum.WellFormed() && !regs[NumberReg(regs, insn)].tnum.IsKnown()
    ensures AluResult(regs, insn, op, FromReg, true).Success? && !MovesRight(regs, insn, op)
  {
    hide AluResult, HoldsAddress, AddressOf, HasAddress, AluValue64, Tnum.Has, Disjoint, MovesPointer, MovesRight;
    hide Words.Or, NumberReg, PointerReg;
    var p, n := PointerReg(regs, insn), NumberReg(regs, insn);
    MoveAccepted(regs, insn, op);
    OtherRegister(regs, insn, op);
    var x, y := regs[n].tnum.value, Words.Or(regs[n].tnum.value, regs[n].tnum.mask);
    OtherMember(regs[n].tnum);
    var bits, bases, calls := SomeAddress(regs[p].kind);
    var low, high := seq(11, _ => bits)[n := x], seq(11, _ => bits)[n := y];
    if MovesRight(regs, insn, op) {
      OneResult(regs, insn, op, low, high, bases, calls);
      ResultsApart(regs, insn, op, bits, x, y);
    }
  }

  lemma OtherRegister(regs: Regs, insn: BpfInsn, op: AluOp)
    requires MovesPointer(regs, insn, op)
    ensures PointerReg(regs, insn) != NumberReg(regs, insn)
  {}

  /** The checker resets the offset of a pointer moved by a number it does not know. So the type it gives the result is
      right, for every address and number allowed, exactly when the number is known. */
  lemma RegisterMoveExact(regs: Regs, insn: BpfInsn, op: AluOp)
    requires MovesPointer(regs, insn, op) && HasAddress(regs[PointerReg(regs, insn)].kind)
    requires regs[NumberReg(regs, insn)].tnum.WellFormed()
    ensures AluResult(regs, insn, op, FromReg, true).Success?
    ensures MovesRight(regs, insn, op) <==> regs[NumberReg(regs, insn)].tnum.IsKnown()
  {
    hide AluResult, MovesRight, Disjoint, MovesPointer, HasAddress;
    if regs[NumberReg(regs, insn)].tnum.IsKnown() {
      KnownMovesRight(regs, insn, op);
    } else {
      UnknownMovesWrong(regs, insn, op);
    }
  }

  lemma AddsUp(x: bv64, y: bv64)
    ensures AluValue64(ADD, x, y) == Plus(x, y)
  {}

  lemma MoveIsRight(regs: Regs, insn: BpfInsn, op: AluOp, values: Values, bases: Bases, calls: map<nat, Region>)
    requires AluResult(regs, insn, op, FromReg, true).Success? && MovesRight(regs, insn, op)
    requires HoldsAddress(AddressOf(regs[PointerReg(regs, insn)].kind), values[PointerReg(regs, insn)], bases, calls)
    requires regs[NumberReg(regs, insn)].tnum.Has(values[NumberReg(regs, insn)])
    ensures HoldsAddress(AddressOf(AluResult(regs, insn, op, FromReg, true).value.kind),
                         AluValue64(op, values[insn.dst], values[insn.src]), bases, calls)
  {
    hide AluResult, HoldsAddress, AluValue64, Member;
  }

  /** A 32-bit addition or subtraction of an immediate, which the checker takes for a 64-bit one. */
  lemma HalfMoveKind(regs: Regs, insn: BpfInsn, op: AluOp)
    requires op in {ADD, SUB} && regs[insn.dst].kind.IsPtr()
    ensures var r, n := AluResult(regs, insn, op, FromImm, false), S(ImmOperand(insn.imm, false));
            && r.Success?
            && r.value.kind == MovePointer(regs[insn.dst].kind, Some(if op == ADD then n else WrapI64(0 - n)))
  {
    hide ScalarResult, U, S, WrapI64, MovePointer, ImmOperand, DivisorMayBeZero, ShiftTooFar;
  }

  lemma LowIsItself(v: bv64)
    ensures Low(v) == v <==> U(v) < TWO32
  {
    hide U, Low;
    LowFits(v);
    UConstants();
    if U(v) < TWO32 {
      SmallIsLow(v);
    }
  }

  lemma HalfResult(op: AluOp, x: bv64, y: bv64)
    requires op in {ADD, SUB}
    ensures AluValue32(op, x, y) == Low(AluValue64(op, x, y))
  {
    hide Low, Plus, Minus;
    LowTwice(x);
    LowTwice(y);
    LowPlus(Low(x), Low(y), x, y);
    LowMinus(Low(x), Low(y), x, y);
  }

  /** The type that a 32-bit move gives a pointer is right exactly if the address fits 32 bits. */
  lemma HalfMoveExact(regs: Regs, insn: BpfInsn, op: AluOp, bits: bv64, bases: Bases, calls: map<nat, Region>)
    requires op in {ADD, SUB} && regs[insn.dst].kind.IsPtr() && HasAddress(regs[insn.dst].kind)
    requires HoldsAddress(AddressOf(regs[insn.dst].kind), bits, bases, calls)
    ensures var r, y := AluResult(regs, insn, op, FromImm, false), ImmOperand(insn.imm, false);
            && r.Success?
            && (HoldsAddress(AddressOf(r.value.kind), AluValue32(op, bits, y), bases, calls) <==>
                  U(AluValue64(op, bits, y)) < TWO32)
  {
    hide AluResult, MovePointer, HoldsAddress, AddressOf, AluValue32, U, S, Plus, Minus, WrapI64, ImmOperand;
    hide HasAddress;
    var y := ImmOperand(insn.imm, false);
    HalfMoveKind(regs, insn, op);
    SignedTwice(y);
    var kind := AluResult(regs, insn, op, FromImm, false).value.kind;
    MovedHolds(regs[insn.dst].kind, S(y), bits, bases, calls);
    MovedStays(regs[insn.dst].kind, Some(if op == ADD then S(y) else WrapI64(0 - S(y))));
    HalfResult(op, bits, y);
    LowIsItself(AluValue64(op, bits, y));
    if HoldsAddress(AddressOf(kind), AluValue32(op, bits, y), bases, calls) {
      HasMeans(kind);
      OneAddress(AddressOf(kind), AluValue32(op, bits, y), AluValue64(op, bits, y), bases, calls);
    }
  }

  lemma HasMeans(kind: RegType)
    ensures HasAddress(kind) <==> !AddressOf(kind).NoAddress?
  {}

  // --- Accesses ---

  /** So close below the largest offset that the checker's own arithmetic wraps. */
  predicate NearLimit(offset: I64) { offset > I64_MAX - 520 }

  lemma WrapIs(n: int)
    requires I64_MIN <= n < TWO64
    ensures WrapI64(n) == if n <= I64_MAX then n else n - TWO64
  {}

  /** The checker's bounds check for the frame means lying inside it, except near the limit. */
  lemma FrameBoundsMean(offset: I64, w: MemWidth)
    ensures CheckBounds(offset, WidthBytes(w)) && !NearLimit(offset) <==> -512 <= offset && offset + WidthBytes(w) <= 0
  {
    hide WrapI64;
    WrapIs(512 + offset);
    WrapIs(WrapI64(512 + offset) + WidthBytes(w));
  }

  lemma RegionBoundsMean(offset: I64, w: MemWidth, size: U32)
    ensures InRegion(offset, WidthBytes(w), size) && !NearLimit(offset) <==>
              0 <= offset && offset + WidthBytes(w) <= size
  {
    hide WrapI64;
    WrapIs(offset + WidthBytes(w));
  }

  /** The bytes from `address` on lie `offset` behind `start`, between the two bounds, or the offset is near the
      limit. */
  predicate Spans(address: bv64, w: MemWidth, start: bv64, offset: I64, low: int, high: int) {
    address == AddressAt(start, offset) && (NearLimit(offset) || (low <= offset && offset + WidthBytes(w) <= high))
  }

  /** The accessed bytes lie in the frame, in the 4096 bytes of the context, or in the region that a call returned. */
  predicate InsideRegion(kind: RegType, address: bv64, w: MemWidth, offset: I64, bases: Bases,
                         calls: map<nat, Region>)
  {
    if kind.FramePtr? then Spans(address, w, bases.frame, offset, -512, 0)
    else if kind.CtxPtr? then Spans(address, w, bases.context, offset, 0, 4096)
    else IsRegionPtr(kind) ==>
      && kind.id in calls && calls[kind.id].start != 0 && calls[kind.id].size == kind.size
      && Spans(address, w, calls[kind.id].start, offset, 0, kind.size)
  }

  function ReachedOffset(kind: RegType, offset: I16): I64 {
    match kind
    case FramePtr(o) => WrapI64(o + offset)
    case CtxPtr(o) => WrapI64(o + offset)
    case MapValuePtr(_, o, _, _) => WrapI64(o + offset)
    case RingBufPtr(_, o, _, _) => WrapI64(o + offset)
    case _ => 0
  }

  /** What the bounds checks ask of an access at this offset. */
  predicate InBounds(kind: RegType, offset: I64, w: MemWidth) {
    && (kind.FramePtr? ==> CheckBounds(offset, WidthBytes(w)))
    && (kind.CtxPtr? ==> InRegion(offset, WidthBytes(w), 4096))
    && (IsRegionPtr(kind) ==> InRegion(offset, WidthBytes(w), kind.size))
  }

  lemma AccessHolds(kind: RegType, bits: bv64, offset: I16, w: MemWidth, bases: Bases, calls: map<nat, Region>)
    requires HoldsAddress(AddressOf(kind), bits, bases, calls)
    requires InBounds(kind, ReachedOffset(kind, offset), w)
    ensures InsideRegion(kind, Plus(bits, FromSigned(offset)), w, ReachedOffset(kind, offset), bases, calls)
  {
    hide AddressAt, Plus, FromSigned, WrapI64, CheckBounds, InRegion, NearLimit;
    match kind {
      case FramePtr(o) =>
        MovedAddress(bases.frame, o, offset);
        FrameBoundsMean(ReachedOffset(kind, offset), w);
      case CtxPtr(o) =>
        MovedAddress(bases.context, o, offset);
        RegionBoundsMean(ReachedOffset(kind, offset), w, 4096);
      case MapValuePtr(id, o, size, _) =>
        MovedAddress(calls[id].start, o, offset);
        RegionBoundsMean(ReachedOffset(kind, offset), w, size);
      case RingBufPtr(id, o, size, _) =>
        MovedAddress(calls[id].start, o, offset);
        RegionBoundsMean(ReachedOffset(kind, offset), w, size);
      case _ =>
    }
  }
}

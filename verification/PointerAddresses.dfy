/** Where pointers point: in an accepted program each register typed as a pointer with an offset holds the address of
  its base plus that offset, so the accesses the checker lets through stay inside the frame, the context and the
  regions.

  The claim needs conditions on the exploration: pointers move only by immediates or, where the values of numbers are
  followed too, by known numbers in registers; they are not reloaded from memory; and every arriving state is covered
  by a visit whose pointer types it has. `WalkingPointer` shows why.
*/
module PointerAddresses {
  import opened Wrappers
  import opened Words
  import opened Addresses
  import opened Tnums
  import opened Instructions
  import opened HelperTable
  import opened RegStates
  import opened AbstractStates
  import opened ControlFlow
  import opened Transfer
  import opened Certificates
  import opened Exploration
  import opened Machine
  import opened AluSoundness
  import opened BranchSoundness
  import opened ValueSoundness
  import opened NullRuns
  import opened NullSafety
  import opened AddressClaims

  predicate HoldAddresses(regs: Regs, values: Values, bases: Bases, calls: map<nat, Region>) {
    forall r: RegId :: HoldsAddress(AddressOf(regs[r].kind), values[r], bases, calls)
  }

  // --- The programs ---

  /** The visit moves pointers only in 64-bit arithmetic: by immediates or, if values are followed, by numbers that it
      knows. */
  predicate MovesByKnown(prog: Program, v: Visit, valued: bool)
    requires v.at.pc < |prog|
  {
    var insn, regs := prog[v.at.pc], v.at.regs;
    match insn.opcode
    case Alu64(op, source) =>
      var r, number := AluResult(regs, insn, op, source, true), regs[NumberReg(regs, insn)];
      r.Success? && HasAddress(r.value.kind) ==>
        insn.offset == 0 && (op == MOV || source.FromImm? || (valued && number.kind.Scalar? && number.tnum.IsKnown()))
    case Alu32(op, source) =>
      var r := AluResult(regs, insn, op, source, false);
      r.Success? ==> !HasAddress(r.value.kind)
    case _ => true
  }

  /** An unresolved pointer is compared with zero only as an immediate, and a long jump goes where the checker looks. */
  predicate ComparesPlainly(prog: Program, v: Visit)
    requires v.at.pc < |prog|
  {
    var insn, regs := prog[v.at.pc], v.at.regs;
    match insn.opcode
    case Jmp64(_, source) => regs[insn.dst].kind.PtrOrNull? ==> source.FromImm?
    case Jmp32(op, source) =>
      && (regs[insn.dst].kind.PtrOrNull? ==> source.FromImm?)
      && (op == JA ==> insn.imm == insn.offset || insn.imm == 0)
    case _ => true
  }

  predicate ReloadsNoPointer(prog: Program, v: Visit)
    requires v.at.pc < |prog|
  {
    var insn := prog[v.at.pc];
    insn.opcode.Ldx? ==>
      var r := LoadResult(v.at.regs, v.at.frame, insn, insn.opcode.width); r.Success? ==> !HasAddress(r.value.kind)
  }

  predicate MovesPlainly(prog: Program, v: Visit, valued: bool)
    requires v.at.pc < |prog|
  {
    MovesByKnown(prog, v, valued) && ComparesPlainly(prog, v) && ReloadsNoPointer(prog, v)
  }

  /** Each register's claim in `w` follows from its claim in `c`. */
  predicate AddressesFollow(c: Regs, w: Regs) {
    forall r: RegId :: Implies(AddressOf(c[r].kind), AddressOf(w[r].kind))
  }

  /** What `w` says of the registers follows from what `c` says. */
  ghost predicate RegsFollow(c: Regs, w: Regs, valued: bool) {
    AddressesFollow(c, w) && (valued ==> ValuesFollow(c, w))
  }

  /** Every arriving state is covered by a visit that claims no more. */
  ghost predicate AddressesKept(prog: Program, relocs: map<nat, Reloc>, visits: set<Visit>, valued: bool) {
    forall c :: Arrives(prog, relocs, visits, c) && c.pc < |prog| ==>
      exists v :: v in visits && v.at.pc == c.pc && RegsFollow(c.regs, v.at.regs, valued)
  }

  ghost predicate PointerDiscipline(prog: Program, relocs: map<nat, Reloc>, visits: set<Visit>, valued: bool) {
    && (forall v :: v in visits && v.at.pc < |prog| ==>
          MovesPlainly(prog, v, valued) && (valued ==> SafeVisit(prog, v)))
    && AddressesKept(prog, relocs, visits, valued)
  }

  /** Pruning compares pointer types and ranges, so in a loop-free program nothing is lost. */
  lemma LoopFreeKeepsAddresses(prog: Program, relocs: map<nat, Reloc>, visits: set<Visit>, valued: bool)
    requires Complete(prog, relocs, visits) && forall t: nat :: !IsLoopHead(prog, t)
    ensures AddressesKept(prog, relocs, visits, valued)
  {
    hide Subsumes, RegsFollow, Successors, VisitOk, EntryConfig;
    forall c | Arrives(prog, relocs, visits, c) && c.pc < |prog|
      ensures exists v :: v in visits && v.at.pc == c.pc && RegsFollow(c.regs, v.at.regs, valued)
    {
      assert Covered(prog, visits, c);
      var v :| v in visits && Subsumes(v.at, c);
      SubsumedRegs(prog, v, c, valued);
    }
  }

  lemma SubsumedRegs(prog: Program, v: Visit, c: Config, valued: bool)
    requires Subsumes(v.at, c) && VisitOk(prog, v)
    ensures v.at.pc == c.pc && RegsFollow(c.regs, v.at.regs, valued)
  {
    hide Subsumes, VisitOk, AddressesFollow, ValuesFollow;
    SubsumedFollows(v.at, c);
    SubsumedValues(prog, v, c);
  }

  lemma SubsumedFollows(w: Config, c: Config)
    requires Subsumes(w, c)
    ensures w.pc == c.pc && AddressesFollow(c.regs, w.regs)
  {
    hide FrameWithin, RegState.BoundsWithin;
    forall r: RegId
      ensures Implies(AddressOf(c.regs[r].kind), AddressOf(w.regs[r].kind))
    {
      assert c.regs[r].IsSubstateOf(w.regs[r]);
    }
  }

  // --- One step ---

  lemma RegAddress(regs: Regs, values: Values, bases: Bases, calls: map<nat, Region>, r: RegId)
    requires HoldAddresses(regs, values, bases, calls)
    ensures HoldsAddress(AddressOf(regs[r].kind), values[r], bases, calls)
  {
    hide HoldsAddress;
  }

  lemma SetAddress(regs: Regs, s: Values, t: Values, bases: Bases, calls: map<nat, Region>, dst: RegId, value: RegState)
    requires HoldAddresses(regs, s, bases, calls) && Unchanged(s, t, {dst})
    requires HoldsAddress(AddressOf(value.kind), t[dst], bases, calls)
    ensures HoldAddresses(regs[dst := value], t, bases, calls)
  {
    hide HoldsAddress;
    forall r: RegId | r != dst
      ensures HoldsAddress(AddressOf(regs[r].kind), t[r], bases, calls)
    {
      RegAddress(regs, s, bases, calls, r);
    }
  }

  /** A 64-bit result that is a pointer is a copy of one, or a pointer moved by an immediate. */
  lemma CopiedOrShifted(regs: Regs, insn: BpfInsn, op: AluOp, source: Source)
    requires AluResult(regs, insn, op, source, true).Success? && (op == MOV || source.FromImm?)
    ensures var k, dst := AluResult(regs, insn, op, source, true).value.kind, regs[insn.dst].kind;
            HasAddress(k) ==>
              || (op == MOV && source.FromReg? && k == regs[insn.src].kind)
              || (op in {ADD, SUB} && source.FromImm? && dst.IsPtr() &&
                  k == MovePointer(dst, Some(Distance(op, insn.imm, true))))
  {
    hide AluResult, Distance, MovePointer;
    AluKind(regs, insn, op, source, true);
  }

  /** A pointer moved by a register has been added to a number, or a number subtracted from it. */
  lemma MovedByRegister(regs: Regs, insn: BpfInsn, op: AluOp)
    requires AluResult(regs, insn, op, FromReg, true).Success? && op != MOV
    requires HasAddress(AluResult(regs, insn, op, FromReg, true).value.kind)
    ensures MovesPointer(regs, insn, op)
  {
    hide AluResult, Distance, MovePointer, AddressOf;
    AluKind(regs, insn, op, FromReg, true);
    AddressIsPointer(AluResult(regs, insn, op, FromReg, true).value.kind);
    MovedKind(regs, insn, op);
  }

  lemma AddressIsPointer(kind: RegType)
    requires HasAddress(kind)
    ensures kind.IsPtr() || kind.PtrOrNull?
  {}

  lemma ShiftedHolds(kind: RegType, op: AluOp, imm: I32, bits: bv64, bases: Bases, calls: map<nat, Region>)
    requires (op == ADD || op == SUB) && kind.IsPtr() && HoldsAddress(AddressOf(kind), bits, bases, calls)
    ensures HoldsAddress(AddressOf(MovePointer(kind, Some(Distance(op, imm, true)))),
                         AluValue64(op, bits, ImmOperand(imm, true)), bases, calls)
  {
    hide HoldsAddress, AddressOf, MovePointer, WrapI64, U, B, Plus, Minus;
    CastsAgree(0, imm);
    MovedHolds(kind, imm, bits, bases, calls);
  }

  lemma MoveCopies(x: bv64, y: bv64)
    ensures AluValue64(MOV, x, y) == y
  {}

  lemma AluHolds(prog: Program, v: Visit, s: Values, bases: Bases, calls: map<nat, Region>, op: AluOp, source: Source,
                 valued: bool, result: bv64)
    requires v.at.pc < |prog| && prog[v.at.pc].opcode == Alu64(op, source) && MovesByKnown(prog, v, valued)
    requires AluResult(v.at.regs, prog[v.at.pc], op, source, true).Success?
    requires HoldAddresses(v.at.regs, s, bases, calls) && (valued ==> Represents(v.at.regs, s))
    requires var insn := prog[v.at.pc];
             insn.offset == 0 ==> result == AluValue64(op, s[insn.dst], OperandValue(s, insn, source, true))
    ensures HoldsAddress(AddressOf(AluResult(v.at.regs, prog[v.at.pc], op, source, true).value.kind), result, bases,
                         calls)
  {
    hide AluResult, HoldsAddress, MovePointer, AluValue64, SignExtended, Distance, AddressOf, Represents, Member;
    hide HoldAddresses;
    var regs, insn := v.at.regs, prog[v.at.pc];
    var kind := AluResult(regs, insn, op, source, true).value.kind;
    RegAddress(regs, s, bases, calls, insn.src);
    RegAddress(regs, s, bases, calls, insn.dst);
    if !HasAddress(kind) {
      NothingHolds(AddressOf(kind), result, bases, calls);
    } else if op == MOV {
      CopiedOrShifted(regs, insn, op, source);
      MoveCopies(s[insn.dst], OperandValue(s, insn, source, true));
    } else if source.FromImm? {
      CopiedOrShifted(regs, insn, op, source);
      ShiftedHolds(regs[insn.dst].kind, op, insn.imm, s[insn.dst], bases, calls);
    } else {
      MovedByRegister(regs, insn, op);
      KnownHas(regs, s, NumberReg(regs, insn));
      KnownMoveHolds(regs, s, insn, op, bases, calls);
    }
  }

  lemma KnownHas(regs: Regs, values: Values, r: RegId)
    requires Represents(regs, values) && regs[r].kind.Scalar?
    ensures regs[r].tnum.Has(values[r])
  {
    hide U, S, Member;
    ScalarContains(regs, values, r);
  }

  lemma AluVisitHolds(prog: Program, relocs: map<nat, Reloc>, v: Visit, s: State, t: State, bases: Bases,
                      calls: map<nat, Region>, op: AluOp, source: Source, is64: bool, valued: bool)
    returns (c: Config)
    requires v.at.pc == s.pc < |prog| && prog[s.pc].opcode == if is64 then Alu64(op, source) else Alu32(op, source)
    requires MovesByKnown(prog, v, valued) && !Failing(prog, relocs, v) && (valued ==> Represents(v.at.regs, s.regs))
    requires HoldAddresses(v.at.regs, s.regs, bases, calls) && Steps(prog, relocs.Keys, s, t)
    ensures c == Chosen(prog, relocs, v, s, t)
    ensures c in Successors(prog, relocs, v) && c.pc == t.pc && HoldAddresses(c.regs, t.regs, bases, calls)
  {
    hide AluResult, CanRead, HoldAddresses, HoldsAddress, OperandValue, AluValue64, AluValue32, MoveModulus, AddressOf;
    hide SignedBelow, SignedDivision, FromSigned, Represents;
    var insn := prog[s.pc];
    c := Step(prog, relocs, v.at, v.id).next;
    var value := AluResult(v.at.regs, insn, op, source, is64).value;
    if is64 {
      AluHolds(prog, v, s.regs, bases, calls, op, source, valued, t.regs[insn.dst]);
    } else {
      NothingHolds(AddressOf(value.kind), t.regs[insn.dst], bases, calls);
    }
    SetAddress(v.at.regs, s.regs, t.regs, bases, calls, insn.dst, value);
  }

  // --- One step: branches ---

  lemma ResolvedHolds(regs: Regs, values: Values, bases: Bases, calls: map<nat, Region>, id: nat, learned: RegType)
    requires HoldAddresses(regs, values, bases, calls)
    requires learned.Null? || (id in calls && calls[id].start != 0 && !learned.PtrOrNull?
                               && AddressOf(learned) == FromCall(id, 0, calls[id].size, true))
    ensures HoldAddresses(ResolveRegs(regs, id, learned), values, bases, calls)
  {
    hide AddressAt;
    forall r: RegId
      ensures HoldsAddress(AddressOf(ResolveRegs(regs, id, learned)[r].kind), values[r], bases, calls)
    {
      RegAddress(regs, values, bases, calls, r);
    }
  }

  lemma ScalarHolds(regs: Regs, values: Values, bases: Bases, calls: map<nat, Region>, dst: RegId, value: RegState)
    requires HoldAddresses(regs, values, bases, calls) && value.kind.Scalar?
    ensures HoldAddresses(regs[dst := value], values, bases, calls)
  {
    SetAddress(regs, values, values, bases, calls, dst, value);
  }

  /** A checked pointer is the start of the region that its identifier names. */
  lemma InnerStarts(kind: RegType, id: nat)
    requires kind.PtrOrNull? && KindOk(kind, id)
    ensures !kind.inner.PtrOrNull? && IsRegionPtr(kind.inner)
    ensures AddressOf(kind.inner) == FromCall(kind.id, 0, kind.inner.size, true)
  {}

  lemma BranchHolds(c: Config, values: Values, bases: Bases, calls: map<nat, Region>, insn: BpfInsn, op: JmpOp,
          source: Source,
                    is32: bool, id: nat)
    requires HoldAddresses(c.regs, values, bases, calls) && KindOk(c.regs[insn.dst].kind, id)
    requires c.regs[insn.dst].kind.PtrOrNull? ==> source.FromImm?
    ensures var b := RefineBranch(c.regs, c.frame, insn, op, source, is32);
            HoldAddresses(if Holds(op, is32, values[insn.dst], OperandValue(values, insn, source, !is32)) then b.taken
                  else b.fall,
                          values, bases, calls)
  {
    hide HoldAddresses, U, ResolveRegs, ResolveSpills, Refine64, Refine32, Holds, RefineBranch, CompareValue;
    hide OperandValue;
    hide AddressAt, KindOk;
    var val, dst := CompareValue(c.regs, insn, source, is32), c.regs[insn.dst];
    BranchCases(c.regs, c.frame, insn, op, source, is32);
    if val.Some? && U(val.value) == 0 && dst.kind.PtrOrNull? {
      UZero(val.value);
      ImmediateCompare(c.regs, values, insn, is32);
      RegAddress(c.regs, values, bases, calls, insn.dst);
      AddressZero(calls[dst.kind.id].start);
      ResolvedHolds(c.regs, values, bases, calls, dst.kind.id, Null);
      var holds := Holds(op, is32, values[insn.dst], 0);
      if (op == JEQ && !holds) || (op == JNE && holds) {
        NonzeroSide(op, is32, values[insn.dst]);
        InnerStarts(dst.kind, id);
        ResolvedHolds(c.regs, values, bases, calls, dst.kind.id, dst.kind.inner);
      }
    } else if val.Some? && dst.kind.Scalar? {
      var sides := if is32 then Refine32(dst, op, val.value) else Refine64(dst, op, val.value);
      RefinedSideKinds(dst, op, val.value);
      ScalarHolds(c.regs, values, bases, calls, insn.dst, sides.0);
      ScalarHolds(c.regs, values, bases, calls, insn.dst, sides.1);
    }
  }

  lemma BranchVisitHolds(prog: Program, relocs: map<nat, Reloc>, v: Visit, s: State, t: State, bases: Bases,
                         calls: map<nat, Region>, op: JmpOp, source: Source, is32: bool) returns (c: Config)
    requires v.at.pc == s.pc < |prog| && prog[s.pc].opcode == if is32 then Jmp32(op, source) else Jmp64(op, source)
    requires ComparesPlainly(prog, v) && !Failing(prog, relocs, v) && KindOk(v.at.regs[prog[s.pc].dst].kind, v.id)
    requires HoldAddresses(v.at.regs, s.regs, bases, calls) && Steps(prog, relocs.Keys, s, t)
    ensures c == Chosen(prog, relocs, v, s, t)
    ensures c in Successors(prog, relocs, v) && c.pc == t.pc && HoldAddresses(c.regs, t.regs, bases, calls)
  {
    hide RefineBranch, CanRead, HoldAddresses, Holds64, Holds32, OperandValue, Target, KindOk;
    var insn := prog[s.pc];
    if is32 && op == JA {
      LongJump(prog, relocs, v, s, t, source);
      c := v.at.(pc := t.pc);
    } else {
      var holds := Holds(op, is32, s.regs[insn.dst], OperandValue(s.regs, insn, source, !is32));
      var outcome := Step(prog, relocs, v.at, v.id);
      if holds {
        TargetUnique(prog, s.pc, insn.offset, t.pc, Target(prog, s.pc, insn.offset).value);
      }
      BranchHolds(v.at, s.regs, bases, calls, insn, op, source, is32, v.id);
      c := if holds then outcome.taken else outcome.fall;
    }
  }

  // --- One step: everything else ---

  /** The size the checker gives the region that a call returns. */
  function RegionSize(ret: HelperReturn, regs: Regs): U32 {
    var known := regs[2].tnum.KnownValue();
    if !ret.RetRingBufPtr? then DEFAULT_MAP_VALUE_SIZE
    else if known.Some? then LowFits(known.value); U(Low(known.value))
    else DEFAULT_RINGBUF_SIZE
  }

  /** A nullable call returns one more region. */
  function Knowing(ret: HelperReturn, regs: Regs, id: nat, start: bv64, calls: map<nat, Region>): map<nat, Region> {
    if IsNullable(ret) then calls[id := Region(start, RegionSize(ret, regs))] else calls
  }

  function KnownAfter(insn: BpfInsn, v: Visit, t: State, calls: map<nat, Region>): map<nat, Region> {
    if IsNullableCall(insn) then Knowing(GetHelper(insn.imm).value.ret, v.at.regs, v.id, t.regs[0], calls) else calls
  }

  lemma CallHolds(regs: Regs, s: Values, t: Values, bases: Bases, calls: map<nat, Region>, ret: HelperReturn, pc: nat,
          id: nat)
    requires HoldAddresses(regs, s, bases, calls) && Unchanged(s, t, {0, 1, 2, 3, 4, 5})
    requires forall r: RegId :: IdBelow(AddressOf(regs[r].kind), id)
    ensures HoldAddresses(AfterCall(regs, ReturnValue(ret, regs, pc, id)), t, bases,
                          Knowing(ret, regs, id, t[0], calls))
  {
    hide U, Low, AddressAt, ReturnValue, IsNullable, AddressOf;
    var calls' := Knowing(ret, regs, id, t[0], calls);
    ReturnAddress(ret, regs, pc, id);
    AddressZero(t[0]);
    UnsetAddress();
    var after := AfterCall(regs, ReturnValue(ret, regs, pc, id));
    forall r: RegId
      ensures HoldsAddress(AddressOf(after[r].kind), t[r], bases, calls')
    {
      RegAddress(regs, s, bases, calls, r);
      assert IdBelow(AddressOf(regs[r].kind), id);
    }
  }

  lemma ReturnAddress(ret: HelperReturn, regs: Regs, pc: nat, id: nat)
    ensures AddressOf(ReturnValue(ret, regs, pc, id).kind)
         == if IsNullable(ret) then FromCall(id, 0, RegionSize(ret, regs), false) else NoAddress
  {
    hide U, Low;
  }

  lemma UnsetAddress()
    ensures AddressOf(UninitReg().kind).NoAddress?
  {}

  predicate IdBelow(a: Address, id: nat) { a.FromCall? ==> a.id < id }

  lemma LoadsNoAddress(insn: BpfInsn, reloc: Option<Reloc>)
    ensures !HasAddress(WideLoad(insn, reloc).kind)
  {
    hide WideImm, ScalarValue;
    KindOfValue(WideImm(insn));
  }

  lemma OtherVisitHolds(prog: Program, relocs: map<nat, Reloc>, v: Visit, s: State, t: State, bases: Bases,
                        calls: map<nat, Region>) returns (c: Config, calls': map<nat, Region>)
    requires v.at.pc == s.pc < |prog| && !prog[s.pc].opcode.Alu64? && !prog[s.pc].opcode.Alu32? && !IsBranch(prog[s.pc])
    requires ReloadsNoPointer(prog, v) && !Failing(prog, relocs, v)
    requires forall r: RegId :: IdBelow(AddressOf(v.at.regs[r].kind), v.id)
    requires HoldAddresses(v.at.regs, s.regs, bases, calls) && Steps(prog, relocs.Keys, s, t)
    ensures calls' == KnownAfter(prog[s.pc], v, t, calls)
    ensures c == Chosen(prog, relocs, v, s, t)
    ensures c in Successors(prog, relocs, v) && c.pc == t.pc && HoldAddresses(c.regs, t.regs, bases, calls')
  {
    hide LoadResult, StoreResult, WideLoad, AfterCall, ReturnValue, FrameAfterCall, GetHelper, ArgError, CanRead;
    hide Target;
    hide HoldAddresses, HoldsAddress, IsNullable, IdBelow, AddressOf;
    var regs, insn := v.at.regs, prog[s.pc];
    c, calls' := Step(prog, relocs, v.at, v.id).next, calls;
    match insn.opcode {
      case LdImm64 =>
        LoadsNoAddress(insn, if s.pc in relocs then Some(relocs[s.pc]) else None);
        NothingHolds(AddressOf(c.regs[insn.dst].kind), t.regs[insn.dst], bases, calls);
        SetAddress(regs, s.regs, t.regs, bases, calls, insn.dst, c.regs[insn.dst]);
      case Ldx(w) =>
        NothingHolds(AddressOf(c.regs[insn.dst].kind), t.regs[insn.dst], bases, calls);
        SetAddress(regs, s.regs, t.regs, bases, calls, insn.dst, c.regs[insn.dst]);
      case Call =>
        var ret := GetHelper(insn.imm).value.ret;
        calls' := Knowing(ret, regs, v.id, t.regs[0], calls);
        CallHolds(regs, s.regs, t.regs, bases, calls, ret, s.pc, v.id);
      case JmpJa =>
        TargetUnique(prog, s.pc, insn.offset, t.pc, Target(prog, s.pc, insn.offset).value);
      case Stx(_) =>
      case St(_) =>
    }
  }

  lemma RegIdsBelow(prog: Program, v: Visit)
    requires VisitOk(prog, v)
    ensures v.at.pc < |prog|
    ensures forall r: RegId :: KindOk(v.at.regs[r].kind, v.id) && IdBelow(AddressOf(v.at.regs[r].kind), v.id)
  {
    hide Tnum.WellFormed;
  }

  lemma StepHolds(prog: Program, relocs: map<nat, Reloc>, v: Visit, s: State, t: State, bases: Bases,
                  calls: map<nat, Region>, valued: bool)
    returns (c: Config, calls': map<nat, Region>)
    requires VisitOk(prog, v) && v.at.pc == s.pc < |prog| && MovesPlainly(prog, v, valued) && !Failing(prog, relocs, v)
    requires HoldAddresses(v.at.regs, s.regs, bases, calls) && (valued ==> Represents(v.at.regs, s.regs))
    requires Steps(prog, relocs.Keys, s, t)
    ensures calls' == KnownAfter(prog[s.pc], v, t, calls)
    ensures c == Chosen(prog, relocs, v, s, t)
    ensures c in Successors(prog, relocs, v) && c.pc == t.pc && HoldAddresses(c.regs, t.regs, bases, calls')
  {
    hide HoldAddresses, Successors, Failing, Steps, KindOk, IdBelow, ConfigOk, MovesByKnown, ComparesPlainly;
    hide ReloadsNoPointer, Chosen, Represents;
    RegIdsBelow(prog, v);
    calls' := calls;
    match prog[s.pc].opcode {
      case Alu64(op, source) => c := AluVisitHolds(prog, relocs, v, s, t, bases, calls, op, source, true, valued);
      case Alu32(op, source) => c := AluVisitHolds(prog, relocs, v, s, t, bases, calls, op, source, false, valued);
      case Jmp64(op, source) => c := BranchVisitHolds(prog, relocs, v, s, t, bases, calls, op, source, false);
      case Jmp32(op, source) => c := BranchVisitHolds(prog, relocs, v, s, t, bases, calls, op, source, true);
      case _ => c, calls' := OtherVisitHolds(prog, relocs, v, s, t, bases, calls);
    }
  }

  /** The values of the numbers too, if they are followed. */
  lemma StepFollows(prog: Program, relocs: map<nat, Reloc>, v: Visit, s: State, t: State, c: Config, valued: bool)
    requires VisitOk(prog, v) && v.at.pc == s.pc < |prog| && !Failing(prog, relocs, v)
    requires valued ==> SafeVisit(prog, v) && Represents(v.at.regs, s.regs)
    requires Steps(prog, relocs.Keys, s, t) && c == Chosen(prog, relocs, v, s, t)
    ensures valued ==> Represents(c.regs, t.regs)
  {
    hide Represents, SafeVisit, Failing, Steps, ConfigOk, Chosen, Successors;
    if valued {
      var d := StepRepresents(prog, relocs, v, s, t);
    }
  }

  // --- Whole runs ---

  /** Step `i` of the run is a lookup or reservation that returned the region, its size taken from visit `u`. */
  ghost predicate ReturnedAt(prog: Program, run: seq<State>, region: Region, i: nat, u: Visit) {
    && i < |run| - 1 && u.at.pc == run[i].pc < |prog| && IsNullableCall(prog[run[i].pc])
    && run[i + 1].regs[0] == region.start
    && region.size == RegionSize(GetHelper(prog[run[i].pc].imm).value.ret, u.at.regs)
  }

  ghost predicate Returned(prog: Program, visits: set<Visit>, run: seq<State>, region: Region) {
    exists i: nat, u :: u in visits && ReturnedAt(prog, run, region, i, u)
  }

  ghost predicate AllReturned(prog: Program, visits: set<Visit>, run: seq<State>, calls: map<nat, Region>) {
    forall id :: id in calls ==> Returned(prog, visits, run, calls[id])
  }

  lemma ReturnedStays(prog: Program, visits: set<Visit>, run: seq<State>, region: Region)
    requires |run| >= 2 && Returned(prog, visits, run[..|run| - 1], region)
    ensures Returned(prog, visits, run, region)
  {
    hide IsNullableCall, RegionSize;
    var init := run[..|run| - 1];
    var i: nat, u :| u in visits && ReturnedAt(prog, init, region, i, u);
    assert run[i] == init[i] && run[i + 1] == init[i + 1];
    assert ReturnedAt(prog, run, region, i, u);
  }

  lemma JustReturned(prog: Program, visits: set<Visit>, run: seq<State>, u: Visit)
    requires |run| >= 2 && u in visits && u.at.pc == run[|run| - 2].pc < |prog|
    requires IsNullableCall(prog[run[|run| - 2].pc])
    ensures var ret := GetHelper(prog[run[|run| - 2].pc].imm).value.ret;
            Returned(prog, visits, run, Region(run[|run| - 1].regs[0], RegionSize(ret, u.at.regs)))
  {
    hide RegionSize;
    var i := |run| - 2;
    var ret := GetHelper(prog[run[i].pc].imm).value.ret;
    assert ReturnedAt(prog, run, Region(run[i + 1].regs[0], RegionSize(ret, u.at.regs)), i, u);
  }

  lemma ReturnedLater(prog: Program, visits: set<Visit>, run: seq<State>, calls: map<nat, Region>, u: Visit)
    requires |run| >= 2 && AllReturned(prog, visits, run[..|run| - 1], calls)
    requires u in visits && u.at.pc == run[|run| - 2].pc < |prog|
    ensures AllReturned(prog, visits, run, KnownAfter(prog[u.at.pc], u, run[|run| - 1], calls))
  {
    hide Returned, RegionSize;
    var calls' := KnownAfter(prog[u.at.pc], u, run[|run| - 1], calls);
    forall k | k in calls'
      ensures Returned(prog, visits, run, calls'[k])
    {
      if k in calls && calls'[k] == calls[k] {
        ReturnedStays(prog, visits, run, calls[k]);
      } else {
        JustReturned(prog, visits, run, u);
      }
    }
  }

  /** At the start r10 is the end of the frame and r1 the context. */
  function EntryBases(values: Values): Bases { Bases(values[10], values[1]) }

  lemma EntryHolds(values: Values)
    ensures HoldAddresses(EntryConfig().regs, values, EntryBases(values), map[]) && EntryConfig().pc == 0
  {
    hide AddressAt;
    AddressZero(values[10]);
    AddressZero(values[1]);
  }

  lemma RegsFollowed(c: Regs, w: Regs, values: Values, bases: Bases, calls: map<nat, Region>, valued: bool)
    requires RegsFollow(c, w, valued) && HoldAddresses(c, values, bases, calls) && (valued ==> Represents(c, values))
    ensures HoldAddresses(w, values, bases, calls) && (valued ==> Represents(w, values))
  {
    hide Implies, HoldsAddress, Represents;
    forall r: RegId
      ensures HoldsAddress(AddressOf(w[r].kind), values[r], bases, calls)
    {
      RegAddress(c, values, bases, calls, r);
      ImpliedClaim(AddressOf(c[r].kind), AddressOf(w[r].kind), values[r], bases, calls);
    }
  }

  lemma AddressesCarryOver(prog: Program, relocs: map<nat, Reloc>, visits: set<Visit>, c: Config, values: Values,
                           bases: Bases, calls: map<nat, Region>, valued: bool) returns (v: Visit)
    requires AddressesKept(prog, relocs, visits, valued) && Arrives(prog, relocs, visits, c) && c.pc < |prog|
    requires HoldAddresses(c.regs, values, bases, calls) && (valued ==> Represents(c.regs, values))
    ensures v in visits && v.at.pc == c.pc && HoldAddresses(v.at.regs, values, bases, calls)
    ensures valued ==> Represents(v.at.regs, values)
  {
    hide Arrives, RegsFollow, HoldAddresses, Represents;
    v :| v in visits && v.at.pc == c.pc && RegsFollow(c.regs, v.at.regs, valued);
    RegsFollowed(c.regs, v.at.regs, values, bases, calls, valued);
  }

  /** At each instruction of each run, every register that a state visited there types as a pointer with an offset
      holds that address: the frame's end, the context, or a region some call returned, plus the offset. If values are
      followed, the numbers are those of the run too. */
  lemma {:induction false} RunHoldsAddresses(prog: Program, relocs: map<nat, Reloc>, visits: set<Visit>,
          run: seq<State>, valued: bool)
    returns (v: Visit, calls: map<nat, Region>)
    requires Certificate(prog, relocs, visits) && PointerDiscipline(prog, relocs, visits, valued)
    requires IsRun(prog, relocs.Keys, run) && run[|run| - 1].pc < |prog|
    ensures v in visits && v.at.pc == run[|run| - 1].pc && !Failing(prog, relocs, v)
    ensures HoldAddresses(v.at.regs, run[|run| - 1].regs, EntryBases(run[0].regs), calls)
    ensures valued ==> Represents(v.at.regs, run[|run| - 1].regs)
    ensures AllReturned(prog, visits, run, calls)
    decreases |run|
  {
    hide Covered, Successors, VisitOk, Failing, MovesPlainly, AddressesKept, HoldAddresses, Steps, EntryConfig, Arrives;
    hide EntryBases, Represents, SafeVisit, Chosen;
    if |run| == 1 {
      EntryHolds(run[0].regs);
      EntryRepresents(run[0].regs);
      EntryArrives(prog, relocs, visits);
      calls := map[];
      v := AddressesCarryOver(prog, relocs, visits, EntryConfig(), run[0].regs, EntryBases(run[0].regs), calls, valued);
    } else {
      var init, bases := run[..|run| - 1], EntryBases(run[0].regs);
      var s, t := run[|run| - 2], run[|run| - 1];
      assert Steps(prog, relocs.Keys, run[|run| - 2], run[|run| - 2 + 1]);
      assert IsRun(prog, relocs.Keys, init) by {
        forall i | 0 <= i < |init| - 1
          ensures Steps(prog, relocs.Keys, init[i], init[i + 1])
        {
          assert Steps(prog, relocs.Keys, run[i], run[i + 1]);
        }
      }
      StepInside(prog, relocs.Keys, s, t);
      var u, known := RunHoldsAddresses(prog, relocs, visits, init, valued);
      var c;
      c, calls := StepHolds(prog, relocs, u, s, t, bases, known, valued);
      StepFollows(prog, relocs, u, s, t, c, valued);
      ReturnedLater(prog, visits, run, known, u);
      SuccessorArrives(prog, relocs, visits, u, c);
      v := AddressesCarryOver(prog, relocs, visits, c, t.regs, bases, calls, valued);
    }
  }

  // --- Accesses ---

  /** What the checker tested before it let the access through. */
  lemma AccessWasChecked(prog: Program, relocs: map<nat, Reloc>, v: Visit)
    requires v.at.pc < |prog| && !Failing(prog, relocs, v) && AccessOf(prog[v.at.pc]).Some?
    ensures var insn, (r, w) := prog[v.at.pc], AccessOf(prog[v.at.pc]).value;
            InBounds(v.at.regs[r].kind, ReachedOffset(v.at.regs[r].kind, insn.offset), w)
  {
    hide WrapI64, CheckBounds, InRegion, CheckReadable, AluResult, RefineBranch, WideLoad, StepCall;
    hide AbstractStates.Spill;
    hide AbstractStates.MarkWritten, AbstractStates.ClearSpill, CheckExit;
  }

  /** Every access of every run that the checker takes to go to the frame, the context, a map value or a ring-buffer
      entry really goes there, inside its bounds unless the offset is near the limit of 64-bit integers. */
  lemma AccessesStayInside(prog: Program, relocs: map<nat, Reloc>, visits: set<Visit>, run: seq<State>, valued: bool)
    returns (v: Visit, calls: map<nat, Region>)
    requires Certificate(prog, relocs, visits) && PointerDiscipline(prog, relocs, visits, valued)
    requires IsRun(prog, relocs.Keys, run) && run[|run| - 1].pc < |prog|
    requires AccessOf(prog[run[|run| - 1].pc]).Some?
    ensures v in visits && v.at.pc == run[|run| - 1].pc && AllReturned(prog, visits, run, calls)
    ensures var insn, s := prog[v.at.pc], run[|run| - 1];
            var (r, w) := AccessOf(insn).value;
            var kind := v.at.regs[r].kind;
            InsideRegion(kind, Plus(s.regs[r], FromSigned(insn.offset)), w, ReachedOffset(kind, insn.offset),
                         EntryBases(run[0].regs), calls)
  {
    hide Certificate, PointerDiscipline, Failing, HoldAddresses, AllReturned, IsRun, InsideRegion, ReachedOffset, Plus;
    hide FromSigned, EntryBases, InBounds, Represents;
    RunIsNonempty(prog, relocs.Keys, run);
    var bases := EntryBases(run[0].regs);
    v, calls := RunHoldsAddresses(prog, relocs, visits, run, valued);
    var (r, w) := AccessOf(prog[v.at.pc]).value;
    AccessWasChecked(prog, relocs, v);
    RegAddress(v.at.regs, run[|run| - 1].regs, bases, calls, r);
    AccessHolds(v.at.regs[r].kind, run[|run| - 1].regs[r], prog[v.at.pc].offset, w, bases, calls);
  }

  // --- The size of a reservation ---

  predicate IsReservation(insn: BpfInsn) {
    insn.opcode.Call? && var h := GetHelper(insn.imm); h.Some? && h.value.ret.RetRingBufPtr?
  }

  /** The visits to a reservation know the size asked for, and agree on it. */
  predicate KnowsSize(u: Visit, w: Visit) {
    u.at.regs[2].kind.Scalar? && u.at.regs[2].tnum.IsKnown() && u.at.regs[2].tnum == w.at.regs[2].tnum
  }

  ghost predicate SizesKnown(prog: Program, visits: set<Visit>) {
    forall u, w :: u in visits && w in visits && u.at.pc == w.at.pc < |prog| && IsReservation(prog[u.at.pc]) ==>
      KnowsSize(u, w)
  }

  lemma KnownSize(u: Visit, w: Visit, values: Values)
    requires KnowsSize(u, w) && KnowsSize(w, w) && Represents(w.at.regs, values)
    ensures RegionSize(RetRingBufPtr, u.at.regs) == U(Low(values[2]))
  {
    hide U, Low, Member;
    KnownMembers(w.at.regs[2].tnum, values[2]);
  }

  /** If values are represented, the size that bounds the accesses to a reservation is the number its call was given in
      r2; a lookup's is the checker's constant. */
  lemma ReservedSizes(prog: Program, relocs: map<nat, Reloc>, visits: set<Visit>, run: seq<State>, region: Region)
    returns (i: nat)
    requires Certificate(prog, relocs, visits) && Safe(prog, relocs, visits) && SizesKnown(prog, visits)
    requires IsRun(prog, relocs.Keys, run) && Returned(prog, visits, run, region)
    ensures i < |run| - 1 && run[i].pc < |prog| && IsNullableCall(prog[run[i].pc])
    ensures run[i + 1].regs[0] == region.start
    ensures region.size == if IsReservation(prog[run[i].pc]) then U(Low(run[i].regs[2])) else 65536
  {
    hide Covered, Successors, VisitOk, Failing, SafeVisit, NoTypeClash, Steps, U, Low, RegionSize, KnowsSize;
    hide GetHelper, EntryConfig, Represents;
    var u :| exists k: nat :: u in visits && ReturnedAt(prog, run, region, k, u);
    i :| ReturnedAt(prog, run, region, i, u);
    if IsReservation(prog[run[i].pc]) {
      var init := run[..i + 1];
      assert IsRun(prog, relocs.Keys, init) by {
        forall k | 0 <= k < |init| - 1
          ensures Steps(prog, relocs.Keys, init[k], init[k + 1])
        {
          assert Steps(prog, relocs.Keys, run[k], run[k + 1]);
        }
      }
      var w := RunIsRepresented(prog, relocs, visits, init);
      KnownSize(u, w, run[i].regs);
    } else {
      LookupSize(GetHelper(prog[run[i].pc].imm).value.ret, u.at.regs);
    }
  }

  lemma LookupSize(ret: HelperReturn, regs: Regs)
    requires !ret.RetRingBufPtr?
    ensures RegionSize(ret, regs) == 65536
  {}

  lemma RunIsNonempty(prog: Program, relocated: set<nat>, run: seq<State>)
    requires IsRun(prog, relocated, run)
    ensures |run| > 0
  {}
}

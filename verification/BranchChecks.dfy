/** What a branch does to the whole state: a comparison of a number narrows its register to exactly the values that go
  this way, and a null check settles every copy of the pointer; nothing else changes. */
module BranchChecks {
  import opened Words
  import opened Tnums
  import opened Instructions
  import opened RegStates
  import opened AbstractStates
  import opened Transfer
  import opened Certificates
  import opened Machine
  import opened BranchSoundness
  import opened BranchExactness

  /** The second operand is known to be `y`. */
  predicate ComparesWith(regs: Regs, insn: BpfInsn, source: Source, is32: bool, y: bv64) {
    if source.FromImm? then y == ImmOperand(insn.imm, !is32) else regs[insn.src].tnum == Tnum.Constant(y)
  }

  /** The second operand is not known. */
  predicate ComparesUnknown(regs: Regs, insn: BpfInsn, source: Source) {
    source.FromReg? && !regs[insn.src].tnum.IsKnown()
  }

  /** Registers and frame on one side of a branch. */
  function SideRegs(b: Branches, taken: bool): Regs { if taken then b.taken else b.fall }

  function SideFrame(b: Branches, taken: bool): Frame { if taken then b.takenFrame else b.fallFrame }

  /** In 32 bits a state can express a comparison when it lies within 32 bits, and within 31 for signed ones. */
  predicate CanExpress(r: RegState, op: JmpOp, is32: bool, y: bv64, taken: bool) {
    if is32 then Is32Bit(r) && (IsSignedOp(op) ==> r.umax <= 0x7FFF_FFFF) && Expressible(op, Low(y), taken)
    else Expressible(op, y, taken)
  }

  /** One side of the comparison of a number with a known one. */
  lemma NumberSide(regs: Regs, frame: Frame, insn: BpfInsn, op: JmpOp, source: Source, is32: bool, y: bv64, taken: bool)
    requires regs[insn.dst].kind.Scalar? && ComparesWith(regs, insn, source, is32, y)
    ensures var b, r := RefineBranch(regs, frame, insn, op, source, is32), regs[insn.dst];
            && SideRegs(b, taken)
                == regs[insn.dst := Side(if is32 then Refine32(r, op, y) else Refine64(r, op, y), taken)]
            && SideFrame(b, taken) == frame
  {
    hide U, Refine64, Refine32, ImmOperand, ResolveRegs, ResolveSpills;
  }

  /** If some value of the register goes this way, it stands there for exactly its values that do, and everything else
      is as before. */
  lemma ComparisonExact(regs: Regs, frame: Frame, insn: BpfInsn, op: JmpOp, source: Source, is32: bool, y: bv64,
                        taken: bool, v: bv64, w: bv64)
    requires regs[insn.dst].kind.Scalar? && ComparesWith(regs, insn, source, is32, y)
    requires CanExpress(regs[insn.dst], op, is32, y, taken)
    requires regs[insn.dst].Contains(w) && Holds(op, is32, w, y) == taken
    ensures var b := RefineBranch(regs, frame, insn, op, source, is32);
            && (SideRegs(b, taken)[insn.dst].Contains(v) <==>
                  regs[insn.dst].Contains(v) && Holds(op, is32, v, y) == taken)
            && (forall r: RegId :: r != insn.dst ==> SideRegs(b, taken)[r] == regs[r])
            && SideFrame(b, taken) == frame
  {
    hide RegState.Contains, RefineBranch, Refine64, Refine32, Holds64, Holds32, Expressible, IsSignedOp;
    NumberSide(regs, frame, insn, op, source, is32, y, taken);
    if is32 {
      Refine32Exact(regs[insn.dst], op, y, taken, v, w);
    } else {
      Refine64Exact(regs[insn.dst], op, y, taken, v, w);
    }
  }

  /** A comparison with a number that is not known teaches nothing, nor does one of anything but a number or an
      unchecked pointer. */
  lemma NothingLearned(regs: Regs, frame: Frame, insn: BpfInsn, op: JmpOp, source: Source, is32: bool)
    requires ComparesUnknown(regs, insn, source) || !(regs[insn.dst].kind.Scalar? || regs[insn.dst].kind.PtrOrNull?)
    ensures RefineBranch(regs, frame, insn, op, source, is32) == Branches(regs, frame, regs, frame)
  {
    hide U, Refine64, Refine32, ImmOperand, ResolveRegs, ResolveSpills;
  }

  // --- Null checks ---

  predicate CarriesId(r: RegState, id: nat) { r.kind.PtrOrNull? && r.kind.id == id }

  /** What a register or spill is on the side where the pointer is null, or is not. */
  predicate Settled(before: RegState, after: RegState, id: nat, learned: RegType) {
    if !CarriesId(before, id) then after == before
    else if learned.Null? then after == NullReg()
    else after.kind == learned
  }

  /** The side on which the pointer is null. */
  predicate NullSide(op: JmpOp, taken: bool) { (op == JEQ) == taken }

  lemma NullCheckSide(regs: Regs, frame: Frame, insn: BpfInsn, op: JmpOp, source: Source, is32: bool, taken: bool)
    requires regs[insn.dst].kind.PtrOrNull? && op in {JEQ, JNE} && ComparesWith(regs, insn, source, is32, 0)
    ensures var b, kind := RefineBranch(regs, frame, insn, op, source, is32), regs[insn.dst].kind;
            var learned := if NullSide(op, taken) then Null else kind.inner;
            && SideRegs(b, taken) == ResolveRegs(regs, kind.id, learned)
            && SideFrame(b, taken) == ResolveSpills(frame, kind.id, learned)
  {
    hide U, ImmOperand, ResolveRegs, ResolveSpills;
    UZero(0);
  }

  lemma ResolvedIsSettled(r: RegState, id: nat, learned: RegType)
    ensures Settled(r, Resolve(r, id, learned), id, learned)
    ensures !CarriesId(AnyValue(learned), id) ==> !CarriesId(Resolve(r, id, learned), id)
  {}

  /** Comparing an unchecked pointer with zero settles, on both sides, every register and every spilled copy that
      carries its identifier, and nothing else. */
  lemma NullCheckSettles(regs: Regs, frame: Frame, insn: BpfInsn, op: JmpOp, source: Source, is32: bool, taken: bool,
                         id: nat)
    requires regs[insn.dst].kind.PtrOrNull? && KindOk(regs[insn.dst].kind, id) && op in {JEQ, JNE}
    requires ComparesWith(regs, insn, source, is32, 0)
    ensures var b, kind := RefineBranch(regs, frame, insn, op, source, is32), regs[insn.dst].kind;
            var learned := if NullSide(op, taken) then Null else kind.inner;
            && (forall r: RegId ::
                  && Settled(regs[r], SideRegs(b, taken)[r], kind.id, learned)
                  && !CarriesId(SideRegs(b, taken)[r], kind.id))
            && SideFrame(b, taken).init == frame.init && SideFrame(b, taken).spills.Keys == frame.spills.Keys
            && forall o :: o in frame.spills ==>
                 && Settled(frame.spills[o], SideFrame(b, taken).spills[o], kind.id, learned)
                 && !CarriesId(SideFrame(b, taken).spills[o], kind.id)
  {
    hide RefineBranch, Resolve, Settled, CarriesId;
    NullCheckSide(regs, frame, insn, op, source, is32, taken);
    var kind := regs[insn.dst].kind;
    var learned := if NullSide(op, taken) then Null else kind.inner;
    LearnedIsSettled(kind, learned);
    forall r: RegId
      ensures Settled(regs[r], Resolve(regs[r], kind.id, learned), kind.id, learned)
      ensures !CarriesId(Resolve(regs[r], kind.id, learned), kind.id)
    {
      ResolvedIsSettled(regs[r], kind.id, learned);
    }
    forall o | o in frame.spills
      ensures Settled(frame.spills[o], Resolve(frame.spills[o], kind.id, learned), kind.id, learned)
      ensures !CarriesId(Resolve(frame.spills[o], kind.id, learned), kind.id)
    {
      ResolvedIsSettled(frame.spills[o], kind.id, learned);
    }
  }

  lemma LearnedIsSettled(kind: RegType, learned: RegType)
    requires kind.PtrOrNull? && (IsRegionPtr(kind.inner) || learned.Null?)
    requires learned.Null? || learned == kind.inner
    ensures !CarriesId(AnyValue(learned), kind.id)
  {}
}

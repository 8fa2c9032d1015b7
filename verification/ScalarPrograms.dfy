/** A class of programs for which acceptance alone makes every concrete value covered.

  These programs compute with scalars: they never touch the context pointer or the frame pointer, and use only
  arithmetic whose transfer is exact whatever the operands are.
*/
module ScalarPrograms {
  import opened Wrappers
  import opened Words
  import opened Tnums
  import opened TnumProofs
  import opened TnumSubtraction
  import WideningProofs
  import opened Instructions
  import opened HelperTable
  import opened RegStates
  import opened AbstractStates
  import opened ControlFlow
  import opened Transfer
  import opened Certificates
  import opened Exploration
  import opened Machine
  import opened AluSoundness
  import opened BranchSoundness
  import opened ValueSoundness

  // --- The programs ---

  predicate IsExact(insn: BpfInsn) {
    match insn.opcode
    case Alu64(op, source) =>
      insn.offset == 0 &&
      (|| op == MOV || op == NEG
       || (op == AND && source.FromImm? && insn.imm >= 0)
       || (op == RSH && source.FromImm? && insn.imm >= 1))
    case Alu32(op, source) =>
      insn.offset == 0 &&
      (|| op in {ADD, AND, OR, XOR, MUL, LSH, NEG}
       || (op in {SUB, MOV} && source.FromImm?))
    case Jmp64(_, _) => true
    case Jmp32(op, _) => !IsSignedOp(op) && op != JA
    case JmpJa => true
    case LdImm64 => true
    case Exit => true
    case Call => GetHelper(insn.imm) == Some(HelperSpec(RetScalar, []))
    case _ => false
  }

  predicate NamesOnlyScalars(insn: BpfInsn) {
    insn.dst != 1 && insn.dst != 10 && insn.src != 1 && insn.src != 10
  }

  predicate IsScalarProgram(prog: Program, relocs: map<nat, Reloc>) {
    forall pc: nat :: pc < |prog| ==> IsExact(prog[pc]) && NamesOnlyScalars(prog[pc]) && pc !in relocs
  }

  // --- Their states ---

  /** All registers but the two pointers are scalars or unset, and the two pointers never become scalars. */
  predicate OnlyScalars(c: Config) {
    && (forall r: RegId :: r != 1 && r != 10 ==> c.regs[r].kind.Scalar? || c.regs[r].kind.Uninit?)
    && !c.regs[1].kind.Scalar? && !c.regs[10].kind.Scalar?
  }

  lemma EntryOnlyScalars()
    ensures OnlyScalars(EntryConfig())
  {}

  lemma WidenOnlyScalars(prev: Config, c: Config, w: Config)
    requires OnlyScalars(prev) && OnlyScalars(c) && WidensTo(prev, c, w)
    ensures OnlyScalars(w)
  {
    hide RegState.Hull, WidenFrame;
    forall a: RegState, b: RegState
      ensures var x := a.Widen(b); x.kind == a.kind || x.kind.Uninit?
    {
      WideningProofs.WideningKeepsKind(a, b);
    }
  }

  lemma AluOnlyScalars(c: Config, insn: BpfInsn, op: AluOp, source: Source, is64: bool)
    requires OnlyScalars(c) && NamesOnlyScalars(insn) && AluResult(c.regs, insn, op, source, is64).Success?
    requires op == MOV && source.FromReg? ==> CanRead(c.regs, insn.src)
    ensures AluResult(c.regs, insn, op, source, is64).value.kind.Scalar?
  {
    hide ScalarResult, ImmOperand, DivisorMayBeZero, ShiftTooFar, U, S, PointerResult, MovePointer;
    var src := Operand(c.regs, insn, source, is64);
    assert !c.regs[insn.dst].kind.IsPtr() && !src.kind.IsPtr();
    if op != MOV && op != NEG {
      ResultKind(op, c.regs[insn.dst].tnum, src.tnum, is64);
    }
  }

  lemma BranchOnlyScalars(c: Config, insn: BpfInsn, op: JmpOp, source: Source, is32: bool, pc: nat)
    requires OnlyScalars(c) && NamesOnlyScalars(insn) && CanRead(c.regs, insn.dst)
    ensures var b := RefineBranch(c.regs, c.frame, insn, op, source, is32);
            OnlyScalars(Config(pc, b.taken, b.takenFrame)) && OnlyScalars(Config(pc, b.fall, b.fallFrame))
  {
    hide CompareValue, U, Refine64, Refine32;
    forall val
      ensures Refine64(c.regs[insn.dst], op, val).0.kind == c.regs[insn.dst].kind
                == Refine64(c.regs[insn.dst], op, val).1.kind
           || !c.regs[insn.dst].kind.Scalar?
      ensures Refine32(c.regs[insn.dst], op, val).0.kind == c.regs[insn.dst].kind
                == Refine32(c.regs[insn.dst], op, val).1.kind
           || !c.regs[insn.dst].kind.Scalar?
    {
      RefinedSideKinds(c.regs[insn.dst], op, val);
    }
  }

  /** A successor of a state with only scalars has only scalars. */
  lemma StepOnlyScalars(prog: Program, relocs: map<nat, Reloc>, v: Visit, s: Config)
    requires IsScalarProgram(prog, relocs) && OnlyScalars(v.at) && s in Successors(prog, relocs, v)
    ensures OnlyScalars(s)
  {
    hide AluResult, RefineBranch, ReturnValue, FrameAfterCall, ArgError, CheckExit, ScalarValue, WideImm, Target;
    var c, insn := v.at, prog[v.at.pc];
    match insn.opcode {
      case Alu64(op, source) => AluOnlyScalars(c, insn, op, source, true);
      case Alu32(op, source) => AluOnlyScalars(c, insn, op, source, false);
      case Jmp64(op, source) => BranchOnlyScalars(c, insn, op, source, false, 0);
      case Jmp32(op, source) => BranchOnlyScalars(c, insn, op, source, true, 0);
      case LdImm64 => KindOfValue(WideImm(insn));
      case Call => ReturnsScalar(c.regs, c.pc, v.id);
      case _ =>
    }
  }

  lemma ReturnsScalar(regs: Regs, pc: nat, id: nat)
    ensures ReturnValue(RetScalar, regs, pc, id).kind.Scalar?
  {}

  // --- Their visits are safe ---

  lemma WiderMask(s: bv64, t: bv64, mu: bv64, high: bv64)
    requires SameOutside(s, t, mu)
    ensures SameOutside(s, t, Or(mu, high))
  {}

  lemma KnownSubtrahend(d: Tnum, v: bv64)
    requires d.WellFormed()
    ensures LowExtremesCovered(d, Tnum.Constant(v))
  {
    hide Tnum.Has, Disjoint, Minus, SameOutside, LargestDifference, SmallestDifference, Tnum.Sub, Or;
    var s := Tnum.Constant(v);
    forall x, y | d.Has(x) && s.Has(y)
      ensures d.Sub(s).Has(Minus(x, y))
    {
      SubKnownSound(d, s, x, y);
    }
    ConstantWf(v);
    SubExact(d, s);
    WiderMask(LargestDifference(d, s), SmallestDifference(d, s), d.Sub(s).mask, 0xFFFF_FFFF_0000_0000);
  }

  lemma ConstantWf(v: bv64)
    ensures Tnum.Constant(v).WellFormed()
  {}

  lemma MaskedSign(av: bv64, am: bv64, bv: bv64)
    requires SignClear(bv)
    ensures SignClear(AndMask(av, am, bv, 0))
  {}

  /** Masking with a non-negative immediate clears the sign. */
  lemma AndSign(d: Tnum, imm: I32)
    requires imm >= 0
    ensures SignKnown(d.And(Tnum.Constant(SignExtended(imm))))
  {
    hide SignClear, U, AndMask, And, SignExtended;
    ImmediateValue(imm, true);
    SignClearMeans(SignExtended(imm));
    MaskedSign(d.value, d.mask, SignExtended(imm));
  }

  lemma ShiftedSign(x: bv64)
    ensures SignClear(x >> 1)
  {}

  lemma {:induction false} ShrSign(x: bv64, k: nat)
    requires SignClear(x) || k > 0
    ensures SignClear(Shr(x, k))
    decreases k
  {
    hide SignClear;
    if k > 0 {
      ShiftedSign(x);
      ShrSign(x >> 1, k - 1);
    }
  }

  lemma RshSign(d: Tnum, imm: I32)
    requires 1 <= imm <= 63
    ensures SignKnown(ScalarTnum(RSH, d, Tnum.Constant(SignExtended(imm))))
  {
    hide SignClear, U, Shr, Low, SignExtended, Tnum.Unknown;
    ImmediateValue(imm, true);
    SmallIsLow(SignExtended(imm));
    ShrSign(d.mask, imm);
  }

  lemma AluSafe(prog: Program, relocs: map<nat, Reloc>, v: Visit, op: AluOp, source: Source, is64: bool)
    requires IsScalarProgram(prog, relocs) && OnlyScalars(v.at) && VisitOk(prog, v) && !Failing(prog, relocs, v)
    requires prog[v.at.pc].opcode == if is64 then Alu64(op, source) else Alu32(op, source)
    ensures SafeAlu(v.at.regs, prog[v.at.pc], op, source, is64)
  {
    hide Disjoint, SignKnown, ExtremesCovered, LowExtremesCovered, Tnum.And, Tnum.Rsh, ScalarResult, SignExtended;
    hide ZeroExtended;
    hide MoveSafe, U, S, Truncated, Shr, Low;
    var insn, regs := prog[v.at.pc], v.at.regs;
    var imm := Operand(regs, insn, source, is64);
    assert regs[insn.dst].tnum.WellFormed();
    if op != MOV {
      assert regs[insn.dst].kind.Scalar?;
      if source.FromImm? {
        assert imm.tnum == Tnum.Constant(ImmOperand(insn.imm, is64)) && imm.kind.Scalar?;
        if op == SUB {
          KnownSubtrahend(regs[insn.dst].tnum, ImmOperand(insn.imm, is64));
        } else if op == AND && is64 {
          AndSign(regs[insn.dst].tnum, insn.imm);
        } else if op == RSH {
          RshSign(regs[insn.dst].tnum, insn.imm);
        }
      }
    }
  }

  lemma VisitSafe(prog: Program, relocs: map<nat, Reloc>, v: Visit)
    requires IsScalarProgram(prog, relocs) && OnlyScalars(v.at) && VisitOk(prog, v) && !Failing(prog, relocs, v)
    ensures SafeVisit(prog, v)
  {
    hide SafeAlu, AluResult, ConfigOk, RefineBranch, ReturnValue, FrameAfterCall, GetHelper, ArgError, Target;
    hide SignedAgrees;
    hide Tnum.IsKnown;
    match prog[v.at.pc].opcode {
      case Alu64(op, source) => AluSafe(prog, relocs, v, op, source, true);
      case Alu32(op, source) => AluSafe(prog, relocs, v, op, source, false);
      case _ =>
    }
  }

  lemma ScalarsMeet(prev: Config, c: Config)
    requires OnlyScalars(prev) && OnlyScalars(c)
    ensures KindsMeet(prev.regs, c.regs)
  {}

  // --- The theorem ---

  lemma ScalarTraceIsSafe(prog: Program, relocs: map<nat, Reloc>, trace: seq<Visit>)
    requires Certificate(prog, relocs, Visited(trace)) && Grounded(prog, relocs, trace) && IsScalarProgram(prog, relocs)
    ensures Safe(prog, relocs, Visited(trace))
  {
    hide OnlyScalars, Successors, WidensTo, Grounded, IsScalarProgram, VisitOk, Failing, SafeVisit, KindsMeet, Covered;
    hide EntryConfig;
    EntryOnlyScalars();
    forall v, s | v in trace && OnlyScalars(v.at) && s in Successors(prog, relocs, v)
      ensures OnlyScalars(s)
    {
      StepOnlyScalars(prog, relocs, v, s);
    }
    forall prev, c, w | OnlyScalars(prev) && OnlyScalars(c) && WidensTo(prev, c, w)
      ensures OnlyScalars(w)
    {
      WidenOnlyScalars(prev, c, w);
    }
    GroundedInvariant(prog, relocs, trace, OnlyScalars, |trace|);
    assert forall v :: v in Visited(trace) ==> OnlyScalars(v.at);
    forall v | v in Visited(trace)
      ensures v.at.pc < |prog| && SafeVisit(prog, v)
    {
      PcInside(prog, v);
      VisitSafe(prog, relocs, v);
    }
    forall prev, c | prev in Visited(trace) && Arrives(prog, relocs, Visited(trace), c)
      ensures KindsMeet(prev.at.regs, c.regs)
    {
      ScalarsMeet(prev.at, c);
    }
  }

  /** If the checker accepts a scalar program, then at every instruction of every concrete run of any length, the
      register values lie in a state the checker processed at that instruction. */
  lemma AcceptedScalarProgram(prog: Program, relocs: map<nat, Reloc>, trace: seq<Visit>, run: seq<State>)
    returns (v: Visit)
    requires Certificate(prog, relocs, Visited(trace)) && Grounded(prog, relocs, trace) && IsScalarProgram(prog, relocs)
    requires IsRun(prog, relocs.Keys, run) && run[|run| - 1].pc < |prog|
    ensures v in trace && v.at.pc == run[|run| - 1].pc && Represents(v.at.regs, run[|run| - 1].regs)
  {
    hide Certificate, Safe, Grounded, IsScalarProgram, IsRun, Represents;
    ScalarTraceIsSafe(prog, relocs, trace);
    RunNonempty(prog, relocs.Keys, run);
    v := RunIsRepresented(prog, relocs, Visited(trace), run);
  }

  lemma RunNonempty(prog: Program, relocated: set<nat>, run: seq<State>)
    requires IsRun(prog, relocated, run)
    ensures |run| > 0
  {}
}

/** Accepted programs read only registers that were assigned on the way.

  A path may go round loops any number of times and take either side of every branch. The registers it has
  assigned are computed from the instructions alone; the verifier's states play no part in the statement.
*/
module DefiniteAssignment {
  import opened Wrappers
  import opened Words
  import opened Tnums
  import opened Instructions
  import opened HelperTable
  import opened RegStates
  import opened AbstractStates
  import opened ControlFlow
  import opened Transfer
  import opened Certificates
  import opened BranchSoundness
  import opened Machine

  // --- What instructions read and assign ---

  const ARG_REGS: set<RegId> := {1, 2, 3, 4, 5}

  /** The registers a call of this helper reads: one for each of its arguments. */
  function HelperReads(id: int): set<RegId> {
    var helper := GetHelper(id);
    if helper.None? then {} else set r | r in ARG_REGS && r <= |helper.value.args|
  }

  /** The registers an instruction reads. */
  function Reads(insn: BpfInsn): set<RegId> {
    match insn.opcode
    case Alu64(op, source) => (if op == MOV then {} else {insn.dst}) + if source.FromReg? then {insn.src} else {}
    case Alu32(op, source) => (if op == MOV then {} else {insn.dst}) + if source.FromReg? then {insn.src} else {}
    case Jmp64(_, source) => {insn.dst} + if source.FromReg? then {insn.src} else {}
    case Jmp32(_, source) => {insn.dst} + if source.FromReg? then {insn.src} else {}
    case Ldx(_) => {insn.src}
    case Stx(_) => {insn.dst, insn.src}
    case St(_) => {insn.dst}
    case Call => HelperReads(insn.imm)
    case Exit => {0}
    case JmpJa => {}
    case LdImm64 => {}
    case Unknown(_) => {}
  }

  /** The registers that hold a value after an instruction, given those that did before. */
  function AssignedAfter(insn: BpfInsn, before: set<RegId>): set<RegId> {
    match insn.opcode
    case Alu64(_, _) => before + {insn.dst}
    case Alu32(_, _) => before + {insn.dst}
    case LdImm64 => before + {insn.dst}
    case Ldx(_) => before + {insn.dst}
    case Call => before - {1, 2, 3, 4, 5} + {0}
    case _ => before
  }

  /** The registers that hold a value on arriving at the end of a path that starts at the program's entry. */
  function Assigned(prog: Program, path: seq<nat>): set<RegId>
    requires IsPath(prog, path)
  {
    if |path| == 1 then {1, 10}
    else
      var init := path[..|path| - 1];
      PrefixIsPath(prog, path);
      assert Edge(prog, path[|init| - 1], path[|init| - 1 + 1]);
      AssignedAfter(prog[init[|init| - 1]], Assigned(prog, init))
  }

  // --- One visit ---

  /** Every register readable in the state has been assigned. */
  predicate ReadableWithin(regs: Regs, held: set<RegId>) {
    forall r: RegId :: regs[r].IsReadable() ==> r in held
  }

  /** The instruction is one the program can legitimately reach. */
  ghost predicate Executable(prog: Program, pc: nat)
    requires pc < |prog|
  {
    var insn := prog[pc];
    && !insn.opcode.Unknown?
    && (IsJump(insn) ==> Target(prog, pc, insn.offset).Some?)
    && (insn.opcode.Call? ==> GetHelper(insn.imm).Some?)
  }

  lemma ArgsRead(args: seq<ArgType>, regs: Regs, i: nat, r: nat)
    requires i <= |args| <= 5 && ArgError(args, regs, i).None?
    requires 1 + i <= r <= |args|
    ensures regs[r].IsReadable()
    decreases |args| - i
  {
    if r > 1 + i {
      ArgsRead(args, regs, i + 1, r);
    }
  }

  /** A visit without error reads only what its state says is readable. */
  lemma VisitReads(prog: Program, relocs: map<nat, Reloc>, v: Visit, held: set<RegId>)
    requires v.at.pc < |prog| && !Failing(prog, relocs, v)
    requires ReadableWithin(v.at.regs, held) && 10 in held
    ensures Reads(prog[v.at.pc]) <= held && Executable(prog, v.at.pc)
  {
    hide AluResult, LoadResult, StoreResult, RefineBranch, WideLoad, AfterCall, ReturnValue, FrameAfterCall;
    hide GetHelper, Target, ArgError;
    var insn := prog[v.at.pc];
    if insn.opcode.Call? {
      var args := GetHelper(insn.imm).value.args;
      forall r | r in ARG_REGS && r <= |args|
        ensures r in held
      {
        ArgsRead(args, v.at.regs, 0, r);
      }
    }
  }

  lemma BranchKeepsReadable(regs: Regs, frame: Frame, insn: BpfInsn, op: JmpOp, source: Source, is32: bool,
                            held: set<RegId>)
    requires ReadableWithin(regs, held)
    ensures var b := RefineBranch(regs, frame, insn, op, source, is32);
            ReadableWithin(b.taken, held) && ReadableWithin(b.fall, held)
  {
    hide CompareValue, U, Refine64, Refine32, ResolveSpills;
  }

  /** The states a visit passes control to claim no more than its instruction assigns. */
  lemma VisitAssigns(prog: Program, relocs: map<nat, Reloc>, v: Visit, s: Config, held: set<RegId>)
    requires v.at.pc < |prog| && s in Successors(prog, relocs, v)
    requires ReadableWithin(v.at.regs, held)
    ensures ReadableWithin(s.regs, AssignedAfter(prog[v.at.pc], held))
  {
    hide AluResult, LoadResult, StoreResult, RefineBranch, WideLoad, ReturnValue, FrameAfterCall, GetHelper, Target;
    hide ArgError, CanRead, CheckExit;
    var c, insn := v.at, prog[v.at.pc];
    match insn.opcode {
      case Jmp64(op, source) => BranchKeepsReadable(c.regs, c.frame, insn, op, source, false, held);
      case Jmp32(op, source) => BranchKeepsReadable(c.regs, c.frame, insn, op, source, true, held);
      case _ =>
    }
  }

  /** The registers that the state says hold a value. */
  function Readable(regs: Regs): (rs: set<RegId>)
    ensures forall r: RegId :: r in rs <==> regs[r].IsReadable()
  {
    set r: RegId | 0 <= r < 11 && regs[r].IsReadable()
  }

  lemma AluReadable(regs: Regs, insn: BpfInsn, op: AluOp, source: Source, is64: bool)
    requires AluResult(regs, insn, op, source, is64).Success? && (source.FromReg? ==> regs[insn.src].IsReadable())
    ensures AluResult(regs, insn, op, source, is64).value.IsReadable()
  {
    hide ScalarTnum, U, S, WrapI64, ImmOperand, DivisorMayBeZero, ShiftTooFar, Low;
    hide RegState.FromTnum, RegState.CollapseTnum, RegState.SignedFromUnsigned, RegState.UnsignedFromSigned;
    hide RegState.Collapse, Tnum.Trunc32, Or;
    if op != MOV && op != NEG {
      ResultKind(op, regs[insn.dst].tnum, Operand(regs, insn, source, is64).tnum, is64);
    }
  }

  lemma LoadReadable(regs: Regs, frame: Frame, insn: BpfInsn, w: MemWidth)
    requires LoadResult(regs, frame, insn, w).Success?
    requires forall o :: o in frame.spills ==> frame.spills[o].IsReadable()
    ensures LoadResult(regs, frame, insn, w).value.IsReadable()
  {
    hide CheckBounds, CheckReadable, InRegion, WrapI64;
  }

  lemma BranchReadable(regs: Regs, frame: Frame, insn: BpfInsn, op: JmpOp, source: Source, is32: bool, id: nat)
    requires KindOk(regs[insn.dst].kind, id)
    ensures var b := RefineBranch(regs, frame, insn, op, source, is32);
            forall r: RegId ::
              && (b.taken[r].IsReadable() <==> regs[r].IsReadable())
              && (b.fall[r].IsReadable() <==> regs[r].IsReadable())
  {
    hide CompareValue, U, Refine64, Refine32, ResolveSpills;
    var val := CompareValue(regs, insn, source, is32);
    if val.Some? && regs[insn.dst].kind.Scalar? {
      RefinedSideKinds(regs[insn.dst], op, val.value);
    }
  }

  lemma CallReadable(regs: Regs, ret: HelperReturn, pc: nat, id: nat)
    ensures ReturnValue(ret, regs, pc, id).IsReadable()
  {
    hide U, Low;
  }

  lemma SpillsReadable(prog: Program, v: Visit)
    requires VisitOk(prog, v)
    ensures forall o :: o in v.at.frame.spills ==> v.at.frame.spills[o].IsReadable()
    ensures forall r: RegId :: KindOk(v.at.regs[r].kind, v.id)
  {
    hide Tnum.WellFormed, KindOk;
  }

  lemma WideReadable(insn: BpfInsn, reloc: Option<Reloc>)
    ensures WideLoad(insn, reloc).IsReadable()
  {
    hide WideImm, U, S;
  }

  /** The states a visit passes control to hold a value exactly in the registers its instruction assigns, and in those
      that held one and are not clobbered. */
  lemma AssignsExactly(prog: Program, relocs: map<nat, Reloc>, v: Visit, s: Config, r: RegId)
    requires VisitOk(prog, v) && s in Successors(prog, relocs, v) && v.at.regs[10].IsReadable()
    ensures s.regs[r].IsReadable() <==> r in AssignedAfter(prog[v.at.pc], Readable(v.at.regs))
  {
    hide AluResult, LoadResult, StoreResult, RefineBranch, WideLoad, ReturnValue, FrameAfterCall, GetHelper, Target;
    hide ArgError, CheckExit, KindOk, ConfigOk;
    var c, insn := v.at, prog[v.at.pc];
    SpillsReadable(prog, v);
    match insn.opcode {
      case Alu64(op, source) => AluReadable(c.regs, insn, op, source, true);
      case Alu32(op, source) => AluReadable(c.regs, insn, op, source, false);
      case Jmp64(op, source) => BranchReadable(c.regs, c.frame, insn, op, source, false, v.id);
      case Jmp32(op, source) => BranchReadable(c.regs, c.frame, insn, op, source, true, v.id);
      case Ldx(w) => LoadReadable(c.regs, c.frame, insn, w);
      case LdImm64 => WideReadable(insn, if c.pc in relocs then Some(relocs[c.pc]) else None);
      case Call => CallReadable(c.regs, GetHelper(insn.imm).value.ret, c.pc, v.id);
      case _ =>
    }
  }

  lemma {:induction false} ArgsReadable(args: seq<ArgType>, regs: Regs, i: nat)
    requires i <= |args| <= 5 && forall r: RegId :: 1 <= r <= |args| ==> regs[r].IsReadable()
    ensures ArgError(args, regs, i) != Some(UninitRegRead) && ArgError(args, regs, i) != Some(UninitReturn)
    decreases |args| - i
  {
    hide ArgAccepted;
    if i < |args| {
      ArgsReadable(args, regs, i + 1);
    }
  }

  lemma AluErrorKinds(regs: Regs, insn: BpfInsn, op: AluOp, source: Source, is64: bool)
    ensures AluResult(regs, insn, op, source, is64).Failure? ==>
              AluResult(regs, insn, op, source, is64).error !in {UninitRegRead, UninitReturn}
  {
    hide ScalarResult, U, S, WrapI64, MovePointer, Operand, DivisorMayBeZero, ShiftTooFar, Truncated;
  }

  lemma MemoryErrorKinds(regs: Regs, frame: Frame, insn: BpfInsn, w: MemWidth, isSt: bool)
    ensures regs[insn.src].IsReadable() && LoadResult(regs, frame, insn, w).Failure? ==>
              LoadResult(regs, frame, insn, w).error !in {UninitRegRead, UninitReturn}
    ensures regs[insn.dst].IsReadable() && StoreResult(regs, frame, insn, w, isSt).Failure? ==>
              StoreResult(regs, frame, insn, w, isSt).error !in {UninitRegRead, UninitReturn}
  {
    hide CheckBounds, CheckReadable, InRegion, WrapI64, AbstractStates.Spill, AbstractStates.MarkWritten;
    hide AbstractStates.ClearSpill;
  }

  /** No visit is rejected for reading an unset register, or returning one, whose instruction reads only registers that
      hold a value. */
  lemma HeldReadsPass(prog: Program, relocs: map<nat, Reloc>, v: Visit)
    requires v.at.pc < |prog| && Reads(prog[v.at.pc]) <= Readable(v.at.regs)
    ensures Step(prog, relocs, v.at, v.id) != Fails(UninitRegRead)
    ensures Step(prog, relocs, v.at, v.id) != Fails(UninitReturn)
  {
    hide AluResult, LoadResult, StoreResult, RefineBranch, WideLoad, ReturnValue, FrameAfterCall, GetHelper, Target;
    hide ArgError, AfterCall;
    var c, insn := v.at, prog[v.at.pc];
    match insn.opcode {
      case Alu64(op, source) => AluErrorKinds(c.regs, insn, op, source, true);
      case Alu32(op, source) => AluErrorKinds(c.regs, insn, op, source, false);
      case Ldx(w) => MemoryErrorKinds(c.regs, c.frame, insn, w, false);
      case Stx(w) => MemoryErrorKinds(c.regs, c.frame, insn, w, false);
      case St(w) => MemoryErrorKinds(c.regs, c.frame, insn, w, true);
      case Call =>
        if GetHelper(insn.imm).Some? {
          var args := GetHelper(insn.imm).value.args;
          assert forall r: RegId :: 1 <= r <= |args| ==> r in HelperReads(insn.imm);
          ArgsReadable(args, c.regs, 0);
        }
      case _ =>
    }
  }

  // --- Edges lead to successors ---

  /** Control-flow edges out of a visit without error lead to states the checker goes on with. */
  lemma EdgeHasSuccessor(prog: Program, relocs: map<nat, Reloc>, v: Visit, q: nat) returns (s: Config)
    requires v.at.pc < |prog| && !Failing(prog, relocs, v) && Edge(prog, v.at.pc, q)
    ensures s in Successors(prog, relocs, v) && s.pc == q
  {
    hide AluResult, LoadResult, StoreResult, RefineBranch, WideLoad, ReturnValue, FrameAfterCall, GetHelper;
    hide ArgError, CanRead, CheckExit, AfterCall;
    var p, insn := v.at.pc, prog[v.at.pc];
    if IsJump(insn) && IsTarget(prog, p, insn.offset, q) {
      TargetUnique(prog, p, insn.offset, q, Target(prog, p, insn.offset).value);
    }
    var outcome := Step(prog, relocs, v.at, v.id);
    if outcome.Continues? {
      s := outcome.next;
    } else {
      s := if outcome.taken.pc == q then outcome.taken else outcome.fall;
    }
  }

  lemma CoverKeepsReadable(prog: Program, visits: set<Visit>, c: Config, held: set<RegId>) returns (v: Visit)
    requires Covered(prog, visits, c) && c.pc < |prog| && ReadableWithin(c.regs, held)
    ensures v in visits && v.at.pc == c.pc && ReadableWithin(v.at.regs, held)
  {
    hide FrameWithin, WidenFrame, RegState.BoundsWithin, RegState.Refined, RegState.Hull, IsLoopHead;
    if SubsumedIn(visits, c) {
      v :| v in visits && Subsumes(v.at, c);
      assert forall i :: 0 <= i < 11 ==> c.regs[i].IsSubstateOf(v.at.regs[i]);
    } else {
      var prev;
      prev, v :| prev in visits && v in visits && WidensTo(prev.at, c, v.at);
      assert forall i :: 0 <= i < 11 ==> v.at.regs[i] == prev.at.regs[i].Widen(c.regs[i]);
    }
  }

  // --- Whole paths ---

  /** At the end of every path stands a visited state that claims no more than the path assigned. */
  lemma {:induction false} PathIsVisited(prog: Program, relocs: map<nat, Reloc>, visits: set<Visit>, path: seq<nat>)
    returns (v: Visit)
    requires Certificate(prog, relocs, visits)
    requires IsPath(prog, path) && path[0] == 0 && path[|path| - 1] < |prog|
    ensures v in visits && v.at.pc == path[|path| - 1] && ReadableWithin(v.at.regs, Assigned(prog, path))
    ensures 10 in Assigned(prog, path)
    decreases |path|
  {
    hide Covered, Successors, ReadableWithin, VisitOk, Failing;
    if |path| == 1 {
      EntryReadable();
      v := CoverKeepsReadable(prog, visits, EntryConfig(), {1, 10});
    } else {
      var init := path[..|path| - 1];
      var p, q := init[|init| - 1], path[|path| - 1];
      PrefixIsPath(prog, path);
      assert Edge(prog, path[|init| - 1], path[|init| - 1 + 1]);
      var u := PathIsVisited(prog, relocs, visits, init);
      var s := EdgeHasSuccessor(prog, relocs, u, q);
      VisitAssigns(prog, relocs, u, s, Assigned(prog, init));
      v := CoverKeepsReadable(prog, visits, s, Assigned(prog, path));
    }
  }

  lemma EntryReadable()
    ensures ReadableWithin(EntryConfig().regs, {1, 10}) && EntryConfig().pc == 0
  {}

  /** Along every path of an accepted program, each instruction is known, its jump target exists, its helper is
      registered, and every register it reads was assigned earlier and not clobbered by a call since. */
  lemma ReadsAreAssigned(prog: Program, relocs: map<nat, Reloc>, visits: set<Visit>, path: seq<nat>)
    requires Certificate(prog, relocs, visits)
    requires IsPath(prog, path) && path[0] == 0 && path[|path| - 1] < |prog|
    ensures var pc := path[|path| - 1]; Reads(prog[pc]) <= Assigned(prog, path) && Executable(prog, pc)
  {
    hide Complete, Failing, ReadableWithin, Executable;
    var v := PathIsVisited(prog, relocs, visits, path);
    VisitReads(prog, relocs, v, Assigned(prog, path));
  }

  /** In particular along every run, whatever the values and however long. */
  lemma RunReadsAreAssigned(prog: Program, relocs: map<nat, Reloc>, visits: set<Visit>, run: seq<State>)
    requires Certificate(prog, relocs, visits) && JumpsAlongEdges(prog)
    requires IsRun(prog, relocs.Keys, run) && run[|run| - 1].pc < |prog|
    ensures IsPath(prog, Positions(run)) && Reads(prog[run[|run| - 1].pc]) <= Assigned(prog, Positions(run))
  {
    hide Certificate, JumpsAlongEdges, Steps, Edge, Reads, Assigned, Executable;
    RunIsPath(prog, relocs.Keys, run);
    ReadsAreAssigned(prog, relocs, visits, Positions(run));
  }
}

/** Accepted programs never use a null result of a lookup or reservation as a pointer.

  Registers and frame slots whose abstract type carries the same identifier are copies of one call's result; that
  is why one null check settles all of them. Which slot an access reaches is a matter of addresses, so registers
  typed as frame pointers have to hold the address their offset says.
*/
module NullSafety {
  import opened Wrappers
  import opened Words
  import opened Addresses
  import opened LowHalves
  import opened Tnums
  import opened Instructions
  import opened HelperTable
  import opened RegStates
  import opened AbstractStates
  import opened ControlFlow
  import opened Transfer
  import opened Certificates
  import opened Sanity
  import opened Exploration
  import opened Machine
  import opened BranchSoundness
  import opened ValueSoundness
  import opened NullRuns
  import opened NullClaims

  // --- The programs ---

  predicate NothingTracked(frame: Frame) {
    forall o :: o in frame.spills && InFrame(o, 8) ==> !MayTrack(frame.spills[o].kind)
  }

  /** A store cuts into no pointer spilled at another offset; one through a kernel pointer, of which nothing is known,
      may go anywhere. */
  predicate KeepsSlots(regs: Regs, frame: Frame, insn: BpfInsn, w: MemWidth) {
    match regs[insn.dst].kind
    case FramePtr(base) =>
      forall o :: o in frame.spills && InFrame(o, 8) && MayTrack(frame.spills[o].kind) ==>
        o == WrapI64(base + insn.offset) || !Overlaps(o, WrapI64(base + insn.offset), WidthBytes(w))
    case KernelPtr => NothingTracked(frame)
    case _ => true
  }

  /** Frame and unresolved pointers are copied and moved as 64-bit numbers, and no pointer is moved by a register. */
  predicate PlainAlu(regs: Regs, insn: BpfInsn, op: AluOp, source: Source, is64: bool) {
    var r := AluResult(regs, insn, op, source, is64);
    r.Success? ==>
      && (ClaimsBits(r.value.kind) ==> is64 && insn.offset == 0)
      && (MayTrack(r.value.kind) && op != MOV ==> source.FromImm?)
  }

  /** The visit keeps spilled pointers whole, moves pointers only by constants, and compares an unresolved pointer with
      zero only as an immediate. */
  predicate Disciplined(prog: Program, v: Visit)
    requires v.at.pc < |prog|
  {
    var insn, regs := prog[v.at.pc], v.at.regs;
    match insn.opcode
    case Stx(w) => KeepsSlots(regs, v.at.frame, insn, w)
    case St(w) => KeepsSlots(regs, v.at.frame, insn, w)
    case Call => FrameMayChange(insn) ==> NothingTracked(v.at.frame)
    case Alu64(op, source) => PlainAlu(regs, insn, op, source, true)
    case Alu32(op, source) => PlainAlu(regs, insn, op, source, false)
    case Jmp64(_, source) => regs[insn.dst].kind.PtrOrNull? ==> source.FromImm?
    case Jmp32(op, source) =>
      && (regs[insn.dst].kind.PtrOrNull? ==> source.FromImm?)
      && (op == JA ==> insn.imm == insn.offset || insn.imm == 0)
    case _ => true
  }

  /** Some visit at the same instruction claims no more than the arriving state. */
  ghost predicate Carried(visits: set<Visit>, c: Config) {
    exists v :: v in visits && v.at.pc == c.pc && KeepsClaims(v.at, c)
  }

  ghost predicate ClaimsKept(prog: Program, relocs: map<nat, Reloc>, visits: set<Visit>) {
    forall c :: Arrives(prog, relocs, visits, c) && c.pc < |prog| ==> Carried(visits, c)
  }

  ghost predicate NullDiscipline(prog: Program, relocs: map<nat, Reloc>, visits: set<Visit>) {
    && (forall v :: v in visits && v.at.pc < |prog| ==> Disciplined(prog, v))
    && ClaimsKept(prog, relocs, visits)
  }

  // --- Programs that keep their pointers in registers ---

  /** In a loop-free program nothing is widened, so claims can be lost only where pruning ignores a spill: not at all
      when no visit has a pointer spilled. */
  lemma LoopFreeKeepsClaims(prog: Program, relocs: map<nat, Reloc>, visits: set<Visit>)
    requires Complete(prog, relocs, visits) && forall t: nat :: !IsLoopHead(prog, t)
    requires forall v :: v in visits ==> NothingTracked(v.at.frame)
    ensures ClaimsKept(prog, relocs, visits)
  {
    hide Subsumes, KeepsClaims, Successors, VisitOk, EntryConfig, NothingTracked;
    forall c | Arrives(prog, relocs, visits, c) && c.pc < |prog|
      ensures Carried(visits, c)
    {
      assert Covered(prog, visits, c);
      var v :| v in visits && Subsumes(v.at, c);
      NothingToCarry(v.at, c);
    }
  }

  lemma NothingToCarry(w: Config, c: Config)
    requires Subsumes(w, c) && NothingTracked(w.frame)
    ensures w.pc == c.pc && KeepsClaims(w, c)
  {
    hide FrameWithin, RegsWithin, MayTrack, Carries;
    PruningKeeps(w, c);
  }

  /** The visit spills no pointer: what it stores in the frame is a number, null, or a kernel pointer. */
  predicate StoresNoPointer(prog: Program, v: Visit) {
    v.at.pc < |prog| && prog[v.at.pc].opcode == Stx(W64) ==>
      var insn, regs := prog[v.at.pc], v.at.regs;
      regs[insn.dst].kind.FramePtr? ==> !MayTrack(regs[insn.src].kind)
  }

  /** The spills after a store: the value at its offset, or nothing there; all as before for memory elsewhere. */
  lemma SpillsAfterStore(regs: Regs, frame: Frame, insn: BpfInsn, w: MemWidth, isSt: bool)
    requires StoreResult(regs, frame, insn, w, isSt).Success?
    ensures var after, base, val := StoreResult(regs, frame, insn, w, isSt).value, regs[insn.dst].kind, regs[insn.src];
            after.spills ==
              if !base.FramePtr? then frame.spills
              else
                var off := WrapI64(base.offset + insn.offset);
                if !isSt && w == W64 && (val.kind.IsPtr() || val.kind.PtrOrNull?) then frame.spills[off := val]
                else frame.spills - {off}
  {
    hide CheckBounds, InRegion, Touches, WrapI64;
  }

  lemma StoreSpillsNone(regs: Regs, frame: Frame, insn: BpfInsn, w: MemWidth, isSt: bool)
    requires StoreResult(regs, frame, insn, w, isSt).Success? && NothingTracked(frame)
    requires !isSt && w == W64 && regs[insn.dst].kind.FramePtr? ==> !MayTrack(regs[insn.src].kind)
    ensures NothingTracked(StoreResult(regs, frame, insn, w, isSt).value)
  {
    hide StoreResult, WrapI64, MayTrack;
    SpillsAfterStore(regs, frame, insn, w, isSt);
  }

  lemma BranchSpillsNone(regs: Regs, frame: Frame, insn: BpfInsn, op: JmpOp, source: Source, is32: bool)
    requires NothingTracked(frame)
    ensures var b := RefineBranch(regs, frame, insn, op, source, is32);
            NothingTracked(b.takenFrame) && NothingTracked(b.fallFrame)
  {
    hide Refine64, Refine32, CompareValue, U, ResolveRegs;
  }

  lemma CallSpillsNone(spec: HelperSpec, id: int, regs: Regs, frame: Frame)
    requires NothingTracked(frame)
    ensures NothingTracked(FrameAfterCall(spec, id, regs, frame))
  {
    hide Touches, WriteSize;
  }

  lemma StepSpillsNone(prog: Program, relocs: map<nat, Reloc>, v: Visit, s: Config)
    requires v.at.pc < |prog| && StoresNoPointer(prog, v) && NothingTracked(v.at.frame)
    requires s in Successors(prog, relocs, v)
    ensures NothingTracked(s.frame)
  {
    hide LoadResult, StoreResult, AluResult, ReturnValue, ArgError, CheckExit, CanRead, Target, AfterCall, RefineBranch;
    hide WideLoad, GetHelper, FrameAfterCall, NothingTracked;
    var insn, regs, frame := prog[v.at.pc], v.at.regs, v.at.frame;
    match insn.opcode {
      case Jmp64(op, source) => BranchSpillsNone(regs, frame, insn, op, source, false);
      case Jmp32(op, source) => BranchSpillsNone(regs, frame, insn, op, source, true);
      case Stx(w) => StoreSpillsNone(regs, frame, insn, w, false);
      case St(w) => StoreSpillsNone(regs, frame, insn, w, true);
      case Call => CallSpillsNone(GetHelper(insn.imm).value, insn.imm, regs, frame);
      case _ =>
    }
  }

  lemma WidenSpillsNone(prev: Config, c: Config, w: Config)
    requires NothingTracked(prev.frame) && WidensTo(prev, c, w)
    ensures NothingTracked(w.frame)
  {
    hide WidenRegs, RegState.Widen;
    forall off | off in w.frame.spills && InFrame(off, 8)
      ensures !MayTrack(w.frame.spills[off].kind)
    {
      if off in c.frame.spills {
        WidenedCarries(prev.frame.spills[off], c.frame.spills[off]);
      }
    }
  }

  lemma EntrySpillsNone()
    ensures NothingTracked(EntryConfig().frame)
  {}

  lemma SuccessorsInside(prog: Program, relocs: map<nat, Reloc>, v: Visit, s: Config)
    requires s in Successors(prog, relocs, v)
    ensures v.at.pc < |prog|
  {
    hide Step;
  }

  /** If no visit stores a pointer, none has one spilled. */
  lemma NothingIsSpilled(prog: Program, relocs: map<nat, Reloc>, trace: seq<Visit>)
    requires Grounded(prog, relocs, trace) && forall v :: v in trace ==> StoresNoPointer(prog, v)
    ensures forall v :: v in trace ==> NothingTracked(v.at.frame)
  {
    hide NothingTracked, StoresNoPointer, Successors, WidensTo, Grounded, EntryConfig;
    EntrySpillsNone();
    forall v, s | v in trace && NothingTracked(v.at.frame) && s in Successors(prog, relocs, v)
      ensures NothingTracked(s.frame)
    {
      SuccessorsInside(prog, relocs, v, s);
      StepSpillsNone(prog, relocs, v, s);
    }
    forall prev: Config, c: Config, w: Config |
      NothingTracked(prev.frame) && NothingTracked(c.frame) && WidensTo(prev, c, w)
      ensures NothingTracked(w.frame)
    {
      WidenSpillsNone(prev, c, w);
    }
    GroundedInvariant(prog, relocs, trace, (c: Config) => NothingTracked(c.frame), |trace|);
  }

  /** Adds, subtracts and compares only with immediates, and moves without sign extension. */
  predicate UsesImmediates(insn: BpfInsn) {
    match insn.opcode
    case Alu64(op, source) =>
      && (op in {ADD, SUB} ==> source.FromImm?) && (op in {ADD, SUB, MOV} ==> insn.offset == 0)
    case Alu32(op, source) => op in {ADD, SUB} ==> source.FromImm?
    case Jmp64(_, source) => source.FromImm?
    case Jmp32(op, source) => source.FromImm? && op != JA
    case _ => true
  }

  /** The visit moves no frame pointer in 32 bits. */
  predicate KeepsFramePointers(prog: Program, v: Visit) {
    v.at.pc < |prog| && prog[v.at.pc].opcode.Alu32? && prog[v.at.pc].opcode.aluOp in {ADD, SUB} ==>
      !v.at.regs[prog[v.at.pc].dst].kind.FramePtr?
  }

  lemma ImmediateAlu(regs: Regs, insn: BpfInsn, op: AluOp, source: Source, is64: bool)
    requires op in {ADD, SUB} ==> source.FromImm?
    requires if is64 then op in {ADD, SUB, MOV} ==> insn.offset == 0
             else op in {ADD, SUB} ==> !regs[insn.dst].kind.FramePtr?
    ensures PlainAlu(regs, insn, op, source, is64)
  {
    hide AluResult;
    if AluResult(regs, insn, op, source, is64).Success? {
      AluKind(regs, insn, op, source, is64);
    }
  }

  /** Loop-free programs that add, subtract and compare with immediates and store no pointers meet the discipline:
      storing a key, looking it up, checking the result and using it, say. */
  lemma ImmediateProgramsAreDisciplined(prog: Program, relocs: map<nat, Reloc>, trace: seq<Visit>)
    requires forall pc :: 0 <= pc < |prog| ==> UsesImmediates(prog[pc])
    requires forall t: nat :: !IsLoopHead(prog, t)
    requires Complete(prog, relocs, Visited(trace)) && Grounded(prog, relocs, trace)
    requires forall v :: v in trace ==> StoresNoPointer(prog, v) && KeepsFramePointers(prog, v)
    ensures NullDiscipline(prog, relocs, Visited(trace))
  {
    hide ClaimsKept, IsLoopHead, Complete, Grounded, NothingTracked, StoresNoPointer, Disciplined, UsesImmediates;
    NothingIsSpilled(prog, relocs, trace);
    LoopFreeKeepsClaims(prog, relocs, Visited(trace));
    forall v | v in Visited(trace) && v.at.pc < |prog|
      ensures Disciplined(prog, v)
    {
      ImmediateVisit(prog, v);
    }
  }

  lemma ImmediateVisit(prog: Program, v: Visit)
    requires v.at.pc < |prog| && UsesImmediates(prog[v.at.pc])
    requires NothingTracked(v.at.frame) && KeepsFramePointers(prog, v)
    ensures Disciplined(prog, v)
  {
    hide PlainAlu, WrapI64, FrameMayChange;
    var insn := prog[v.at.pc];
    match insn.opcode {
      case Alu64(op, source) => ImmediateAlu(v.at.regs, insn, op, source, true);
      case Alu32(op, source) => ImmediateAlu(v.at.regs, insn, op, source, false);
      case _ =>
    }
  }

  // --- One step: registers ---

  /** The distance a pointer moves. */
  function Distance(op: AluOp, imm: I32, is64: bool): I64 {
    var n := S(ImmOperand(imm, is64));
    if op == ADD then n else WrapI64(0 - n)
  }

  /** A result that is a pointer is a copy of one, or one moved. */
  lemma AluKind(regs: Regs, insn: BpfInsn, op: AluOp, source: Source, is64: bool)
    requires AluResult(regs, insn, op, source, is64).Success?
    ensures var k, dst := AluResult(regs, insn, op, source, is64).value.kind, regs[insn.dst].kind;
            || !(k.IsPtr() || k.PtrOrNull?)
            || (op == MOV && source.FromReg? && is64 && k == regs[insn.src].kind)
            || (op in {ADD, SUB} && source.FromReg? && k.IsPtr())
            || (op in {ADD, SUB} && source.FromImm? && dst.IsPtr() &&
                k == MovePointer(dst, Some(Distance(op, insn.imm, is64))))
  {
    hide ScalarResult, ImmOperand, DivisorMayBeZero, ShiftTooFar, U, S, WrapI64, MovePointer, Truncated;
    var src := Operand(regs, insn, source, is64);
    if op != MOV && op != NEG {
      ResultKind(op, regs[insn.dst].tnum, src.tnum, is64);
    }
    if source.FromImm? {
      KindOfValue(ImmOperand(insn.imm, is64));
    }
    TruncatedKind(regs[insn.src]);
    StaysPtr(regs[insn.dst].kind);
    StaysPtr(src.kind);
  }

  lemma TruncatedKind(r: RegState)
    ensures Truncated(r).kind.Scalar?
  {
    hide Low;
  }

  lemma MovedIsPtr(kind: RegType, delta: Option<I64>)
    requires kind.IsPtr()
    ensures var k := MovePointer(kind, delta);
            k.IsPtr() && (k.FramePtr? <==> kind.FramePtr?) && (k.KernelPtr? <==> kind.KernelPtr?)
  {}

  lemma StaysPtr(kind: RegType)
    ensures forall delta: Option<I64> :: kind.IsPtr() ==> MovePointer(kind, delta).IsPtr()
  {}

  /** A frame pointer moved by an immediate holds the address of its new offset. */
  lemma FramePointerMoves(kind: RegType, op: AluOp, imm: I32, bits: bv64, frame: bv64)
    requires kind.FramePtr? && op in {ADD, SUB} && bits == AddressAt(frame, kind.offset)
    ensures var k := MovePointer(kind, Some(Distance(op, imm, true)));
            k.FramePtr? && AluValue64(op, bits, ImmOperand(imm, true)) == AddressAt(frame, k.offset)
  {
    hide AddressAt, Plus, Minus, WrapI64, U, B;
    CastsAgree(0, imm);
    MovedAddress(frame, kind.offset, imm);
  }

  lemma CopiedClaim(kind: RegType, bits: bv64, other: bv64, origin: Origin, results: seq<bv64>, frame: bv64,
                    calls: map<nat, nat>)
    requires Claim(kind, bits, origin, results, frame, calls) && (ClaimsBits(kind) ==> other == bits)
    ensures Claim(kind, other, origin, results, frame, calls)
  {
    hide AddressAt;
  }

  lemma MovedClaim(kind: RegType, op: AluOp, imm: I32, is64: bool, bits: bv64, other: bv64, origin: Origin,
                   results: seq<bv64>, frame: bv64, calls: map<nat, nat>)
    requires kind.IsPtr() && op in {ADD, SUB} && Claim(kind, bits, origin, results, frame, calls)
    requires kind.FramePtr? ==> is64 && other == AluValue64(op, bits, ImmOperand(imm, true))
    ensures Claim(MovePointer(kind, Some(Distance(op, imm, is64))), other, origin, results, frame, calls)
  {
    hide AddressAt, Distance, AluValue64, WrapI64;
    if kind.FramePtr? {
      FramePointerMoves(kind, op, imm, bits, frame);
    }
    MovedIsPtr(kind, Some(Distance(op, imm, is64)));
  }

  lemma UntrackedClaim(kind: RegType, bits: bv64, origin: Origin, results: seq<bv64>, frame: bv64,
          calls: map<nat, nat>)
    requires !MayTrack(kind)
    ensures Claim(kind, bits, origin, results, frame, calls)
  {}

  lemma RegClaim(regs: Regs, s: Tagged, calls: map<nat, nat>, r: RegId)
    requires RegsTrack(regs, s, calls)
    ensures Claim(regs[r].kind, s.at.regs[r], s.from[r], s.results, s.frame, calls)
  {
    hide Claim;
  }

  predicate SameHistory(s: Tagged, t: Tagged) { t.results == s.results && t.frame == s.frame }

  /** One register changes, and its new claim holds. */
  lemma SetTracks(regs: Regs, s: Tagged, t: Tagged, calls: map<nat, nat>, dst: RegId, value: RegState)
    requires RegsTrack(regs, s, calls) && SameHistory(s, t)
    requires forall r: RegId :: r != dst ==> t.at.regs[r] == s.at.regs[r] && t.from[r] == s.from[r]
    requires Claim(value.kind, t.at.regs[dst], t.from[dst], t.results, t.frame, calls)
    ensures RegsTrack(regs[dst := value], t, calls)
  {
    hide Claim;
    forall r: RegId | r != dst
      ensures Claim(regs[r].kind, t.at.regs[r], t.from[r], t.results, t.frame, calls)
    {
      RegClaim(regs, s, calls, r);
    }
  }

  lemma SameRegsTrack(regs: Regs, s: Tagged, t: Tagged, calls: map<nat, nat>)
    requires RegsTrack(regs, s, calls) && SameHistory(s, t) && t.from == s.from && t.at.regs == s.at.regs
    ensures RegsTrack(regs, t, calls)
  {
    hide Claim;
    forall r: RegId
      ensures Claim(regs[r].kind, t.at.regs[r], t.from[r], t.results, t.frame, calls)
    {
      RegClaim(regs, s, calls, r);
    }
  }

  lemma AluTracks(regs: Regs, s: Tagged, t: Tagged, calls: map<nat, nat>, insn: BpfInsn, op: AluOp, source: Source,
          is64: bool)
    requires RegsTrack(regs, s, calls) && AluResult(regs, insn, op, source, is64).Success?
    requires PlainAlu(regs, insn, op, source, is64) && SameHistory(s, t)
    requires t.from == s.from[insn.dst := AluOrigin(s.from, insn, op, source)]
    requires forall r: RegId :: r != insn.dst ==> t.at.regs[r] == s.at.regs[r]
    requires is64 && insn.offset == 0 ==>
               t.at.regs[insn.dst] == AluValue64(op, s.at.regs[insn.dst], OperandValue(s.at.regs, insn, source, true))
    ensures RegsTrack(regs[insn.dst := AluResult(regs, insn, op, source, is64).value], t, calls)
  {
    hide AluResult, Claim, RegsTrack, OperandValue, AluValue64, Distance, MovePointer;
    var value, dst := AluResult(regs, insn, op, source, is64).value, regs[insn.dst].kind;
    var bits := t.at.regs[insn.dst];
    AluKind(regs, insn, op, source, is64);
    if !MayTrack(value.kind) {
      UntrackedClaim(value.kind, bits, t.from[insn.dst], t.results, t.frame, calls);
    } else if op == MOV {
      RegClaim(regs, s, calls, insn.src);
      CopiedValue(s.at.regs, insn, s.at.regs[insn.dst]);
      CopiedClaim(value.kind, s.at.regs[insn.src], bits, s.from[insn.src], s.results, s.frame, calls);
    } else {
      RegClaim(regs, s, calls, insn.dst);
      MovedIsPtr(dst, Some(Distance(op, insn.imm, is64)));
      ImmediateValueIs(s.at.regs, insn);
      MovedClaim(dst, op, insn.imm, is64, s.at.regs[insn.dst], bits, s.from[insn.dst], s.results, s.frame, calls);
    }
    SetTracks(regs, s, t, calls, insn.dst, value);
  }

  lemma CopiedValue(values: Values, insn: BpfInsn, x: bv64)
    ensures AluValue64(MOV, x, OperandValue(values, insn, FromReg, true)) == values[insn.src]
  {}

  lemma ImmediateValueIs(values: Values, insn: BpfInsn)
    ensures OperandValue(values, insn, FromImm, true) == ImmOperand(insn.imm, true)
  {}

  lemma WideLoadKind(insn: BpfInsn, reloc: Option<Reloc>)
    ensures !ClaimsBits(WideLoad(insn, reloc).kind)
  {
    hide WideImm, ScalarValue;
    KindOfValue(WideImm(insn));
  }

  lemma NoOrigin(kind: RegType, bits: bv64, results: seq<bv64>, frame: bv64, calls: map<nat, nat>)
    requires !ClaimsBits(kind)
    ensures Claim(kind, bits, Nowhere, results, frame, calls)
  {}

  /** A nullable call gets a fresh identifier; identifiers in use lie below it. */
  lemma CallTracks(regs: Regs, s: Tagged, t: Tagged, calls: map<nat, nat>, ret: HelperReturn, pc: nat, id: nat)
    returns (calls': map<nat, nat>)
    requires RegsTrack(regs, s, calls) && forall r: RegId :: KindOk(regs[r].kind, id)
    requires Unchanged(s.at.regs, t.at.regs, {0, 1, 2, 3, 4, 5}) && t.frame == s.frame
    requires t.from == AfterCallOrigins(s.from, if IsNullable(ret) then Result(|s.results|) else Nowhere)
    requires t.results == s.results + if IsNullable(ret) then [t.at.regs[0]] else []
    ensures calls' == if IsNullable(ret) then calls[id := |s.results|] else calls
    ensures RegsTrack(AfterCall(regs, ReturnValue(ret, regs, pc, id)), t, calls')
  {
    hide U, Low, Claim, KindOk, ReturnValue, IsNullable;
    calls' := if IsNullable(ret) then calls[id := |s.results|] else calls;
    var result := ReturnValue(ret, regs, pc, id);
    var after := AfterCall(regs, result);
    ReturnClaims(ret, regs, pc, id, t.at.regs[0], s.results, t.frame, calls);
    forall r: RegId
      ensures Claim(after[r].kind, t.at.regs[r], t.from[r], t.results, t.frame, calls')
    {
      if 1 <= r <= 5 {
        UntrackedClaim(after[r].kind, t.at.regs[r], t.from[r], t.results, t.frame, calls');
      } else if r != 0 {
        RegClaim(regs, s, calls, r);
        LaterClaim(regs[r].kind, s.at.regs[r], s.from[r], s.results, t.results, s.frame, calls, calls', id);
      }
    }
  }

  lemma ReturnClaims(ret: HelperReturn, regs: Regs, pc: nat, id: nat, bits: bv64, results: seq<bv64>, frame: bv64,
                     calls: map<nat, nat>)
    ensures var nullable := IsNullable(ret);
            Claim(ReturnValue(ret, regs, pc, id).kind, bits, if nullable then Result(|results|) else Nowhere,
                  results + (if nullable then [bits] else []), frame,
                  if nullable then calls[id := |results|] else calls)
  {
    hide U, Low;
  }

  predicate Extends(calls: map<nat, nat>, more: map<nat, nat>, id: nat) {
    forall k :: k in calls && k != id ==> k in more && more[k] == calls[k]
  }

  lemma LaterClaim(kind: RegType, bits: bv64, origin: Origin, results: seq<bv64>, more: seq<bv64>, frame: bv64,
                   calls: map<nat, nat>, calls': map<nat, nat>, id: nat)
    requires Claim(kind, bits, origin, results, frame, calls) && KindOk(kind, id) && results <= more
    requires Extends(calls, calls', id)
    ensures Claim(kind, bits, origin, more, frame, calls')
  {
    hide AddressAt;
  }

  /** What was learnt of an identifier is true of its call. */
  predicate Learnt(learned: RegType, id: nat, results: seq<bv64>, calls: map<nat, nat>) {
    || learned.Null?
    || (IsKnownPtr(learned) && !learned.FramePtr? && id in calls && calls[id] < |results| && results[calls[id]] != 0)
  }

  lemma ResolvedClaim(r: RegState, id: nat, learned: RegType, bits: bv64, origin: Origin, results: seq<bv64>,
                      frame: bv64, calls: map<nat, nat>)
    requires Claim(r.kind, bits, origin, results, frame, calls) && Learnt(learned, id, results, calls)
    ensures Claim(Resolve(r, id, learned).kind, bits, origin, results, frame, calls)
  {
    hide AddressAt;
  }

  lemma ResolveTracks(regs: Regs, s: Tagged, t: Tagged, calls: map<nat, nat>, id: nat, learned: RegType)
    requires RegsTrack(regs, s, calls) && SameHistory(s, t) && t.from == s.from && t.at.regs == s.at.regs
    requires Learnt(learned, id, s.results, calls)
    ensures RegsTrack(ResolveRegs(regs, id, learned), t, calls)
  {
    hide Claim, Learnt, Resolve;
    forall r: RegId
      ensures Claim(ResolveRegs(regs, id, learned)[r].kind, t.at.regs[r], t.from[r], t.results, t.frame, calls)
    {
      RegClaim(regs, s, calls, r);
      ResolvedClaim(regs[r], id, learned, s.at.regs[r], s.from[r], s.results, s.frame, calls);
    }
  }

  // --- One step: the frame ---

  /** The slots in the frame are as before. */
  predicate SameSlots(s: Tagged, t: Tagged) {
    && (forall o :: o in t.slots && InFrame(o, 8) ==> o in s.slots && t.slots[o] == s.slots[o])
    && (forall o :: o in s.slots && InFrame(o, 8) ==> o in t.slots)
  }

  lemma SlotClaim(frame: Frame, s: Tagged, calls: map<nat, nat>, off: I64)
    requires FrameTracks(frame, s, calls) && off in frame.spills && InFrame(off, 8)
    ensures SlotTracks(frame.spills[off].kind, off, s, calls)
  {
    hide SlotTracks;
  }

  lemma SameSlotTracks(kind: RegType, off: int, s: Tagged, t: Tagged, calls: map<nat, nat>)
    requires SlotTracks(kind, off, s, calls) && SameHistory(s, t)
    requires off in t.slots <==> off in s.slots
    requires off in t.slots ==> t.slots[off] == s.slots[off]
    ensures SlotTracks(kind, off, t, calls)
  {
    hide Claim, MayTrack;
  }

  lemma SameFrameTracks(frame: Frame, s: Tagged, t: Tagged, calls: map<nat, nat>)
    requires FrameTracks(frame, s, calls) && SameSlots(s, t) && SameHistory(s, t)
    ensures FrameTracks(frame, t, calls)
  {
    hide SlotTracks;
    forall off | off in frame.spills && InFrame(off, 8)
      ensures SlotTracks(frame.spills[off].kind, off, t, calls)
    {
      SlotClaim(frame, s, calls, off);
      SameSlotTracks(frame.spills[off].kind, off, s, t, calls);
    }
  }

  lemma ResolveFrameTracks(frame: Frame, s: Tagged, t: Tagged, calls: map<nat, nat>, id: nat, learned: RegType)
    requires FrameTracks(frame, s, calls) && SameSlots(s, t) && SameHistory(s, t)
    requires Learnt(learned, id, s.results, calls)
    ensures FrameTracks(ResolveSpills(frame, id, learned), t, calls)
  {
    hide SlotTracks, Learnt, Resolve;
    forall off | off in frame.spills && InFrame(off, 8)
      ensures SlotTracks(ResolveSpills(frame, id, learned).spills[off].kind, off, t, calls)
    {
      SlotClaim(frame, s, calls, off);
      SameSlotTracks(frame.spills[off].kind, off, s, t, calls);
      ResolvedSlot(frame.spills[off], off, t, calls, id, learned);
    }
  }

  lemma ResolvedSlot(r: RegState, off: int, t: Tagged, calls: map<nat, nat>, id: nat, learned: RegType)
    requires SlotTracks(r.kind, off, t, calls) && Learnt(learned, id, t.results, calls)
    ensures SlotTracks(Resolve(r, id, learned).kind, off, t, calls)
  {
    hide Claim;
    if off in t.slots {
      ResolvedClaim(r, id, learned, t.slots[off].bits, t.slots[off].origin, t.results, t.frame, calls);
    }
  }

  // --- One step: loads and stores ---

  /** Through a register that holds its frame address an access goes where the checker looks. */
  lemma FrameAccess(kind: RegType, s: Tagged, calls: map<nat, nat>, insn: BpfInsn, base: RegId)
    requires kind.FramePtr? && Claim(kind, s.at.regs[base], s.from[base], s.results, s.frame, calls)
    ensures Accessed(s, insn, base) == WrapI64(kind.offset + insn.offset)
  {
    hide AddressAt, OffsetFrom, WrapI64;
    OffsetOfAccess(s.frame, kind.offset, insn.offset);
  }

  lemma ReadableInFrame(frame: Frame, off: I64)
    requires CheckReadable(frame, off, 8)
    ensures InFrame(off, 8)
  {
    assert ByteIndex(off, 0).Some? && ByteIndex(off, 7).Some?;
  }

  lemma LoadedKind(regs: Regs, frame: Frame, insn: BpfInsn, w: MemWidth)
    requires LoadResult(regs, frame, insn, w).Success?
    ensures var kind, base := LoadResult(regs, frame, insn, w).value.kind, regs[insn.src].kind;
            if base.FramePtr? && w == W64 && WrapI64(base.offset + insn.offset) in frame.spills then
              var off := WrapI64(base.offset + insn.offset);
              kind == frame.spills[off].kind && CheckReadable(frame, off, 8)
            else !MayTrack(kind)
  {
    hide CheckBounds, CheckReadable, InRegion, WrapI64;
  }

  /** A value loaded from a slot has the claim of the spill; anything else loaded has none. */
  lemma LoadClaim(c: Config, s: Tagged, t: Tagged, calls: map<nat, nat>, insn: BpfInsn, w: MemWidth)
    requires Tracks(c, s, calls) && insn.opcode == Ldx(w) && LoadResult(c.regs, c.frame, insn, w).Success?
    requires SameHistory(s, t) && t.from == NextOrigins(insn, s)
    requires Reloads(insn, s) ==> t.at.regs[insn.dst] == s.slots[Accessed(s, insn, insn.src)].bits
    ensures Claim(LoadResult(c.regs, c.frame, insn, w).value.kind, t.at.regs[insn.dst], t.from[insn.dst], t.results,
                  t.frame, calls)
  {
    hide Claim, LoadResult, WrapI64, RegsTrack, FrameTracks, Accessed, CheckReadable, MayTrack;
    LoadedKind(c.regs, c.frame, insn, w);
    var kind, base := LoadResult(c.regs, c.frame, insn, w).value.kind, c.regs[insn.src].kind;
    if MayTrack(kind) {
      var off := WrapI64(base.offset + insn.offset);
      RegClaim(c.regs, s, calls, insn.src);
      FrameAccess(base, s, calls, insn, insn.src);
      ReadableInFrame(c.frame, off);
      SlotClaim(c.frame, s, calls, off);
    } else {
      UntrackedClaim(kind, t.at.regs[insn.dst], t.from[insn.dst], t.results, t.frame, calls);
    }
  }

  predicate IsStore(insn: BpfInsn, w: MemWidth, isSt: bool) { insn.opcode == if isSt then St(w) else Stx(w) }

  /** What a store makes of a slot in the frame. */
  lemma SlotAfterStore(insn: BpfInsn, s: Tagged, t: Tagged, w: MemWidth, isSt: bool, o: int)
    requires IsStore(insn, w, isSt) && SlotsLeft(insn, SlotsStored(insn, s), t.slots) && InFrame(o, 8)
    ensures var off := Accessed(s, insn, insn.dst);
            if o == off && !isSt && w == W64 then
              o in t.slots && t.slots[o] == Slot(s.at.regs[insn.src], s.from[insn.src])
            else if Overlaps(o, off, WidthBytes(w)) then o !in t.slots
            else (o in t.slots <==> o in s.slots) && (o in t.slots ==> t.slots[o] == s.slots[o])
  {
    hide Accessed;
  }

  lemma StoreAccess(regs: Regs, frame: Frame, insn: BpfInsn, w: MemWidth, isSt: bool)
    requires StoreResult(regs, frame, insn, w, isSt).Success?
    ensures regs[insn.dst].kind.IsPtr()
  {
    hide CheckBounds, InRegion, WrapI64;
  }

  /** Through a frame pointer: the slot stored has the claim of the register, the others keep theirs. */
  lemma FrameStoreTracks(regs: Regs, frame: Frame, s: Tagged, t: Tagged, calls: map<nat, nat>, insn: BpfInsn,
                         w: MemWidth, isSt: bool, o: I64)
    requires RegsTrack(regs, s, calls) && FrameTracks(frame, s, calls) && KeepsSlots(regs, frame, insn, w)
    requires IsStore(insn, w, isSt) && StoreResult(regs, frame, insn, w, isSt).Success?
    requires regs[insn.dst].kind.FramePtr? && SameHistory(s, t) && SlotsLeft(insn, SlotsStored(insn, s), t.slots)
    requires o in StoreResult(regs, frame, insn, w, isSt).value.spills && InFrame(o, 8)
    ensures SlotTracks(StoreResult(regs, frame, insn, w, isSt).value.spills[o].kind, o, t, calls)
  {
    hide Claim, StoreResult, WrapI64, RegsTrack, FrameTracks, Accessed, Overlaps, MayTrack, SlotsLeft, SlotsStored;
    SpillsAfterStore(regs, frame, insn, w, isSt);
    RegClaim(regs, s, calls, insn.dst);
    FrameAccess(regs[insn.dst].kind, s, calls, insn, insn.dst);
    SlotAfterStore(insn, s, t, w, isSt, o);
    if o == Accessed(s, insn, insn.dst) {
      RegClaim(regs, s, calls, insn.src);
    } else {
      SlotClaim(frame, s, calls, o);
    }
  }

  /** Through another pointer: no store reaches the frame, or nothing there is tracked. */
  lemma OtherStoreTracks(regs: Regs, frame: Frame, s: Tagged, t: Tagged, calls: map<nat, nat>, insn: BpfInsn,
                         w: MemWidth, isSt: bool, o: I64)
    requires RegsTrack(regs, s, calls) && FrameTracks(frame, s, calls) && KeepsSlots(regs, frame, insn, w)
    requires IsStore(insn, w, isSt) && regs[insn.dst].kind.IsPtr() && !regs[insn.dst].kind.FramePtr?
    requires NothingTracked(frame) || StoresApart(insn, s)
    requires SameHistory(s, t) && SlotsLeft(insn, SlotsStored(insn, s), t.slots)
    requires o in frame.spills && InFrame(o, 8)
    ensures SlotTracks(frame.spills[o].kind, o, t, calls)
  {
    hide RegsTrack, FrameTracks, Accessed, MayTrack, SlotsLeft, SlotsStored, SlotTracks, NotNull, WrapI64;
    RegClaim(regs, s, calls, insn.dst);
    if !MayTrack(frame.spills[o].kind) {
      UntrackedClaims(frame.spills[o].kind, o, t, calls);
    } else {
      SlotAfterStore(insn, s, t, w, isSt, o);
      SlotClaim(frame, s, calls, o);
      SameSlotTracks(frame.spills[o].kind, o, s, t, calls);
    }
  }

  lemma StoreTracks(regs: Regs, frame: Frame, s: Tagged, t: Tagged, calls: map<nat, nat>, insn: BpfInsn, w: MemWidth,
          isSt: bool)
    requires RegsTrack(regs, s, calls) && FrameTracks(frame, s, calls) && KeepsSlots(regs, frame, insn, w)
    requires IsStore(insn, w, isSt) && StoreResult(regs, frame, insn, w, isSt).Success?
    requires NothingTracked(frame) || StoresApart(insn, s)
    requires SameHistory(s, t) && SlotsLeft(insn, SlotsStored(insn, s), t.slots)
    ensures FrameTracks(StoreResult(regs, frame, insn, w, isSt).value, t, calls)
  {
    hide SlotTracks, StoreResult, KeepsSlots, RegsTrack, StoresApart, SlotsLeft, SlotsStored, IsStore, WrapI64;
    var after := StoreResult(regs, frame, insn, w, isSt).value;
    StoreAccess(regs, frame, insn, w, isSt);
    forall o | o in after.spills && InFrame(o, 8)
      ensures SlotTracks(after.spills[o].kind, o, t, calls)
    {
      if regs[insn.dst].kind.FramePtr? {
        FrameStoreTracks(regs, frame, s, t, calls, insn, w, isSt, o);
      } else {
        SpillsAfterStore(regs, frame, insn, w, isSt);
        OtherStoreTracks(regs, frame, s, t, calls, insn, w, isSt, o);
      }
    }
  }

  // --- One step: calls ---

  lemma CallSpills(spec: HelperSpec, helperId: int, regs: Regs, frame: Frame)
    ensures var after := FrameAfterCall(spec, helperId, regs, frame);
            forall off :: off in after.spills ==>
              after.spills[off].kind.KernelPtr? || (off in frame.spills && after.spills[off] == frame.spills[off])
  {
    hide Touches, WriteSize;
  }

  lemma SpillIdOk(frame: Frame, id: nat, off: I64)
    requires FrameOk(frame, id) && off in frame.spills
    ensures KindOk(frame.spills[off].kind, id)
  {
    hide Tnum.WellFormed, KindOk;
  }

  /** A call leaves the claims on slots, or leaves no slots. */
  lemma CallFrameTracks(regs: Regs, frame: Frame, s: Tagged, t: Tagged, calls: map<nat, nat>, insn: BpfInsn,
                        spec: HelperSpec, id: nat)
    requires FrameTracks(frame, s, calls) && FrameOk(frame, id)
    requires insn.opcode.Call? && GetHelper(insn.imm) == Some(spec)
    requires FrameMayChange(insn) ==> NothingTracked(frame)
    requires SlotsLeft(insn, s.slots, t.slots) && t.frame == s.frame
    requires t.results == s.results + if IsNullable(spec.ret) then [t.at.regs[0]] else []
    ensures FrameTracks(FrameAfterCall(spec, insn.imm, regs, frame), t,
                        if IsNullable(spec.ret) then calls[id := |s.results|] else calls)
  {
    hide GetHelper, FrameAfterCall, SlotTracks, FrameOk, FrameMayChange, IsNullable, KindOk;
    var calls' := if IsNullable(spec.ret) then calls[id := |s.results|] else calls;
    CallSpills(spec, insn.imm, regs, frame);
    var after := FrameAfterCall(spec, insn.imm, regs, frame);
    forall off | off in after.spills && InFrame(off, 8)
      ensures SlotTracks(after.spills[off].kind, off, t, calls')
    {
      if after.spills[off].kind.KernelPtr? {
        UntrackedClaims(after.spills[off].kind, off, t, calls');
      } else {
        SlotClaim(frame, s, calls, off);
        SpillIdOk(frame, id, off);
        LaterSlot(frame.spills[off].kind, off, s, t, calls, calls', id);
      }
    }
  }

  lemma LaterSlot(kind: RegType, off: int, s: Tagged, t: Tagged, calls: map<nat, nat>, calls': map<nat, nat>, id: nat)
    requires SlotTracks(kind, off, s, calls) && KindOk(kind, id) && s.results <= t.results && t.frame == s.frame
    requires off in t.slots ==> off in s.slots && t.slots[off] == s.slots[off]
    requires off in t.slots || off !in s.slots || !MayTrack(kind)
    requires Extends(calls, calls', id)
    ensures SlotTracks(kind, off, t, calls')
  {
    hide Claim, KindOk, MayTrack;
    if off in t.slots {
      LaterClaim(kind, s.slots[off].bits, s.slots[off].origin, s.results, t.results, s.frame, calls, calls', id);
    }
  }

  // --- One step: branches ---

  /** A comparison with zero that a null result fails. */
  lemma NonzeroSide(op: JmpOp, is32: bool, x: bv64)
    requires (op == JEQ && !Holds(op, is32, x, 0)) || (op == JNE && Holds(op, is32, x, 0))
    ensures x != 0
  {
    hide Low;
    LowZero();
  }

  /** Both outcomes of a null check on an unresolved pointer. */
  lemma NullCheckTracks(c: Config, s: Tagged, t: Tagged, calls: map<nat, nat>, dst: RegId, op: JmpOp, is32: bool,
                        id: nat)
    requires Tracks(c, s, calls) && t.from == s.from && SameHistory(s, t) && t.at.regs == s.at.regs
    requires SameSlots(s, t) && c.regs[dst].kind.PtrOrNull? && KindOk(c.regs[dst].kind, id)
    ensures var ptr, inner := c.regs[dst].kind.id, c.regs[dst].kind.inner;
            && Tracks(Config(0, ResolveRegs(c.regs, ptr, Null), ResolveSpills(c.frame, ptr, Null)), t, calls)
            && (var holds := Holds(op, is32, s.at.regs[dst], 0);
                (op == JEQ && !holds) || (op == JNE && holds) ==>
                  Tracks(Config(0, ResolveRegs(c.regs, ptr, inner), ResolveSpills(c.frame, ptr, inner)), t, calls))
  {
    hide RegsTrack, FrameTracks, ResolveRegs, ResolveSpills, KindOk, Holds, SameSlots;
    var kind := c.regs[dst].kind;
    RegClaim(c.regs, s, calls, dst);
    InnerIsPointer(kind, id);
    ResolveTracks(c.regs, s, t, calls, kind.id, Null);
    ResolveFrameTracks(c.frame, s, t, calls, kind.id, Null);
    if (op == JEQ && !Holds(op, is32, s.at.regs[dst], 0)) || (op == JNE && Holds(op, is32, s.at.regs[dst], 0)) {
      NonzeroSide(op, is32, s.at.regs[dst]);
      ResolveTracks(c.regs, s, t, calls, kind.id, kind.inner);
      ResolveFrameTracks(c.frame, s, t, calls, kind.id, kind.inner);
    }
  }

  lemma InnerIsPointer(kind: RegType, id: nat)
    requires KindOk(kind, id) && kind.PtrOrNull?
    ensures IsKnownPtr(kind.inner) && !kind.inner.FramePtr?
  {}

  lemma BranchCases(regs: Regs, frame: Frame, insn: BpfInsn, op: JmpOp, source: Source, is32: bool)
    ensures var b, val := RefineBranch(regs, frame, insn, op, source, is32), CompareValue(regs, insn, source, is32);
            var dst := regs[insn.dst];
            if val.Some? && U(val.value) == 0 && dst.kind.PtrOrNull? then
              var onNull := (ResolveRegs(regs, dst.kind.id, Null), ResolveSpills(frame, dst.kind.id, Null));
              var onPtr := (ResolveRegs(regs, dst.kind.id, dst.kind.inner),
                    ResolveSpills(frame, dst.kind.id, dst.kind.inner));
              if op == JEQ then b == Branches(onNull.0, onNull.1, onPtr.0, onPtr.1)
              else if op == JNE then b == Branches(onPtr.0, onPtr.1, onNull.0, onNull.1)
              else b == Branches(regs, frame, regs, frame)
            else if val.Some? && dst.kind.Scalar? then
              var sides := if is32 then Refine32(dst, op, val.value) else Refine64(dst, op, val.value);
              b == Branches(regs[insn.dst := sides.0], frame, regs[insn.dst := sides.1], frame)
            else b == Branches(regs, frame, regs, frame)
  {
    hide U, ResolveRegs, ResolveSpills, Refine64, Refine32, CompareValue;
  }

  lemma ImmediateCompare(regs: Regs, values: Values, insn: BpfInsn, is32: bool)
    ensures CompareValue(regs, insn, FromImm, is32) == Some(OperandValue(values, insn, FromImm, !is32))
  {
    hide ImmOperand;
  }

  /** A scalar makes no claim. */
  lemma ScalarTracks(regs: Regs, t: Tagged, calls: map<nat, nat>, dst: RegId, value: RegState)
    requires RegsTrack(regs, t, calls) && value.kind.Scalar?
    ensures RegsTrack(regs[dst := value], t, calls)
  {
    hide AddressAt;
  }

  lemma BranchTracks(c: Config, s: Tagged, t: Tagged, calls: map<nat, nat>, insn: BpfInsn, op: JmpOp, source: Source,
                     is32: bool, id: nat)
    requires Tracks(c, s, calls) && t.from == s.from && SameHistory(s, t) && t.at.regs == s.at.regs && SameSlots(s, t)
    requires KindOk(c.regs[insn.dst].kind, id) && (c.regs[insn.dst].kind.PtrOrNull? ==> source.FromImm?)
    ensures var b := RefineBranch(c.regs, c.frame, insn, op, source, is32);
            if Holds(op, is32, s.at.regs[insn.dst], OperandValue(s.at.regs, insn, source, !is32))
            then Tracks(Config(0, b.taken, b.takenFrame), t, calls)
            else Tracks(Config(0, b.fall, b.fallFrame), t, calls)
  {
    hide RegsTrack, FrameTracks, U, ResolveRegs, ResolveSpills, Refine64, Refine32, Holds, KindOk, RefineBranch;
    hide CompareValue, OperandValue, SameSlots;
    var val := CompareValue(c.regs, insn, source, is32);
    BranchCases(c.regs, c.frame, insn, op, source, is32);
    SameRegsTrack(c.regs, s, t, calls);
    SameFrameTracks(c.frame, s, t, calls);
    if val.Some? {
      if U(val.value) == 0 && c.regs[insn.dst].kind.PtrOrNull? {
        UZero(val.value);
        ImmediateCompare(c.regs, s.at.regs, insn, is32);
        NullCheckTracks(c, s, t, calls, insn.dst, op, is32, id);
      } else if c.regs[insn.dst].kind.Scalar? {
        var dst := c.regs[insn.dst];
        var sides := if is32 then Refine32(dst, op, val.value) else Refine64(dst, op, val.value);
        RefinedSideKinds(dst, op, val.value);
        ScalarTracks(c.regs, t, calls, insn.dst, sides.0);
        ScalarTracks(c.regs, t, calls, insn.dst, sides.1);
      }
    }
  }

  // --- One visit ---

  lemma KindsOk(prog: Program, v: Visit)
    requires VisitOk(prog, v)
    ensures v.at.pc < |prog| && FrameOk(v.at.frame, v.id) && forall r: RegId :: KindOk(v.at.regs[r].kind, v.id)
  {
    hide KindOk, Tnum.WellFormed;
  }

  /** No instruction but a store or a call changes the slots in the frame. */
  lemma SlotsStay(insn: BpfInsn, s: Tagged, t: Tagged)
    requires !insn.opcode.Stx? && !insn.opcode.St? && !insn.opcode.Call?
    requires SlotsLeft(insn, SlotsStored(insn, s), t.slots)
    ensures SameSlots(s, t)
  {}

  lemma AluVisitTracks(prog: Program, relocs: map<nat, Reloc>, v: Visit, s: Tagged, t: Tagged, calls: map<nat, nat>,
                       op: AluOp, source: Source, is64: bool) returns (c: Config)
    requires v.at.pc == s.at.pc < |prog|
    requires prog[s.at.pc].opcode == if is64 then Alu64(op, source) else Alu32(op, source)
    requires Disciplined(prog, v) && !Failing(prog, relocs, v)
    requires Tracks(v.at, s, calls) && TaggedSteps(prog, relocs.Keys, s, t)
    ensures c == Chosen(prog, relocs, v, s.at, t.at)
    ensures c in Successors(prog, relocs, v) && c.pc == t.at.pc && Tracks(c, t, calls)
  {
    hide AluResult, CanRead, RegsTrack, FrameTracks, AluOrigin, OperandValue, AluValue64, AluValue32, SlotsLeft;
    hide MoveModulus, SignedBelow, SignedDivision, FromSigned, PlainAlu, SlotsStored, Reloads, SameSlots;
    var insn := prog[s.at.pc];
    c := Step(prog, relocs, v.at, v.id).next;
    AluTracks(v.at.regs, s, t, calls, insn, op, source, is64);
    SlotsStay(insn, s, t);
    SameFrameTracks(v.at.frame, s, t, calls);
  }

  lemma BranchVisitTracks(prog: Program, relocs: map<nat, Reloc>, v: Visit, s: Tagged, t: Tagged, calls: map<nat, nat>,
                          op: JmpOp, source: Source, is32: bool) returns (c: Config)
    requires v.at.pc == s.at.pc < |prog|
    requires prog[s.at.pc].opcode == if is32 then Jmp32(op, source) else Jmp64(op, source)
    requires Disciplined(prog, v) && !Failing(prog, relocs, v)
    requires KindOk(v.at.regs[prog[s.at.pc].dst].kind, v.id)
    requires Tracks(v.at, s, calls) && TaggedSteps(prog, relocs.Keys, s, t)
    ensures c == Chosen(prog, relocs, v, s.at, t.at)
    ensures c in Successors(prog, relocs, v) && c.pc == t.at.pc && Tracks(c, t, calls)
  {
    hide RefineBranch, CanRead, RegsTrack, FrameTracks, Holds64, Holds32, OperandValue, Target, KindOk, SlotsLeft;
    hide SlotsStored, Reloads, SameSlots;
    var insn := prog[s.at.pc];
    SlotsStay(insn, s, t);
    if is32 && op == JA {
      LongJump(prog, relocs, v, s.at, t.at, source);
      c := v.at.(pc := t.at.pc);
      SameRegsTrack(v.at.regs, s, t, calls);
      SameFrameTracks(v.at.frame, s, t, calls);
    } else {
      var holds := Holds(op, is32, s.at.regs[insn.dst], OperandValue(s.at.regs, insn, source, !is32));
      var outcome := Step(prog, relocs, v.at, v.id);
      if holds {
        TargetUnique(prog, s.at.pc, insn.offset, t.at.pc, Target(prog, s.at.pc, insn.offset).value);
      }
      BranchTracks(v.at, s, t, calls, insn, op, source, is32, v.id);
      c := if holds then outcome.taken else outcome.fall;
    }
  }

  lemma LoadVisitTracks(prog: Program, relocs: map<nat, Reloc>, v: Visit, s: Tagged, t: Tagged, calls: map<nat, nat>,
                        w: MemWidth) returns (c: Config)
    requires v.at.pc == s.at.pc < |prog| && prog[s.at.pc].opcode == Ldx(w) && !Failing(prog, relocs, v)
    requires Tracks(v.at, s, calls) && TaggedSteps(prog, relocs.Keys, s, t)
    ensures c == Chosen(prog, relocs, v, s.at, t.at)
    ensures c in Successors(prog, relocs, v) && c.pc == t.at.pc && Tracks(c, t, calls)
  {
    hide LoadResult, CanRead, RegsTrack, FrameTracks, Claim, SlotsLeft, SlotsStored, Reloads, SameSlots, Accessed;
    var insn := prog[s.at.pc];
    c := Step(prog, relocs, v.at, v.id).next;
    LoadClaim(v.at, s, t, calls, insn, w);
    SetTracks(v.at.regs, s, t, calls, insn.dst, c.regs[insn.dst]);
    SlotsStay(insn, s, t);
    SameFrameTracks(v.at.frame, s, t, calls);
  }

  lemma StoreVisitTracks(prog: Program, relocs: map<nat, Reloc>, v: Visit, s: Tagged, t: Tagged, calls: map<nat, nat>,
                         w: MemWidth, isSt: bool) returns (c: Config)
    requires v.at.pc == s.at.pc < |prog| && IsStore(prog[s.at.pc], w, isSt)
    requires Disciplined(prog, v) && !Failing(prog, relocs, v)
    requires NothingTracked(v.at.frame) || StoresApart(prog[s.at.pc], s)
    requires Tracks(v.at, s, calls) && TaggedSteps(prog, relocs.Keys, s, t)
    ensures c == Chosen(prog, relocs, v, s.at, t.at)
    ensures c in Successors(prog, relocs, v) && c.pc == t.at.pc && Tracks(c, t, calls)
  {
    hide StoreResult, CanRead, RegsTrack, FrameTracks, KeepsSlots, StoresApart, SlotsLeft, SlotsStored, Reloads;
    var insn := prog[s.at.pc];
    c := Step(prog, relocs, v.at, v.id).next;
    SameRegsTrack(v.at.regs, s, t, calls);
    StoreTracks(v.at.regs, v.at.frame, s, t, calls, insn, w, isSt);
  }

  lemma CallVisitTracks(prog: Program, relocs: map<nat, Reloc>, v: Visit, s: Tagged, t: Tagged, calls: map<nat, nat>)
    returns (c: Config, calls': map<nat, nat>)
    requires v.at.pc == s.at.pc < |prog| && prog[s.at.pc].opcode.Call?
    requires Disciplined(prog, v) && !Failing(prog, relocs, v)
    requires FrameOk(v.at.frame, v.id) && forall r: RegId :: KindOk(v.at.regs[r].kind, v.id)
    requires Tracks(v.at, s, calls) && TaggedSteps(prog, relocs.Keys, s, t)
    ensures c == Chosen(prog, relocs, v, s.at, t.at)
    ensures c in Successors(prog, relocs, v) && c.pc == t.at.pc && Tracks(c, t, calls')
  {
    hide AfterCall, ReturnValue, FrameAfterCall, GetHelper, ArgError, RegsTrack, FrameTracks, KindOk, FrameOk;
    hide NothingTracked, FrameMayChange, AfterCallOrigins, IsNullable, SlotsLeft, Reloads;
    var insn, spec := prog[s.at.pc], GetHelper(prog[s.at.pc].imm).value;
    c := Step(prog, relocs, v.at, v.id).next;
    calls' := CallTracks(v.at.regs, s, t, calls, spec.ret, s.at.pc, v.id);
    CallFrameTracks(v.at.regs, v.at.frame, s, t, calls, insn, spec, v.id);
  }

  lemma PlainVisitTracks(prog: Program, relocs: map<nat, Reloc>, v: Visit, s: Tagged, t: Tagged, calls: map<nat, nat>)
    returns (c: Config)
    requires v.at.pc == s.at.pc < |prog| && (prog[s.at.pc].opcode.LdImm64? || prog[s.at.pc].opcode.JmpJa?)
    requires !Failing(prog, relocs, v)
    requires Tracks(v.at, s, calls) && TaggedSteps(prog, relocs.Keys, s, t)
    ensures c == Chosen(prog, relocs, v, s.at, t.at)
    ensures c in Successors(prog, relocs, v) && c.pc == t.at.pc && Tracks(c, t, calls)
  {
    hide WideLoad, Target, WideImm, RegsTrack, FrameTracks, Claim, SlotsLeft, SlotsStored, Reloads, SameSlots;
    hide ClaimsBits;
    var regs, insn := v.at.regs, prog[s.at.pc];
    c := Step(prog, relocs, v.at, v.id).next;
    SlotsStay(insn, s, t);
    SameFrameTracks(v.at.frame, s, t, calls);
    if insn.opcode.LdImm64? {
      WideLoadKind(insn, if s.at.pc in relocs then Some(relocs[s.at.pc]) else None);
      NoOrigin(c.regs[insn.dst].kind, t.at.regs[insn.dst], t.results, t.frame, calls);
      SetTracks(regs, s, t, calls, insn.dst, c.regs[insn.dst]);
    } else {
      TargetUnique(prog, s.at.pc, insn.offset, t.at.pc, Target(prog, s.at.pc, insn.offset).value);
      SameRegsTrack(regs, s, t, calls);
    }
  }

  /** No run goes on from an exit or an unknown instruction. */
  lemma RunsOn(prog: Program, relocated: set<nat>, s: Tagged, t: Tagged)
    requires TaggedSteps(prog, relocated, s, t)
    ensures s.at.pc < |prog| && !prog[s.at.pc].opcode.Exit? && !prog[s.at.pc].opcode.Unknown?
  {
    hide Computes, Jumps, IsTarget, NextOrigins, SlotsLeft, SlotsStored, Reloads;
  }

  lemma StepTracks(prog: Program, relocs: map<nat, Reloc>, v: Visit, s: Tagged, t: Tagged, calls: map<nat, nat>)
    returns (c: Config, calls': map<nat, nat>)
    requires VisitOk(prog, v) && v.at.pc == s.at.pc && !Failing(prog, relocs, v)
    requires v.at.pc < |prog| && Disciplined(prog, v)
    requires NothingTracked(v.at.frame) || StoresApart(prog[s.at.pc], s)
    requires Tracks(v.at, s, calls) && TaggedSteps(prog, relocs.Keys, s, t)
    ensures c == Chosen(prog, relocs, v, s.at, t.at)
    ensures c in Successors(prog, relocs, v) && c.pc == t.at.pc && Tracks(c, t, calls')
  {
    hide Chosen;
    hide Tracks, Disciplined, Successors, Failing, TaggedSteps, KindOk, ConfigOk, FrameOk, StoresApart, NothingTracked;
    KindsOk(prog, v);
    RunsOn(prog, relocs.Keys, s, t);
    calls' := calls;
    match prog[s.at.pc].opcode {
      case Alu64(op, source) => c := AluVisitTracks(prog, relocs, v, s, t, calls, op, source, true);
      case Alu32(op, source) => c := AluVisitTracks(prog, relocs, v, s, t, calls, op, source, false);
      case Jmp64(op, source) => c := BranchVisitTracks(prog, relocs, v, s, t, calls, op, source, false);
      case Jmp32(op, source) => c := BranchVisitTracks(prog, relocs, v, s, t, calls, op, source, true);
      case Ldx(w) => c := LoadVisitTracks(prog, relocs, v, s, t, calls, w);
      case Stx(w) => c := StoreVisitTracks(prog, relocs, v, s, t, calls, w, false);
      case St(w) => c := StoreVisitTracks(prog, relocs, v, s, t, calls, w, true);
      case Call => c, calls' := CallVisitTracks(prog, relocs, v, s, t, calls);
      case LdImm64 => c := PlainVisitTracks(prog, relocs, v, s, t, calls);
      case JmpJa => c := PlainVisitTracks(prog, relocs, v, s, t, calls);
    }
  }

  /** What a visit without error uses as a pointer is one. */
  lemma UsedIsPointer(prog: Program, relocs: map<nat, Reloc>, v: Visit, r: RegId)
    requires v.at.pc < |prog| && !Failing(prog, relocs, v) && UsesAsPointer(prog[v.at.pc], r)
    ensures v.at.regs[r].kind.IsPtr()
  {
    hide CheckBounds, CheckReadable, InRegion, WrapI64, AluResult, RefineBranch, WideLoad, AfterCall, ReturnValue;
    hide FrameAfterCall, GetHelper, CanRead, CheckExit, Target, MarkWritten;
    var insn := prog[v.at.pc];
    if insn.opcode.Call? {
      AcceptedArgIsPointer(GetHelper(insn.imm).value.args, v.at.regs, 0, r - 1);
    }
  }

  lemma {:induction false} AcceptedArgIsPointer(args: seq<ArgType>, regs: Regs, i: nat, k: nat)
    requires i <= k < |args| <= 5 && ArgError(args, regs, i).None? && TakesPointer(args[k])
    ensures regs[1 + k].kind.IsPtr()
    decreases |args| - i
  {
    if i < k {
      AcceptedArgIsPointer(args, regs, i + 1, k);
    }
  }

  lemma PointerIsNotNull(kind: RegType, bits: bv64, origin: Origin, results: seq<bv64>, frame: bv64,
                         calls: map<nat, nat>)
    requires IsKnownPtr(kind) && Claim(kind, bits, origin, results, frame, calls)
    ensures NotNull(origin, results)
  {
    hide AddressAt;
  }

  // --- Whole runs ---

  /** The claims of an arriving state are those of some visit. */
  lemma CarryOver(prog: Program, relocs: map<nat, Reloc>, visits: set<Visit>, c: Config, s: Tagged,
                  calls: map<nat, nat>)
    returns (v: Visit)
    requires ClaimsKept(prog, relocs, visits) && Arrives(prog, relocs, visits, c) && c.pc < |prog|
    requires Tracks(c, s, calls)
    ensures v in visits && v.at.pc == c.pc && Tracks(v.at, s, calls)
  {
    hide Arrives, KeepsClaims, Tracks;
    assert Carried(visits, c);
    v :| v in visits && v.at.pc == c.pc && KeepsClaims(v.at, c);
    CarriedTracks(v.at, c, s, calls);
  }

  lemma EntryTracks(values: Values)
    ensures Tracks(EntryConfig(), Entered(values), map[]) && EntryConfig().pc == 0
  {
    hide AddressAt;
    AddressZero(values[10]);
  }

  lemma EntryArrives(prog: Program, relocs: map<nat, Reloc>, visits: set<Visit>)
    ensures Arrives(prog, relocs, visits, EntryConfig())
  {}

  lemma SuccessorArrives(prog: Program, relocs: map<nat, Reloc>, visits: set<Visit>, v: Visit, c: Config)
    requires v in visits && c in Successors(prog, relocs, v)
    ensures Arrives(prog, relocs, visits, c)
  {
    hide Successors;
  }

  /** The run's stores leave the frame alone, or nothing that matters is ever there. */
  ghost predicate SpillsAreSafe(prog: Program, visits: set<Visit>, run: seq<Tagged>) {
    FrameIsPrivate(prog, run) || forall v :: v in visits ==> NothingTracked(v.at.frame)
  }

  /** A run without its last state. */
  lemma ShorterRun(prog: Program, relocated: set<nat>, visits: set<Visit>, run: seq<Tagged>)
    requires |run| >= 2 && IsTaggedRun(prog, relocated, run) && SpillsAreSafe(prog, visits, run)
    ensures IsTaggedRun(prog, relocated, run[..|run| - 1]) && SpillsAreSafe(prog, visits, run[..|run| - 1])
    ensures TaggedSteps(prog, relocated, run[|run| - 2], run[|run| - 1]) && run[|run| - 2].at.pc < |prog|
    ensures forall v :: v in visits ==>
              NothingTracked(v.at.frame) || StoresApart(prog[run[|run| - 2].at.pc], run[|run| - 2])
  {
    hide TaggedSteps, StoresApart, Entered, NothingTracked;
    var init, n := run[..|run| - 1], |run| - 2;
    assert TaggedSteps(prog, relocated, run[n], run[n + 1]);
    TaggedInside(prog, relocated, run[n], run[n + 1]);
    forall i | 0 <= i < |init| - 1
      ensures TaggedSteps(prog, relocated, init[i], init[i + 1])
    {
      assert TaggedSteps(prog, relocated, run[i], run[i + 1]);
    }
    if FrameIsPrivate(prog, run) {
      forall i | 0 <= i < |init| - 1 && init[i].at.pc < |prog|
        ensures StoresApart(prog[init[i].at.pc], init[i])
      {
        assert StoresApart(prog[run[i].at.pc], run[i]);
      }
    }
  }

  lemma TaggedInside(prog: Program, relocated: set<nat>, s: Tagged, t: Tagged)
    requires TaggedSteps(prog, relocated, s, t)
    ensures s.at.pc < |prog|
  {
    StepInside(prog, relocated, s.at, t.at);
  }

  /** At each instruction of each run, some state visited there claims only what is true: registers and slots sharing an
      identifier hold the result of one call, frame pointers hold their addresses, and resolved pointers derive from no
      null result. */
  lemma {:induction false} RunIsTracked(prog: Program, relocs: map<nat, Reloc>, visits: set<Visit>, run: seq<Tagged>)
    returns (v: Visit, calls: map<nat, nat>)
    requires Certificate(prog, relocs, visits) && NullDiscipline(prog, relocs, visits)
    requires IsTaggedRun(prog, relocs.Keys, run) && SpillsAreSafe(prog, visits, run)
    requires run[|run| - 1].at.pc < |prog|
    ensures v in visits && v.at.pc == run[|run| - 1].at.pc && !Failing(prog, relocs, v)
    ensures Tracks(v.at, run[|run| - 1], calls)
    decreases |run|
  {
    hide Covered, Successors, VisitOk, Failing, Disciplined, ClaimsKept, Tracks, TaggedSteps, EntryConfig, Arrives;
    hide SpillsAreSafe, Entered, StoresApart, NothingTracked;
    if |run| == 1 {
      EntryTracks(run[0].at.regs);
      EntryArrives(prog, relocs, visits);
      EntryPc(run[0].at.regs);
      calls := map[];
      v := CarryOver(prog, relocs, visits, EntryConfig(), run[0], calls);
    } else {
      var s, t := run[|run| - 2], run[|run| - 1];
      ShorterRun(prog, relocs.Keys, visits, run);
      var u, known := RunIsTracked(prog, relocs, visits, run[..|run| - 1]);
      assert VisitOk(prog, u);
      var c;
      c, calls := StepTracks(prog, relocs, u, s, t, known);
      SuccessorArrives(prog, relocs, visits, u, c);
      v := CarryOver(prog, relocs, visits, c, t, calls);
    }
  }

  lemma EntryPc(values: Values)
    ensures Entered(values).at.pc == 0
  {}

  /** Whatever the lookups and reservations of an accepted program return, no run accesses memory through a null
      result, or passes one to a helper that expects a pointer, through whatever copies it was spilled and reloaded;
      what the checker takes for a kernel pointer it never checks. */
  lemma NoNullIsUsed(prog: Program, relocs: map<nat, Reloc>, visits: set<Visit>, run: seq<Tagged>, r: RegId)
    returns (v: Visit)
    requires Certificate(prog, relocs, visits) && NullDiscipline(prog, relocs, visits)
    requires IsTaggedRun(prog, relocs.Keys, run) && SpillsAreSafe(prog, visits, run)
    requires run[|run| - 1].at.pc < |prog|
    requires UsesAsPointer(prog[run[|run| - 1].at.pc], r)
    ensures v in visits && v.at.pc == run[|run| - 1].at.pc
    ensures NotNull(run[|run| - 1].from[r], run[|run| - 1].results) || v.at.regs[r].kind.KernelPtr?
  {
    hide Complete, NoFailure, RegsTrack, TaggedSteps, Failing, UsesAsPointer, Disciplined, ClaimsKept, FrameTracks;
    hide SpillsAreSafe, NotNull, Claim;
    var s, calls := run[|run| - 1], map[];
    v, calls := RunIsTracked(prog, relocs, visits, run);
    UsedIsPointer(prog, relocs, v, r);
    RegClaim(v.at.regs, s, calls, r);
    if !v.at.regs[r].kind.KernelPtr? {
      PointerIsNotNull(v.at.regs[r].kind, s.at.regs[r], s.from[r], s.results, s.frame, calls);
    }
  }
}

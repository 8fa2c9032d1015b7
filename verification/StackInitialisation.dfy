/** Accepted programs read only bytes of the stack frame that were stored on the way.

  The programs meant here access memory through the frame pointer alone and never overwrite it. What a helper writes
  into a buffer on the stack counts as stored: the bytes that the states visited at the call give it.
*/
module StackInitialisation {
  import opened Wrappers
  import opened Words
  import opened Tnums
  import opened Instructions
  import opened HelperTable
  import opened RegStates
  import opened AbstractStates
  import opened ControlFlow
  import opened Transfer
  import opened Certificates
  import opened Exploration
  import opened DefiniteAssignment

  // --- The programs ---

  predicate UsesFrameOnly(insn: BpfInsn) {
    match insn.opcode
    case Ldx(_) => insn.src == 10 && insn.dst != 10
    case Stx(_) => insn.dst == 10
    case St(_) => insn.dst == 10
    case Alu64(_, _) => insn.dst != 10
    case Alu32(_, _) => insn.dst != 10
    case LdImm64 => insn.dst != 10
    case _ => true
  }

  predicate IsFrameProgram(prog: Program) {
    forall pc :: 0 <= pc < |prog| ==> UsesFrameOnly(prog[pc])
  }

  // --- What a path stores and loads ---

  /** The frame offsets of the bytes an access at `offset` covers. */
  function Bytes(offset: int, width: nat): (bytes: set<int>)
    ensures forall b :: b in bytes <==> offset <= b < offset + width
  {
    if width == 0 then {} else Bytes(offset, width - 1) + {offset + width - 1}
  }

  /** The helpers that fill the buffer in r1 with as many bytes as r2 says. */
  predicate IsFilling(insn: BpfInsn) { insn.opcode.Call? && insn.imm in {4, 16, 45, 112, 113, 115} }

  /** The state gives the helper a buffer on the stack and says how long it is, and the byte lies in it. */
  predicate InBuffer(regs: Regs, b: int) {
    && regs[1].kind.FramePtr? && regs[2].tnum.IsKnown()
    && regs[1].kind.offset <= b < regs[1].kind.offset + U(regs[2].tnum.value)
  }

  ghost predicate Filled(visits: set<Visit>, pc: nat, b: int) {
    exists v :: v in visits && v.at.pc == pc && InBuffer(v.at.regs, b)
  }

  /** The bytes the instruction at `pc` stores: for a helper those of the frame that some visit there gives it. */
  ghost function Stores(prog: Program, visits: set<Visit>, pc: nat): set<int>
    requires pc < |prog|
  {
    var insn := prog[pc];
    match insn.opcode
    case Stx(w) => Bytes(insn.offset, WidthBytes(w))
    case St(w) => Bytes(insn.offset, WidthBytes(w))
    case Call => if IsFilling(insn) then set b: int | -512 <= b < 0 && Filled(visits, pc, b) else {}
    case _ => {}
  }

  function Loads(insn: BpfInsn): set<int> {
    match insn.opcode
    case Ldx(w) => Bytes(insn.offset, WidthBytes(w))
    case _ => {}
  }

  /** The bytes stored by the instructions before the end of the path. */
  ghost function Stored(prog: Program, visits: set<Visit>, path: seq<nat>): set<int>
    requires IsPath(prog, path)
  {
    if |path| == 1 then {}
    else
      PrefixIsPath(prog, path);
      assert Edge(prog, path[|path| - 2], path[|path| - 2 + 1]);
      Stored(prog, visits, path[..|path| - 1]) + Stores(prog, visits, path[|path| - 2])
  }

  /** The bytes of the 512-byte frame, as offsets from the frame pointer. */
  predicate WithinFrame(bytes: set<int>) {
    forall b :: b in bytes ==> -512 <= b < 0
  }

  // --- The checker's frame ---

  predicate HoldsFramePointer(c: Config) { c.regs[10].kind == FramePtr(0) }

  /** Every byte marked as initialised is one of `bytes`. */
  predicate InitWithin(init: InitMap, bytes: set<int>) {
    forall i :: 0 <= i < 512 && init[i] ==> i - 512 in bytes
  }

  lemma BoundsMean(offset: I16, width: nat)
    requires 1 <= width <= 8
    ensures CheckBounds(offset, width) <==> WithinFrame(Bytes(offset, width))
  {
    hide Bytes;
    if WithinFrame(Bytes(offset, width)) {
      assert (offset as int) in Bytes(offset, width);
      assert offset + width - 1 in Bytes(offset, width);
    }
  }

  lemma ByteIndexIs(offset: I64, k: nat)
    requires k < 512
    ensures ByteIndex(offset, k) == if -512 <= offset + k < 0 then Some(offset + k + 512) else None
  {}

  /** A store initialises just the bytes of the frame that it covers. */
  lemma TouchedBytes(offset: I64, width: nat, i: nat)
    requires width <= 512 && i < 512
    ensures Touches(offset, width, i) <==> i - 512 in Bytes(offset, width)
  {
    hide ByteIndex;
    if Touches(offset, width, i) {
      var k: nat :| k < width && ByteIndex(offset, k) == Some(i);
      ByteIndexIs(offset, k);
    }
    if i - 512 in Bytes(offset, width) {
      var k: nat := i - 512 - offset;
      ByteIndexIs(offset, k);
      assert k < width && ByteIndex(offset, k) == Some(i);
    }
  }

  lemma ReadableByte(frame: Frame, offset: I64, width: nat, k: nat)
    requires k < width <= 512 && CheckReadable(frame, offset, width)
    ensures -512 <= offset + k < 0 && frame.init[offset + k + 512]
  {
    hide ByteIndex;
    ByteIndexIs(offset, k);
    assert ByteIndex(offset, k).Some? && frame.init[ByteIndex(offset, k).value];
  }

  lemma ReadableBytes(frame: Frame, offset: I16, width: nat, bytes: set<int>)
    requires 1 <= width <= 8 && CheckReadable(frame, offset, width) && InitWithin(frame.init, bytes)
    ensures Bytes(offset, width) <= bytes
  {
    hide CheckReadable;
    forall b | b in Bytes(offset, width)
      ensures b in bytes
    {
      ReadableByte(frame, offset, width, b - offset);
    }
  }

  lemma MarkedWithin(frame: Frame, offset: I16, width: nat, bytes: set<int>)
    requires 1 <= width <= 8 && InitWithin(frame.init, bytes)
    ensures InitWithin(MarkWritten(frame, offset, width).init, bytes + Bytes(offset, width))
  {
    hide Touches, Bytes;
    forall i | 0 <= i < 512 && MarkWritten(frame, offset, width).init[i]
      ensures i - 512 in bytes + Bytes(offset, width)
    {
      TouchedBytes(offset, width, i);
    }
  }

  lemma StoreWithin(regs: Regs, frame: Frame, insn: BpfInsn, w: MemWidth, isSt: bool, bytes: set<int>)
    requires regs[insn.dst].kind == FramePtr(0) && InitWithin(frame.init, bytes)
    requires StoreResult(regs, frame, insn, w, isSt).Success?
    ensures InitWithin(StoreResult(regs, frame, insn, w, isSt).value.init, bytes + Bytes(insn.offset, WidthBytes(w)))
    ensures WithinFrame(Bytes(insn.offset, WidthBytes(w)))
  {
    hide MarkWritten, CheckBounds, WithinFrame, Bytes, InitWithin;
    var width := WidthBytes(w);
    assert WrapI64(0 + insn.offset) == insn.offset;
    BoundsMean(insn.offset, width);
    MarkedWithin(frame, insn.offset, width, bytes);
    MarkedWithin(ClearSpill(frame, insn.offset), insn.offset, width, bytes);
  }

  // --- What helpers write ---

  lemma FillingHelpers(insn: BpfInsn, spec: HelperSpec)
    requires insn.opcode.Call? && GetHelper(insn.imm) == Some(spec)
    ensures FillsBuffer(spec) <==> IsFilling(insn)
  {}

  /** How much of a buffer of `n` bytes the checker takes for written: its count has eight bits, and stops at 512. */
  function CountedBytes(n: nat): nat {
    if n < 256 then n else if n < 512 then n - 256 else 0
  }

  /** The frame after a helper has filled a buffer on the stack. A byte is written then exactly if it was before or
      lies in the buffer, of which all bytes count if there are fewer than 256. Beside the bytes only the slot at the
      start of the buffer changes: it holds a kernel pointer once a helper has read eight bytes, or 264, from the
      kernel. */
  lemma FilledFrame(insn: BpfInsn, spec: HelperSpec, regs: Regs, frame: Frame, o: I64, n: bv64, i: nat)
    requires GetHelper(insn.imm) == Some(spec) && IsFilling(insn) && i < 512
    requires regs[1].kind == FramePtr(o) && regs[2].tnum == Tnum.Constant(n)
    ensures var after := FrameAfterCall(spec, insn.imm, regs, frame);
            && (after.init[i] <==> frame.init[i] || o <= i - 512 < o + CountedBytes(U(n)))
            && (U(n) < 256 ==> (after.init[i] <==> frame.init[i] || o <= i - 512 < o + U(n)))
            && after.spills == if U(n) in {8, 264} && insn.imm in {4, 113, 115}
                               then frame.spills[o := AnyValue(KernelPtr)] else frame.spills
  {
    hide U, Touches, Bytes, GetHelper;
    CountIs(U(n));
    SizeIs(regs, n);
    FillingHelpers(insn, spec);
    TouchedBytes(o, CountedBytes(U(n)), i);
    TouchedBytes(o, 8, i);
  }

  lemma SizeIs(regs: Regs, n: bv64)
    requires regs[2].tnum == Tnum.Constant(n)
    ensures WriteSize(regs) == Min(U(n), 512) % 256
  {
    hide U;
  }

  lemma CountIs(n: nat)
    ensures Min(n, 512) % 256 == CountedBytes(n) && CountedBytes(n) <= n && (CountedBytes(n) == 8 <==> n in {8, 264})
  {}

  /** A call leaves the frame as it is if it fills no buffer on the stack, or one of unknown length. */
  lemma UnfilledFrame(insn: BpfInsn, spec: HelperSpec, regs: Regs, frame: Frame)
    requires insn.opcode.Call? && GetHelper(insn.imm) == Some(spec)
    requires !IsFilling(insn) || !regs[1].kind.FramePtr? || !regs[2].tnum.IsKnown()
    ensures FrameAfterCall(spec, insn.imm, regs, frame) == frame
  {
    hide U, Touches, GetHelper;
    FillingHelpers(insn, spec);
  }

  /** A byte written after a call and not before lies in the buffer that the state gives the helper. */
  lemma NewBytes(insn: BpfInsn, spec: HelperSpec, regs: Regs, frame: Frame, i: nat)
    requires insn.opcode.Call? && GetHelper(insn.imm) == Some(spec) && i < 512
    requires !frame.init[i] && FrameAfterCall(spec, insn.imm, regs, frame).init[i]
    ensures IsFilling(insn) && InBuffer(regs, i - 512)
  {
    hide U, FrameAfterCall, GetHelper;
    if IsFilling(insn) && regs[1].kind.FramePtr? && regs[2].tnum.IsKnown() {
      FilledFrame(insn, spec, regs, frame, regs[1].kind.offset, regs[2].tnum.value, i);
      CountIs(U(regs[2].tnum.value));
    } else {
      UnfilledFrame(insn, spec, regs, frame);
    }
  }

  lemma CallWithin(prog: Program, visits: set<Visit>, v: Visit, spec: HelperSpec, bytes: set<int>)
    requires v in visits && v.at.pc < |prog| && prog[v.at.pc].opcode.Call?
    requires GetHelper(prog[v.at.pc].imm) == Some(spec) && InitWithin(v.at.frame.init, bytes)
    ensures InitWithin(FrameAfterCall(spec, prog[v.at.pc].imm, v.at.regs, v.at.frame).init,
                       bytes + Stores(prog, visits, v.at.pc))
  {
    hide FrameAfterCall, InBuffer, GetHelper;
    var after := FrameAfterCall(spec, prog[v.at.pc].imm, v.at.regs, v.at.frame);
    forall i | 0 <= i < 512 && after.init[i]
      ensures i - 512 in bytes + Stores(prog, visits, v.at.pc)
    {
      if !v.at.frame.init[i] {
        NewBytes(prog[v.at.pc], spec, v.at.regs, v.at.frame, i);
        assert Filled(visits, v.at.pc, i - 512);
      }
    }
  }

  // --- One visit ---

  /** A visit without error loads only initialised bytes, and accesses only the frame. */
  lemma VisitLoads(prog: Program, relocs: map<nat, Reloc>, visits: set<Visit>, v: Visit, bytes: set<int>)
    requires v.at.pc < |prog| && UsesFrameOnly(prog[v.at.pc]) && !Failing(prog, relocs, v)
    requires HoldsFramePointer(v.at) && InitWithin(v.at.frame.init, bytes)
    ensures Loads(prog[v.at.pc]) <= bytes
    ensures WithinFrame(Loads(prog[v.at.pc]) + Stores(prog, visits, v.at.pc))
  {
    hide CheckReadable, CheckBounds, AluResult, AfterCall, RefineBranch, ReturnValue, ArgError, CheckExit, Bytes;
    hide MarkWritten, WideLoad, InitWithin, WithinFrame, StoreResult;
    var insn, regs, frame := prog[v.at.pc], v.at.regs, v.at.frame;
    match insn.opcode {
      case Ldx(w) =>
        assert WrapI64(0 + insn.offset) == insn.offset;
        BoundsMean(insn.offset, WidthBytes(w));
        ReadableBytes(frame, insn.offset, WidthBytes(w), bytes);
        assert Bytes(insn.offset, WidthBytes(w)) + {} == Bytes(insn.offset, WidthBytes(w));
      case Stx(w) =>
        StoreWithin(regs, frame, insn, w, false, bytes);
        assert {} + Bytes(insn.offset, WidthBytes(w)) == Bytes(insn.offset, WidthBytes(w));
      case St(w) =>
        StoreWithin(regs, frame, insn, w, true, bytes);
        assert {} + Bytes(insn.offset, WidthBytes(w)) == Bytes(insn.offset, WidthBytes(w));
      case _ => NothingOutside(prog, visits, v.at.pc);
    }
  }

  lemma NothingOutside(prog: Program, visits: set<Visit>, pc: nat)
    requires pc < |prog| && !prog[pc].opcode.Ldx? && !prog[pc].opcode.Stx? && !prog[pc].opcode.St?
    ensures WithinFrame(Loads(prog[pc]) + Stores(prog, visits, pc))
  {
    hide Filled;
  }

  /** A visit initialises only what its instruction stores. */
  lemma VisitStores(prog: Program, relocs: map<nat, Reloc>, visits: set<Visit>, v: Visit, s: Config, bytes: set<int>)
    requires v in visits && v.at.pc < |prog| && UsesFrameOnly(prog[v.at.pc]) && s in Successors(prog, relocs, v)
    requires HoldsFramePointer(v.at) && InitWithin(v.at.frame.init, bytes)
    ensures InitWithin(s.frame.init, bytes + Stores(prog, visits, v.at.pc))
  {
    hide LoadResult, CheckBounds, AluResult, AfterCall, ReturnValue, ArgError, CheckExit, Bytes, CanRead, Target;
    hide MarkWritten, WideLoad, StoreResult, Refine64, Refine32, CompareValue, U, GetHelper, ResolveRegs, Filled;
    hide FrameAfterCall;
    var insn, regs, frame := prog[v.at.pc], v.at.regs, v.at.frame;
    match insn.opcode {
      case Stx(w) => StoreWithin(regs, frame, insn, w, false, bytes);
      case St(w) => StoreWithin(regs, frame, insn, w, true, bytes);
      case Jmp64(op, source) => BranchKeepsInit(regs, frame, insn, op, source, false);
      case Jmp32(op, source) => BranchKeepsInit(regs, frame, insn, op, source, true);
      case Call => CallWithin(prog, visits, v, GetHelper(insn.imm).value, bytes);
      case _ =>
    }
  }

  lemma BranchKeepsInit(regs: Regs, frame: Frame, insn: BpfInsn, op: JmpOp, source: Source, is32: bool)
    ensures var b := RefineBranch(regs, frame, insn, op, source, is32);
            b.takenFrame.init == frame.init && b.fallFrame.init == frame.init
  {
    hide Refine64, Refine32, CompareValue, U, ResolveRegs, Resolve;
  }

  // --- The frame pointer ---

  lemma StepKeepsFramePointer(prog: Program, relocs: map<nat, Reloc>, v: Visit, s: Config)
    requires IsFrameProgram(prog) && HoldsFramePointer(v.at) && s in Successors(prog, relocs, v)
    ensures HoldsFramePointer(s)
  {
    hide LoadResult, AluResult, ReturnValue, ArgError, CheckExit, CanRead, Target, FrameAfterCall;
    hide WideLoad, StoreResult, GetHelper, RefineBranch;
    var insn, regs, frame := prog[v.at.pc], v.at.regs, v.at.frame;
    assert UsesFrameOnly(insn);
    match insn.opcode {
      case Jmp64(op, source) => BranchKeepsFramePointer(regs, frame, insn, op, source, false);
      case Jmp32(op, source) => BranchKeepsFramePointer(regs, frame, insn, op, source, true);
      case _ =>
    }
  }

  lemma BranchKeepsFramePointer(regs: Regs, frame: Frame, insn: BpfInsn, op: JmpOp, source: Source, is32: bool)
    requires regs[10].kind == FramePtr(0)
    ensures var b := RefineBranch(regs, frame, insn, op, source, is32);
            b.taken[10].kind == FramePtr(0) && b.fall[10].kind == FramePtr(0)
  {
    hide Refine64, Refine32, CompareValue, U, ResolveSpills;
  }

  lemma WidenKeepsFramePointer(prev: Config, c: Config, w: Config)
    requires HoldsFramePointer(prev) && HoldsFramePointer(c) && WidensTo(prev, c, w)
    ensures HoldsFramePointer(w)
  {
    hide RegState.Hull, RegState.Refined, WidenFrame;
  }

  lemma EntryHoldsFramePointer()
    ensures HoldsFramePointer(EntryConfig()) && InitWithin(EntryConfig().frame.init, {}) && EntryConfig().pc == 0
  {}

  lemma VisitsHoldFramePointer(prog: Program, relocs: map<nat, Reloc>, trace: seq<Visit>)
    requires Grounded(prog, relocs, trace) && IsFrameProgram(prog)
    ensures forall v :: v in Visited(trace) ==> HoldsFramePointer(v.at)
  {
    hide HoldsFramePointer, Successors, WidensTo, Grounded, IsFrameProgram, EntryConfig;
    EntryHoldsFramePointer();
    forall v, s | v in trace && HoldsFramePointer(v.at) && s in Successors(prog, relocs, v)
      ensures HoldsFramePointer(s)
    {
      StepKeepsFramePointer(prog, relocs, v, s);
    }
    forall prev, c, w | HoldsFramePointer(prev) && HoldsFramePointer(c) && WidensTo(prev, c, w)
      ensures HoldsFramePointer(w)
    {
      WidenKeepsFramePointer(prev, c, w);
    }
    GroundedInvariant(prog, relocs, trace, HoldsFramePointer, |trace|);
  }

  // --- Whole paths ---

  lemma CoverKeepsInit(prog: Program, visits: set<Visit>, c: Config, bytes: set<int>) returns (v: Visit)
    requires Covered(prog, visits, c) && c.pc < |prog| && InitWithin(c.frame.init, bytes)
    ensures v in visits && v.at.pc == c.pc && InitWithin(v.at.frame.init, bytes)
  {
    hide RegsWithin, WidenRegs, IsLoopHead, RegState.Widen;
    if SubsumedIn(visits, c) {
      v :| v in visits && Subsumes(v.at, c);
    } else {
      var prev;
      prev, v :| prev in visits && v in visits && WidensTo(prev.at, c, v.at);
    }
  }

  lemma {:induction false} PathInitialises(prog: Program, relocs: map<nat, Reloc>, trace: seq<Visit>, path: seq<nat>)
    returns (v: Visit)
    requires Certificate(prog, relocs, Visited(trace)) && Grounded(prog, relocs, trace) && IsFrameProgram(prog)
    requires IsPath(prog, path) && path[0] == 0 && path[|path| - 1] < |prog|
    ensures v in Visited(trace) && v.at.pc == path[|path| - 1]
    ensures InitWithin(v.at.frame.init, Stored(prog, Visited(trace), path))
    decreases |path|
  {
    hide Covered, Successors, VisitOk, Failing, InitWithin, Grounded, Stores, UsesFrameOnly, Visited, EntryConfig;
    EntryHoldsFramePointer();
    if |path| == 1 {
      v := CoverKeepsInit(prog, Visited(trace), EntryConfig(), {});
    } else {
      var init := path[..|path| - 1];
      PrefixIsPath(prog, path);
      assert Edge(prog, path[|init| - 1], path[|init| - 1 + 1]);
      var u := PathInitialises(prog, relocs, trace, init);
      VisitsHoldFramePointer(prog, relocs, trace);
      var s := EdgeHasSuccessor(prog, relocs, u, path[|path| - 1]);
      VisitStores(prog, relocs, Visited(trace), u, s, Stored(prog, Visited(trace), init));
      v := CoverKeepsInit(prog, Visited(trace), s, Stored(prog, Visited(trace), path));
    }
  }

  /** On every control-flow path of an accepted frame program, round loops any number of times, each byte loaded
      lies in the frame and was stored earlier on that path, and each byte stored lies in the frame. */
  lemma LoadsAreStored(prog: Program, relocs: map<nat, Reloc>, trace: seq<Visit>, path: seq<nat>)
    requires Certificate(prog, relocs, Visited(trace)) && Grounded(prog, relocs, trace) && IsFrameProgram(prog)
    requires IsPath(prog, path) && path[0] == 0 && path[|path| - 1] < |prog|
    ensures var pc, visits := path[|path| - 1], Visited(trace);
            && Loads(prog[pc]) <= Stored(prog, visits, path)
            && WithinFrame(Loads(prog[pc]) + Stores(prog, visits, pc))
  {
    hide Complete, Grounded, Failing, InitWithin, WithinFrame, UsesFrameOnly, Visited, HoldsFramePointer, Stored, Loads;
    hide Stores;
    var v := PathInitialises(prog, relocs, trace, path);
    VisitsHoldFramePointer(prog, relocs, trace);
    VisitLoads(prog, relocs, Visited(trace), v, Stored(prog, Visited(trace), path));
  }
}

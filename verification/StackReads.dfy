/** Runs of accepted programs read only bytes of their stack frame that they have written, through whatever pointers
  they got there, and through whatever helpers.

  The conditions are those under which pointer types and numbers hold in runs. What a run writes is a matter of its
  registers alone: the address and the width of each store, and the buffer each filling helper is given.
*/
module StackReads {
  import opened Wrappers
  import opened Words
  import opened Addresses
  import opened Tnums
  import opened Instructions
  import opened HelperTable
  import opened RegStates
  import opened AbstractStates
  import opened ControlFlow
  import opened Transfer
  import opened Certificates
  import opened Machine
  import opened AluSoundness
  import opened ValueSoundness
  import opened NullRuns
  import opened NullSafety
  import opened AddressClaims
  import opened PointerAddresses
  import opened StackInitialisation

  // --- What a run writes ---

  /** The instruction writes the byte at offset `b` from the frame's end. */
  predicate WritesByte(insn: BpfInsn, regs: Values, frame: bv64, b: int) {
    if insn.opcode.Stx? || insn.opcode.St? then
      var o := OffsetFrom(frame, Plus(regs[insn.dst], FromSigned(insn.offset)));
      o <= b < o + WidthBytes(insn.opcode.width)
    else IsFilling(insn) && var o := OffsetFrom(frame, regs[1]); o <= b < o + U(regs[2])
  }

  /** Some step of the run wrote the byte. */
  ghost predicate WrittenBefore(prog: Program, run: seq<State>, b: int)
    requires |run| > 0
  {
    exists i :: 0 <= i < |run| - 1 && run[i].pc < |prog|
             && WritesByte(prog[run[i].pc], run[i].regs, EntryBases(run[0].regs).frame, b)
  }

  /** The run has written all of the bytes, and they lie in the frame. */
  ghost predicate AllWritten(prog: Program, run: seq<State>, offset: int, width: nat)
    requires |run| > 0
  {
    && -512 <= offset && offset + width <= 0
    && forall b :: offset <= b < offset + width ==> WrittenBefore(prog, run, b)
  }

  ghost predicate InitWritten(prog: Program, run: seq<State>, frame: Frame)
    requires |run| > 0
  {
    forall i :: 0 <= i < 512 && frame.init[i] ==> WrittenBefore(prog, run, i - 512)
  }

  // --- The programs ---

  /** The length of a buffer to be filled is a number. */
  predicate SizesAreNumbers(prog: Program, v: Visit)
    requires v.at.pc < |prog|
  {
    IsFilling(prog[v.at.pc]) ==> v.at.regs[2].kind.Scalar?
  }

  /** Every arriving state is covered by a visit that claims no more, of registers and of written bytes. */
  ghost predicate CarriedWritten(visits: set<Visit>, c: Config) {
    exists v :: v in visits && v.at.pc == c.pc && RegsFollow(c.regs, v.at.regs, true)
             && FrameWithin(c.frame, v.at.frame)
  }

  ghost predicate ReadDiscipline(prog: Program, relocs: map<nat, Reloc>, visits: set<Visit>) {
    && (forall v :: v in visits && v.at.pc < |prog| ==>
          MovesPlainly(prog, v, true) && SafeVisit(prog, v) && SizesAreNumbers(prog, v))
    && forall c :: Arrives(prog, relocs, visits, c) && c.pc < |prog| ==> CarriedWritten(visits, c)
  }

  /** Pruning compares all of this, so a loop-free program keeps it. */
  lemma LoopFreeKeepsWritten(prog: Program, relocs: map<nat, Reloc>, visits: set<Visit>, c: Config)
    requires Complete(prog, relocs, visits) && forall t: nat :: !IsLoopHead(prog, t)
    requires Arrives(prog, relocs, visits, c) && c.pc < |prog|
    ensures CarriedWritten(visits, c)
  {
    hide RegsWithin, FrameWithin, RegsFollow, Successors, VisitOk, EntryConfig;
    assert Covered(prog, visits, c);
    var v :| v in visits && Subsumes(v.at, c);
    SubsumedRegs(prog, v, c, true);
  }

  // --- One step ---

  /** What a step adds to the written bytes, the run writes. */
  lemma StoreWrites(v: Visit, s: State, insn: BpfInsn, w: MemWidth, isSt: bool, bases: Bases,
                    calls: map<nat, Region>, i: nat)
    requires IsStore(insn, w, isSt) && HoldAddresses(v.at.regs, s.regs, bases, calls) && i < 512
    requires StoreResult(v.at.regs, v.at.frame, insn, w, isSt).Success? && !v.at.frame.init[i]
    requires StoreResult(v.at.regs, v.at.frame, insn, w, isSt).value.init[i]
    ensures WritesByte(insn, s.regs, bases.frame, i - 512)
  {
    hide HoldAddresses, Touches, WrapI64, Plus, FromSigned, OffsetFrom, CheckBounds, InRegion, Bytes, AddressAt;
    RegAddress(v.at.regs, s.regs, bases, calls, insn.dst);
    match v.at.regs[insn.dst].kind {
      case FramePtr(o) =>
        var off := WrapI64(o + insn.offset);
        OffsetOfAccess(bases.frame, o, insn.offset);
        TouchedBytes(off, WidthBytes(w), i);
        TouchedBytes(off, 8, i);
      case _ =>
    }
  }

  lemma CallWrites(v: Visit, s: State, insn: BpfInsn, spec: HelperSpec, bases: Bases, calls: map<nat, Region>, i: nat)
    requires insn.opcode.Call? && GetHelper(insn.imm) == Some(spec) && i < 512
    requires IsFilling(insn) ==> v.at.regs[2].kind.Scalar?
    requires HoldAddresses(v.at.regs, s.regs, bases, calls) && Represents(v.at.regs, s.regs)
    requires !v.at.frame.init[i] && FrameAfterCall(spec, insn.imm, v.at.regs, v.at.frame).init[i]
    ensures WritesByte(insn, s.regs, bases.frame, i - 512)
  {
    hide HoldAddresses, OffsetFrom, U, GetHelper, FrameAfterCall, AddressAt, Represents, Member;
    NewBytes(insn, spec, v.at.regs, v.at.frame, i);
    RegAddress(v.at.regs, s.regs, bases, calls, 1);
    OffsetOfAddress(bases.frame, v.at.regs[1].kind.offset);
    KnownHas(v.at.regs, s.regs, 2);
    KnownMembers(v.at.regs[2].tnum, s.regs[2]);
  }

  lemma StepWrites(prog: Program, relocs: map<nat, Reloc>, v: Visit, s: State, c: Config, bases: Bases,
                   calls: map<nat, Region>, i: nat)
    requires v.at.pc == s.pc < |prog| && c in Successors(prog, relocs, v) && i < 512 && SizesAreNumbers(prog, v)
    requires HoldAddresses(v.at.regs, s.regs, bases, calls) && Represents(v.at.regs, s.regs)
    requires c.frame.init[i] && !v.at.frame.init[i]
    ensures WritesByte(prog[s.pc], s.regs, bases.frame, i - 512)
  {
    hide LoadResult, AluResult, AfterCall, ReturnValue, ArgError, CheckExit, CanRead, Target, WideLoad, StoreResult;
    hide GetHelper, FrameAfterCall, RefineBranch, HoldAddresses, Represents, WritesByte;
    var insn, regs, frame := prog[s.pc], v.at.regs, v.at.frame;
    match insn.opcode {
      case Stx(w) => StoreWrites(v, s, insn, w, false, bases, calls, i);
      case St(w) => StoreWrites(v, s, insn, w, true, bases, calls, i);
      case Call => CallWrites(v, s, insn, GetHelper(insn.imm).value, bases, calls, i);
      case Jmp64(op, source) => BranchKeepsInit(regs, frame, insn, op, source, false);
      case Jmp32(op, source) => BranchKeepsInit(regs, frame, insn, op, source, true);
      case _ =>
    }
  }

  // --- Whole runs ---

  lemma WrittenStays(prog: Program, run: seq<State>, b: int)
    requires |run| >= 2 && WrittenBefore(prog, run[..|run| - 1], b)
    ensures WrittenBefore(prog, run, b)
  {
    hide WritesByte, EntryBases;
    var init := run[..|run| - 1];
    var i :| 0 <= i < |init| - 1 && init[i].pc < |prog|
          && WritesByte(prog[init[i].pc], init[i].regs, EntryBases(init[0].regs).frame, b);
    assert run[i] == init[i];
  }

  lemma JustWritten(prog: Program, run: seq<State>, b: int)
    requires |run| >= 2 && run[|run| - 2].pc < |prog|
    requires WritesByte(prog[run[|run| - 2].pc], run[|run| - 2].regs, EntryBases(run[0].regs).frame, b)
    ensures WrittenBefore(prog, run, b)
  {
    hide WritesByte, EntryBases;
    assert 0 <= |run| - 2 < |run| - 1;
  }

  lemma StepInitWritten(prog: Program, relocs: map<nat, Reloc>, run: seq<State>, v: Visit, c: Config,
                        calls: map<nat, Region>)
    requires |run| >= 2 && v.at.pc == run[|run| - 2].pc < |prog| && c in Successors(prog, relocs, v)
    requires SizesAreNumbers(prog, v) && InitWritten(prog, run[..|run| - 1], v.at.frame)
    requires HoldAddresses(v.at.regs, run[|run| - 2].regs, EntryBases(run[0].regs), calls)
    requires Represents(v.at.regs, run[|run| - 2].regs)
    ensures InitWritten(prog, run, c.frame)
  {
    hide Successors, SizesAreNumbers, HoldAddresses, Represents, WrittenBefore, WritesByte, EntryBases;
    forall i | 0 <= i < 512 && c.frame.init[i]
      ensures WrittenBefore(prog, run, i - 512)
    {
      if v.at.frame.init[i] {
        WrittenStays(prog, run, i - 512);
      } else {
        StepWrites(prog, relocs, v, run[|run| - 2], c, EntryBases(run[0].regs), calls, i);
        JustWritten(prog, run, i - 512);
      }
    }
  }

  lemma WrittenCarriesOver(prog: Program, visits: set<Visit>, run: seq<State>, c: Config, bases: Bases,
                           calls: map<nat, Region>) returns (v: Visit)
    requires |run| > 0 && CarriedWritten(visits, c) && InitWritten(prog, run, c.frame)
    requires HoldAddresses(c.regs, run[|run| - 1].regs, bases, calls) && Represents(c.regs, run[|run| - 1].regs)
    ensures v in visits && v.at.pc == c.pc && InitWritten(prog, run, v.at.frame)
    ensures HoldAddresses(v.at.regs, run[|run| - 1].regs, bases, calls) && Represents(v.at.regs, run[|run| - 1].regs)
  {
    hide RegsFollow, HoldAddresses, Represents, WrittenBefore;
    v :| v in visits && v.at.pc == c.pc && RegsFollow(c.regs, v.at.regs, true) && FrameWithin(c.frame, v.at.frame);
    RegsFollowed(c.regs, v.at.regs, run[|run| - 1].regs, bases, calls, true);
  }

  lemma EntryWritten(prog: Program, run: seq<State>)
    requires |run| > 0
    ensures InitWritten(prog, run, EntryConfig().frame)
  {
    hide WrittenBefore;
  }

  lemma ShorterPlainRun(prog: Program, relocated: set<nat>, run: seq<State>)
    requires |run| >= 2 && IsRun(prog, relocated, run)
    ensures IsRun(prog, relocated, run[..|run| - 1]) && Steps(prog, relocated, run[|run| - 2], run[|run| - 1])
    ensures run[|run| - 2].pc < |prog|
  {
    hide Steps;
    var init, n := run[..|run| - 1], |run| - 2;
    assert Steps(prog, relocated, run[n], run[n + 1]);
    StepInside(prog, relocated, run[n], run[n + 1]);
    forall i | 0 <= i < |init| - 1
      ensures Steps(prog, relocated, init[i], init[i + 1])
    {
      assert Steps(prog, relocated, run[i], run[i + 1]);
    }
  }

  /** At each instruction of each run, every byte of the frame that a state visited there takes for written was written
      before. */
  lemma {:induction false} RunHasWritten(prog: Program, relocs: map<nat, Reloc>, visits: set<Visit>, run: seq<State>)
    returns (v: Visit, calls: map<nat, Region>)
    requires Certificate(prog, relocs, visits) && ReadDiscipline(prog, relocs, visits)
    requires IsRun(prog, relocs.Keys, run) && run[|run| - 1].pc < |prog|
    ensures v in visits && v.at.pc == run[|run| - 1].pc && !Failing(prog, relocs, v)
    ensures HoldAddresses(v.at.regs, run[|run| - 1].regs, EntryBases(run[0].regs), calls)
    ensures Represents(v.at.regs, run[|run| - 1].regs) && InitWritten(prog, run, v.at.frame)
    decreases |run|
  {
    hide Covered, Successors, VisitOk, Failing, MovesPlainly, CarriedWritten, HoldAddresses, Steps, EntryConfig;
    hide Arrives, EntryBases, Represents, SafeVisit, Chosen, InitWritten, SizesAreNumbers;
    if |run| == 1 {
      EntryHolds(run[0].regs);
      EntryRepresents(run[0].regs);
      EntryArrives(prog, relocs, visits);
      EntryWritten(prog, run);
      calls := map[];
      v := WrittenCarriesOver(prog, visits, run, EntryConfig(), EntryBases(run[0].regs), calls);
    } else {
      var s, t, bases := run[|run| - 2], run[|run| - 1], EntryBases(run[0].regs);
      ShorterPlainRun(prog, relocs.Keys, run);
      var u, known := RunHasWritten(prog, relocs, visits, run[..|run| - 1]);
      var c;
      c, calls := StepHolds(prog, relocs, u, s, t, bases, known, true);
      StepFollows(prog, relocs, u, s, t, c, true);
      StepInitWritten(prog, relocs, run, u, c, known);
      SuccessorArrives(prog, relocs, visits, u, c);
      v := WrittenCarriesOver(prog, visits, run, c, bases, calls);
    }
  }

  lemma LoadWasChecked(prog: Program, relocs: map<nat, Reloc>, v: Visit)
    requires v.at.pc < |prog| && prog[v.at.pc].opcode.Ldx? && !Failing(prog, relocs, v)
    requires v.at.regs[prog[v.at.pc].src].kind.FramePtr?
    ensures var insn := prog[v.at.pc];
            CheckReadable(v.at.frame, WrapI64(v.at.regs[insn.src].kind.offset + insn.offset),
                          WidthBytes(insn.opcode.width))
  {
    hide WrapI64, CheckBounds, CheckReadable;
  }

  lemma LoadReaches(kind: RegType, bits: bv64, bases: Bases, calls: map<nat, Region>, offset: I16)
    requires kind.FramePtr? && HoldsAddress(AddressOf(kind), bits, bases, calls)
    ensures OffsetFrom(bases.frame, Plus(bits, FromSigned(offset))) == WrapI64(kind.offset + offset)
  {
    hide AddressAt, Plus, FromSigned, OffsetFrom, WrapI64;
    OffsetOfAccess(bases.frame, kind.offset, offset);
  }

  lemma ReadableIsWritten(prog: Program, run: seq<State>, frame: Frame, off: I64, width: nat)
    requires |run| > 0 && InitWritten(prog, run, frame) && CheckReadable(frame, off, width) && 1 <= width <= 8
    ensures AllWritten(prog, run, off, width)
  {
    hide WrittenBefore, CheckReadable, InitWritten;
    ReadableByte(frame, off, width, 0);
    ReadableByte(frame, off, width, width - 1);
    forall b | off <= b < off + width
      ensures WrittenBefore(prog, run, b)
    {
      ReadableByte(frame, off, width, b - off);
      ByteWritten(prog, run, frame, b);
    }
  }

  lemma ByteWritten(prog: Program, run: seq<State>, frame: Frame, b: int)
    requires |run| > 0 && InitWritten(prog, run, frame) && -512 <= b < 0 && frame.init[b + 512]
    ensures WrittenBefore(prog, run, b)
  {
    hide WrittenBefore;
    var i := b + 512;
    assert frame.init[i];
  }

  /** Every byte that a run loads through what the visit there types as a frame pointer lies in the frame, and the run
      has stored it before, or had a helper fill it. */
  lemma LoadsAreWritten(prog: Program, relocs: map<nat, Reloc>, visits: set<Visit>, run: seq<State>)
    returns (v: Visit)
    requires Certificate(prog, relocs, visits) && ReadDiscipline(prog, relocs, visits)
    requires IsRun(prog, relocs.Keys, run) && run[|run| - 1].pc < |prog|
    requires prog[run[|run| - 1].pc].opcode.Ldx?
    ensures v in visits && v.at.pc == run[|run| - 1].pc
    ensures var insn, s := prog[v.at.pc], run[|run| - 1];
            v.at.regs[insn.src].kind.FramePtr? ==>
              AllWritten(prog, run, OffsetFrom(EntryBases(run[0].regs).frame,
                                               Plus(s.regs[insn.src], FromSigned(insn.offset))),
                         WidthBytes(insn.opcode.width))
  {
    hide Certificate, ReadDiscipline, Failing, HoldAddresses, Represents, IsRun, AllWritten, InitWritten, EntryBases;
    hide WrapI64, CheckReadable, AddressAt, Plus, FromSigned, OffsetFrom;
    var calls;
    RunIsNonempty(prog, relocs.Keys, run);
    v, calls := RunHasWritten(prog, relocs, visits, run);
    var insn, s, bases := prog[v.at.pc], run[|run| - 1], EntryBases(run[0].regs);
    if v.at.regs[insn.src].kind.FramePtr? {
      RegAddress(v.at.regs, s.regs, bases, calls, insn.src);
      LoadReaches(v.at.regs[insn.src].kind, s.regs[insn.src], bases, calls, insn.offset);
      LoadWasChecked(prog, relocs, v);
      ReadableIsWritten(prog, run, v.at.frame, WrapI64(v.at.regs[insn.src].kind.offset + insn.offset),
                        WidthBytes(insn.opcode.width));
    }
  }
}

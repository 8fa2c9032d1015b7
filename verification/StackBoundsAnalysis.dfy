/** The mutable stack-bounds analyser, proved to decide the same as the pure checker of the executable semantics. */
module StackBoundsAnalysis {
  import opened Wrappers
  import opened Instructions
  import ObjHelpers
  import ObjSemantics
  import opened ObjStackBounds
  import ObjStackBoundsProofs
  import ObjStackBoundsExact

  // --- Decoded instructions as instructions of the executable semantics ---

  function HelperOf(number: int): ObjHelpers.HelperId {
    match number
    case 1 => ObjHelpers.MapLookupElem
    case 2 => ObjHelpers.MapUpdateElem
    case 3 => ObjHelpers.MapDeleteElem
    case 4 => ObjHelpers.ProbeRead
    case 5 => ObjHelpers.KtimeGetNs
    case 6 => ObjHelpers.TracePrintk
    case 7 => ObjHelpers.GetPrandomU32
    case 14 => ObjHelpers.GetCurrentPidTgid
    case 15 => ObjHelpers.GetCurrentUidGid
    case 16 => ObjHelpers.GetCurrentComm
    case 35 => ObjHelpers.GetCurrentTask
    case 45 => ObjHelpers.ProbeReadStr
    case 112 => ObjHelpers.ProbeReadUser
    case 113 => ObjHelpers.ProbeReadKernel
    case 115 => ObjHelpers.ProbeReadKernelStr
    case 125 => ObjHelpers.KtimeGetBootNs
    case 131 => ObjHelpers.RingbufReserve
    case 132 => ObjHelpers.RingbufSubmit
    case 133 => ObjHelpers.RingbufDiscard
    case 147 => ObjHelpers.DPath
    case 158 => ObjHelpers.GetCurrentTaskBtf
    case _ => ObjHelpers.UnknownHelper(if number < 0 then 0 else number)
  }

  function ToObj(insn: BpfInsn): ObjSemantics.Insn
    requires !insn.opcode.Unknown?
  {
    match insn.opcode
    case Alu64(op, FromReg) => ObjSemantics.Alu64Reg(op, insn.dst, insn.src)
    case Alu64(op, FromImm) => ObjSemantics.Alu64Imm(op, insn.dst, insn.imm)
    case Alu32(op, FromReg) => ObjSemantics.Alu32Reg(op, insn.dst, insn.src)
    case Alu32(op, FromImm) => ObjSemantics.Alu32Imm(op, insn.dst, insn.imm)
    case Ldx(w) => ObjSemantics.Load(w, insn.dst, insn.src, insn.offset)
    case Stx(w) => ObjSemantics.Store(w, insn.dst, insn.src, insn.offset)
    case St(w) => ObjSemantics.StoreImm(w, insn.dst, insn.offset, insn.imm)
    case Jmp64(op, FromReg) => ObjSemantics.Jump64Reg(op, insn.dst, insn.src, insn.offset)
    case Jmp64(op, FromImm) => ObjSemantics.Jump64Imm(op, insn.dst, insn.imm, insn.offset)
    case Jmp32(op, FromReg) => ObjSemantics.Jump32Reg(op, insn.dst, insn.src, insn.offset)
    case Jmp32(op, FromImm) => ObjSemantics.Jump32Imm(op, insn.dst, insn.imm, insn.offset)
    case JmpJa => ObjSemantics.Goto(insn.offset)
    case Call => ObjSemantics.CallHelper(HelperOf(insn.imm))
    case LdImm64 => ObjSemantics.LoadImm64(insn.dst, WideImm(insn))
    case Exit => ObjSemantics.Halt
  }

  /** Programs both checkers can read, */
  predicate Decoded(prog: seq<BpfInsn>) {
    forall pc :: 0 <= pc < |prog| ==> !prog[pc].opcode.Unknown?
  }

  /** and that keep the frame pointer. */
  predicate Comparable(prog: seq<BpfInsn>) {
    Decoded(prog) && forall pc :: 0 <= pc < |prog| ==> !ObjStackBoundsProofs.Writes10(ToObj(prog[pc]))
  }

  function Translate(prog: seq<BpfInsn>): ObjSemantics.Program
    requires Decoded(prog)
  {
    seq(|prog|, i requires 0 <= i < |prog| => ToObj(prog[i]))
  }

  // --- The analyser's own operations ---

  /** A join always restores the frame pointer in r10. */
  function JoinKeeping(a: AbsState, b: AbsState): AbsState {
    JoinStates(a, b)[10 := AbsFramePtr(0)]
  }

  function BackTarget(insn: BpfInsn, pc: int): Option<int> {
    if (insn.opcode.Jmp64? || insn.opcode.Jmp32? || insn.opcode.JmpJa?) && pc + 1 + insn.offset <= pc
    then Some(pc + 1 + insn.offset) else None
  }

  /** The target of a conditional jump, if it lies ahead. */
  function ForwardTarget(insn: BpfInsn, pc: int): Option<int> {
    if (insn.opcode.Jmp64? || insn.opcode.Jmp32?) && pc + 1 + insn.offset > pc
    then Some(pc + 1 + insn.offset) else None
  }

  /** The destination register after the instruction, if it assigns one. */
  function NewReg(regs: AbsState, insn: BpfInsn): Option<AbsReg> {
    match insn.opcode
    case Alu64(op, FromReg) => Some(if op == MOV then regs[insn.src] else AbsOther)
    case Alu64(op, FromImm) =>
      Some(if op == ADD then Moved(regs[insn.dst], insn.imm)
           else if op == SUB then Moved(regs[insn.dst], 0 - insn.imm) else AbsOther)
    case Alu32(_, _) => Some(AbsOther)
    case LdImm64 => Some(AbsOther)
    case Ldx(_) => Some(AbsOther)
    case _ => None
  }

  predicate AccessPasses(regs: AbsState, insn: BpfInsn) {
    match insn.opcode
    case Ldx(w) => CheckMemAccess(regs[insn.src], insn.offset, w)
    case Stx(w) => CheckMemAccess(regs[insn.dst], insn.offset, w)
    case St(w) => CheckMemAccess(regs[insn.dst], insn.offset, w)
    case _ => true
  }

  function NewRegs(regs: AbsState, insn: BpfInsn): AbsState {
    if insn.opcode.Call? then Clobber(regs)
    else var v := NewReg(regs, insn); if v.Some? then regs[insn.dst := v.value] else regs
  }

  function NewTargets(regs: AbsState, targets: TargetMap, insn: BpfInsn, pc: int): TargetMap {
    var t := ForwardTarget(insn, pc);
    if t.None? then targets
    else targets[t.value := if t.value in targets then JoinKeeping(targets[t.value], regs) else regs]
  }

  // --- The register file ---

  class Tracker {
    const regs: array<AbsReg>

    ghost predicate Valid() { regs.Length == 11 }

    function View(): AbsState
      requires Valid()
      reads regs
    {
      regs[..]
    }

    constructor Init()
      ensures Valid() && fresh(regs) && View() == AbsInit()
    {
      var a := new AbsReg[11](_ => AbsOther);
      a[10] := AbsFramePtr(0);
      a[1] := AbsCtxPtr(0);
      regs := a;
    }

    /** r0 to r5 become unknown. */
    method ForgetCallerSaved()
      requires Valid()
      modifies regs
      ensures View() == Clobber(old(View()))
    {
      for r := 0 to 6
        invariant forall k :: 0 <= k < r ==> regs[k] == AbsOther
        invariant forall k :: r <= k < 11 ==> regs[k] == old(View())[k]
      {
        regs[r] := AbsOther;
      }
    }

    method Join(other: AbsState)
      requires Valid()
      modifies regs
      ensures View() == JoinKeeping(old(View()), other)
    {
      for i := 0 to 11
        invariant forall k :: 0 <= k < i ==> regs[k] == JoinReg(old(View())[k], other[k])
        invariant forall k :: i <= k < 11 ==> regs[k] == old(View())[k]
      {
        regs[i] := if regs[i] == other[i] then regs[i] else AbsOther;
      }
      regs[10] := AbsFramePtr(0);
    }

    /** One instruction: false when a memory access is out of bounds. */
    method Transfer(targets: TargetMap, insn: BpfInsn, pc: nat) returns (ok: bool, updated: TargetMap)
      requires Valid()
      modifies regs
      ensures ok == AccessPasses(old(View()), insn)
      ensures ok ==> View() == NewRegs(old(View()), insn) && updated == NewTargets(old(View()), targets, insn, pc)
    {
      hide CheckMemAccess;
      ok, updated := true, targets;
      match insn.opcode {
        case Alu64(op, FromReg) =>
          regs[insn.dst] := if op == MOV then regs[insn.src] else AbsOther;
        case Alu64(op, FromImm) =>
          var moved := AbsOther;
          if op == ADD {
            moved := Moved(regs[insn.dst], insn.imm);
          } else if op == SUB {
            moved := Moved(regs[insn.dst], 0 - insn.imm);
          }
          regs[insn.dst] := moved;
        case Alu32(_, _) => regs[insn.dst] := AbsOther;
        case LdImm64 => regs[insn.dst] := AbsOther;
        case Ldx(w) =>
          if !CheckMemAccess(regs[insn.src], insn.offset, w) {
            return false, targets;
          }
          regs[insn.dst] := AbsOther;
        case Stx(w) => ok := CheckMemAccess(regs[insn.dst], insn.offset, w);
        case St(w) => ok := CheckMemAccess(regs[insn.dst], insn.offset, w);
        case Jmp64(_, _) => updated := NewTargets(View(), targets, insn, pc);
        case Jmp32(_, _) => updated := NewTargets(View(), targets, insn, pc);
        case JmpJa =>
        case Call => ForgetCallerSaved();
        case Exit =>
        case Unknown(_) =>
      }
    }
  }

  // --- The analysis as a function of the position ---

  function LoopHeads(prog: seq<BpfInsn>, n: nat): TargetMap
    requires n <= |prog|
  {
    if n == 0 then map[]
    else
      var t := BackTarget(prog[n - 1], n - 1);
      var rest := LoopHeads(prog, n - 1);
      if t.Some? then rest[t.value := Widened()] else rest
  }

  function AnalyseInsn(s: ScanState, insn: BpfInsn, pc: int): Option<ScanState> {
    var merged := if pc in s.targets then JoinKeeping(s.regs, s.targets[pc]) else s.regs;
    if !AccessPasses(merged, insn) then None
    else Some(ScanState(NewRegs(merged, insn), NewTargets(merged, s.targets - {pc}, insn, pc)))
  }

  /** The analyser's state on reaching `pc`, unless it stopped before. */
  function AnalysisAt(prog: seq<BpfInsn>, pc: nat): Option<ScanState>
    requires pc <= |prog|
  {
    if pc == 0 then Some(ScanState(AbsInit(), LoopHeads(prog, |prog|)))
    else
      var s := AnalysisAt(prog, pc - 1);
      if s.None? then None else AnalyseInsn(s.value, prog[pc - 1], pc - 1)
  }

  /** What was known before each instruction. */
  datatype WitnessStep = WitnessStep(pc: nat, before: ScanState)

  datatype AnalysisResult = AnalysisResult(passed: bool, failingPc: Option<nat>, steps: seq<WitnessStep>)

  method FindLoopHeads(prog: seq<BpfInsn>) returns (targets: TargetMap)
    ensures targets == LoopHeads(prog, |prog|)
  {
    targets := map[];
    for pc := 0 to |prog|
      invariant targets == LoopHeads(prog, pc)
    {
      var t := BackTarget(prog[pc], pc);
      if t.Some? {
        var widened := new Tracker.Init();
        widened.ForgetCallerSaved();
        targets := targets[t.value := widened.View()];
      }
    }
  }

  /** The steps record the analyser's state at each position it reached. */
  predicate StepsRight(prog: seq<BpfInsn>, steps: seq<WitnessStep>) {
    |steps| <= |prog| && forall pc: nat :: pc < |steps| ==>
      AnalysisAt(prog, pc).Some? && steps[pc] == WitnessStep(pc, AnalysisAt(prog, pc).value)
  }

  lemma NextAt(prog: seq<BpfInsn>, pc: nat, s: ScanState)
    requires pc < |prog| && AnalysisAt(prog, pc) == Some(s)
    ensures var merged := if pc in s.targets then JoinKeeping(s.regs, s.targets[pc]) else s.regs;
            AnalysisAt(prog, pc + 1) ==
              if AccessPasses(merged, prog[pc])
              then Some(ScanState(NewRegs(merged, prog[pc]), NewTargets(merged, s.targets - {pc}, prog[pc], pc)))
              else None
  {
    hide NewRegs, NewTargets, AccessPasses, JoinKeeping;
  }

  lemma FirstAt(prog: seq<BpfInsn>)
    ensures AnalysisAt(prog, 0) == Some(ScanState(AbsInit(), LoopHeads(prog, |prog|)))
  {}

  method Analyse(prog: seq<BpfInsn>) returns (r: AnalysisResult)
    ensures r.passed <==> AnalysisAt(prog, |prog|).Some?
    ensures r.passed ==> r.failingPc.None? && |r.steps| == |prog|
    ensures !r.passed ==>
              && r.failingPc.Some? && r.failingPc.value < |prog| && |r.steps| == r.failingPc.value + 1
              && AnalysisAt(prog, r.failingPc.value).Some? && AnalysisAt(prog, r.failingPc.value + 1).None?
    ensures StepsRight(prog, r.steps)
    ensures Comparable(prog) ==> (r.passed <==> StackBoundsCheck(Translate(prog)))
  {
    hide NewRegs, NewTargets, AccessPasses, JoinKeeping, LoopHeads, AnalysisAt, Comparable, StackBoundsCheck;
    if Comparable(prog) {
      AnalyserRefinesChecker(prog);
    }
    var state := new Tracker.Init();
    var targets := FindLoopHeads(prog);
    var steps: seq<WitnessStep> := [];
    FirstAt(prog);
    for pc := 0 to |prog|
      invariant state.Valid() && fresh(state.regs)
      invariant AnalysisAt(prog, pc) == Some(ScanState(state.View(), targets))
      invariant |steps| == pc && StepsRight(prog, steps)
    {
      NextAt(prog, pc, ScanState(state.View(), targets));
      steps := steps + [WitnessStep(pc, ScanState(state.View(), targets))];
      if pc in targets {
        var saved := targets[pc];
        targets := targets - {pc};
        state.Join(saved);
      }
      assert targets - {pc} == targets;
      var ok;
      ok, targets := state.Transfer(targets, prog[pc], pc);
      if !ok {
        StaysStopped(prog, pc + 1, |prog|);
        return AnalysisResult(false, Some(pc), steps);
      }
    }
    return AnalysisResult(true, None, steps);
  }

  lemma {:induction false} StaysStopped(prog: seq<BpfInsn>, pc: nat, later: nat)
    requires pc <= later <= |prog| && AnalysisAt(prog, pc).None?
    ensures AnalysisAt(prog, later).None?
    decreases later
  {
    if pc < later {
      StaysStopped(prog, pc, later - 1);
    }
  }

  // --- Agreement with the pure checker ---

  /** The same registers, and the same states waiting ahead; the pure checker also keeps states behind. */
  ghost predicate Matches(a: ScanState, s: ScanState, pc: nat) {
    && a.regs == s.regs && a.regs[10] == AbsFramePtr(0)
    && (forall t :: t >= pc ==> (t in a.targets <==> t in s.targets))
    && (forall t :: t >= pc && t in a.targets ==> a.targets[t] == s.targets[t] && a.targets[t][10] == AbsFramePtr(0))
  }

  lemma WidenedTwice()
    ensures JoinStates(Widened(), Widened()) == Widened()
  {}

  /** Only widened states are recorded before the scan starts, so joining and replacing are the same. */
  lemma {:induction false} SameLoopHeads(prog: seq<BpfInsn>, pc: nat)
    requires Comparable(prog) && pc <= |prog|
    ensures InitLoopTargets(Translate(prog), pc, LoopHeads(prog, pc)) == LoopHeads(prog, |prog|)
    ensures forall t :: t in LoopHeads(prog, pc) ==> LoopHeads(prog, pc)[t] == Widened()
    decreases |prog| - pc
  {
    hide Widened, JoinStates, ToObj, Comparable;
    OnlyWidened(prog, pc);
    if pc < |prog| {
      SameLoopHeads(prog, pc + 1);
      WidenedTwice();
      SameBackTarget(prog, pc);
      assert LoopHeads(prog, pc + 1) ==
        (var t := BackTarget(prog[pc], pc);
         if t.Some? then AddTarget(LoopHeads(prog, pc), t.value, Widened()) else LoopHeads(prog, pc));
    }
  }

  lemma {:induction false} OnlyWidened(prog: seq<BpfInsn>, n: nat)
    requires n <= |prog|
    ensures forall t :: t in LoopHeads(prog, n) ==> LoopHeads(prog, n)[t] == Widened()
    decreases n
  {
    hide Widened, BackTarget;
    if n > 0 {
      OnlyWidened(prog, n - 1);
    }
  }

  lemma SameBackTarget(prog: seq<BpfInsn>, pc: nat)
    requires Comparable(prog) && pc < |prog|
    ensures JumpsBackTo(Translate(prog)[pc], pc) == BackTarget(prog[pc], pc)
  {}

  lemma StartsMatch(prog: seq<BpfInsn>)
    requires Comparable(prog)
    ensures Matches(ScanState(AbsInit(), LoopHeads(prog, |prog|)), ScanStart(Translate(prog)), 0)
  {
    hide LoopHeads, InitLoopTargets, Comparable;
    SameLoopHeads(prog, 0);
    SameLoopHeads(prog, |prog|);
    assert LoopHeads(prog, 0) == map[] by { NoHeadsYet(prog); }
  }

  lemma NoHeadsYet(prog: seq<BpfInsn>)
    ensures LoopHeads(prog, 0) == map[]
  {}

  lemma JoinKeepsFrame(a: AbsState, b: AbsState)
    requires a[10] == AbsFramePtr(0) && b[10] == AbsFramePtr(0)
    ensures JoinKeeping(a, b) == JoinStates(a, b) && JoinStates(a, b)[10] == AbsFramePtr(0)
  {}

  /** The translated instruction is checked and transferred alike. */
  lemma SameTransfer(regs: AbsState, insn: BpfInsn)
    requires !insn.opcode.Unknown?
    ensures AccessPasses(regs, insn) <==> AccessChecked(regs, ToObj(insn))
    ensures NewRegs(regs, insn) == TransferRegs(regs, ToObj(insn))
    ensures !ObjStackBoundsProofs.Writes10(ToObj(insn)) && regs[10] == AbsFramePtr(0) ==>
              NewRegs(regs, insn)[10] == AbsFramePtr(0)
  {
    hide CheckMemAccess, HelperOf;
  }

  lemma SameOffset(insn: BpfInsn, pc: nat)
    requires !insn.opcode.Unknown?
    ensures var off := CondOffset(ToObj(insn));
            ForwardTarget(insn, pc) == if off.Some? && off.value >= 0 then Some(pc + 1 + off.value) else None
  {}

  /** One more instruction keeps the two scans together. */
  lemma InsnMatches(a: ScanState, s: ScanState, insn: BpfInsn, pc: nat)
    requires Matches(a, s, pc) && !insn.opcode.Unknown? && !ObjStackBoundsProofs.Writes10(ToObj(insn))
    ensures var a', s' := AnalyseInsn(a, insn, pc), CheckInsn(s, ToObj(insn), pc);
            (a'.Some? <==> s'.Some?) && (a'.Some? ==> Matches(a'.value, s'.value, pc + 1))
  {
    hide AccessPasses, AccessChecked, NewRegs, TransferRegs, JoinStates, JoinKeeping, ToObj, ForwardTarget, CondOffset;
    if pc in a.targets {
      JoinKeepsFrame(a.regs, a.targets[pc]);
    }
    var merged := Merge(s.regs, pc, s.targets);
    SameTransfer(merged, insn);
    SameOffset(insn, pc);
    TargetsMatch(a.targets - {pc}, s.targets - {pc}, merged, insn, pc);
  }

  lemma TargetsMatch(mine: TargetMap, theirs: TargetMap, regs: AbsState, insn: BpfInsn, pc: nat)
    requires !insn.opcode.Unknown? && regs[10] == AbsFramePtr(0)
    requires forall t :: t > pc ==> (t in mine <==> t in theirs)
    requires forall t :: t > pc && t in mine ==> mine[t] == theirs[t] && mine[t][10] == AbsFramePtr(0)
    ensures var off := CondOffset(ToObj(insn));
            var mine' := NewTargets(regs, mine, insn, pc);
            var theirs' := if off.Some? then AddTarget(theirs, pc + 1 + off.value, regs) else theirs;
            && (forall t :: t > pc ==> (t in mine' <==> t in theirs'))
            && (forall t :: t > pc && t in mine' ==> mine'[t] == theirs'[t] && mine'[t][10] == AbsFramePtr(0))
  {
    hide JoinStates, JoinKeeping, ToObj, ForwardTarget, CondOffset;
    SameOffset(insn, pc);
    var t := ForwardTarget(insn, pc);
    if t.Some? && t.value in mine {
      JoinKeepsFrame(mine[t.value], regs);
    }
  }

  /** At every position the analyser and the pure checker have the same registers and the same forward targets. */
  lemma {:induction false} ScansMatch(prog: seq<BpfInsn>, pc: nat)
    requires Comparable(prog) && pc <= |prog|
    ensures var a, s := AnalysisAt(prog, pc), ScanAt(Translate(prog), pc);
            (a.Some? <==> s.Some?) && (a.Some? ==> Matches(a.value, s.value, pc))
    decreases pc
  {
    hide Matches, AnalyseInsn, CheckInsn, ToObj, ScanStart, LoopHeads;
    if pc == 0 {
      StartsMatch(prog);
    } else {
      ScansMatch(prog, pc - 1);
      var a, s := AnalysisAt(prog, pc - 1), ScanAt(Translate(prog), pc - 1);
      if a.Some? {
        InsnMatches(a.value, s.value, prog[pc - 1], pc - 1);
      }
    }
  }

  /** The analyser passes a program exactly when the pure checker does. */
  lemma AnalyserRefinesChecker(prog: seq<BpfInsn>)
    requires Comparable(prog)
    ensures AnalysisAt(prog, |prog|).Some? <==> StackBoundsCheck(Translate(prog))
  {
    hide AnalysisAt, ScanAt, CheckLoop, ScanStart, ToObj;
    ScansMatch(prog, |prog|);
    ObjStackBoundsProofs.FirstScan(Translate(prog));
    CheckIsScan(Translate(prog), 0);
  }

  /** So it passes a program if and only if every access lies in the frame whose base all ways derive from the frame
      pointer by the same distance. */
  lemma AnalysisExact(prog: seq<BpfInsn>)
    requires Comparable(prog)
    ensures AnalysisAt(prog, |prog|).Some? <==>
              forall pc: nat :: pc < |prog| ==> ObjStackBoundsExact.AccessLies(Translate(prog), pc)
  {
    hide AnalysisAt, StackBoundsCheck, ObjStackBoundsExact.AccessLies;
    AnalyserRefinesChecker(prog);
    ObjStackBoundsExact.CheckExact(Translate(prog));
  }

  // --- Why programs must keep the frame pointer ---

  /** Overwrites r10, joins two branches, and stores through r10. */
  function OverwritingProgram(): seq<BpfInsn> {
    [BpfInsn(Alu64(MOV, FromImm), 10, 0, 0, 0, None), BpfInsn(Jmp64(JEQ, FromImm), 0, 0, 0, 0, None),
     BpfInsn(St(W64), 10, 0, 0, 0, None), BpfInsn(Exit, 0, 0, 0, 0, None)]
  }

  lemma OverwrittenHeads()
    ensures LoopHeads(OverwritingProgram(), 4) == map[]
  {
    var prog := OverwritingProgram();
    assert LoopHeads(prog, 2) == map[];
  }

  lemma OverwrittenAnalysis()
    ensures AnalysisAt(OverwritingProgram(), 4).None?
  {
    hide LoopHeads, AnalysisAt, Clobber;
    var prog := OverwritingProgram();
    var none: TargetMap := map[];
    OverwrittenHeads();
    FirstAt(prog);
    NextAt(prog, 0, ScanState(AbsInit(), none));
    var a1 := AbsInit()[10 := AbsOther];
    assert none - {0} == none && none - {1} == none;
    NextAt(prog, 1, ScanState(a1, none));
    assert AnalysisAt(prog, 2) == Some(ScanState(a1, none[2 := a1]));
    NextAt(prog, 2, ScanState(a1, none[2 := a1]));
    StaysStopped(prog, 3, 4);
  }

  function OverwritingObj(): ObjSemantics.Program {
    [ObjSemantics.Alu64Imm(MOV, 10, 0), ObjSemantics.Jump64Imm(JEQ, 0, 0, 0), ObjSemantics.StoreImm(W64, 10, 0, 0),
     ObjSemantics.Halt]
  }

  lemma {:induction false} OverwrittenTargets(pc: nat)
    requires pc <= 4
    ensures InitLoopTargets(OverwritingObj(), pc, map[]) == map[]
    decreases 4 - pc
  {
    if pc < 4 {
      OverwrittenTargets(pc + 1);
    }
  }

  /** One step of the pure checker. */
  lemma ScanNext(prog: ObjSemantics.Program, pc: nat, s: ScanState)
    requires pc < |prog| && ScanAt(prog, pc) == Some(s)
    ensures ScanAt(prog, pc + 1) == CheckInsn(s, prog[pc], pc)
  {
    hide CheckInsn;
  }

  lemma OverwrittenScan()
    ensures StackBoundsCheck(OverwritingObj())
  {
    hide ScanAt, CheckLoop, InitLoopTargets;
    var prog := OverwritingObj();
    var none: TargetMap := map[];
    var a1 := AbsInit()[10 := AbsOther];
    OverwrittenTargets(0);
    ObjStackBoundsProofs.FirstScan(prog);
    assert none - {0} == none && none - {1} == none && none - {3} == none;
    ScanNext(prog, 0, ScanState(AbsInit(), none));
    ScanNext(prog, 1, ScanState(a1, none));
    assert JoinStates(a1, a1) == a1;
    assert none[2 := a1] - {2} == none;
    ScanNext(prog, 2, ScanState(a1, none[2 := a1]));
    ScanNext(prog, 3, ScanState(a1, none));
    CheckIsScan(prog, 0);
  }

  /** Where the two verdicts differ: after the join the analyser takes r10 for the frame pointer again and rejects the
      store, which the pure checker passes. */
  lemma OverwriteDiffers()
    ensures var prog := OverwritingProgram();
            Decoded(prog) && !Comparable(prog) && AnalysisAt(prog, |prog|).None? && StackBoundsCheck(Translate(prog))
  {
    hide AnalysisAt, StackBoundsCheck, HelperOf;
    OverwrittenAnalysis();
    OverwrittenScan();
    assert ObjStackBoundsProofs.Writes10(ToObj(OverwritingProgram()[0]));
    assert Translate(OverwritingProgram()) == OverwritingObj();
  }
}

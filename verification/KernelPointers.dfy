/** Programs whose kernel pointers derive from no null result either: they neither store what a lookup or reservation
  returned nor compute with it before it is checked, so nothing that lies in memory derives from a null. */
module KernelPointers {
  import opened Wrappers
  import opened Words
  import opened Addresses
  import opened Instructions
  import opened HelperTable
  import opened RegStates
  import opened AbstractStates
  import opened ControlFlow
  import opened Transfer
  import opened Certificates
  import opened Sanity
  import opened Exploration
  import opened Machine
  import opened BranchSoundness
  import opened NullRuns
  import opened NullClaims
  import opened NullSafety

  // --- The programs ---

  /** The type may be that of a null result, or of a register about which nothing is known. */
  predicate MayBeNull(kind: RegType) { kind.PtrOrNull? || kind.Null? || kind.Uninit? }

  predicate UsesNoNullable(regs: Regs, insn: BpfInsn, op: AluOp, source: Source, is64: bool) {
    && (op != MOV ==> !MayBeNull(regs[insn.dst].kind))
    && (source.FromReg? && (op != MOV || !is64) ==> !MayBeNull(regs[insn.src].kind))
  }

  /** The visit stores no unchecked or null result, and computes with none: it may copy and check them. */
  predicate KeepsResults(prog: Program, v: Visit)
    requires v.at.pc < |prog|
  {
    var insn, regs := prog[v.at.pc], v.at.regs;
    match insn.opcode
    case Stx(w) => w == W64 ==> !MayBeNull(regs[insn.src].kind)
    case Alu64(op, source) => UsesNoNullable(regs, insn, op, source, true)
    case Alu32(op, source) => UsesNoNullable(regs, insn, op, source, false)
    case _ => true
  }

  /** A number or kernel pointer in the visit is nothing that may be null in the arriving state. */
  predicate NumbersCarry(w: Regs, c: Regs) {
    forall r: RegId :: w[r].kind.Scalar? || w[r].kind.KernelPtr? ==> !MayBeNull(c[r].kind)
  }

  ghost predicate CarriedCleanly(visits: set<Visit>, c: Config) {
    exists v :: v in visits && v.at.pc == c.pc && KeepsClaims(v.at, c) && NumbersCarry(v.at.regs, c.regs)
  }

  ghost predicate CleanDiscipline(prog: Program, relocs: map<nat, Reloc>, visits: set<Visit>) {
    && (forall v :: v in visits && v.at.pc < |prog| ==> Disciplined(prog, v) && KeepsResults(prog, v))
    && forall c :: Arrives(prog, relocs, visits, c) && c.pc < |prog| ==> CarriedCleanly(visits, c)
  }

  /** Pruning compares types, so in a loop-free program without spilled pointers the conditions on visits are enough. */
  lemma LoopFreeIsClean(prog: Program, relocs: map<nat, Reloc>, visits: set<Visit>)
    requires Complete(prog, relocs, visits) && forall t: nat :: !IsLoopHead(prog, t)
    requires forall v :: v in visits ==> NothingTracked(v.at.frame)
    requires forall v :: v in visits && v.at.pc < |prog| ==> Disciplined(prog, v) && KeepsResults(prog, v)
    ensures CleanDiscipline(prog, relocs, visits)
  {
    hide Subsumes, KeepsClaims, NumbersCarry, Successors, VisitOk, EntryConfig, NothingTracked, Disciplined;
    hide KeepsResults;
    forall c | Arrives(prog, relocs, visits, c) && c.pc < |prog|
      ensures CarriedCleanly(visits, c)
    {
      assert Covered(prog, visits, c);
      var v :| v in visits && Subsumes(v.at, c);
      NothingToCarry(v.at, c);
      SubsumedNumbers(v.at, c);
    }
  }

  lemma SubsumedNumbers(w: Config, c: Config)
    requires Subsumes(w, c)
    ensures NumbersCarry(w.regs, c.regs)
  {
    hide FrameWithin, RegState.BoundsWithin;
    forall r: RegId | w.regs[r].kind.Scalar? || w.regs[r].kind.KernelPtr?
      ensures !MayBeNull(c.regs[r].kind)
    {
      assert c.regs[r].IsSubstateOf(w.regs[r]);
    }
  }

  // --- What holds of every state of a run ---

  /** What is no unchecked or null result derives from no null. */
  predicate RegsClean(regs: Regs, s: Tagged) {
    forall r: RegId :: !MayBeNull(regs[r].kind) ==> NotNull(s.from[r], s.results)
  }

  predicate SlotsClean(s: Tagged) {
    forall o :: o in s.slots ==> NotNull(s.slots[o].origin, s.results)
  }

  lemma KnownIsClean(regs: Regs, s: Tagged, calls: map<nat, nat>, r: RegId)
    requires RegsTrack(regs, s, calls) && IsKnownPtr(regs[r].kind)
    ensures NotNull(s.from[r], s.results)
  {
    hide AddressAt;
    RegClaim(regs, s, calls, r);
  }

  /** Results only grow. */
  lemma StaysClean(s: Tagged, t: Tagged)
    requires s.results <= t.results
    ensures forall origin :: NotNull(origin, s.results) ==> NotNull(origin, t.results)
  {}

  lemma AluStaysClean(regs: Regs, s: Tagged, insn: BpfInsn, op: AluOp, source: Source, is64: bool)
    requires RegsClean(regs, s) && AluResult(regs, insn, op, source, is64).Success?
    requires UsesNoNullable(regs, insn, op, source, is64)
    ensures !MayBeNull(AluResult(regs, insn, op, source, is64).value.kind) ==>
              NotNull(AluOrigin(s.from, insn, op, source), s.results)
  {
    hide AluResult, NotNull;
    assert NotNull(Nowhere, s.results) by { NowhereIsClean(s.results); }
    if op == MOV && source.FromReg? && is64 {
      CopiedKind(regs, insn);
    }
  }

  lemma NowhereIsClean(results: seq<bv64>)
    ensures NotNull(Nowhere, results)
  {}

  lemma CopiedKind(regs: Regs, insn: BpfInsn)
    ensures AluResult(regs, insn, MOV, FromReg, true) == Wrappers.Success(regs[insn.src])
  {}

  lemma SlotsStayClean(prog: Program, v: Visit, s: Tagged, t: Tagged)
    requires v.at.pc == s.at.pc < |prog| && KeepsResults(prog, v) && RegsClean(v.at.regs, s) && SlotsClean(s)
    requires SlotsLeft(prog[s.at.pc], SlotsStored(prog[s.at.pc], s), t.slots) && s.results <= t.results
    ensures SlotsClean(t)
  {
    hide NotNull, Accessed, FrameMayChange, UsesNoNullable;
    StaysClean(s, t);
  }

  /** The successor that a run goes on to is clean: its known pointers by their claims, its numbers by the step. */
  lemma StepIsClean(prog: Program, relocs: map<nat, Reloc>, v: Visit, s: Tagged, t: Tagged, c: Config,
                    calls: map<nat, nat>)
    requires VisitOk(prog, v) && v.at.pc == s.at.pc < |prog| && KeepsResults(prog, v)
    requires RegsClean(v.at.regs, s) && SlotsClean(s) && TaggedSteps(prog, relocs.Keys, s, t)
    requires c in Successors(prog, relocs, v) && RegsTrack(c.regs, t, calls)
    ensures RegsClean(c.regs, t) && SlotsClean(t)
  {
    hide Step, Steps, NotNull, SlotsLeft, SlotsStored, RegsTrack, Reloads, NextOrigins, RegsClean, SlotsClean;
    hide IsKnownPtr, KeepsResults, ConfigOk;
    SlotsStayClean(prog, v, s, t);
    forall r: RegId | !MayBeNull(c.regs[r].kind)
      ensures NotNull(t.from[r], t.results)
    {
      if IsKnownPtr(c.regs[r].kind) {
        KnownIsClean(c.regs, t, calls, r);
      } else {
        NumberIsClean(prog, relocs, v, s, t, c, r);
      }
    }
    CleanMeans(c.regs, t);
  }

  lemma CleanMeans(regs: Regs, t: Tagged)
    requires forall r: RegId :: !MayBeNull(regs[r].kind) ==> NotNull(t.from[r], t.results)
    ensures RegsClean(regs, t)
  {}

  lemma NumberIsClean(prog: Program, relocs: map<nat, Reloc>, v: Visit, s: Tagged, t: Tagged, c: Config, r: RegId)
    requires VisitOk(prog, v) && v.at.pc == s.at.pc < |prog| && KeepsResults(prog, v)
    requires RegsClean(v.at.regs, s) && SlotsClean(s) && TaggedSteps(prog, relocs.Keys, s, t)
    requires c in Successors(prog, relocs, v) && !MayBeNull(c.regs[r].kind) && !IsKnownPtr(c.regs[r].kind)
    ensures NotNull(t.from[r], t.results)
  {
    hide Steps, NotNull, SlotsLeft, SlotsStored, AluResult, LoadResult, StoreResult, WideLoad, RefineBranch;
    hide ReturnValue, FrameAfterCall, GetHelper, ArgError, CanRead, Target, CheckExit, Accessed, UsesNoNullable;
    hide AluOrigin, IsNullable, KindOk, FrameOk, ConfigOk;
    var insn := prog[s.at.pc];
    KindsOk(prog, v);
    NowhereIsClean(t.results);
    StaysClean(s, t);
    match insn.opcode {
      case Alu64(op, source) => AluStaysClean(v.at.regs, s, insn, op, source, true);
      case Alu32(op, source) => AluStaysClean(v.at.regs, s, insn, op, source, false);
      case Jmp64(op, source) => BranchNumbers(v.at.regs, v.at.frame, insn, op, source, false, r, v.id);
      case Jmp32(op, source) => BranchNumbers(v.at.regs, v.at.frame, insn, op, source, true, r, v.id);
      case Call => ReturnedNumber(GetHelper(insn.imm).value.ret, v.at.regs, s.at.pc, v.id);
      case _ =>
    }
  }

  /** A branch makes no number or kernel pointer of anything else. */
  lemma BranchNumbers(regs: Regs, frame: Frame, insn: BpfInsn, op: JmpOp, source: Source, is32: bool, r: RegId,
                      id: nat)
    requires KindOk(regs[insn.dst].kind, id)
    ensures var b := RefineBranch(regs, frame, insn, op, source, is32);
            && (!MayBeNull(b.taken[r].kind) && !IsKnownPtr(b.taken[r].kind) ==> !MayBeNull(regs[r].kind))
            && (!MayBeNull(b.fall[r].kind) && !IsKnownPtr(b.fall[r].kind) ==> !MayBeNull(regs[r].kind))
  {
    hide U, Refine64, Refine32, CompareValue, RefineBranch, ResolveSpills, KindOk;
    BranchCases(regs, frame, insn, op, source, is32);
    var dst, val := regs[insn.dst], CompareValue(regs, insn, source, is32);
    if dst.kind.PtrOrNull? {
      InnerIsPointer(dst.kind, id);
    } else if val.Some? && dst.kind.Scalar? {
      RefinedSideKinds(dst, op, val.value);
    }
  }

  lemma ReturnedNumber(ret: HelperReturn, regs: Regs, pc: nat, id: nat)
    ensures IsNullable(ret) ==> ReturnValue(ret, regs, pc, id).kind.PtrOrNull?
  {
    hide U, Low;
  }

  // --- Whole runs ---

  lemma EntryIsClean(values: Values)
    ensures RegsClean(EntryConfig().regs, Entered(values)) && SlotsClean(Entered(values))
  {}

  lemma CleanCarryOver(prog: Program, relocs: map<nat, Reloc>, visits: set<Visit>, c: Config, s: Tagged,
                       calls: map<nat, nat>) returns (v: Visit)
    requires CleanDiscipline(prog, relocs, visits) && Arrives(prog, relocs, visits, c) && c.pc < |prog|
    requires Tracks(c, s, calls) && RegsClean(c.regs, s)
    ensures v in visits && v.at.pc == c.pc && Tracks(v.at, s, calls) && RegsClean(v.at.regs, s)
  {
    hide Arrives, KeepsClaims, Tracks, NotNull, Disciplined, KeepsResults;
    assert CarriedCleanly(visits, c);
    v :| v in visits && v.at.pc == c.pc && KeepsClaims(v.at, c) && NumbersCarry(v.at.regs, c.regs);
    CarriedTracks(v.at, c, s, calls);
    forall r: RegId | !MayBeNull(v.at.regs[r].kind)
      ensures NotNull(s.from[r], s.results)
    {
      if IsKnownPtr(v.at.regs[r].kind) {
        KnownIsClean(v.at.regs, s, calls, r) by { TracksRegs(v.at, s, calls); }
      }
    }
  }

  lemma TracksRegs(c: Config, s: Tagged, calls: map<nat, nat>)
    requires Tracks(c, s, calls)
    ensures RegsTrack(c.regs, s, calls)
  {
    hide RegsTrack, FrameTracks;
  }

  lemma {:induction false} RunIsClean(prog: Program, relocs: map<nat, Reloc>, visits: set<Visit>, run: seq<Tagged>)
    returns (v: Visit, calls: map<nat, nat>)
    requires Certificate(prog, relocs, visits) && CleanDiscipline(prog, relocs, visits)
    requires IsTaggedRun(prog, relocs.Keys, run) && SpillsAreSafe(prog, visits, run)
    requires run[|run| - 1].at.pc < |prog|
    ensures v in visits && v.at.pc == run[|run| - 1].at.pc && !Failing(prog, relocs, v)
    ensures Tracks(v.at, run[|run| - 1], calls) && RegsClean(v.at.regs, run[|run| - 1]) && SlotsClean(run[|run| - 1])
    decreases |run|
  {
    hide Covered, Successors, VisitOk, Failing, Disciplined, Tracks, TaggedSteps, EntryConfig, Arrives, KeepsResults;
    hide SpillsAreSafe, Entered, StoresApart, NothingTracked, CarriedCleanly, RegsClean, SlotsClean;
    if |run| == 1 {
      EntryTracks(run[0].at.regs);
      EntryIsClean(run[0].at.regs);
      EntryArrives(prog, relocs, visits);
      EntryPc(run[0].at.regs);
      calls := map[];
      v := CleanCarryOver(prog, relocs, visits, EntryConfig(), run[0], calls);
    } else {
      var s, t := run[|run| - 2], run[|run| - 1];
      ShorterRun(prog, relocs.Keys, visits, run);
      var u, known := RunIsClean(prog, relocs, visits, run[..|run| - 1]);
      assert VisitOk(prog, u);
      var c;
      c, calls := StepTracks(prog, relocs, u, s, t, known);
      TracksRegs(c, t, calls);
      StepIsClean(prog, relocs, u, s, t, c, calls);
      SuccessorArrives(prog, relocs, visits, u, c);
      v := CleanCarryOver(prog, relocs, visits, c, t, calls);
    }
  }

  /** No register that such a program uses as a pointer, a kernel pointer or another, derives from a null result. */
  lemma NoNullIsUsedAtAll(prog: Program, relocs: map<nat, Reloc>, visits: set<Visit>, run: seq<Tagged>, r: RegId)
    requires Certificate(prog, relocs, visits) && CleanDiscipline(prog, relocs, visits)
    requires IsTaggedRun(prog, relocs.Keys, run) && SpillsAreSafe(prog, visits, run)
    requires run[|run| - 1].at.pc < |prog| && UsesAsPointer(prog[run[|run| - 1].at.pc], r)
    ensures NotNull(run[|run| - 1].from[r], run[|run| - 1].results)
  {
    hide Certificate, CleanDiscipline, IsTaggedRun, SpillsAreSafe, Tracks, SlotsClean, Failing, UsesAsPointer, NotNull;
    var v, calls := RunIsClean(prog, relocs, visits, run);
    UsedIsPointer(prog, relocs, v, r);
  }
}

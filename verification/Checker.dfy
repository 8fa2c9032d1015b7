/** The verifier's main loop: depth-first exploration with a backtrack stack, pruning against remembered states
    and widening at loop heads. */
module Checker {
  import opened Wrappers
  import opened Words
  import opened Tnums
  import opened Instructions
  import opened HelperTable
  import opened RegStates
  import opened AbstractStates
  import opened ControlFlow
  import opened Transfer
  import opened Certificates
  import opened VerifierObjects
  import opened InstructionChecks
  import opened Exploration
  import opened DepthFirst

  // --- One instruction ---

  /** How the checker goes on: an error, where control passes to, and a state deferred for later. */
  datatype Move = Move(err: Option<ErrorKind>, next: Option<nat>, deferred: Option<Config>)

  /** `m` and the registers and frame it leaves behind are what `outcome` says. */
  predicate Realizes(outcome: Outcome, m: Move, regs: Regs, frame: Frame) {
    match outcome
    case Fails(kind) => m == Move(Some(kind), None, None)
    case Exits => m == Move(None, None, None)
    case Continues(next) => m == Move(None, Some(next.pc), None) && next.regs == regs && next.frame == frame
    case Splits(taken, fall) => m == Move(None, Some(fall.pc), Some(taken)) && fall.regs == regs && fall.frame == frame
  }

  method CheckRegReadable(state: VerifierState, r: RegId) returns (err: Option<ErrorKind>)
    requires state.Valid()
    ensures err == if CanRead(state.View(), r) then None else Some(UninitRegRead)
  {
    if r == 10 {
      return None;
    }
    return if state.regs[r].IsReadable() then None else Some(UninitRegRead);
  }

  function Failed(kind: ErrorKind): Move { Move(Some(kind), None, None) }

  function Onward(pc: nat): Move { Move(None, Some(pc), None) }

  method ProcessAlu(pc: nat, state: VerifierState, stack: StackState, insn: BpfInsn, op: AluOp, source: Source,
          is64: bool)
    returns (m: Move)
    requires state.Valid() && stack.Valid()
    modifies state.regs
    ensures Realizes(StepAlu(Config(pc, old(state.View()), stack.View()), insn, op, source, is64),
                     m, state.View(), stack.View())
  {
    hide AluResult;
    if op != MOV {
      var err := CheckRegReadable(state, insn.dst);
      if err.Some? {
        return Failed(err.value);
      }
    }
    if source.FromReg? {
      var err := CheckRegReadable(state, insn.src);
      if err.Some? {
        return Failed(err.value);
      }
    }
    var err := CheckAlu(state, insn, op, source, is64);
    return if err.Some? then Failed(err.value) else Onward(pc + 1);
  }

  method ProcessBranch(pc: nat, state: VerifierState, stack: StackState, insn: BpfInsn, op: JmpOp, source: Source,
                       is32: bool, target: Option<nat>)
    returns (m: Move)
    requires state.Valid() && stack.Valid()
    modifies state.regs, stack
    ensures Realizes(StepBranch(Config(pc, old(state.View()), old(stack.View())), insn, op, source, is32, target),
                     m, state.View(), stack.View())
  {
    hide RefineBranch;
    var err := CheckRegReadable(state, insn.dst);
    if err.Some? {
      return Failed(err.value);
    }
    if source.FromReg? {
      err := CheckRegReadable(state, insn.src);
      if err.Some? {
        return Failed(err.value);
      }
    }
    if target.None? {
      return Failed(FallThrough);
    }
    var takenState := new VerifierState.Copy(state.View());
    var takenStack := new StackState.Copy(stack.View());
    RefineBranchStates(takenState, takenStack, state, stack, insn, op, source, is32);
    return Move(None, Some(pc + 1), Some(Config(target.value, takenState.View(), takenStack.View())));
  }

  method ProcessLoad(pc: nat, state: VerifierState, stack: StackState, insn: BpfInsn, w: MemWidth) returns (m: Move)
    requires state.Valid() && stack.Valid()
    modifies state.regs
    ensures m == Move(m.err, if m.err.Some? then None else Some(pc + 1), None)
    ensures if !CanRead(old(state.View()), insn.src) then m.err == Some(UninitRegRead)
            else match LoadResult(old(state.View()), stack.View(), insn, w)
                 case Success(r) => m.err.None? && state.View() == old(state.View())[insn.dst := r]
                 case Failure(e) => m.err == Some(e)
  {
    hide LoadResult;
    var err := CheckRegReadable(state, insn.src);
    if err.Some? {
      return Failed(err.value);
    }
    err := CheckLoad(state, stack, insn, w);
    return if err.Some? then Failed(err.value) else Onward(pc + 1);
  }

  method ProcessStore(pc: nat, state: VerifierState, stack: StackState, insn: BpfInsn, w: MemWidth, isSt: bool)
    returns (m: Move)
    requires state.Valid() && stack.Valid()
    modifies stack, stack.init
    ensures if !CanRead(state.View(), insn.dst) || (!isSt && !CanRead(state.View(), insn.src)) then
              m == Failed(UninitRegRead)
            else Realizes(StepStore(Config(pc, state.View(), old(stack.View())), insn, w, isSt),
                          m, state.View(), stack.View())
  {
    hide StoreResult;
    var err := CheckRegReadable(state, insn.dst);
    if err.Some? {
      return Failed(err.value);
    }
    if !isSt {
      err := CheckRegReadable(state, insn.src);
      if err.Some? {
        return Failed(err.value);
      }
    }
    err := CheckStore(state, stack, insn, w, isSt);
    return if err.Some? then Failed(err.value) else Onward(pc + 1);
  }

  method ProcessCall(pc: nat, state: VerifierState, stack: StackState, insn: BpfInsn, id: nat)
    returns (m: Move, id': nat)
    requires state.Valid() && stack.Valid() && insn.opcode.Call?
    modifies state.regs, stack, stack.init
    ensures Realizes(StepCall(Config(pc, old(state.View()), old(stack.View())), insn, id), m, state.View(),
              stack.View())
    ensures id' == if m.err.None? then NextId(insn, id) else id
  {
    hide ArgError, ReturnValue, AfterCall, FrameAfterCall, NextId, GetHelper;
    var err;
    err, id' := CheckCall(state, stack, insn, pc, id);
    m := if err.Some? then Failed(err.value) else Onward(pc + 1);
  }

  /** One instruction, applied to the register file and the frame in place. */
  method Process(prog: Program, relocs: map<nat, Reloc>, collapsedToRaw: seq<nat>, rawToCollapsed: map<nat, nat>,
                 pc: nat, state: VerifierState, stack: StackState, id: nat)
    returns (m: Move, id': nat)
    requires pc < |prog| && IsPcMap(prog, collapsedToRaw, rawToCollapsed)
    requires state.Valid() && stack.Valid()
    modifies state.regs, stack, stack.init
    ensures Realizes(Step(prog, relocs, Config(pc, old(state.View()), old(stack.View())), id),
                     m, state.View(), stack.View())
    ensures id' == if m.err.None? then NextId(prog[pc], id) else id
  {
    hide Target, IsPcMap, GetHelper, IsNullable, StepAlu, StepBranch, StepCall, WideLoad, CheckExit, LoadResult;
    hide StoreResult;
    var insn := prog[pc];
    id' := id;
    match insn.opcode {
      case Unknown(_) => m := Failed(UnknownOpcode);
      case Exit =>
        var err := CheckExit(state.View());
        m := Move(err, None, None);
      case Call => m, id' := ProcessCall(pc, state, stack, insn, id);
      case JmpJa =>
        var target := ResolveBranchTarget(prog, pc, insn.offset, collapsedToRaw, rawToCollapsed);
        m := if target.Some? then Onward(target.value) else Failed(FallThrough);
      case Jmp64(op, source) =>
        var target := ResolveBranchTarget(prog, pc, insn.offset, collapsedToRaw, rawToCollapsed);
        m := ProcessBranch(pc, state, stack, insn, op, source, false, target);
      case Jmp32(op, source) =>
        var target := ResolveBranchTarget(prog, pc, insn.offset, collapsedToRaw, rawToCollapsed);
        m := ProcessBranch(pc, state, stack, insn, op, source, true, target);
      case Alu64(op, source) => m := ProcessAlu(pc, state, stack, insn, op, source, true);
      case Alu32(op, source) => m := ProcessAlu(pc, state, stack, insn, op, source, false);
      case LdImm64 =>
        state.Set(insn.dst, WideLoad(insn, if pc in relocs then Some(relocs[pc]) else None));
        m := Onward(pc + 1);
      case Ldx(w) => m := ProcessLoad(pc, state, stack, insn, w);
      case Stx(w) => m := ProcessStore(pc, state, stack, insn, w, false);
      case St(w) => m := ProcessStore(pc, state, stack, insn, w, true);
    }
  }

  // --- Pruning and error lists ---

  /** The position of a remembered state that subsumes this one, if there is any. */
  method FindDominating(stored: seq<Explored>, regs: Regs, frame: Frame) returns (found: Option<nat>)
    ensures found.Some? ==> found.value < |stored| && Dominates(stored[found.value], regs, frame)
    ensures found.Some? <==> exists e :: e in stored && Dominates(e, regs, frame)
  {
    hide RegsWithin, FrameWithin;
    for k := 0 to |stored|
      invariant forall j :: 0 <= j < k ==> !Dominates(stored[j], regs, frame)
    {
      if RegsWithin(regs, stored[k].regs) {
        var within := StackIsSubstate(frame, stored[k].frame);
        if within {
          return Some(k);
        }
      }
    }
    return None;
  }

  /** `retain` with a set of errors seen so far. */
  method RemoveRepeated(errors: seq<VerifyError>) returns (kept: seq<VerifyError>)
    ensures kept == FirstOccurrences(errors)
  {
    kept := [];
    var seen := {};
    for k := 0 to |errors|
      invariant kept == FirstOccurrences(errors[..k])
      invariant forall e :: e in seen <==> e in errors[..k]
    {
      assert errors[..k + 1][..k] == errors[..k];
      if errors[k] !in seen {
        seen := seen + {errors[k]};
        kept := kept + [errors[k]];
      }
    }
    assert errors[..|errors|] == errors;
  }

  // --- The loop ---

  /** Remember the arriving state, or at a loop head widen the remembered one and go on from there. */
  method Remember(prog: Program, loopHeads: set<nat>, explored: array<seq<Explored>>, pc: nat,
                  state: VerifierState, stack: StackState)
    requires state.Valid() && stack.Valid() && pc < |prog| == explored.Length
    requires forall t: nat :: t in loopHeads <==> IsLoopHead(prog, t)
    modifies state.regs, stack, stack.init, explored
    ensures var arrived := Config(pc, old(state.View()), old(stack.View()));
            && Config(pc, state.View(), stack.View()) == Widened(prog, old(explored[..]), arrived)
            && explored[..] == Remembering(prog, old(explored[..]), arrived)
  {
    hide WidenRegs, WidenFrame, IsLoopHead;
    if pc in loopHeads && explored[pc] != [] {
      var first := explored[pc][0];
      var frame := WidenStack(first.frame, stack.View());
      state.Load(WidenRegs(first.regs, state.View()));
      stack.Load(frame);
      explored[pc] := explored[pc][0 := Explored(state.View(), frame)];
    } else if |explored[pc]| < MAX_STATES_PER_PC {
      explored[pc] := explored[pc] + [Explored(state.View(), stack.View())];
    }
  }

  /** `m` and the state left behind are the outcome of the step. */
  lemma Moved(prog: Program, relocs: map<nat, Reloc>, before: Progress, c: Config, m: Move, regs: Regs, frame: Frame,
          id': nat)
    requires before.Fits(prog) && c.pc < |prog|
    requires var w := Widened(prog, before.explored, c);
             w.pc == c.pc && Realizes(Step(prog, relocs, w, before.id), m, regs, frame)
    requires id' == if m.err.None? then NextId(prog[c.pc], before.id) else before.id
    ensures var w := Widened(prog, before.explored, c);
            && Visiting(prog, relocs, before, c)
            == Progress(Inside(prog, Config(m.next.GetOr(|prog|), regs, frame)),
                        if m.deferred.Some? then before.backtrack + [m.deferred.value] else before.backtrack,
                        Remembering(prog, before.explored, c), id', before.visited,
                        before.trace + [Visit(w, before.id)])
            && ErrorOf(prog, relocs, Visit(w, before.id))
            == if m.err.Some? then [VerifyError(c.pc, m.err.value)] else []
  {
    hide Step, Widened, Remembering, NextId;
  }

  lemma ReachesExitGrows(prog: Program, trace: seq<Visit>, v: Visit)
    requires v.at.pc < |prog|
    ensures ReachesExit(prog, trace + [v]) <==> ReachesExit(prog, trace) || prog[v.at.pc].opcode.Exit?
  {
    assert v in trace + [v];
  }

  /** Process the instruction at `pc` for the arriving state: one more visit. */
  method ProcessArrival(prog: Program, relocs: map<nat, Reloc>, collapsedToRaw: seq<nat>, rawToCollapsed: map<nat, nat>,
                        loopHeads: set<nat>, explored: array<seq<Explored>>, pc: nat,
                        state: VerifierState, stack: StackState, id: nat, ghost before: Progress)
    returns (m: Move, id': nat, ghost after: Progress)
    requires pc < |prog| && IsPcMap(prog, collapsedToRaw, rawToCollapsed)
    requires forall t: nat :: t in loopHeads <==> IsLoopHead(prog, t)
    requires state.Valid() && stack.Valid() && before.Fits(prog)
    requires before.explored == explored[..] && before.id == id
    modifies state.regs, stack, stack.init, explored
    ensures after == Visiting(prog, relocs, before, Config(pc, old(state.View()), old(stack.View())))
    ensures after == Progress(Inside(prog, Config(m.next.GetOr(|prog|), state.View(), stack.View())),
                              if m.deferred.Some? then before.backtrack + [m.deferred.value] else before.backtrack,
                              explored[..], id', before.visited, after.trace)
    ensures ErrorsOf(prog, relocs, after.trace)
         == ErrorsOf(prog, relocs, before.trace) + if m.err.Some? then [VerifyError(pc, m.err.value)] else []
    ensures ReachesExit(prog, after.trace) <==> ReachesExit(prog, before.trace) || prog[pc].opcode.Exit?
  {
    hide Step, NextId, IsPcMap, ErrorsOf, IsLoopHead, ReachesExit, Realizes, ErrorOf, Visiting, Remembering, Widened;
    ghost var arrived := Config(pc, state.View(), stack.View());
    Remember(prog, loopHeads, explored, pc, state, stack);
    ghost var visit := Visit(Config(pc, state.View(), stack.View()), id);
    m, id' := Process(prog, relocs, collapsedToRaw, rawToCollapsed, pc, state, stack, id);
    Moved(prog, relocs, before, arrived, m, state.View(), stack.View(), id');
    after := Visiting(prog, relocs, before, arrived);
    ErrorsGrow(prog, relocs, before.trace, visit);
    ReachesExitGrows(prog, before.trace, visit);
  }

  /** The result, once the main loop has stopped. */
  method Conclude(prog: Program, relocs: map<nat, Reloc>, errors: seq<VerifyError>, reachedExit: bool, visited: nat,
                  ghost last: Progress)
    returns (r: CheckResult)
    requires visited == last.visited
    requires visited <= COMPLEXITY_LIMIT ==> (reachedExit <==> ReachesExit(prog, last.trace))
    requires errors == ErrorsOf(prog, relocs, last.trace)
                       + if visited > COMPLEXITY_LIMIT then ClosingErrors(prog, last) else []
    ensures r == Report(prog, relocs, last) && r.instructionsVisited == visited
  {
    hide ErrorsOf, ReachesExit, FirstOccurrences;
    var all := errors;
    if !reachedExit && visited <= COMPLEXITY_LIMIT {
      all := all + [VerifyError(0, FallThrough)];
    }
    assert all == ErrorsOf(prog, relocs, last.trace) + ClosingErrors(prog, last);
    var kept := RemoveRepeated(all);
    r := CheckResult(kept, visited);
  }

  /** The main loop: every round either processes an instruction, or ends a path and takes up a deferred branch. */
  method RunRounds(prog: Program, relocs: map<nat, Reloc>, collapsedToRaw: seq<nat>, rawToCollapsed: map<nat, nat>,
                   loopHeads: set<nat>)
    returns (errors: seq<VerifyError>, reachedExit: bool, visited: nat, ghost p: Progress)
    requires prog != [] && IsPcMap(prog, collapsedToRaw, rawToCollapsed)
    requires forall t: nat :: t in loopHeads <==> IsLoopHead(prog, t)
    ensures p == Explore(prog, relocs, Begun(prog)) && visited == p.visited
    ensures errors == ErrorsOf(prog, relocs, p.trace) + if visited > COMPLEXITY_LIMIT then ClosingErrors(prog, p)
              else []
    ensures reachedExit <==> ReachesExit(prog, p.trace)
  {
    hide Step, IsPcMap, ErrorsOf, EntryConfig, IsLoopHead, ReachesExit, EntryRegs, EmptyFrame, ErrorOf, Dominates;
    hide Visiting, Explore, Begun, NextRound;
    errors, visited, reachedExit := [], 0, false;
    var id, pc: nat := 0, 0;
    var backtrack: seq<Config> := [];
    var explored := new seq<Explored>[|prog|](_ => []);
    var state := new VerifierState.Entry();
    var stack := new StackState();
    p := Begun(prog);
    EntryProgress(prog, relocs, explored[..], state.View(), stack.View());
    while true
      invariant state.Valid() && stack.Valid() && fresh(state.regs) && fresh(stack) && fresh(stack.init)
            && fresh(explored)
      invariant explored.Length == |prog| && p.Fits(prog)
      invariant p == Progress(Inside(prog, Config(pc, state.View(), stack.View())), backtrack, explored[..], id,
            visited, p.trace)
      invariant Explore(prog, relocs, p) == Explore(prog, relocs, Begun(prog))
      invariant errors == ErrorsOf(prog, relocs, p.trace)
      invariant reachedExit <==> ReachesExit(prog, p.trace)
      decreases COMPLEXITY_LIMIT - visited, |backtrack|
    {
      ghost var before := p;
      var ended := pc >= |prog|;
      if !ended {
        visited := visited + 1;
        p := p.(visited := visited);
        if visited > COMPLEXITY_LIMIT {
          StopsAtLimit(prog, relocs, before);
          errors := errors + [VerifyError(pc, ComplexityExceeded)];
          break;
        }
        var dominating := FindDominating(explored[pc], state.View(), stack.View());
        ended := dominating.Some?;
      }
      if ended {
        ResumesFrom(prog, relocs, before, p);
        if backtrack == [] {
          break;
        }
        var item := backtrack[|backtrack| - 1];
        backtrack := backtrack[..|backtrack| - 1];
        pc := item.pc;
        state.Load(item.regs);
        stack.Load(item.frame);
        p := Resuming(prog, p).next;
        continue;
      }
      VisitsNext(prog, relocs, before);
      var at := prog[pc];
      var m;
      m, id, p := ProcessArrival(prog, relocs, collapsedToRaw, rawToCollapsed, loopHeads, explored, pc, state, stack,
            id, p);
      reachedExit := reachedExit || at.opcode.Exit?;
      if m.err.Some? {
        errors := errors + [VerifyError(pc, m.err.value)];
      }
      if m.deferred.Some? {
        backtrack := backtrack + [m.deferred.value];
      }
      pc := m.next.GetOr(|prog|);
    }
  }

  method CheckWithRelocs(prog: Program, relocs: map<nat, Reloc>) returns (r: CheckResult, ghost trace: seq<Visit>)
    ensures prog == [] ==> r == CheckResult([VerifyError(0, FallThrough)], 0) && trace == []
    ensures prog != [] ==>
              var last := Explore(prog, relocs, Begun(prog)); trace == last.trace && r == Report(prog, relocs, last)
    ensures prog != [] ==> Grounded(prog, relocs, trace)
    ensures prog != [] && r.instructionsVisited <= COMPLEXITY_LIMIT ==> Complete(prog, relocs, Visited(trace))
    ensures r.Passed() <==> Accepts(prog, relocs, trace)
    ensures r.Passed() <==>
              && prog != [] && r.instructionsVisited <= COMPLEXITY_LIMIT
              && NoFailure(prog, relocs, Visited(trace)) && ReachesExit(prog, trace)
    ensures r.Passed() ==> Certificate(prog, relocs, Visited(trace)) && Grounded(prog, relocs, trace)
  {
    hide IsPcMap, ErrorsOf, IsLoopHead, NoFailure, ReachesExit, Visited, Explore, Begun, Report, Certificate, Accepts;
    hide Grounded, Complete;
    trace := [];
    if prog == [] {
      EmptyIsRejected(relocs);
      return CheckResult([VerifyError(0, FallThrough)], 0), [];
    }
    var collapsedToRaw, rawToCollapsed := BuildPcMap(prog);
    var loopHeads := FindBackEdgeTargets(prog, collapsedToRaw, rawToCollapsed);
    var errors, reachedExit, visited;
    ghost var last;
    errors, reachedExit, visited, last := RunRounds(prog, relocs, collapsedToRaw, rawToCollapsed, loopHeads);
    trace := last.trace;
    r := Conclude(prog, relocs, errors, reachedExit, visited, last);
    ExplorationIsSound(prog, relocs);
    PassedMeans(prog, relocs);
    AcceptanceMeans(prog, relocs);
  }

  lemma EmptyIsRejected(relocs: map<nat, Reloc>)
    ensures !Accepts([], relocs, [])
  {}

  lemma EntryProgress(prog: Program, relocs: map<nat, Reloc>, explored: seq<seq<Explored>>, regs: Regs, frame: Frame)
    requires |explored| == |prog| && forall p :: 0 <= p < |prog| ==> explored[p] == []
    requires regs == EntryRegs() && frame == EmptyFrame()
    ensures Begun(prog) == Progress(Inside(prog, Config(0, regs, frame)), [], explored, 0, 0, [])
    ensures ErrorsOf(prog, relocs, []) == [] && !ReachesExit(prog, [])
  {
    hide EntryRegs, EmptyFrame, Step;
  }
}

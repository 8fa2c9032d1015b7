/** The exploration as a function of the program: what each round of the main loop does and where the rounds end. */
module DepthFirst {
  import opened Wrappers
  import opened Instructions
  import opened AbstractStates
  import opened ControlFlow
  import opened Transfer
  import opened Certificates
  import opened Exploration

  const COMPLEXITY_LIMIT: nat := 1_000_000
  const MAX_STATES_PER_PC: nat := 32

  datatype CheckResult = CheckResult(errors: seq<VerifyError>, instructionsVisited: nat) {
    predicate Passed() { errors == [] }
  }

  /** Where the exploration stands: the state to process next, if its path has not ended, the deferred branches,
      the remembered states, the counter of identifiers, the rounds counted so far, and the visits made. */
  datatype Progress = Progress(current: Option<Config>, backtrack: seq<Config>, explored: seq<seq<Explored>>, id: nat,
                               visited: nat, trace: seq<Visit>)
  {
    predicate Fits(prog: Program) {
      |explored| == |prog| && (current.Some? ==> current.value.pc < |prog|) && visited <= COMPLEXITY_LIMIT
    }
  }

  datatype Round = Halts(last: Progress) | Goes(next: Progress)

  /** A path that leaves the program has ended. */
  function Inside(prog: Program, c: Config): Option<Config> { if c.pc < |prog| then Some(c) else None }

  ghost function Begun(prog: Program): (p: Progress)
    ensures p.Fits(prog)
  {
    Progress(Inside(prog, EntryConfig()), [], seq(|prog|, _ => []), 0, 0, [])
  }

  predicate Remembered(explored: seq<seq<Explored>>, c: Config)
    requires c.pc < |explored|
  {
    exists e :: e in explored[c.pc] && Dominates(e, c.regs, c.frame)
  }

  /** The state processed on arriving with `c`: at a loop head, the first remembered state widened by it. */
  ghost function Widened(prog: Program, explored: seq<seq<Explored>>, c: Config): Config
    requires c.pc < |explored|
  {
    if IsLoopHead(prog, c.pc) && explored[c.pc] != [] then
      var first := explored[c.pc][0];
      Config(c.pc, WidenRegs(first.regs, c.regs), WidenFrame(first.frame, c.frame))
    else c
  }

  /** What is remembered afterwards. */
  ghost function Remembering(prog: Program, explored: seq<seq<Explored>>, c: Config): seq<seq<Explored>>
    requires c.pc < |explored|
  {
    var w := Widened(prog, explored, c);
    if IsLoopHead(prog, c.pc) && explored[c.pc] != [] then
      explored[c.pc := explored[c.pc][0 := Explored(w.regs, w.frame)]]
    else if |explored[c.pc]| < MAX_STATES_PER_PC then
      explored[c.pc := explored[c.pc] + [Explored(c.regs, c.frame)]]
    else
      explored
  }

  /** Where control goes from `w`, or past the end when the path stops there. */
  function Onward(outcome: Outcome, end: nat, w: Config): Config {
    match outcome
    case Fails(_) => w.(pc := end)
    case Exits => w.(pc := end)
    case Continues(next) => next
    case Splits(_, fall) => fall
  }

  /** A branch defers its taken side. */
  function Deferring(outcome: Outcome, backtrack: seq<Config>): seq<Config> {
    match outcome
    case Splits(taken, _) => backtrack + [taken]
    case _ => backtrack
  }

  /** Processing the instruction for the arriving state `c`. */
  ghost function Visiting(prog: Program, relocs: map<nat, Reloc>, p: Progress, c: Config): Progress
    requires p.Fits(prog) && c.pc < |prog|
  {
    var w := Widened(prog, p.explored, c);
    var outcome := Step(prog, relocs, w, p.id);
    Progress(Inside(prog, Onward(outcome, |prog|, w)), Deferring(outcome, p.backtrack),
          Remembering(prog, p.explored, c),
             if outcome.Fails? then p.id else NextId(prog[w.pc], p.id), p.visited, p.trace + [Visit(w, p.id)])
  }

  /** The path has ended: the last deferred branch comes next. */
  function Resuming(prog: Program, p: Progress): Round {
    var n := |p.backtrack| - 1;
    if n < 0 then Halts(p) else Goes(p.(current := Inside(prog, p.backtrack[n]), backtrack := p.backtrack[..n]))
  }

  ghost function NextRound(prog: Program, relocs: map<nat, Reloc>, p: Progress): Round
    requires p.Fits(prog)
  {
    if p.current.None? then Resuming(prog, p)
    else
      var counted := p.(visited := p.visited + 1);
      if p.visited == COMPLEXITY_LIMIT then Halts(counted)
      else if Remembered(p.explored, p.current.value) then Resuming(prog, counted)
      else Goes(Visiting(prog, relocs, counted, p.current.value))
  }

  lemma RoundFits(prog: Program, relocs: map<nat, Reloc>, p: Progress)
    requires p.Fits(prog) && NextRound(prog, relocs, p).Goes?
    ensures var q := NextRound(prog, relocs, p).next;
            q.Fits(prog) && p.visited <= q.visited && (q.visited == p.visited ==> |q.backtrack| < |p.backtrack|)
  {
    hide Step, NextId, Remembered, IsLoopHead, WidenRegs, WidenFrame;
  }

  /** Where the rounds from `p` end. */
  ghost function Explore(prog: Program, relocs: map<nat, Reloc>, p: Progress): Progress
    requires p.Fits(prog)
    decreases COMPLEXITY_LIMIT - p.visited, |p.backtrack|
  {
    match NextRound(prog, relocs, p)
    case Halts(last) => last
    case Goes(next) => RoundFits(prog, relocs, p); Explore(prog, relocs, next)
  }

  lemma OneRound(prog: Program, relocs: map<nat, Reloc>, p: Progress)
    requires p.Fits(prog)
    ensures var r := NextRound(prog, relocs, p);
            if r.Halts? then Explore(prog, relocs, p) == r.last
            else r.next.Fits(prog) && Explore(prog, relocs, p) == Explore(prog, relocs, r.next)
  {
    hide NextRound;
    if NextRound(prog, relocs, p).Goes? {
      RoundFits(prog, relocs, p);
    }
  }

  /** The rounds stop at the limit, */
  lemma StopsAtLimit(prog: Program, relocs: map<nat, Reloc>, p: Progress)
    requires p.Fits(prog) && p.current.Some? && p.visited == COMPLEXITY_LIMIT
    ensures Explore(prog, relocs, p) == p.(visited := p.visited + 1)
  {
    hide Explore, Visiting, Remembered;
    OneRound(prog, relocs, p);
  }

  /** take up a deferred branch when a path has ended, `q` having counted the round, */
  lemma ResumesFrom(prog: Program, relocs: map<nat, Reloc>, p: Progress, q: Progress)
    requires p.Fits(prog)
    requires if p.current.None? then q == p
             else p.visited < COMPLEXITY_LIMIT && Remembered(p.explored, p.current.value)
                  && q == p.(visited := p.visited + 1)
    ensures var r := Resuming(prog, q);
            if r.Halts? then Explore(prog, relocs, p) == r.last
            else r.next.Fits(prog) && Explore(prog, relocs, p) == Explore(prog, relocs, r.next)
  {
    hide Explore, Visiting, Remembered;
    OneRound(prog, relocs, p);
  }

  /** and go on with the next instruction otherwise. */
  lemma VisitsNext(prog: Program, relocs: map<nat, Reloc>, p: Progress)
    requires p.Fits(prog) && p.current.Some? && p.visited < COMPLEXITY_LIMIT && !Remembered(p.explored, p.current.value)
    ensures var next := Visiting(prog, relocs, p.(visited := p.visited + 1), p.current.value);
            next.Fits(prog) && Explore(prog, relocs, p) == Explore(prog, relocs, next)
  {
    hide Explore, Visiting, Remembered;
    OneRound(prog, relocs, p);
  }

  /** Some visit is at an exit instruction. */
  ghost predicate ReachesExit(prog: Program, trace: seq<Visit>) {
    exists v :: v in trace && v.at.pc < |prog| && prog[v.at.pc].opcode.Exit?
  }

  /** The errors reported at the end, besides those of the visits. */
  ghost function ClosingErrors(prog: Program, last: Progress): seq<VerifyError> {
    if last.visited > COMPLEXITY_LIMIT then
      if last.current.Some? then [VerifyError(last.current.value.pc, ComplexityExceeded)] else []
    else if ReachesExit(prog, last.trace) then []
    else [VerifyError(0, FallThrough)]
  }

  /** What is reported when the rounds have ended. */
  ghost function Report(prog: Program, relocs: map<nat, Reloc>, last: Progress): CheckResult {
    CheckResult(FirstOccurrences(ErrorsOf(prog, relocs, last.trace) + ClosingErrors(prog, last)), last.visited)
  }

  /** The checker accepts the program, having made these visits. */
  ghost predicate Accepts(prog: Program, relocs: map<nat, Reloc>, trace: seq<Visit>) {
    && prog != []
    && var last := Explore(prog, relocs, Begun(prog)); last.trace == trace && Report(prog, relocs, last).Passed()
  }

  // --- The rounds keep the invariant ---

  lemma StoredAfter(prog: Program, trace: seq<Visit>, explored: seq<seq<Explored>>, c: Config, id: nat)
    requires Stored(prog, Visited(trace), explored) && c.pc < |prog|
    ensures Stored(prog, Visited(trace + [Visit(Widened(prog, explored, c), id)]), Remembering(prog, explored, c))
  {
    hide IsLoopHead, WidenRegs, WidenFrame;
    var w := Widened(prog, explored, c);
    var after: seq<seq<Explored>> := Remembering(prog, explored, c);
    var more := trace + [Visit(w, id)];
    forall p: nat, k: nat | p < |prog| && k < |after[p]|
      ensures HasVisit(Visited(more), Config(p, after[p][k].regs, after[p][k].frame))
    {
      if p == c.pc && after[p][k] == Explored(w.regs, w.frame) {
        assert Visit(w, id) in Visited(more);
      } else {
        assert after[p][k] == explored[p][k];
        assert HasVisit(Visited(trace), Config(p, explored[p][k].regs, explored[p][k].frame));
        var u :| u in Visited(trace) && u.at == Config(p, explored[p][k].regs, explored[p][k].frame);
        assert u in Visited(more);
      }
    }
  }

  lemma WidenedIsProcessed(prog: Program, visits: set<Visit>, explored: seq<seq<Explored>>, c: Config)
    returns (prev: Config)
    requires Stored(prog, visits, explored) && c.pc < |prog|
    ensures Processes(prog, visits, prev, c, Widened(prog, explored, c)) && Widened(prog, explored, c).pc == c.pc
  {
    hide IsLoopHead, WidenRegs, WidenFrame;
    prev := c;
    if IsLoopHead(prog, c.pc) && explored[c.pc] != [] {
      var first := explored[c.pc][0];
      prev := Config(c.pc, first.regs, first.frame);
      assert HasVisit(visits, prev);
    }
  }

  lemma NextIdGrows(insn: BpfInsn, id: nat)
    ensures id <= NextId(insn, id)
  {}

  lemma VisitingKeeps(prog: Program, relocs: map<nat, Reloc>, p: Progress, c: Config) returns (current: Config)
    requires p.Fits(prog) && c.pc < |prog|
    requires Invariant(prog, relocs, p.trace, p.backtrack, c, p.explored, p.id)
    ensures var q := Visiting(prog, relocs, p, c);
            q.current == Inside(prog, current) && Invariant(prog, relocs, q.trace, q.backtrack, current, q.explored,
                  q.id)
  {
    hide Invariant, Step, NextId, Stored, Processes, Remembering, Widened;
    InvariantParts(prog, relocs, p.trace, p.backtrack, c, p.explored, p.id);
    var w, q := Widened(prog, p.explored, c), Visiting(prog, relocs, p, c);
    var prev := WidenedIsProcessed(prog, Visited(p.trace), p.explored, c);
    StoredAfter(prog, p.trace, p.explored, c, p.id);
    NextIdGrows(prog[w.pc], p.id);
    current := Onward(Step(prog, relocs, w, p.id), |prog|, w);
    Processed(prog, relocs, p.trace, p.backtrack, c, prev, w, p.id, q.backtrack, current, q.explored, p.explored, q.id);
  }

  lemma InvariantParts(prog: Program, relocs: map<nat, Reloc>, trace: seq<Visit>, backtrack: seq<Config>,
                       current: Config, explored: seq<seq<Explored>>, id: nat)
    requires Invariant(prog, relocs, trace, backtrack, current, explored, id)
    ensures Grounded(prog, relocs, trace) && Stored(prog, Visited(trace), explored)
  {
    hide AllTracked, Grounded, Stored, Waiting;
  }

  lemma EndedIsCovered(prog: Program, relocs: map<nat, Reloc>, p: Progress, current: Config)
    requires p.Fits(prog) && p.current == Inside(prog, current)
    requires Invariant(prog, relocs, p.trace, p.backtrack, current, p.explored, p.id)
    requires p.current.Some? ==> Remembered(p.explored, current)
    ensures Covered(prog, Visited(p.trace), current)
  {
    hide Invariant, Dominates;
    if p.current.Some? {
      var e :| e in p.explored[current.pc] && Dominates(e, current.regs, current.frame);
      var k: nat :| k < |p.explored[current.pc]| && p.explored[current.pc][k] == e;
      Pruned(prog, relocs, p.trace, p.backtrack, current, p.explored, p.id, k);
    }
  }

  /** Wherever the rounds end, every visit has a reason; and nothing is left to visit unless the limit was hit. */
  lemma {:induction false} ExploreKeeps(prog: Program, relocs: map<nat, Reloc>, p: Progress, current: Config)
    requires p.Fits(prog) && p.current == Inside(prog, current)
    requires Invariant(prog, relocs, p.trace, p.backtrack, current, p.explored, p.id)
    ensures var last := Explore(prog, relocs, p);
            && Grounded(prog, relocs, last.trace)
            && (last.visited <= COMPLEXITY_LIMIT ==> Complete(prog, relocs, Visited(last.trace)))
            && (last.visited > COMPLEXITY_LIMIT ==> last.current.Some? && last.current.value.pc < |prog|)
    decreases COMPLEXITY_LIMIT - p.visited, |p.backtrack|
  {
    hide Invariant, Complete, Grounded, Visiting, Remembered, Covered;
    InvariantParts(prog, relocs, p.trace, p.backtrack, current, p.explored, p.id);
    if NextRound(prog, relocs, p).Goes? {
      RoundFits(prog, relocs, p);
    }
    if p.current.Some? && p.visited == COMPLEXITY_LIMIT {
      assert NextRound(prog, relocs, p).Halts?;
    } else if p.current.Some? && !Remembered(p.explored, current) {
      var next := VisitingKeeps(prog, relocs, p.(visited := p.visited + 1), current);
      ExploreKeeps(prog, relocs, NextRound(prog, relocs, p).next, next);
    } else {
      EndedIsCovered(prog, relocs, p, current);
      if p.backtrack == [] {
        Finished(prog, relocs, p.trace, current, p.explored, p.id);
      } else {
        Popped(prog, relocs, p.trace, p.backtrack, current, p.explored, p.id);
        ExploreKeeps(prog, relocs, NextRound(prog, relocs, p).next, p.backtrack[|p.backtrack| - 1]);
      }
    }
  }

  /** What the exploration of a program establishes. */
  lemma ExplorationIsSound(prog: Program, relocs: map<nat, Reloc>)
    requires prog != []
    ensures var last := Explore(prog, relocs, Begun(prog));
            && Grounded(prog, relocs, last.trace)
            && (last.visited <= COMPLEXITY_LIMIT ==> Complete(prog, relocs, Visited(last.trace)))
            && (last.visited > COMPLEXITY_LIMIT ==> last.current.Some? && last.current.value.pc < |prog|)
  {
    hide Invariant, Complete, Grounded, Explore, EntryConfig;
    EntryIsFirst();
    Start(prog, relocs, Begun(prog).explored);
    ExploreKeeps(prog, relocs, Begun(prog), EntryConfig());
  }

  lemma EntryIsFirst()
    ensures EntryConfig().pc == 0
  {}

  // --- What is reported ---

  /** Nothing is reported exactly when no visit failed, an exit was reached and the limit was not. */
  lemma PassedMeans(prog: Program, relocs: map<nat, Reloc>)
    requires prog != []
    ensures var last := Explore(prog, relocs, Begun(prog));
            Report(prog, relocs, last).Passed() <==>
              && last.visited <= 1_000_000
              && NoFailure(prog, relocs, Visited(last.trace)) && ReachesExit(prog, last.trace)
  {
    hide NoFailure, ErrorsOf, FirstOccurrences, ReachesExit, Explore, Complete, Grounded, Begun;
    ExplorationIsSound(prog, relocs);
    var last := Explore(prog, relocs, Begun(prog));
    NoErrorsNoFailure(prog, relocs, last.trace);
    FirstOccurrencesExact(ErrorsOf(prog, relocs, last.trace) + ClosingErrors(prog, last));
  }

  /** What a checker that reports this promises. */
  lemma AcceptanceMeans(prog: Program, relocs: map<nat, Reloc>)
    requires prog != []
    ensures var last := Explore(prog, relocs, Begun(prog));
            && (Report(prog, relocs, last).Passed() <==> Accepts(prog, relocs, last.trace))
            && (Report(prog, relocs, last).Passed() ==>
                  Certificate(prog, relocs, Visited(last.trace)) && Grounded(prog, relocs, last.trace))
  {
    hide NoFailure, ReachesExit, Explore, Complete, Grounded, Begun, Report;
    ExplorationIsSound(prog, relocs);
    PassedMeans(prog, relocs);
  }

  /** The visits of an accepted program are a certificate, and each of them has a reason. */
  lemma AcceptedIsCertified(prog: Program, relocs: map<nat, Reloc>, trace: seq<Visit>)
    requires Accepts(prog, relocs, trace)
    ensures Certificate(prog, relocs, Visited(trace)) && Grounded(prog, relocs, trace) && ReachesExit(prog, trace)
  {
    hide NoFailure, ReachesExit, Explore, Complete, Grounded, Begun, Report;
    ExplorationIsSound(prog, relocs);
    PassedMeans(prog, relocs);
  }

  /** An error is reported exactly when a visit failed with it, or it closes the run. */
  lemma ReportedErrors(prog: Program, relocs: map<nat, Reloc>, last: Progress, e: VerifyError)
    ensures e in Report(prog, relocs, last).errors <==>
              || e in ClosingErrors(prog, last)
              || exists v :: v in last.trace && Failing(prog, relocs, v) &&
                   e == VerifyError(v.at.pc, Step(prog, relocs, v.at, v.id).kind)
  {
    hide ErrorsOf, FirstOccurrences, Step, ClosingErrors;
    var trace := last.trace;
    FirstOccurrencesExact(ErrorsOf(prog, relocs, trace) + ClosingErrors(prog, last));
    ErrorsAreFailures(prog, relocs, trace, e);
    if e in ErrorsOf(prog, relocs, trace) {
      var v :| v in trace && e in ErrorOf(prog, relocs, v);
      assert Failing(prog, relocs, v);
    }
    if exists v :: v in trace && Failing(prog, relocs, v)
          && e == VerifyError(v.at.pc, Step(prog, relocs, v.at, v.id).kind) {
      var v :| v in trace && Failing(prog, relocs, v) && e == VerifyError(v.at.pc, Step(prog, relocs, v.at, v.id).kind);
      assert e in ErrorOf(prog, relocs, v);
    }
  }

  // --- Following the exploration of a given program ---

  /** What is remembered after a first visit. */
  function Only(c: Config): seq<Explored> { [Explored(c.regs, c.frame)] }

  /** One round where nothing is remembered yet and nothing fails. */
  lemma FirstVisit(prog: Program, relocs: map<nat, Reloc>, p: Progress, c: Config, outcome: Outcome)
    requires p.Fits(prog) && p.visited < COMPLEXITY_LIMIT && p.current == Some(c) && p.explored[c.pc] == []
    requires outcome == Step(prog, relocs, c, p.id) && !outcome.Fails?
    ensures var q := Progress(Inside(prog, Onward(outcome, |prog|, c)), Deferring(outcome, p.backtrack),
                              p.explored[c.pc := Only(c)], NextId(prog[c.pc], p.id), p.visited + 1,
                              p.trace + [Visit(c, p.id)]);
            q.Fits(prog) && Explore(prog, relocs, p) == Explore(prog, relocs, q)
  {
    hide Step, NextId, IsLoopHead, Explore, Onward, Deferring;
    assert p.explored[c.pc] + [Explored(c.regs, c.frame)] == [Explored(c.regs, c.frame)];
    VisitsNext(prog, relocs, p);
  }

  /** The same, from one given progress to the next. */
  lemma OneVisit(prog: Program, relocs: map<nat, Reloc>, p: Progress, q: Progress, outcome: Outcome)
    requires p.Fits(prog) && p.visited < COMPLEXITY_LIMIT && p.current.Some? && p.explored[p.current.value.pc] == []
    requires var c := p.current.value;
             && outcome == Step(prog, relocs, c, p.id) && !outcome.Fails?
             && q.current == Inside(prog, Onward(outcome, |prog|, c)) && q.backtrack == Deferring(outcome, p.backtrack)
             && q.explored == p.explored[c.pc := Only(c)] && q.id == NextId(prog[c.pc], p.id)
             && q.visited == p.visited + 1 && q.trace == p.trace + [Visit(c, p.id)]
    ensures q.Fits(prog) && Explore(prog, relocs, p) == Explore(prog, relocs, q)
  {
    hide Step, NextId, Explore;
    FirstVisit(prog, relocs, p, p.current.value, outcome);
  }

  /** A path that has ended or meets a remembered state. */
  lemma Resumes(prog: Program, relocs: map<nat, Reloc>, p: Progress, q: Progress)
    requires p.Fits(prog) && p.backtrack != []
    requires p.current.Some? ==> p.visited < COMPLEXITY_LIMIT && Remembered(p.explored, p.current.value)
    requires q.current == Some(p.backtrack[|p.backtrack| - 1]) && q.current.value.pc < |prog|
    requires q.backtrack == p.backtrack[..|p.backtrack| - 1]
    requires q.explored == p.explored && q.id == p.id && q.trace == p.trace
    requires q.visited == p.visited + if p.current.Some? then 1 else 0
    ensures q.Fits(prog) && Explore(prog, relocs, p) == Explore(prog, relocs, q)
  {
    hide Explore, Remembered;
    ResumesFrom(prog, relocs, p, p.(visited := q.visited));
  }

  /** Where an exploration without errors that reaches an exit ends, the program is accepted. */
  lemma EndsAccepted(prog: Program, relocs: map<nat, Reloc>, last: Progress)
    requires prog != [] && Explore(prog, relocs, Begun(prog)) == last && last.visited <= COMPLEXITY_LIMIT
    requires NoFailure(prog, relocs, Visited(last.trace)) && ReachesExit(prog, last.trace)
    ensures Accepts(prog, relocs, last.trace)
  {
    hide Explore, Begun, NoFailure, ReachesExit, Report;
    PassedMeans(prog, relocs);
  }

  /** `next` is the visit after `v` on a straight run. */
  ghost predicate Follows(prog: Program, relocs: map<nat, Reloc>, v: Visit, next: Visit) {
    v.at.pc < |prog| && Step(prog, relocs, v.at, v.id) == Continues(next.at) && next.id == NextId(prog[v.at.pc], v.id)
  }

  /** The visits go through the program from the first instruction to the last, an exit. */
  ghost predicate IsStraight(prog: Program, relocs: map<nat, Reloc>, trace: seq<Visit>) {
    && 0 < |trace| == |prog| <= COMPLEXITY_LIMIT && trace[0] == Visit(EntryConfig(), 0)
    && (forall i :: 0 <= i < |trace| ==> trace[i].at.pc == i)
    && (forall i :: 0 <= i < |trace| - 1 ==> Follows(prog, relocs, trace[i], trace[i + 1]))
    && var v := trace[|trace| - 1];
       prog[v.at.pc].opcode.Exit? && Step(prog, relocs, v.at, v.id).Exits?
  }

  /** The progress after `k` visits at the first `k` instructions, each visited once. */
  ghost function Along(prog: Program, trace: seq<Visit>, k: nat, backtrack: seq<Config>): Progress
    requires k < |trace| && k < |prog|
  {
    Progress(Some(trace[k].at), backtrack, seq(|prog|, i requires 0 <= i < |prog| => if i < k then Only(trace[i].at)
          else []),
             trace[k].id, k, trace[..k])
  }

  /** One more of them. */
  lemma AlongNext(prog: Program, relocs: map<nat, Reloc>, trace: seq<Visit>, k: nat, backtrack: seq<Config>,
          outcome: Outcome)
    requires k + 1 < |trace| && k + 1 < |prog| <= COMPLEXITY_LIMIT && trace[k].at.pc == k && trace[k + 1].at.pc == k + 1
    requires outcome == Step(prog, relocs, trace[k].at, trace[k].id) && !outcome.Fails?
    requires Onward(outcome, |prog|, trace[k].at) == trace[k + 1].at && trace[k + 1].id == NextId(prog[k], trace[k].id)
    ensures var p, q := Along(prog, trace, k, backtrack), Along(prog, trace, k + 1, Deferring(outcome, backtrack));
            p.Fits(prog) && q.Fits(prog) && Explore(prog, relocs, p) == Explore(prog, relocs, q)
  {
    hide Step, NextId, Explore, Onward, Deferring;
    var p, q := Along(prog, trace, k, backtrack), Along(prog, trace, k + 1, Deferring(outcome, backtrack));
    assert q.trace == p.trace + [trace[k]];
    assert q.explored == p.explored[k := Only(trace[k].at)];
    OneVisit(prog, relocs, p, q, outcome);
  }

  lemma AtStart(prog: Program, trace: seq<Visit>)
    requires prog != [] && trace != [] && trace[0] == Visit(EntryConfig(), 0)
    ensures Along(prog, trace, 0, []).Fits(prog) && Begun(prog) == Along(prog, trace, 0, [])
  {
    hide EntryRegs, EmptyFrame;
    EntryIsFirst();
    assert trace[..0] == [];
    assert Begun(prog).explored == Along(prog, trace, 0, []).explored;
  }

  lemma {:induction false} StraightRounds(prog: Program, relocs: map<nat, Reloc>, trace: seq<Visit>, k: nat)
    requires IsStraight(prog, relocs, trace) && k < |trace|
    ensures Along(prog, trace, k, []).Fits(prog)
    ensures Explore(prog, relocs, Begun(prog)) == Explore(prog, relocs, Along(prog, trace, k, []))
    decreases k
  {
    hide Step, NextId, EntryConfig, Explore, Along;
    if k == 0 {
      AtStart(prog, trace);
    } else {
      StraightRounds(prog, relocs, trace, k - 1);
      assert Follows(prog, relocs, trace[k - 1], trace[k - 1 + 1]);
      AlongNext(prog, relocs, trace, k - 1, [], Continues(trace[k].at));
    }
  }

  lemma StraightIsClean(prog: Program, relocs: map<nat, Reloc>, trace: seq<Visit>)
    requires IsStraight(prog, relocs, trace)
    ensures NoFailure(prog, relocs, Visited(trace)) && ReachesExit(prog, trace)
  {
    hide Step, NextId, EntryConfig;
    forall v | v in Visited(trace)
      ensures !Failing(prog, relocs, v)
    {
      var i :| 0 <= i < |trace| && trace[i] == v;
      if i < |trace| - 1 {
        assert Follows(prog, relocs, trace[i], trace[i + 1]);
      }
    }
    assert trace[|trace| - 1] in trace;
  }

  /** A program that runs straight to an exit without errors is accepted, with exactly these visits. */
  lemma StraightIsAccepted(prog: Program, relocs: map<nat, Reloc>, trace: seq<Visit>)
    requires IsStraight(prog, relocs, trace)
    ensures Accepts(prog, relocs, trace)
  {
    hide Step, NextId, EntryConfig, Explore, Begun, Report, NoFailure, ReachesExit, Visited;
    var n := |trace| - 1;
    var v, p := trace[n], Along(prog, trace, n, []);
    StraightRounds(prog, relocs, trace, n);
    FirstVisit(prog, relocs, p, v.at, Exits);
    assert trace == p.trace + [v];
    var last := Explore(prog, relocs, p);
    var q := Progress(None, [], p.explored[n := Only(v.at)], NextId(prog[n], v.id), n + 1, trace);
    assert last == Explore(prog, relocs, q);
    ResumesFrom(prog, relocs, q, q);
    StraightIsClean(prog, relocs, trace);
    EndsAccepted(prog, relocs, q);
  }
}

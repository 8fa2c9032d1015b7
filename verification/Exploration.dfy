/** What the exploration knows at every moment, and why one round keeps it. */
module Exploration {
  import opened Wrappers
  import opened Tnums
  import opened Instructions
  import opened RegStates
  import opened AbstractStates
  import opened ControlFlow
  import opened Transfer
  import opened Certificates
  import opened Sanity

  /** A state remembered at one instruction, to prune later arrivals. */
  datatype Explored = Explored(regs: Regs, frame: Frame)

  datatype VerifyError = VerifyError(pc: nat, kind: ErrorKind)

  ghost function Visited(trace: seq<Visit>): set<Visit> { set v | v in trace }

  ghost function Pending(backtrack: seq<Config>, current: Config): set<Config> {
    (set c | c in backtrack) + {current}
  }

  // --- Where visits come from ---

  /** An arriving state, or at a loop head an earlier visit widened by an arriving state. */
  ghost predicate Justified(prog: Program, relocs: map<nat, Reloc>, visits: set<Visit>, w: Config) {
    || Arrives(prog, relocs, visits, w)
    || (IsLoopHead(prog, w.pc) &&
        exists prev, c :: prev in visits && Arrives(prog, relocs, visits, c) && WidensTo(prev.at, c, w))
  }

  /** Nothing is visited without a reason: every visit is justified by the earlier ones. */
  ghost predicate Grounded(prog: Program, relocs: map<nat, Reloc>, trace: seq<Visit>) {
    forall i :: 0 <= i < |trace| ==> Justified(prog, relocs, Visited(trace[..i]), trace[i].at)
  }

  lemma ArrivesLater(prog: Program, relocs: map<nat, Reloc>, visits: set<Visit>, more: set<Visit>, c: Config)
    requires Arrives(prog, relocs, visits, c) && visits <= more
    ensures Arrives(prog, relocs, more, c)
  {
    hide Successors;
    if c != EntryConfig() {
      var v :| v in visits && c in Successors(prog, relocs, v);
      assert v in more;
    }
  }

  /** What holds of the entry state, passes to successors and survives widening holds of every visit. */
  lemma {:induction false} GroundedInvariant(prog: Program, relocs: map<nat, Reloc>, trace: seq<Visit>,
          p: Config -> bool,
                                             n: nat)
    requires Grounded(prog, relocs, trace) && n <= |trace|
    requires p(EntryConfig())
    requires forall v, s :: v in trace && p(v.at) && s in Successors(prog, relocs, v) ==> p(s)
    requires forall prev, c, w :: p(prev) && p(c) && WidensTo(prev, c, w) ==> p(w)
    ensures forall i :: 0 <= i < n ==> p(trace[i].at)
    decreases n
  {
    hide Successors, EntryConfig, WidensTo;
    if n > 0 {
      GroundedInvariant(prog, relocs, trace, p, n - 1);
      var before, w := Visited(trace[..n - 1]), trace[n - 1].at;
      assert forall v :: v in before ==> v in trace && p(v.at);
      assert forall c :: Arrives(prog, relocs, before, c) ==> p(c);
      assert Justified(prog, relocs, before, w);
    }
  }

  // --- The errors of a trace ---

  ghost function ErrorOf(prog: Program, relocs: map<nat, Reloc>, v: Visit): seq<VerifyError> {
    if Failing(prog, relocs, v) then [VerifyError(v.at.pc, Step(prog, relocs, v.at, v.id).kind)] else []
  }

  ghost function ErrorsOf(prog: Program, relocs: map<nat, Reloc>, trace: seq<Visit>): seq<VerifyError> {
    if trace == [] then []
    else ErrorsOf(prog, relocs, trace[..|trace| - 1]) + ErrorOf(prog, relocs, trace[|trace| - 1])
  }

  lemma ErrorsGrow(prog: Program, relocs: map<nat, Reloc>, trace: seq<Visit>, v: Visit)
    ensures ErrorsOf(prog, relocs, trace + [v]) == ErrorsOf(prog, relocs, trace) + ErrorOf(prog, relocs, v)
  {
    assert (trace + [v])[..|trace|] == trace;
  }

  /** Exactly the failing visits report errors. */
  lemma {:induction false} ErrorsAreFailures(prog: Program, relocs: map<nat, Reloc>, trace: seq<Visit>, e: VerifyError)
    ensures e in ErrorsOf(prog, relocs, trace) <==> exists v :: v in trace && e in ErrorOf(prog, relocs, v)
  {
    hide ErrorOf;
    if trace != [] {
      var last := trace[|trace| - 1];
      assert trace == trace[..|trace| - 1] + [last];
      ErrorsAreFailures(prog, relocs, trace[..|trace| - 1], e);
    }
  }

  lemma NoErrorsNoFailure(prog: Program, relocs: map<nat, Reloc>, trace: seq<Visit>)
    ensures ErrorsOf(prog, relocs, trace) == [] <==> NoFailure(prog, relocs, Visited(trace))
  {
    hide Failing, Step;
    if ErrorsOf(prog, relocs, trace) != [] {
      var e := ErrorsOf(prog, relocs, trace)[0];
      ErrorsAreFailures(prog, relocs, trace, e);
      var v :| v in trace && e in ErrorOf(prog, relocs, v);
      assert v in Visited(trace) && Failing(prog, relocs, v);
    }
    if ErrorsOf(prog, relocs, trace) == [] {
      forall v | v in Visited(trace)
        ensures !Failing(prog, relocs, v)
      {
        if Failing(prog, relocs, v) {
          var e := ErrorOf(prog, relocs, v)[0];
          ErrorsAreFailures(prog, relocs, trace, e);
        }
      }
    }
  }

  // --- Removing repeated errors ---

  /** Each error once, in the order of first occurrence. */
  function FirstOccurrences(errors: seq<VerifyError>): seq<VerifyError> {
    if errors == [] then []
    else
      var n := |errors| - 1;
      FirstOccurrences(errors[..n]) + if errors[n] in errors[..n] then [] else [errors[n]]
  }

  /** Dropping repetitions loses no error, invents none and keeps none twice. */
  lemma {:induction false} FirstOccurrencesExact(errors: seq<VerifyError>)
    ensures forall e :: e in FirstOccurrences(errors) <==> e in errors
    ensures var r := FirstOccurrences(errors); forall i, j :: 0 <= i < j < |r| ==> r[i] != r[j]
    ensures FirstOccurrences(errors) == [] <==> errors == []
  {
    if errors != [] {
      var n := |errors| - 1;
      FirstOccurrencesExact(errors[..n]);
      assert errors == errors[..n] + [errors[n]];
      assert errors[0] in errors;
    }
  }

  // --- The invariant ---

  ghost predicate HasVisit(visits: set<Visit>, c: Config) {
    exists v :: v in visits && v.at == c
  }

  /** Every remembered state was visited. */
  ghost predicate Stored(prog: Program, visits: set<Visit>, explored: seq<seq<Explored>>) {
    && |explored| == |prog|
    && forall p: nat, k :: p < |prog| && 0 <= k < |explored[p]| ==>
         HasVisit(visits, Config(p, explored[p][k].regs, explored[p][k].frame))
  }

  /** A state waiting to be processed. */
  ghost predicate Waiting(prog: Program, relocs: map<nat, Reloc>, visits: set<Visit>, id: nat, c: Config) {
    ConfigOk(c, id) && Arrives(prog, relocs, visits, c)
  }

  ghost predicate Invariant(prog: Program, relocs: map<nat, Reloc>, trace: seq<Visit>,
                            backtrack: seq<Config>, current: Config, explored: seq<seq<Explored>>, id: nat)
  {
    && AllTracked(prog, relocs, Visited(trace), Pending(backtrack, current))
    && Grounded(prog, relocs, trace)
    && Stored(prog, Visited(trace), explored)
    && (forall v :: v in trace ==> v.id <= id)
    && (forall c :: c in backtrack ==> Waiting(prog, relocs, Visited(trace), id, c))
    && (current.pc < |prog| ==> Waiting(prog, relocs, Visited(trace), id, current))
  }

  lemma Start(prog: Program, relocs: map<nat, Reloc>, explored: seq<seq<Explored>>)
    requires |explored| == |prog| && forall p :: 0 <= p < |prog| ==> explored[p] == []
    ensures Invariant(prog, relocs, [], [], EntryConfig(), explored, 0)
  {
    hide ConfigOk, Successors, EntryConfig, Covered, VisitOk;
    EntryOk();
    assert EntryConfig() in Pending([], EntryConfig());
  }

  /** The path has ended and nothing else waits. */
  lemma Finished(prog: Program, relocs: map<nat, Reloc>, trace: seq<Visit>, current: Config,
                 explored: seq<seq<Explored>>, id: nat)
    requires Invariant(prog, relocs, trace, [], current, explored, id)
    requires Covered(prog, Visited(trace), current)
    ensures Complete(prog, relocs, Visited(trace)) && Grounded(prog, relocs, trace)
  {
    hide AllTracked, Complete, Covered, Grounded, Stored, Waiting;
    DropPending(prog, relocs, Visited(trace), Pending([], current), current, {});
    NothingPending(prog, relocs, Visited(trace));
  }

  /** The path has ended: the last deferred branch comes next. */
  lemma Popped(prog: Program, relocs: map<nat, Reloc>, trace: seq<Visit>, backtrack: seq<Config>, current: Config,
               explored: seq<seq<Explored>>, id: nat)
    requires Invariant(prog, relocs, trace, backtrack, current, explored, id) && |backtrack| > 0
    requires Covered(prog, Visited(trace), current)
    ensures var n := |backtrack| - 1;
            Invariant(prog, relocs, trace, backtrack[..n], backtrack[n], explored, id)
  {
    hide AllTracked, Covered, Grounded, Stored, Waiting;
    var n := |backtrack| - 1;
    DropPending(prog, relocs, Visited(trace), Pending(backtrack, current), current,
          Pending(backtrack[..n], backtrack[n]));
  }

  predicate Dominates(e: Explored, regs: Regs, frame: Frame) {
    RegsWithin(regs, e.regs) && FrameWithin(frame, e.frame)
  }

  /** An arriving state that a remembered one subsumes is covered. */
  lemma Pruned(prog: Program, relocs: map<nat, Reloc>, trace: seq<Visit>, backtrack: seq<Config>, current: Config,
               explored: seq<seq<Explored>>, id: nat, k: nat)
    requires Invariant(prog, relocs, trace, backtrack, current, explored, id) && current.pc < |prog|
    requires k < |explored[current.pc]|
    requires Dominates(explored[current.pc][k], current.regs, current.frame)
    ensures Covered(prog, Visited(trace), current)
  {
    hide AllTracked, Grounded, Waiting, RegsWithin, FrameWithin;
    var e := explored[current.pc][k];
    assert HasVisit(Visited(trace), Config(current.pc, e.regs, e.frame));
    var v :| v in Visited(trace) && v.at == Config(current.pc, e.regs, e.frame);
    assert Subsumes(v.at, current);
  }

  // --- One visit ---

  /** What follows the processing of an instruction with this outcome. */
  ghost predicate Advances(outcome: Outcome, end: nat, before: seq<Config>, backtrack: seq<Config>, current: Config) {
    match outcome
    case Fails(_) => backtrack == before && current.pc == end
    case Exits => backtrack == before && current.pc == end
    case Continues(next) => backtrack == before && current == next
    case Splits(taken, fall) => backtrack == before + [taken] && current == fall
  }

  /** The state to process on arriving with `c`: itself, or the stored state `prev` widened by it. */
  ghost predicate Processes(prog: Program, visits: set<Visit>, prev: Config, c: Config, w: Config) {
    w == c || (IsLoopHead(prog, c.pc) && HasVisit(visits, prev) && WidensTo(prev, c, w))
  }

  lemma ProcessedIsCovered(prog: Program, visits: set<Visit>, prev: Config, c: Config, visit: Visit)
    requires Processes(prog, visits, prev, c, visit.at)
    ensures Covered(prog, visits + {visit}, c)
  {
    hide IsLoopHead, WidensTo, RegState.IsSubstateOf;
    var more := visits + {visit};
    if visit.at == c {
      SubsumesItself(c);
      assert visit in more && Subsumes(visit.at, c);
    } else {
      var p :| p in visits && p.at == prev;
      assert p in more && visit in more && WidensTo(p.at, c, visit.at);
    }
  }

  lemma SubsumesItself(c: Config)
    ensures Subsumes(c, c)
  {
    forall i | 0 <= i < 11
      ensures c.regs[i].IsSubstateOf(c.regs[i])
    {
      WithinItself(c.regs[i].tnum.value, c.regs[i].tnum.mask);
    }
  }

  lemma WithinItself(value: bv64, mask: bv64)
    ensures Tnum(value, mask).Within(Tnum(value, mask))
  {}

  lemma ProcessedIsOk(prog: Program, relocs: map<nat, Reloc>, trace: seq<Visit>, id: nat,
                      prev: Config, c: Config, w: Config)
    requires Waiting(prog, relocs, Visited(trace), id, c) && c.pc < |prog|
    requires Processes(prog, Visited(trace), prev, c, w)
    requires forall v :: v in trace ==> v.id <= id && VisitOk(prog, v)
    ensures VisitOk(prog, Visit(w, id))
    ensures Justified(prog, relocs, Visited(trace), w)
  {
    hide ConfigOk, IsLoopHead, Arrives;
    if w != c {
      hide WidensTo;
      var p :| p in Visited(trace) && p.at == prev;
      ConfigOkLater(prev, p.id, id);
      WidenedConfigOk(prev, c, w, id);
      assert WidensTo(p.at, c, w);
      assert w.pc == c.pc by { PcOfWidened(prev, c, w); }
    }
  }

  lemma PcOfWidened(prev: Config, c: Config, w: Config)
    requires WidensTo(prev, c, w)
    ensures w.pc == c.pc
  {}

  lemma GroundedGrows(prog: Program, relocs: map<nat, Reloc>, trace: seq<Visit>, v: Visit)
    requires Grounded(prog, relocs, trace) && Justified(prog, relocs, Visited(trace), v.at)
    ensures Grounded(prog, relocs, trace + [v])
  {
    hide Justified;
    var more := trace + [v];
    forall i | 0 <= i < |more|
      ensures Justified(prog, relocs, Visited(more[..i]), more[i].at)
    {
      if i < |trace| {
        assert more[..i] == trace[..i];
      } else {
        assert more[..i] == trace;
      }
    }
  }

  lemma SuccessorsArePending(prog: Program, relocs: map<nat, Reloc>, visit: Visit,
                             before: seq<Config>, backtrack: seq<Config>, current: Config)
    requires visit.at.pc < |prog|
    requires Advances(Step(prog, relocs, visit.at, visit.id), |prog|, before, backtrack, current)
    ensures Successors(prog, relocs, visit) <= Pending(backtrack, current)
    ensures forall c :: c in before ==> c in Pending(backtrack, current)
    ensures forall c :: c in backtrack ==> c in before || c in Successors(prog, relocs, visit)
    ensures current.pc < |prog| ==> current in Successors(prog, relocs, visit)
  {
    hide Step;
  }

  lemma VisitsAreOk(prog: Program, relocs: map<nat, Reloc>, trace: seq<Visit>, pending: set<Config>)
    requires AllTracked(prog, relocs, Visited(trace), pending)
    ensures forall v :: v in trace ==> VisitOk(prog, v)
  {
    hide VisitOk, Tracked, Successors;
    assert forall v :: v in trace ==> v in Visited(trace);
  }

  lemma SuccessorWaits(prog: Program, relocs: map<nat, Reloc>, visits: set<Visit>, visit: Visit, id': nat, c: Config)
    requires VisitOk(prog, visit) && visit in visits && c in Successors(prog, relocs, visit)
    requires Step(prog, relocs, visit.at, visit.id).Fails? || id' == NextId(prog[visit.at.pc], visit.id)
    ensures Waiting(prog, relocs, visits, id', c)
  {
    StepOk(prog, relocs, visit, c);
    hide Step, ConfigOk, NextId, EntryConfig;
  }

  /** Processing an instruction keeps the invariant. */
  lemma Processed(prog: Program, relocs: map<nat, Reloc>, trace: seq<Visit>, before: seq<Config>, arrived: Config,
                  prev: Config, w: Config, id: nat,
                  backtrack: seq<Config>, current: Config, explored: seq<seq<Explored>>, stored: seq<seq<Explored>>,
                  id': nat)
    requires Invariant(prog, relocs, trace, before, arrived, stored, id) && arrived.pc < |prog|
    requires Processes(prog, Visited(trace), prev, arrived, w) && w.pc == arrived.pc
    requires Advances(Step(prog, relocs, w, id), |prog|, before, backtrack, current)
    requires id <= id' && (Step(prog, relocs, w, id).Fails? || id' == NextId(prog[w.pc], id))
    requires Stored(prog, Visited(trace + [Visit(w, id)]), explored)
    ensures Invariant(prog, relocs, trace + [Visit(w, id)], backtrack, current, explored, id')
  {
    hide AllTracked, Covered, Grounded, Stored, ConfigOk, Arrives, Processes, Justified, Advances, Step, NextId;
    var visit := Visit(w, id);
    var more := trace + [visit];
    var left := Pending(backtrack, current);
    assert Visited(more) == Visited(trace) + {visit};
    assert forall v :: v in trace ==> v in Visited(trace);
    VisitsAreOk(prog, relocs, trace, Pending(before, arrived));
    ProcessedIsOk(prog, relocs, trace, id, prev, arrived, w);
    ProcessedIsCovered(prog, Visited(trace), prev, arrived, visit);
    SuccessorsArePending(prog, relocs, visit, before, backtrack, current);
    AddVisit(prog, relocs, Visited(trace), Pending(before, arrived), arrived, visit, left);
    GroundedGrows(prog, relocs, trace, visit);
    forall c | c in backtrack || (c == current && current.pc < |prog|)
      ensures Waiting(prog, relocs, Visited(more), id', c)
    {
      if c in before && c !in Successors(prog, relocs, visit) {
        assert Waiting(prog, relocs, Visited(trace), id, c);
        ConfigOkLater(c, id, id');
        ArrivesLater(prog, relocs, Visited(trace), Visited(more), c);
      } else {
        SuccessorWaits(prog, relocs, Visited(more), visit, id', c);
      }
    }
  }
}

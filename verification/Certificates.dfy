/** What a finished exploration establishes.

  The checker visits abstract states; a set of visits is complete when the entry state and every successor
  of a visit is covered: subsumed by a visited state, or widened into one at a loop head. A complete set
  without failing visits is a certificate, and every theorem about accepted programs starts from one.
*/
module Certificates {
  import opened Tnums
  import opened Instructions
  import opened RegStates
  import opened AbstractStates
  import opened ControlFlow
  import opened Transfer

  /** An abstract state that was processed, with the counter of fresh identifiers at that moment. */
  datatype Visit = Visit(at: Config, id: nat)

  function EntryConfig(): Config { Config(0, EntryRegs(), EmptyFrame()) }

  /** `w` is at least as general as `c` at the same instruction. */
  predicate Subsumes(w: Config, c: Config) {
    w.pc == c.pc && RegsWithin(c.regs, w.regs) && FrameWithin(c.frame, w.frame)
  }

  /** Arriving with `c` where `prev` is stored makes the checker continue with `w`. */
  predicate WidensTo(prev: Config, c: Config, w: Config) {
    prev.pc == c.pc && w == Config(c.pc, WidenRegs(prev.regs, c.regs), WidenFrame(prev.frame, c.frame))
  }

  ghost predicate SubsumedIn(visits: set<Visit>, c: Config) {
    exists v :: v in visits && Subsumes(v.at, c)
  }

  ghost predicate WidenedIn(prog: Program, visits: set<Visit>, c: Config) {
    IsLoopHead(prog, c.pc) && exists prev, v :: prev in visits && v in visits && WidensTo(prev.at, c, v.at)
  }

  ghost predicate Covered(prog: Program, visits: set<Visit>, c: Config) {
    c.pc >= |prog| || SubsumedIn(visits, c) || WidenedIn(prog, visits, c)
  }

  /** The states control passes to from a visit; none after an error, an exit, or off the end. */
  ghost function Successors(prog: Program, relocs: map<nat, Reloc>, v: Visit): set<Config> {
    if v.at.pc >= |prog| then {} else
    match Step(prog, relocs, v.at, v.id)
    case Fails(_) => {}
    case Exits => {}
    case Continues(next) => {next}
    case Splits(taken, fall) => {taken, fall}
  }

  /** `c` is the entry state or a successor of a visit. */
  ghost predicate Arrives(prog: Program, relocs: map<nat, Reloc>, visits: set<Visit>, c: Config) {
    c == EntryConfig() || exists v :: v in visits && c in Successors(prog, relocs, v)
  }

  // --- What holds of every state the checker handles ---

  /** A pointer into the region with identifier `id`. */
  predicate IsRegionPtr(kind: RegType) { kind.MapValuePtr? || kind.RingBufPtr? }

  /** Region pointers carry identifiers already handed out, and an unresolved pointer is the start of its region. */
  predicate KindOk(kind: RegType, id: nat) {
    && (IsRegionPtr(kind) ==> kind.id < id)
    && (kind.PtrOrNull? ==>
          kind.id < id && IsRegionPtr(kind.inner) && kind.inner.id == kind.id && kind.inner.offset == 0)
  }

  predicate RegOk(r: RegState, id: nat) { r.tnum.WellFormed() && KindOk(r.kind, id) }

  /** Only pointers are ever spilled. */
  predicate SpillOk(r: RegState, id: nat) { RegOk(r, id) && !r.kind.Scalar? && !r.kind.Uninit? }

  predicate ConfigOk(c: Config, id: nat) {
    && (forall i :: 0 <= i < 11 ==> RegOk(c.regs[i], id))
    && (forall off :: off in c.frame.spills ==> SpillOk(c.frame.spills[off], id))
  }

  predicate VisitOk(prog: Program, v: Visit) {
    v.at.pc < |prog| && ConfigOk(v.at, v.id)
  }

  // --- Complete explorations ---

  ghost predicate Complete(prog: Program, relocs: map<nat, Reloc>, visits: set<Visit>) {
    && Covered(prog, visits, EntryConfig())
    && (forall v :: v in visits ==> VisitOk(prog, v))
    && (forall v, s :: v in visits && s in Successors(prog, relocs, v) ==> Covered(prog, visits, s))
  }

  ghost predicate Failing(prog: Program, relocs: map<nat, Reloc>, v: Visit) {
    v.at.pc < |prog| && Step(prog, relocs, v.at, v.id).Fails?
  }

  ghost predicate NoFailure(prog: Program, relocs: map<nat, Reloc>, visits: set<Visit>) {
    forall v :: v in visits ==> !Failing(prog, relocs, v)
  }

  ghost predicate Certificate(prog: Program, relocs: map<nat, Reloc>, visits: set<Visit>) {
    Complete(prog, relocs, visits) && NoFailure(prog, relocs, visits)
  }

  // --- The exploration's invariant ---

  /** Covered already, or still waiting to be visited. */
  ghost predicate Tracked(prog: Program, visits: set<Visit>, pending: set<Config>, c: Config) {
    Covered(prog, visits, c) || c in pending
  }

  ghost predicate AllTracked(prog: Program, relocs: map<nat, Reloc>, visits: set<Visit>, pending: set<Config>)
  {
    && (forall v :: v in visits ==> VisitOk(prog, v))
    && Tracked(prog, visits, pending, EntryConfig())
    && (forall v, s :: v in visits && s in Successors(prog, relocs, v) ==> Tracked(prog, visits, pending, s))
  }

  lemma CoveredGrows(prog: Program, visits: set<Visit>, more: set<Visit>, c: Config)
    requires Covered(prog, visits, c) && visits <= more
    ensures Covered(prog, more, c)
  {
    if SubsumedIn(visits, c) {
      var v :| v in visits && Subsumes(v.at, c);
      assert v in more;
    } else if WidenedIn(prog, visits, c) {
      var prev, v :| prev in visits && v in visits && WidensTo(prev.at, c, v.at);
      assert prev in more && v in more;
    }
  }

  /** A covered state need not wait any longer. */
  lemma DropPending(prog: Program, relocs: map<nat, Reloc>, visits: set<Visit>, pending: set<Config>,
                    c: Config, left: set<Config>)
    requires AllTracked(prog, relocs, visits, pending)
    requires Covered(prog, visits, c) && pending <= left + {c}
    ensures AllTracked(prog, relocs, visits, left)
  {
    hide Covered, Successors, VisitOk;
    forall v, s | v in visits && s in Successors(prog, relocs, v)
      ensures Tracked(prog, visits, left, s)
    {
      assert Tracked(prog, visits, pending, s);
    }
  }

  /** Visiting a state takes it off the waiting list and puts its successors on. */
  lemma AddVisit(prog: Program, relocs: map<nat, Reloc>, visits: set<Visit>, pending: set<Config>,
                 c: Config, visit: Visit, left: set<Config>)
    requires AllTracked(prog, relocs, visits, pending)
    requires VisitOk(prog, visit) && Covered(prog, visits + {visit}, c)
    requires pending <= left + {c} && Successors(prog, relocs, visit) <= left
    ensures AllTracked(prog, relocs, visits + {visit}, left)
  {
    hide Covered, Successors, VisitOk;
    var more := visits + {visit};
    forall s | Tracked(prog, visits, pending, s)
      ensures Tracked(prog, more, left, s)
    {
      if Covered(prog, visits, s) {
        CoveredGrows(prog, visits, more, s);
      }
    }
    assert Tracked(prog, more, left, EntryConfig());
    forall v, s | v in more && s in Successors(prog, relocs, v)
      ensures Tracked(prog, more, left, s)
    {
      if v in visits {
        assert Tracked(prog, visits, pending, s);
      }
    }
  }

  lemma NothingPending(prog: Program, relocs: map<nat, Reloc>, visits: set<Visit>)
    requires AllTracked(prog, relocs, visits, {})
    ensures Complete(prog, relocs, visits)
  {
    hide Covered, Successors, VisitOk;
    assert Tracked(prog, visits, {}, EntryConfig());
    forall v, s | v in visits && s in Successors(prog, relocs, v)
      ensures Covered(prog, visits, s)
    {
      assert Tracked(prog, visits, {}, s);
    }
  }
}

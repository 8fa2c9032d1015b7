/** Where the accesses of runs go: inside what their pointer types name. So frame and context pointers are stored only
  in the frame and in regions that calls returned, and the frame stays private: no store of a run goes to it from
  elsewhere, so the null theorem needs no hypothesis on where a run stores.
*/
module PrivateFrames {
  import opened Wrappers
  import opened Words
  import opened Addresses
  import opened Instructions
  import opened HelperTable
  import opened RegStates
  import opened AbstractStates
  import opened ControlFlow
  import opened Transfer
  import opened Certificates
  import opened Exploration
  import opened Machine
  import opened ValueSoundness
  import opened NullRuns
  import opened NullClaims
  import opened NullSafety
  import opened AddressClaims
  import opened PointerAddresses
  import opened SpilledPointers

  // --- Accesses of runs ---

  /** Where an access of the state goes. */
  function AddressAccessed(s: Tagged, insn: BpfInsn): bv64
    requires AccessOf(insn).Some?
  {
    Plus(s.at.regs[AccessOf(insn).value.0], FromSigned(insn.offset))
  }

  /** Every access of such a run through a frame, context or region pointer goes where its type says and stays inside
      its bounds, the pointer spilled and reloaded or not. */
  lemma AccessesStayExact(prog: Program, relocs: map<nat, Reloc>, visits: set<Visit>, run: seq<Tagged>, valued: bool)
    returns (v: Visit, regions: map<nat, Region>)
    requires Certificate(prog, relocs, visits) && ExactDiscipline(prog, relocs, visits, valued)
    requires IsTaggedRun(prog, relocs.Keys, run) && MemoryApart(prog, run) && run[|run| - 1].at.pc < |prog|
    requires AccessOf(prog[run[|run| - 1].at.pc]).Some?
    ensures v in visits && v.at.pc == run[|run| - 1].at.pc && AllReturned(prog, visits, Plainly(run), regions)
    ensures !Failing(prog, relocs, v) && Exact(prog, v, valued) && AllApart(RunBases(run), regions)
    ensures ExactlyHolds(v.at, run[|run| - 1], RunBases(run), regions)
    ensures var insn, (r, w) := prog[v.at.pc], AccessOf(prog[v.at.pc]).value;
            InsideRegion(v.at.regs[r].kind, AddressAccessed(run[|run| - 1], insn), w,
                         ReachedOffset(v.at.regs[r].kind, insn.offset), RunBases(run), regions)
  {
    hide Certificate, ExactDiscipline, Failing, AllReturned, IsTaggedRun, InsideRegion, ReachedOffset, Plus, RunBases;
    hide FromSigned, Tracks, ExactlyHolds, MemoryApart, Exact, AllApart, Represents, InBounds, HoldsAddress;
    var calls;
    TaggedNonempty(prog, relocs.Keys, run);
    v, calls, regions := RunHoldsExactly(prog, relocs, visits, run, valued);
    var insn := prog[v.at.pc];
    var (r, w) := AccessOf(insn).value;
    AccessWasChecked(prog, relocs, v);
    RegHolds(v.at, run[|run| - 1], RunBases(run), regions, r);
    AccessHolds(v.at.regs[r].kind, run[|run| - 1].at.regs[r], insn.offset, w, RunBases(run), regions);
  }

  // --- Where pointers are stored ---

  /** The accessed bytes lie between the bounds behind the start, or so far off that the checks wrap. */
  predicate LiesWithin(address: bv64, w: MemWidth, start: bv64, low: int, high: int) {
    var o := OffsetFrom(start, address);
    NearLimit(o) || (low <= o && o + WidthBytes(w) <= high)
  }

  /** The bytes lie in the frame, or in a region that some call returned. */
  predicate InFrameOrRegion(address: bv64, w: MemWidth, bases: Bases, regions: map<nat, Region>) {
    || LiesWithin(address, w, bases.frame, -512, 0)
    || exists id :: id in regions && regions[id].start != 0
                    && LiesWithin(address, w, regions[id].start, 0, regions[id].size)
  }

  lemma SpansLies(address: bv64, w: MemWidth, start: bv64, offset: I64, low: int, high: int)
    requires Spans(address, w, start, offset, low, high)
    ensures LiesWithin(address, w, start, low, high)
  {
    hide AddressAt, OffsetFrom;
    OffsetOfAddress(start, offset);
  }

  lemma InsideIsSomewhere(kind: RegType, address: bv64, w: MemWidth, offset: I64, bases: Bases,
                          regions: map<nat, Region>)
    requires InsideRegion(kind, address, w, offset, bases, regions) && (kind.FramePtr? || IsRegionPtr(kind))
    ensures InFrameOrRegion(address, w, bases, regions)
  {
    hide Spans, LiesWithin;
    if kind.FramePtr? {
      SpansLies(address, w, bases.frame, offset, -512, 0);
    } else {
      SpansLies(address, w, regions[kind.id].start, offset, 0, kind.size);
    }
  }

  /** No visit stores a frame or context pointer but through a frame pointer or into a region. */
  lemma StoredKinds(prog: Program, relocs: map<nat, Reloc>, v: Visit)
    requires v.at.pc < |prog| && prog[v.at.pc].opcode.Stx? && !Failing(prog, relocs, v)
    requires v.at.regs[prog[v.at.pc].src].kind.FramePtr? || v.at.regs[prog[v.at.pc].src].kind.CtxPtr?
    ensures var base := v.at.regs[prog[v.at.pc].dst].kind;
            base.FramePtr? || base.MapValuePtr? || base.RingBufPtr?
  {
    hide CheckBounds, InRegion, WrapI64, AbstractStates.Spill, AbstractStates.MarkWritten, AbstractStates.ClearSpill;
    hide CanRead;
  }

  /** Wherever a run stores what the visit there types as a frame or context pointer, the bytes written lie in the
      frame or in a region that some call returned. */
  lemma StoredPointersStay(prog: Program, relocs: map<nat, Reloc>, visits: set<Visit>, run: seq<Tagged>, valued: bool)
    returns (v: Visit, regions: map<nat, Region>)
    requires Certificate(prog, relocs, visits) && ExactDiscipline(prog, relocs, visits, valued)
    requires IsTaggedRun(prog, relocs.Keys, run) && MemoryApart(prog, run) && run[|run| - 1].at.pc < |prog|
    requires prog[run[|run| - 1].at.pc].opcode.Stx?
    ensures v in visits && v.at.pc == run[|run| - 1].at.pc && AllReturned(prog, visits, Plainly(run), regions)
    ensures var insn := prog[v.at.pc];
            v.at.regs[insn.src].kind.FramePtr? || v.at.regs[insn.src].kind.CtxPtr? ==>
              InFrameOrRegion(AddressAccessed(run[|run| - 1], insn), insn.opcode.width, RunBases(run), regions)
  {
    hide Certificate, ExactDiscipline, Failing, AllReturned, IsTaggedRun, InsideRegion, ReachedOffset, RunBases;
    hide AddressAccessed, ExactlyHolds, MemoryApart, Exact, AllApart, InFrameOrRegion;
    TaggedNonempty(prog, relocs.Keys, run);
    v, regions := AccessesStayExact(prog, relocs, visits, run, valued);
    var insn := prog[v.at.pc];
    if v.at.regs[insn.src].kind.FramePtr? || v.at.regs[insn.src].kind.CtxPtr? {
      StoredKinds(prog, relocs, v);
      InsideIsSomewhere(v.at.regs[insn.dst].kind, AddressAccessed(run[|run| - 1], insn), insn.opcode.width,
                        ReachedOffset(v.at.regs[insn.dst].kind, insn.offset), RunBases(run), regions);
    }
  }

  /** What a visit returns without error is a number, a null, or the unchecked result of a call. */
  lemma ReturnedKinds(prog: Program, relocs: map<nat, Reloc>, v: Visit)
    requires v.at.pc < |prog| && prog[v.at.pc].opcode.Exit?
    ensures var kind := v.at.regs[0].kind;
            !Failing(prog, relocs, v) <==> kind.Scalar? || kind.Null? || kind.PtrOrNull?
  {}

  /** A run that comes to its exit stands at a visit whose r0 is no pointer into the frame, the context, a map value
      or a ring-buffer entry, and no kernel or data pointer. */
  lemma ExitsWithoutPointer(prog: Program, relocs: map<nat, Reloc>, visits: set<Visit>, run: seq<Tagged>, valued: bool)
    returns (v: Visit, regions: map<nat, Region>)
    requires Certificate(prog, relocs, visits) && ExactDiscipline(prog, relocs, visits, valued)
    requires IsTaggedRun(prog, relocs.Keys, run) && MemoryApart(prog, run) && run[|run| - 1].at.pc < |prog|
    requires prog[run[|run| - 1].at.pc].opcode.Exit?
    ensures v in visits && v.at.pc == run[|run| - 1].at.pc
    ensures ExactlyHolds(v.at, run[|run| - 1], RunBases(run), regions)
    ensures var kind := v.at.regs[0].kind;
            && !kind.FramePtr? && !kind.CtxPtr? && !kind.MapValuePtr? && !kind.RingBufPtr? && !kind.KernelPtr?
            && !kind.DataPtr? && !kind.Uninit?
  {
    hide Certificate, ExactDiscipline, Failing, AllReturned, IsTaggedRun, RunBases, ExactlyHolds, MemoryApart, Exact;
    hide AllApart, Represents, Tracks;
    var calls;
    TaggedNonempty(prog, relocs.Keys, run);
    v, calls, regions := RunHoldsExactly(prog, relocs, visits, run, valued);
    ReturnedKinds(prog, relocs, v);
  }

  // --- The frame stays private ---

  ghost predicate StoresAreKnown(prog: Program, visits: set<Visit>) {
    forall v :: v in visits && v.at.pc < |prog| && (prog[v.at.pc].opcode.Stx? || prog[v.at.pc].opcode.St?) ==>
      StoreStaysInside(prog[v.at.pc], v.at.regs[prog[v.at.pc].dst].kind)
  }

  /** A store that reaches the frame is one that the visit there makes through a frame pointer. */
  lemma FrameIsReachedByType(prog: Program, relocs: map<nat, Reloc>, visits: set<Visit>, run: seq<Tagged>, valued: bool)
    returns (v: Visit, calls: map<nat, nat>)
    requires Certificate(prog, relocs, visits) && ExactDiscipline(prog, relocs, visits, valued)
    requires IsTaggedRun(prog, relocs.Keys, run) && MemoryApart(prog, run) && run[|run| - 1].at.pc < |prog|
    requires StoresAreKnown(prog, visits)
    requires prog[run[|run| - 1].at.pc].opcode.Stx? || prog[run[|run| - 1].at.pc].opcode.St?
    ensures v in visits && v.at.pc == run[|run| - 1].at.pc && (!valued ==> Tracks(v.at, run[|run| - 1], calls))
    ensures var insn, s := prog[v.at.pc], run[|run| - 1];
            || v.at.regs[insn.dst].kind.FramePtr?
            || !MeetsFrame(Accessed(s, insn, insn.dst), WidthBytes(insn.opcode.width))
  {
    hide Certificate, ExactDiscipline, Failing, AllReturned, IsTaggedRun, RunBases, ExactlyHolds, MemoryApart, Exact;
    hide AllApart, Represents, Tracks, StoreStaysInside, Accessed, MeetsFrame;
    var regions;
    TaggedNonempty(prog, relocs.Keys, run);
    v, calls, regions := RunHoldsExactly(prog, relocs, visits, run, valued);
    KnownStoreMisses(prog, relocs, v, run[|run| - 1], RunBases(run), regions);
  }

  lemma PrivateSoFar(prog: Program, run: seq<Tagged>)
    requires |run| >= 2 && FrameIsPrivate(prog, run[..|run| - 1]) && run[|run| - 2].at.pc < |prog|
    requires StoresApart(prog[run[|run| - 2].at.pc], run[|run| - 2])
    ensures FrameIsPrivate(prog, run)
  {
    hide StoresApart;
    var init := run[..|run| - 1];
    forall i | 0 <= i < |run| - 1 && run[i].at.pc < |prog|
      ensures StoresApart(prog[run[i].at.pc], run[i])
    {
      assert run[i] == init[i];
    }
  }

  lemma StoreIsPrivate(prog: Program, relocs: map<nat, Reloc>, visits: set<Visit>, run: seq<Tagged>)
    requires Certificate(prog, relocs, visits) && ExactDiscipline(prog, relocs, visits, false)
    requires IsTaggedRun(prog, relocs.Keys, run) && MemoryApart(prog, run) && run[|run| - 1].at.pc < |prog|
    requires StoresAreKnown(prog, visits)
    ensures StoresApart(prog[run[|run| - 1].at.pc], run[|run| - 1])
  {
    hide Certificate, ExactDiscipline, IsTaggedRun, MemoryApart, RegsTrack, FrameTracks, Accessed, MeetsFrame;
    hide StoresAreKnown, Claim;
    TaggedNonempty(prog, relocs.Keys, run);
    var s := run[|run| - 1];
    var insn := prog[s.at.pc];
    if insn.opcode.Stx? || insn.opcode.St? {
      var v, calls := FrameIsReachedByType(prog, relocs, visits, run, false);
      RegClaim(v.at.regs, s, calls, insn.dst);
      if v.at.regs[insn.dst].kind.FramePtr? {
        FrameOrigin(v.at.regs[insn.dst].kind, s.at.regs[insn.dst], s.from[insn.dst], s.results, s.frame, calls);
      }
    }
  }

  /** If moreover pointers move only by immediates, no store of the run reaches the frame but through a value that
      derives from the frame pointer. */
  lemma {:induction false} FrameStaysPrivate(prog: Program, relocs: map<nat, Reloc>, visits: set<Visit>,
          run: seq<Tagged>)
    requires Certificate(prog, relocs, visits) && ExactDiscipline(prog, relocs, visits, false)
    requires IsTaggedRun(prog, relocs.Keys, run) && MemoryApart(prog, run) && StoresAreKnown(prog, visits)
    ensures FrameIsPrivate(prog, run)
    decreases |run|
  {
    hide Certificate, ExactDiscipline, TaggedSteps, StoresApart, Entered, MemoryApart, StoresAreKnown, FrameIsPrivate;
    if |run| == 1 {
      NothingStored(prog, run);
    } else {
      InitRun(prog, relocs.Keys, run);
      StoreIsPrivate(prog, relocs, visits, run[..|run| - 1]);
      FrameStaysPrivate(prog, relocs, visits, run[..|run| - 1]);
      PrivateSoFar(prog, run);
    }
  }

  lemma NothingStored(prog: Program, run: seq<Tagged>)
    requires |run| == 1
    ensures FrameIsPrivate(prog, run)
  {}
}

/** Pointers spilled and reloaded keep their addresses, where stores go through frame pointers or into memory apart from
  the frame.
*/
module SpilledPointers {
  import opened Wrappers
  import opened Words
  import opened Addresses
  import opened Instructions
  import opened HelperTable
  import opened RegStates
  import opened AbstractStates
  import opened ControlFlow
  import opened Transfer
  import opened Certificates
  import opened Sanity
  import opened Exploration
  import opened Machine
  import opened ValueSoundness
  import opened NullRuns
  import opened NullClaims
  import opened NullSafety
  import opened AddressClaims
  import opened PointerAddresses

  // --- The runs ---

  /** These bytes lie beside the frame. */
  predicate Apart(frame: bv64, start: bv64, size: nat) {
    var d := OffsetFrom(frame, start);
    d >= 0 || d + size <= -512
  }

  /** The 2^32 bytes from `start` on, as far as any size reaches, lie beside the frame. */
  predicate RegionApart(frame: bv64, start: bv64) { Apart(frame, start, 0x1_0000_0000) }

  function RunBases(run: seq<Tagged>): Bases
    requires |run| > 0
  {
    EntryBases(run[0].at.regs)
  }

  /** The context lies apart from the frame, and so do the regions that lookups and reservations return. */
  ghost predicate MemoryApart(prog: Program, run: seq<Tagged>) {
    && (|run| > 0 ==> Apart(RunBases(run).frame, RunBases(run).context, 4096))
    && forall i :: 0 <= i < |run| - 1 && run[i].at.pc < |prog| && IsNullableCall(prog[run[i].at.pc]) ==>
          run[i + 1].at.regs[0] == 0 || RegionApart(RunBases(run).frame, run[i + 1].at.regs[0])
  }

  predicate AllApart(bases: Bases, regions: map<nat, Region>) {
    && Apart(bases.frame, bases.context, 4096)
    && forall id :: id in regions ==> regions[id].start == 0 || RegionApart(bases.frame, regions[id].start)
  }

  // --- The programs ---

  predicate StoreStaysInside(insn: BpfInsn, kind: RegType) {
    (kind.FramePtr? || kind.CtxPtr? || IsRegionPtr(kind)) && !NearLimit(ReachedOffset(kind, insn.offset))
  }

  /** Stores cut into no spilled pointer. They go through frame pointers, into regions or the context, at offsets that
      the bounds check can judge; elsewhere only when no pointer is spilled. */
  predicate SlotsKept(prog: Program, v: Visit)
    requires v.at.pc < |prog|
  {
    var insn, regs, frame := prog[v.at.pc], v.at.regs, v.at.frame;
    match insn.opcode
    case Stx(w) =>
      KeepsSlots(regs, frame, insn, w) && (StoreStaysInside(insn, regs[insn.dst].kind) || NothingTracked(frame))
    case St(w) =>
      KeepsSlots(regs, frame, insn, w) && (StoreStaysInside(insn, regs[insn.dst].kind) || NothingTracked(frame))
    case Call => FrameMayChange(insn) ==> NothingTracked(frame)
    case _ => true
  }

  /** The visit keeps spilled pointers whole and moves pointers only by known numbers. If values are not followed, it
      keeps the null discipline. */
  predicate Exact(prog: Program, v: Visit, valued: bool)
    requires v.at.pc < |prog|
  {
    && MovesByKnown(prog, v, valued) && ComparesPlainly(prog, v) && SlotsKept(prog, v)
    && if valued then SafeVisit(prog, v) else Disciplined(prog, v)
  }

  /** Each spill's claim in `w` follows from its claim in `c`. */
  predicate SpillsFollow(c: Frame, w: Frame) {
    forall o :: o in w.spills && InFrame(o, 8) && HasAddress(w.spills[o].kind) ==>
      o in c.spills && Implies(AddressOf(c.spills[o].kind), AddressOf(w.spills[o].kind))
  }

  ghost predicate ExactlyKeeps(w: Config, c: Config, valued: bool) {
    RegsFollow(c.regs, w.regs, valued) && SpillsFollow(c.frame, w.frame) && (!valued ==> KeepsClaims(w, c))
  }

  ghost predicate CarriedExactly(visits: set<Visit>, c: Config, valued: bool) {
    exists v :: v in visits && v.at.pc == c.pc && ExactlyKeeps(v.at, c, valued)
  }

  ghost predicate ExactDiscipline(prog: Program, relocs: map<nat, Reloc>, visits: set<Visit>, valued: bool) {
    && (forall v :: v in visits && v.at.pc < |prog| ==> Exact(prog, v, valued))
    && forall c :: Arrives(prog, relocs, visits, c) && c.pc < |prog| ==> CarriedExactly(visits, c, valued)
  }

  /** With the same spilled types everywhere, pruning keeps all this. */
  lemma SubsumedExactly(prog: Program, v: Visit, c: Config, valued: bool)
    requires Subsumes(v.at, c) && VisitOk(prog, v)
    requires forall o :: o in v.at.frame.spills && InFrame(o, 8) && MayTrack(v.at.frame.spills[o].kind) ==>
               o in c.frame.spills && c.frame.spills[o].kind == v.at.frame.spills[o].kind
    ensures v.at.pc == c.pc && ExactlyKeeps(v.at, c, valued)
  {
    hide Subsumes, VisitOk, RegsFollow;
    PruningKeeps(v.at, c);
    SubsumedRegs(prog, v, c, valued);
    SameKindsCarry(v.at.frame, c.frame);
  }

  lemma SameKindsCarry(w: Frame, c: Frame)
    requires forall o :: o in w.spills && InFrame(o, 8) && MayTrack(w.spills[o].kind) ==>
               o in c.spills && c.spills[o].kind == w.spills[o].kind
    ensures SpillsCarry(w, c) && SpillsFollow(c, w)
  {}

  // --- What holds of the slots ---

  /** A spilled pointer lies in its slot, with the address of its type. */
  predicate SlotHolds(kind: RegType, o: int, s: Tagged, bases: Bases, regions: map<nat, Region>) {
    HasAddress(kind) ==> o in s.slots && HoldsAddress(AddressOf(kind), s.slots[o].bits, bases, regions)
  }

  predicate SlotsHold(frame: Frame, s: Tagged, bases: Bases, regions: map<nat, Region>) {
    forall o :: o in frame.spills && InFrame(o, 8) ==> SlotHolds(frame.spills[o].kind, o, s, bases, regions)
  }

  predicate ExactlyHolds(c: Config, s: Tagged, bases: Bases, regions: map<nat, Region>) {
    && bases.frame == s.frame && HoldAddresses(c.regs, s.at.regs, bases, regions)
    && SlotsHold(c.frame, s, bases, regions)
  }

  lemma SlotAddress(frame: Frame, s: Tagged, bases: Bases, regions: map<nat, Region>, o: I64)
    requires SlotsHold(frame, s, bases, regions) && o in frame.spills && InFrame(o, 8)
    ensures SlotHolds(frame.spills[o].kind, o, s, bases, regions)
  {
    hide SlotHolds;
  }

  lemma SlotsHoldAll(frame: Frame, t: Tagged, bases: Bases, regions: map<nat, Region>)
    requires forall o :: o in frame.spills && InFrame(o, 8) ==> SlotHolds(frame.spills[o].kind, o, t, bases, regions)
    ensures SlotsHold(frame, t, bases, regions)
  {
    hide SlotHolds;
  }

  lemma NoSlotNeeded(kind: RegType, o: int, s: Tagged, bases: Bases, regions: map<nat, Region>)
    requires !HasAddress(kind)
    ensures SlotHolds(kind, o, s, bases, regions)
  {}

  lemma AddressIsTracked(kind: RegType)
    ensures HasAddress(kind) ==> MayTrack(kind)
  {}

  lemma SlotStillHolds(kind: RegType, o: int, s: Tagged, t: Tagged, bases: Bases, regions: map<nat, Region>)
    requires SlotHolds(kind, o, s, bases, regions) && (o in s.slots ==> o in t.slots && t.slots[o] == s.slots[o])
    ensures SlotHolds(kind, o, t, bases, regions)
  {
    hide HoldsAddress, HasAddress;
  }

  lemma SameSlotsHold(frame: Frame, s: Tagged, t: Tagged, bases: Bases, regions: map<nat, Region>)
    requires SlotsHold(frame, s, bases, regions) && SameSlots(s, t)
    ensures SlotsHold(frame, t, bases, regions)
  {
    hide SlotHolds;
    forall o | o in frame.spills && InFrame(o, 8)
      ensures SlotHolds(frame.spills[o].kind, o, t, bases, regions)
    {
      SlotAddress(frame, s, bases, regions, o);
      SlotStillHolds(frame.spills[o].kind, o, s, t, bases, regions);
    }
  }

  // --- One step: loads and branches ---

  /** Through a register that holds its frame address an access goes where the checker looks. */
  lemma FrameReached(kind: RegType, s: Tagged, bases: Bases, regions: map<nat, Region>, insn: BpfInsn, base: RegId)
    requires kind.FramePtr? && HoldsAddress(AddressOf(kind), s.at.regs[base], bases, regions) && bases.frame == s.frame
    ensures Accessed(s, insn, base) == WrapI64(kind.offset + insn.offset)
  {
    hide AddressAt, OffsetFrom, WrapI64;
    OffsetOfAccess(s.frame, kind.offset, insn.offset);
  }

  /** Whatever the loaded value is typed as, it is. */
  lemma LoadHolds(c: Config, s: Tagged, t: Tagged, bases: Bases, regions: map<nat, Region>, insn: BpfInsn, w: MemWidth)
    requires ExactlyHolds(c, s, bases, regions)
    requires insn.opcode == Ldx(w) && LoadResult(c.regs, c.frame, insn, w).Success?
    requires Reloads(insn, s) ==> t.at.regs[insn.dst] == s.slots[Accessed(s, insn, insn.src)].bits
    ensures HoldsAddress(AddressOf(LoadResult(c.regs, c.frame, insn, w).value.kind), t.at.regs[insn.dst], bases,
                         regions)
  {
    hide LoadResult, WrapI64, Accessed, CheckReadable, MayTrack, HoldsAddress, AddressOf, SlotsHold, HoldAddresses;
    LoadedKind(c.regs, c.frame, insn, w);
    var kind, base := LoadResult(c.regs, c.frame, insn, w).value.kind, c.regs[insn.src].kind;
    AddressIsTracked(kind);
    if HasAddress(kind) {
      var off := WrapI64(base.offset + insn.offset);
      RegAddress(c.regs, s.at.regs, bases, regions, insn.src);
      FrameReached(base, s, bases, regions, insn, insn.src);
      ReadableInFrame(c.frame, off);
      SlotAddress(c.frame, s, bases, regions, off);
    } else {
      NothingHolds(AddressOf(kind), t.at.regs[insn.dst], bases, regions);
    }
  }

  /** What a comparison teaches of an identifier is true of its region. */
  predicate TrueOf(learned: RegType, id: nat, regions: map<nat, Region>) {
    learned.Null? || (id in regions && regions[id].start != 0 && !learned.PtrOrNull?
                      && AddressOf(learned) == FromCall(id, 0, regions[id].size, true))
  }

  lemma ResolvedSlotHolds(r: RegState, o: int, s: Tagged, bases: Bases, regions: map<nat, Region>, id: nat,
                          learned: RegType)
    requires SlotHolds(r.kind, o, s, bases, regions) && TrueOf(learned, id, regions)
    ensures SlotHolds(Resolve(r, id, learned).kind, o, s, bases, regions)
  {
    hide AddressAt;
  }

  lemma ResolvedSlotsHold(frame: Frame, s: Tagged, bases: Bases, regions: map<nat, Region>, id: nat, learned: RegType)
    requires SlotsHold(frame, s, bases, regions) && TrueOf(learned, id, regions)
    ensures SlotsHold(ResolveSpills(frame, id, learned), s, bases, regions)
  {
    hide SlotHolds, Resolve, TrueOf;
    var after := ResolveSpills(frame, id, learned);
    forall o | o in after.spills && InFrame(o, 8)
      ensures SlotHolds(after.spills[o].kind, o, s, bases, regions)
    {
      SlotAddress(frame, s, bases, regions, o);
      ResolvedSlotHolds(frame.spills[o], o, s, bases, regions, id, learned);
    }
  }

  /** The spills on the side that a run takes, and on both sides if nothing is resolved. */
  lemma BranchSlotsHold(c: Config, s: Tagged, bases: Bases, regions: map<nat, Region>, insn: BpfInsn, op: JmpOp,
                        source: Source, is32: bool, id: nat)
    requires ExactlyHolds(c, s, bases, regions) && KindOk(c.regs[insn.dst].kind, id)
    requires c.regs[insn.dst].kind.PtrOrNull? ==> source.FromImm?
    ensures var b := RefineBranch(c.regs, c.frame, insn, op, source, is32);
            SlotsHold(if Holds(op, is32, s.at.regs[insn.dst], OperandValue(s.at.regs, insn, source, !is32))
                      then b.takenFrame else b.fallFrame, s, bases, regions)
  {
    hide HoldAddresses, SlotsHold, U, ResolveRegs, ResolveSpills, Refine64, Refine32, Holds, RefineBranch, CompareValue;
    hide OperandValue, AddressAt, KindOk;
    var val, dst, values := CompareValue(c.regs, insn, source, is32), c.regs[insn.dst], s.at.regs;
    BranchCases(c.regs, c.frame, insn, op, source, is32);
    if val.Some? && U(val.value) == 0 && dst.kind.PtrOrNull? {
      UZero(val.value);
      ImmediateCompare(c.regs, values, insn, is32);
      RegAddress(c.regs, values, bases, regions, insn.dst);
      AddressZero(regions[dst.kind.id].start);
      ResolvedSlotsHold(c.frame, s, bases, regions, dst.kind.id, Null);
      var holds := Holds(op, is32, values[insn.dst], 0);
      if (op == JEQ && !holds) || (op == JNE && holds) {
        NonzeroSide(op, is32, values[insn.dst]);
        InnerStarts(dst.kind, id);
        ResolvedSlotsHold(c.frame, s, bases, regions, dst.kind.id, dst.kind.inner);
      }
    }
  }

  // --- One step: stores and calls ---

  /** Bytes inside memory apart from the frame are not in the frame. */
  lemma InsideIsApart(frame: bv64, start: bv64, offset: I64, width: nat, size: int)
    requires 0 <= offset && offset + width <= size <= 0x1_0000_0000 && Apart(frame, start, size)
    ensures !MeetsFrame(OffsetFrom(frame, AddressAt(start, offset)), width)
  {
    hide OffsetFrom, AddressAt;
    OffsetsAdd(frame, start, offset);
  }

  lemma SmallerIsApart(frame: bv64, start: bv64, size: nat)
    requires RegionApart(frame, start) && size <= 0x1_0000_0000
    ensures Apart(frame, start, size)
  {
    hide OffsetFrom;
  }

  /** A store into a region or the context, away from the limit, misses the frame. */
  lemma StoreMisses(kind: RegType, s: Tagged, insn: BpfInsn, bases: Bases, regions: map<nat, Region>)
    requires (kind.CtxPtr? || IsRegionPtr(kind)) && (insn.opcode.Stx? || insn.opcode.St?)
    requires HoldsAddress(AddressOf(kind), s.at.regs[insn.dst], bases, regions) && bases.frame == s.frame
    requires InBounds(kind, ReachedOffset(kind, insn.offset), insn.opcode.width)
    requires !NearLimit(ReachedOffset(kind, insn.offset)) && AllApart(bases, regions)
    ensures !MeetsFrame(Accessed(s, insn, insn.dst), WidthBytes(insn.opcode.width))
  {
    hide AddressAt, Plus, FromSigned, InBounds, NearLimit, Apart, OffsetFrom, ReachedOffset, AddressOf, HoldsAddress;
    var offset := ReachedOffset(kind, insn.offset);
    AccessHolds(kind, s.at.regs[insn.dst], insn.offset, insn.opcode.width, bases, regions);
    if kind.CtxPtr? {
      InsideIsApart(s.frame, bases.context, offset, WidthBytes(insn.opcode.width), 4096);
    } else {
      SmallerIsApart(s.frame, regions[kind.id].start, kind.size);
      InsideIsApart(s.frame, regions[kind.id].start, offset, WidthBytes(insn.opcode.width), kind.size);
    }
  }

  lemma MissedIsKept(o: int, off: int, width: nat)
    requires InFrame(o, 8) && !MeetsFrame(off, width)
    ensures !Overlaps(o, off, width)
  {}

  /** A slot that a store does not cut into. */
  lemma UncutSlot(kind: RegType, o: int, s: Tagged, t: Tagged, insn: BpfInsn, w: MemWidth, isSt: bool, bases: Bases,
                  regions: map<nat, Region>)
    requires IsStore(insn, w, isSt) && SlotsLeft(insn, SlotsStored(insn, s), t.slots) && InFrame(o, 8)
    requires SlotHolds(kind, o, s, bases, regions)
    requires HasAddress(kind) ==> !Overlaps(o, Accessed(s, insn, insn.dst), WidthBytes(w))
    ensures SlotHolds(kind, o, t, bases, regions)
  {
    hide SlotHolds, HasAddress, Accessed, SlotsLeft, SlotsStored;
    if HasAddress(kind) {
      SlotAfterStore(insn, s, t, w, isSt, o);
      AtItself(o, Accessed(s, insn, insn.dst), w);
      SlotStillHolds(kind, o, s, t, bases, regions);
    } else {
      NoSlotNeeded(kind, o, t, bases, regions);
    }
  }

  lemma AtItself(o: int, off: int, w: MemWidth)
    ensures o == off ==> Overlaps(o, off, WidthBytes(w))
  {}

  lemma StoredHolds(kind: RegType, o: int, s: Tagged, t: Tagged, insn: BpfInsn, bases: Bases, regions: map<nat, Region>)
    requires o in t.slots && t.slots[o] == Slot(s.at.regs[insn.src], s.from[insn.src])
    requires HoldsAddress(AddressOf(kind), s.at.regs[insn.src], bases, regions)
    ensures SlotHolds(kind, o, t, bases, regions)
  {
    hide HoldsAddress, HasAddress;
  }

  /** Through a frame pointer: the slot just stored has the register's address, the others keep theirs. */
  lemma FrameStoreHolds(c: Config, s: Tagged, t: Tagged, insn: BpfInsn, w: MemWidth, isSt: bool, bases: Bases,
                        regions: map<nat, Region>, o: I64)
    requires ExactlyHolds(c, s, bases, regions) && KeepsSlots(c.regs, c.frame, insn, w)
    requires IsStore(insn, w, isSt) && StoreResult(c.regs, c.frame, insn, w, isSt).Success?
    requires SlotsLeft(insn, SlotsStored(insn, s), t.slots) && c.regs[insn.dst].kind.FramePtr?
    requires o in StoreResult(c.regs, c.frame, insn, w, isSt).value.spills && InFrame(o, 8)
    ensures SlotHolds(StoreResult(c.regs, c.frame, insn, w, isSt).value.spills[o].kind, o, t, bases, regions)
  {
    hide StoreResult, WrapI64, Accessed, SlotsLeft, SlotsStored, SlotHolds, SlotsHold, HoldAddresses, MayTrack;
    hide HasAddress, Overlaps, HoldsAddress, AddressOf;
    var after := StoreResult(c.regs, c.frame, insn, w, isSt).value;
    SpillsAfterStore(c.regs, c.frame, insn, w, isSt);
    RegAddress(c.regs, s.at.regs, bases, regions, insn.dst);
    RegAddress(c.regs, s.at.regs, bases, regions, insn.src);
    FrameReached(c.regs[insn.dst].kind, s, bases, regions, insn, insn.dst);
    if o == Accessed(s, insn, insn.dst) {
      SlotAfterStore(insn, s, t, w, isSt, o);
      StoredHolds(c.regs[insn.src].kind, o, s, t, insn, bases, regions);
    } else {
      SlotAddress(c.frame, s, bases, regions, o);
      AddressIsTracked(after.spills[o].kind);
      UncutSlot(after.spills[o].kind, o, s, t, insn, w, isSt, bases, regions);
    }
  }

  /** Through another pointer: the store misses the frame, or no pointer lies there. */
  lemma OtherStoreHolds(c: Config, s: Tagged, t: Tagged, insn: BpfInsn, w: MemWidth, isSt: bool, bases: Bases,
                        regions: map<nat, Region>, o: I64)
    requires ExactlyHolds(c, s, bases, regions) && IsStore(insn, w, isSt)
    requires NothingTracked(c.frame) || !MeetsFrame(Accessed(s, insn, insn.dst), WidthBytes(w))
    requires SlotsLeft(insn, SlotsStored(insn, s), t.slots) && o in c.frame.spills && InFrame(o, 8)
    ensures SlotHolds(c.frame.spills[o].kind, o, t, bases, regions)
  {
    hide Accessed, SlotsLeft, SlotsStored, SlotHolds, SlotsHold, HoldAddresses, MayTrack, HasAddress, Overlaps;
    hide MeetsFrame;
    SlotAddress(c.frame, s, bases, regions, o);
    AddressIsTracked(c.frame.spills[o].kind);
    if !MeetsFrame(Accessed(s, insn, insn.dst), WidthBytes(w)) {
      MissedIsKept(o, Accessed(s, insn, insn.dst), WidthBytes(w));
    }
    UncutSlot(c.frame.spills[o].kind, o, s, t, insn, w, isSt, bases, regions);
  }

  /** A store that leaves the spills whole leaves their addresses. */
  lemma StoreHolds(c: Config, s: Tagged, t: Tagged, insn: BpfInsn, w: MemWidth, isSt: bool, bases: Bases,
                   regions: map<nat, Region>)
    requires ExactlyHolds(c, s, bases, regions) && KeepsSlots(c.regs, c.frame, insn, w)
    requires IsStore(insn, w, isSt) && StoreResult(c.regs, c.frame, insn, w, isSt).Success?
    requires c.regs[insn.dst].kind.FramePtr? || NothingTracked(c.frame)
          || !MeetsFrame(Accessed(s, insn, insn.dst), WidthBytes(w))
    requires SlotsLeft(insn, SlotsStored(insn, s), t.slots)
    ensures SlotsHold(StoreResult(c.regs, c.frame, insn, w, isSt).value, t, bases, regions)
  {
    hide StoreResult, WrapI64, Accessed, SlotsLeft, SlotsStored, SlotHolds, ExactlyHolds, KeepsSlots, MeetsFrame;
    hide NothingTracked, IsStore;
    var after := StoreResult(c.regs, c.frame, insn, w, isSt).value;
    SpillsAfterStore(c.regs, c.frame, insn, w, isSt);
    forall o | o in after.spills && InFrame(o, 8)
      ensures SlotHolds(after.spills[o].kind, o, t, bases, regions)
    {
      if c.regs[insn.dst].kind.FramePtr? {
        FrameStoreHolds(c, s, t, insn, w, isSt, bases, regions, o);
      } else {
        OtherStoreHolds(c, s, t, insn, w, isSt, bases, regions, o);
      }
    }
    SlotsHoldAll(after, t, bases, regions);
  }

  predicate OthersKnown(regions: map<nat, Region>, more: map<nat, Region>, id: nat) {
    forall k :: k in regions && k != id ==> k in more && more[k] == regions[k]
  }

  lemma CallSlotsHold(regs: Regs, frame: Frame, s: Tagged, t: Tagged, insn: BpfInsn, spec: HelperSpec, id: nat,
                      bases: Bases, regions: map<nat, Region>, regions': map<nat, Region>)
    requires SlotsHold(frame, s, bases, regions) && FrameOk(frame, id) && OthersKnown(regions, regions', id)
    requires insn.opcode.Call? && SlotsLeft(insn, s.slots, t.slots) && (FrameMayChange(insn) ==> NothingTracked(frame))
    ensures SlotsHold(FrameAfterCall(spec, insn.imm, regs, frame), t, bases, regions')
  {
    hide FrameAfterCall, SlotHolds, FrameOk, FrameMayChange, KindOk, HasAddress, MayTrack;
    CallSpills(spec, insn.imm, regs, frame);
    var after := FrameAfterCall(spec, insn.imm, regs, frame);
    forall o | o in after.spills && InFrame(o, 8)
      ensures SlotHolds(after.spills[o].kind, o, t, bases, regions')
    {
      AddressIsTracked(after.spills[o].kind);
      if after.spills[o].kind.KernelPtr? {
        KernelHolds(after.spills[o].kind, o, t, bases, regions');
      } else if FrameMayChange(insn) {
        NoSlotNeeded(after.spills[o].kind, o, t, bases, regions');
      } else {
        SlotAddress(frame, s, bases, regions, o);
        SpillIdOk(frame, id, o);
        LaterSlotHolds(after.spills[o].kind, o, s, t, id, bases, regions, regions');
      }
    }
    SlotsHoldAll(after, t, bases, regions');
  }

  lemma KernelHolds(kind: RegType, o: int, t: Tagged, bases: Bases, regions: map<nat, Region>)
    requires kind.KernelPtr?
    ensures SlotHolds(kind, o, t, bases, regions)
  {}

  lemma LaterSlotHolds(kind: RegType, o: int, s: Tagged, t: Tagged, id: nat, bases: Bases, regions: map<nat, Region>,
                       regions': map<nat, Region>)
    requires SlotHolds(kind, o, s, bases, regions) && KindOk(kind, id) && OthersKnown(regions, regions', id)
    requires o in s.slots ==> o in t.slots && t.slots[o] == s.slots[o]
    ensures SlotHolds(kind, o, t, bases, regions')
  {
    hide AddressAt;
  }

  // --- One visit ---

  /** Through a frame pointer, past the frame, or with no pointer in it. */
  predicate StoreIsHarmless(prog: Program, v: Visit, s: Tagged)
    requires v.at.pc < |prog|
  {
    var insn := prog[v.at.pc];
    insn.opcode.Stx? || insn.opcode.St? ==>
      || v.at.regs[insn.dst].kind.FramePtr? || NothingTracked(v.at.frame)
      || !MeetsFrame(Accessed(s, insn, insn.dst), WidthBytes(insn.opcode.width))
  }

  lemma KnownStoreMisses(prog: Program, relocs: map<nat, Reloc>, v: Visit, s: Tagged, bases: Bases,
                         regions: map<nat, Region>)
    requires v.at.pc == s.at.pc < |prog| && !Failing(prog, relocs, v)
    requires prog[v.at.pc].opcode.Stx? || prog[v.at.pc].opcode.St?
    requires StoreStaysInside(prog[v.at.pc], v.at.regs[prog[v.at.pc].dst].kind)
    requires ExactlyHolds(v.at, s, bases, regions) && AllApart(bases, regions)
    ensures v.at.regs[prog[v.at.pc].dst].kind.FramePtr?
         || !MeetsFrame(Accessed(s, prog[v.at.pc], prog[v.at.pc].dst), WidthBytes(prog[v.at.pc].opcode.width))
  {
    hide Failing, HoldAddresses, AllApart, Accessed, HoldsAddress, AddressOf, ReachedOffset, NearLimit, InBounds;
    hide SlotsHold, MeetsFrame;
    var insn := prog[v.at.pc];
    if !v.at.regs[insn.dst].kind.FramePtr? {
      AccessWasChecked(prog, relocs, v);
      RegAddress(v.at.regs, s.at.regs, bases, regions, insn.dst);
      StoreMisses(v.at.regs[insn.dst].kind, s, insn, bases, regions);
    }
  }

  lemma KeptStore(prog: Program, v: Visit)
    requires v.at.pc < |prog| && SlotsKept(prog, v) && (prog[v.at.pc].opcode.Stx? || prog[v.at.pc].opcode.St?)
    ensures KeepsSlots(v.at.regs, v.at.frame, prog[v.at.pc], prog[v.at.pc].opcode.width)
    ensures StoreStaysInside(prog[v.at.pc], v.at.regs[prog[v.at.pc].dst].kind) || NothingTracked(v.at.frame)
  {
    hide KeepsSlots, StoreStaysInside, NothingTracked;
  }

  lemma StoresAreHarmless(prog: Program, relocs: map<nat, Reloc>, v: Visit, s: Tagged, bases: Bases,
                          regions: map<nat, Region>)
    requires v.at.pc == s.at.pc < |prog| && !Failing(prog, relocs, v) && SlotsKept(prog, v)
    requires ExactlyHolds(v.at, s, bases, regions) && AllApart(bases, regions)
    ensures StoreIsHarmless(prog, v, s)
  {
    hide Failing, ExactlyHolds, AllApart, Accessed, MeetsFrame, StoreStaysInside, SlotsKept, NothingTracked, KeepsSlots;
    var insn := prog[v.at.pc];
    if insn.opcode.Stx? || insn.opcode.St? {
      KeptStore(prog, v);
      if !NothingTracked(v.at.frame) {
        KnownStoreMisses(prog, relocs, v, s, bases, regions);
      }
    }
  }

  lemma AluHoldsExactly(prog: Program, relocs: map<nat, Reloc>, v: Visit, s: Tagged, t: Tagged, bases: Bases,
                        regions: map<nat, Region>, op: AluOp, source: Source, is64: bool, valued: bool)
    returns (c: Config)
    requires v.at.pc == s.at.pc < |prog|
    requires prog[s.at.pc].opcode == if is64 then Alu64(op, source) else Alu32(op, source)
    requires MovesByKnown(prog, v, valued) && !Failing(prog, relocs, v) && ExactlyHolds(v.at, s, bases, regions)
    requires TaggedSteps(prog, relocs.Keys, s, t) && (valued ==> Represents(v.at.regs, s.at.regs))
    ensures c == Chosen(prog, relocs, v, s.at, t.at)
    ensures c in Successors(prog, relocs, v) && c.pc == t.at.pc && ExactlyHolds(c, t, bases, regions)
  {
    hide AluResult, CanRead, HoldAddresses, SlotsHold, SlotsLeft, SlotsStored, Reloads, SameSlots, Steps;
    hide MovesByKnown, Represents;
    c := AluVisitHolds(prog, relocs, v, s.at, t.at, bases, regions, op, source, is64, valued);
    SlotsStay(prog[s.at.pc], s, t);
    SameSlotsHold(v.at.frame, s, t, bases, regions);
  }

  lemma PlainHoldsExactly(prog: Program, relocs: map<nat, Reloc>, v: Visit, s: Tagged, t: Tagged, bases: Bases,
                          regions: map<nat, Region>) returns (c: Config)
    requires v.at.pc == s.at.pc < |prog| && (prog[s.at.pc].opcode.LdImm64? || prog[s.at.pc].opcode.JmpJa?)
    requires !Failing(prog, relocs, v) && ExactlyHolds(v.at, s, bases, regions) && VisitOk(prog, v)
    requires TaggedSteps(prog, relocs.Keys, s, t)
    ensures c == Chosen(prog, relocs, v, s.at, t.at)
    ensures c in Successors(prog, relocs, v) && c.pc == t.at.pc && ExactlyHolds(c, t, bases, regions)
  {
    hide WideLoad, Target, HoldAddresses, SlotsHold, SlotsLeft, SlotsStored, Reloads, SameSlots, Steps, IdBelow;
    hide ConfigOk, AddressOf;
    RegIdsBelow(prog, v);
    var known;
    c, known := OtherVisitHolds(prog, relocs, v, s.at, t.at, bases, regions);
    SlotsStay(prog[s.at.pc], s, t);
    SameSlotsHold(v.at.frame, s, t, bases, regions);
  }

  lemma BranchHoldsExactly(prog: Program, relocs: map<nat, Reloc>, v: Visit, s: Tagged, t: Tagged, bases: Bases,
                           regions: map<nat, Region>, op: JmpOp, source: Source, is32: bool) returns (c: Config)
    requires v.at.pc == s.at.pc < |prog|
    requires prog[s.at.pc].opcode == if is32 then Jmp32(op, source) else Jmp64(op, source)
    requires !Failing(prog, relocs, v) && KindOk(v.at.regs[prog[s.at.pc].dst].kind, v.id) && ComparesPlainly(prog, v)
    requires ExactlyHolds(v.at, s, bases, regions) && TaggedSteps(prog, relocs.Keys, s, t)
    ensures c == Chosen(prog, relocs, v, s.at, t.at)
    ensures c in Successors(prog, relocs, v) && c.pc == t.at.pc && ExactlyHolds(c, t, bases, regions)
  {
    hide RefineBranch, CanRead, Holds64, Holds32, OperandValue, Target, KindOk, SlotsLeft, SlotsStored, Reloads;
    hide SameSlots, HoldAddresses, SlotsHold, Steps;
    c := BranchVisitHolds(prog, relocs, v, s.at, t.at, bases, regions, op, source, is32);
    SlotsStay(prog[s.at.pc], s, t);
    SameSlotsHold(v.at.frame, s, t, bases, regions);
    if !(is32 && op == JA) {
      BranchSlotsHold(v.at, s, bases, regions, prog[s.at.pc], op, source, is32, v.id);
      SameSlotsHold(c.frame, s, t, bases, regions);
    }
  }

  lemma LoadHoldsExactly(prog: Program, relocs: map<nat, Reloc>, v: Visit, s: Tagged, t: Tagged, bases: Bases,
                         regions: map<nat, Region>, w: MemWidth) returns (c: Config)
    requires v.at.pc == s.at.pc < |prog| && prog[s.at.pc].opcode == Ldx(w) && !Failing(prog, relocs, v)
    requires ExactlyHolds(v.at, s, bases, regions) && TaggedSteps(prog, relocs.Keys, s, t)
    ensures c == Chosen(prog, relocs, v, s.at, t.at)
    ensures c in Successors(prog, relocs, v) && c.pc == t.at.pc && ExactlyHolds(c, t, bases, regions)
  {
    hide LoadResult, CanRead, SlotsLeft, SlotsStored, Reloads, SameSlots, Accessed, HoldAddresses, SlotsHold;
    hide HoldsAddress, AddressOf;
    var insn := prog[s.at.pc];
    c := Step(prog, relocs, v.at, v.id).next;
    LoadHolds(v.at, s, t, bases, regions, insn, w);
    SetAddress(v.at.regs, s.at.regs, t.at.regs, bases, regions, insn.dst, c.regs[insn.dst]);
    SlotsStay(insn, s, t);
    SameSlotsHold(v.at.frame, s, t, bases, regions);
  }

  lemma StoreHoldsExactly(prog: Program, relocs: map<nat, Reloc>, v: Visit, s: Tagged, t: Tagged, bases: Bases,
                          regions: map<nat, Region>, w: MemWidth, isSt: bool) returns (c: Config)
    requires v.at.pc == s.at.pc < |prog| && IsStore(prog[s.at.pc], w, isSt) && SlotsKept(prog, v)
    requires !Failing(prog, relocs, v) && StoreIsHarmless(prog, v, s)
    requires ExactlyHolds(v.at, s, bases, regions) && TaggedSteps(prog, relocs.Keys, s, t)
    ensures c == Chosen(prog, relocs, v, s.at, t.at)
    ensures c in Successors(prog, relocs, v) && c.pc == t.at.pc && ExactlyHolds(c, t, bases, regions)
  {
    hide StoreResult, CanRead, SlotsLeft, SlotsStored, Reloads, HoldAddresses, SlotsHold, KeepsSlots, NothingTracked;
    hide StoreStaysInside, MeetsFrame, Accessed;
    c := Step(prog, relocs, v.at, v.id).next;
    KeptStore(prog, v);
    StoreHolds(v.at, s, t, prog[s.at.pc], w, isSt, bases, regions);
  }

  lemma CallHoldsExactly(prog: Program, relocs: map<nat, Reloc>, v: Visit, s: Tagged, t: Tagged, bases: Bases,
                         regions: map<nat, Region>) returns (c: Config)
    requires v.at.pc == s.at.pc < |prog| && prog[s.at.pc].opcode.Call? && VisitOk(prog, v) && SlotsKept(prog, v)
    requires !Failing(prog, relocs, v) && FrameOk(v.at.frame, v.id)
    requires ExactlyHolds(v.at, s, bases, regions) && TaggedSteps(prog, relocs.Keys, s, t)
    ensures c == Chosen(prog, relocs, v, s.at, t.at)
    ensures c in Successors(prog, relocs, v) && c.pc == t.at.pc
    ensures ExactlyHolds(c, t, bases, KnownAfter(prog[s.at.pc], v, t.at, regions))
  {
    hide AfterCall, ReturnValue, FrameAfterCall, GetHelper, ArgError, FrameOk, ConfigOk, NothingTracked;
    hide AfterCallOrigins, IsNullable, SlotsLeft, Reloads, HoldAddresses, SlotsHold, IdBelow, AddressOf, RegionSize;
    hide FrameMayChange;
    var insn, spec := prog[s.at.pc], GetHelper(prog[s.at.pc].imm).value;
    RegIdsBelow(prog, v);
    var known;
    c, known := OtherVisitHolds(prog, relocs, v, s.at, t.at, bases, regions);
    CallSlotsHold(v.at.regs, v.at.frame, s, t, insn, spec, v.id, bases, regions, known);
  }

  /** Whatever successor a run goes on to, its pointers hold their addresses. */
  lemma StepHoldsExactly(prog: Program, relocs: map<nat, Reloc>, v: Visit, s: Tagged, t: Tagged, bases: Bases,
                         regions: map<nat, Region>, valued: bool) returns (c: Config)
    requires VisitOk(prog, v) && v.at.pc == s.at.pc < |prog| && !Failing(prog, relocs, v)
    requires MovesByKnown(prog, v, valued) && ComparesPlainly(prog, v) && SlotsKept(prog, v)
    requires ExactlyHolds(v.at, s, bases, regions) && StoreIsHarmless(prog, v, s)
    requires TaggedSteps(prog, relocs.Keys, s, t) && (valued ==> Represents(v.at.regs, s.at.regs))
    ensures c == Chosen(prog, relocs, v, s.at, t.at)
    ensures c in Successors(prog, relocs, v) && c.pc == t.at.pc
    ensures ExactlyHolds(c, t, bases, KnownAfter(prog[s.at.pc], v, t.at, regions))
  {
    hide Successors, Failing, TaggedSteps, KindOk, ConfigOk, FrameOk, StoreIsHarmless, MovesByKnown, ComparesPlainly;
    hide ExactlyHolds, SlotsKept, Represents, Chosen;
    KindsOk(prog, v);
    RunsOn(prog, relocs.Keys, s, t);
    match prog[s.at.pc].opcode {
      case Alu64(op, source) =>
        c := AluHoldsExactly(prog, relocs, v, s, t, bases, regions, op, source, true, valued);
      case Alu32(op, source) =>
        c := AluHoldsExactly(prog, relocs, v, s, t, bases, regions, op, source, false, valued);
      case Jmp64(op, source) => c := BranchHoldsExactly(prog, relocs, v, s, t, bases, regions, op, source, false);
      case Jmp32(op, source) => c := BranchHoldsExactly(prog, relocs, v, s, t, bases, regions, op, source, true);
      case Ldx(w) => c := LoadHoldsExactly(prog, relocs, v, s, t, bases, regions, w);
      case Stx(w) => c := StoreHoldsExactly(prog, relocs, v, s, t, bases, regions, w, false);
      case St(w) => c := StoreHoldsExactly(prog, relocs, v, s, t, bases, regions, w, true);
      case Call => c := CallHoldsExactly(prog, relocs, v, s, t, bases, regions);
      case _ => c := PlainHoldsExactly(prog, relocs, v, s, t, bases, regions);
    }
  }

  // --- Whole runs ---

  /** What is known of a state of the run: the addresses, and the values of numbers or what pointers derive from. */
  ghost predicate StaysWith(c: Config, s: Tagged, calls: map<nat, nat>, bases: Bases, regions: map<nat, Region>,
                            valued: bool)
  {
    ExactlyHolds(c, s, bases, regions) && if valued then Represents(c.regs, s.at.regs) else Tracks(c, s, calls)
  }

  lemma ImpliedSlot(c: RegType, w: RegType, o: int, s: Tagged, bases: Bases, regions: map<nat, Region>)
    requires SlotHolds(c, o, s, bases, regions) && Implies(AddressOf(c), AddressOf(w))
    ensures SlotHolds(w, o, s, bases, regions)
  {
    hide AddressOf, AddressAt;
  }

  lemma SlotsFollow(w: Frame, c: Frame, s: Tagged, bases: Bases, regions: map<nat, Region>)
    requires SpillsFollow(c, w) && SlotsHold(c, s, bases, regions)
    ensures SlotsHold(w, s, bases, regions)
  {
    hide HoldsAddress, Implies, SlotHolds, AddressOf;
    forall o | o in w.spills && InFrame(o, 8)
      ensures SlotHolds(w.spills[o].kind, o, s, bases, regions)
    {
      if HasAddress(w.spills[o].kind) {
        SlotAddress(c, s, bases, regions, o);
        ImpliedSlot(c.spills[o].kind, w.spills[o].kind, o, s, bases, regions);
      } else {
        NoSlotNeeded(w.spills[o].kind, o, s, bases, regions);
      }
    }
  }

  lemma ExactlyFollows(w: Config, c: Config, s: Tagged, calls: map<nat, nat>, bases: Bases, regions: map<nat, Region>,
                       valued: bool)
    requires ExactlyKeeps(w, c, valued) && StaysWith(c, s, calls, bases, regions, valued)
    ensures StaysWith(w, s, calls, bases, regions, valued)
  {
    hide KeepsClaims, RegsFollow, SpillsFollow, HoldAddresses, SlotsHold, Represents, Tracks;
    RegsFollowed(c.regs, w.regs, s.at.regs, bases, regions, valued);
    SlotsFollow(w.frame, c.frame, s, bases, regions);
    if !valued {
      CarriedTracks(w, c, s, calls);
    }
  }

  lemma ExactCarryOver(prog: Program, relocs: map<nat, Reloc>, visits: set<Visit>, c: Config, s: Tagged,
                       calls: map<nat, nat>, bases: Bases, regions: map<nat, Region>, valued: bool) returns (v: Visit)
    requires ExactDiscipline(prog, relocs, visits, valued) && Arrives(prog, relocs, visits, c) && c.pc < |prog|
    requires StaysWith(c, s, calls, bases, regions, valued)
    ensures v in visits && v.at.pc == c.pc && StaysWith(v.at, s, calls, bases, regions, valued)
    ensures Exact(prog, v, valued)
  {
    hide Arrives, StaysWith, ExactlyKeeps, Exact;
    assert CarriedExactly(visits, c, valued);
    v :| v in visits && v.at.pc == c.pc && ExactlyKeeps(v.at, c, valued);
    ExactlyFollows(v.at, c, s, calls, bases, regions, valued);
  }

  lemma EntryHoldsExactly(values: Values, valued: bool)
    ensures StaysWith(EntryConfig(), Entered(values), map[], EntryBases(values), map[], valued)
  {
    hide HoldAddresses, Represents, Tracks;
    EntryHolds(values);
    EntryTracks(values);
    EntryRepresents(values);
  }

  function Plainly(run: seq<Tagged>): (plain: seq<State>)
    ensures |plain| == |run| && forall i :: 0 <= i < |run| ==> plain[i] == run[i].at
  {
    seq(|run|, i requires 0 <= i < |run| => run[i].at)
  }

  lemma InitRun(prog: Program, relocated: set<nat>, run: seq<Tagged>)
    requires |run| >= 2 && IsTaggedRun(prog, relocated, run) && MemoryApart(prog, run)
    ensures IsTaggedRun(prog, relocated, run[..|run| - 1]) && MemoryApart(prog, run[..|run| - 1])
    ensures TaggedSteps(prog, relocated, run[|run| - 2], run[|run| - 1]) && run[|run| - 2].at.pc < |prog|
    ensures Plainly(run[..|run| - 1]) == Plainly(run)[..|run| - 1] && RunBases(run[..|run| - 1]) == RunBases(run)
  {
    hide TaggedSteps, Entered, Apart, RegionApart, IsNullableCall, EntryBases;
    var init, n := run[..|run| - 1], |run| - 2;
    assert TaggedSteps(prog, relocated, run[n], run[n + 1]);
    TaggedInside(prog, relocated, run[n], run[n + 1]);
    forall i | 0 <= i < |init| - 1
      ensures TaggedSteps(prog, relocated, init[i], init[i + 1])
    {
      assert TaggedSteps(prog, relocated, run[i], run[i + 1]);
    }
    forall i | 0 <= i < |init| - 1 && init[i].at.pc < |prog| && IsNullableCall(prog[init[i].at.pc])
      ensures init[i + 1].at.regs[0] == 0 || RegionApart(RunBases(init).frame, init[i + 1].at.regs[0])
    {
      assert run[i + 1] == init[i + 1] && run[i] == init[i];
    }
  }

  /** A region returned in the run is apart, or null. */
  lemma ReturnedApart(prog: Program, visits: set<Visit>, run: seq<Tagged>, regions: map<nat, Region>)
    requires |run| > 0 && AllReturned(prog, visits, Plainly(run), regions) && MemoryApart(prog, run)
    ensures AllApart(RunBases(run), regions)
  {
    hide RegionSize, IsNullableCall, RegionApart, Apart, EntryBases;
    forall id | id in regions
      ensures regions[id].start == 0 || RegionApart(RunBases(run).frame, regions[id].start)
    {
      var i: nat, u :| u in visits && ReturnedAt(prog, Plainly(run), regions[id], i, u);
      assert run[i + 1].at.regs[0] == regions[id].start;
    }
  }

  lemma FrameOrigin(kind: RegType, bits: bv64, origin: Origin, results: seq<bv64>, frame: bv64, calls: map<nat, nat>)
    requires kind.FramePtr? && Claim(kind, bits, origin, results, frame, calls)
    ensures origin.TheFrame?
  {}

  lemma HarmlessIsApart(prog: Program, v: Visit, s: Tagged, calls: map<nat, nat>)
    requires v.at.pc == s.at.pc < |prog| && StoreIsHarmless(prog, v, s) && Tracks(v.at, s, calls)
    ensures NothingTracked(v.at.frame) || StoresApart(prog[s.at.pc], s)
  {
    hide RegsTrack, FrameTracks, NothingTracked, Claim, MeetsFrame, Accessed;
    var dst := prog[s.at.pc].dst;
    RegClaim(v.at.regs, s, calls, dst);
    if v.at.regs[dst].kind.FramePtr? {
      FrameOrigin(v.at.regs[dst].kind, s.at.regs[dst], s.from[dst], s.results, s.frame, calls);
    }
  }

  /** One step of the run, from a visit to the state that arrives. */
  lemma StepStaysWith(prog: Program, relocs: map<nat, Reloc>, v: Visit, s: Tagged, t: Tagged, calls: map<nat, nat>,
                      bases: Bases, regions: map<nat, Region>, valued: bool)
    returns (c: Config, calls': map<nat, nat>)
    requires VisitOk(prog, v) && v.at.pc == s.at.pc < |prog| && !Failing(prog, relocs, v) && Exact(prog, v, valued)
    requires StaysWith(v.at, s, calls, bases, regions, valued) && AllApart(bases, regions)
    requires TaggedSteps(prog, relocs.Keys, s, t)
    ensures c in Successors(prog, relocs, v) && c.pc == t.at.pc
    ensures StaysWith(c, t, calls', bases, KnownAfter(prog[s.at.pc], v, t.at, regions), valued)
  {
    hide VisitOk, Failing, MovesByKnown, ComparesPlainly, SlotsKept, SafeVisit, Disciplined, ExactlyHolds, Tracks;
    hide Represents, AllApart, TaggedSteps, Successors, KnownAfter, Chosen, StoreIsHarmless, StoresApart;
    hide NothingTracked;
    StoresAreHarmless(prog, relocs, v, s, bases, regions);
    c := StepHoldsExactly(prog, relocs, v, s, t, bases, regions, valued);
    calls' := calls;
    TaggedIsStep(prog, relocs.Keys, s, t);
    if valued {
      StepFollows(prog, relocs, v, s.at, t.at, c, true);
    } else {
      var d;
      HarmlessIsApart(prog, v, s, calls);
      d, calls' := StepTracks(prog, relocs, v, s, t, calls);
    }
  }

  lemma TaggedIsStep(prog: Program, relocated: set<nat>, s: Tagged, t: Tagged)
    requires TaggedSteps(prog, relocated, s, t)
    ensures Steps(prog, relocated, s.at, t.at)
  {
    hide Steps, NextOrigins, SlotsLeft, SlotsStored, Reloads;
  }

  lemma StaysWithMeans(c: Config, s: Tagged, calls: map<nat, nat>, bases: Bases, regions: map<nat, Region>,
                       valued: bool)
    requires StaysWith(c, s, calls, bases, regions, valued)
    ensures ExactlyHolds(c, s, bases, regions) && HoldAddresses(c.regs, s.at.regs, bases, regions)
    ensures if valued then Represents(c.regs, s.at.regs) else Tracks(c, s, calls)
  {
    hide HoldAddresses, SlotsHold, Represents, Tracks;
  }

  /** At each instruction of each run some state visited there types as pointers only what holds their addresses, in
      registers and in the slots of spills alike. Besides, if values are followed its numbers are those of the run, and
      otherwise what it knows to be a pointer derives from no null. */
  lemma {:induction false} RunHoldsExactly(prog: Program, relocs: map<nat, Reloc>, visits: set<Visit>,
          run: seq<Tagged>, valued: bool)
    returns (v: Visit, calls: map<nat, nat>, regions: map<nat, Region>)
    requires Certificate(prog, relocs, visits) && ExactDiscipline(prog, relocs, visits, valued)
    requires IsTaggedRun(prog, relocs.Keys, run) && MemoryApart(prog, run) && run[|run| - 1].at.pc < |prog|
    ensures v in visits && v.at.pc == run[|run| - 1].at.pc && !Failing(prog, relocs, v) && Exact(prog, v, valued)
    ensures ExactlyHolds(v.at, run[|run| - 1], RunBases(run), regions)
    ensures if valued then Represents(v.at.regs, run[|run| - 1].at.regs) else Tracks(v.at, run[|run| - 1], calls)
    ensures AllReturned(prog, visits, Plainly(run), regions) && AllApart(RunBases(run), regions)
    decreases |run|
  {
    hide Covered, Successors, VisitOk, Failing, Exact, CarriedExactly, Tracks, TaggedSteps, EntryConfig, Arrives;
    hide Entered, ExactlyHolds, MemoryApart, AllApart, AllReturned, StaysWith, Represents, RunBases;
    if |run| == 1 {
      EntryRun(prog, relocs.Keys, visits, run, valued);
      EntryArrives(prog, relocs, visits);
      calls, regions := map[], map[];
      v := ExactCarryOver(prog, relocs, visits, EntryConfig(), run[0], calls, RunBases(run), regions, valued);
    } else {
      var init, s, t := run[..|run| - 1], run[|run| - 2], run[|run| - 1];
      InitRun(prog, relocs.Keys, run);
      var u, known, before := RunHoldsExactly(prog, relocs, visits, init, valued);
      assert VisitOk(prog, u);
      StaysWithAll(u.at, s, known, RunBases(run), before, valued);
      var c;
      c, calls := StepStaysWith(prog, relocs, u, s, t, known, RunBases(run), before, valued);
      regions := KnownAfter(prog[u.at.pc], u, t.at, before);
      ReturnedLater(prog, visits, Plainly(run), before, u);
      SuccessorArrives(prog, relocs, visits, u, c);
      v := ExactCarryOver(prog, relocs, visits, c, t, calls, RunBases(run), regions, valued);
    }
    ReturnedApart(prog, visits, run, regions);
    StaysWithMeans(v.at, run[|run| - 1], calls, RunBases(run), regions, valued);
  }

  lemma StaysWithAll(c: Config, s: Tagged, calls: map<nat, nat>, bases: Bases, regions: map<nat, Region>, valued: bool)
    requires ExactlyHolds(c, s, bases, regions)
    requires if valued then Represents(c.regs, s.at.regs) else Tracks(c, s, calls)
    ensures StaysWith(c, s, calls, bases, regions, valued)
  {
    hide ExactlyHolds, Represents, Tracks;
  }

  lemma EntryRun(prog: Program, relocated: set<nat>, visits: set<Visit>, run: seq<Tagged>, valued: bool)
    requires |run| == 1 && IsTaggedRun(prog, relocated, run)
    ensures run[0].at.pc == 0 && EntryConfig().pc == 0
    ensures StaysWith(EntryConfig(), run[0], map[], RunBases(run), map[], valued)
    ensures AllReturned(prog, visits, Plainly(run), map[])
  {
    hide StaysWith, EntryBases, Returned;
    EntryPc(run[0].at.regs);
    EntryHoldsExactly(run[0].at.regs, valued);
  }

  lemma TaggedNonempty(prog: Program, relocated: set<nat>, run: seq<Tagged>)
    requires IsTaggedRun(prog, relocated, run)
    ensures |run| > 0
  {}

  lemma RegHolds(c: Config, s: Tagged, bases: Bases, regions: map<nat, Region>, r: RegId)
    requires ExactlyHolds(c, s, bases, regions)
    ensures HoldsAddress(AddressOf(c.regs[r].kind), s.at.regs[r], bases, regions)
  {
    hide HoldAddresses, SlotsHold, HoldsAddress;
    RegAddress(c.regs, s.at.regs, bases, regions, r);
  }
}

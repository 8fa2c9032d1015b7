/** Exactly which loads and stores the checker lets through, what it takes the loaded value for, and what a store leaves
  in the frame. */
module MemoryChecks {
  import opened Wrappers
  import opened Words
  import opened Tnums
  import opened Instructions
  import opened HelperTable
  import opened RegStates
  import opened AbstractStates
  import opened Transfer
  import opened Certificates
  import opened AddressClaims
  import opened StackInitialisation

  // --- Which accesses pass ---

  /** The bytes lie in what the type points into: the frame, the 4096 bytes of the context, or the region; of kernel and
      global memory nothing is asked. */
  predicate WithinBounds(kind: RegType, offset: int, w: MemWidth) {
    match kind
    case FramePtr(_) => -512 <= offset && offset + WidthBytes(w) <= 0
    case CtxPtr(_) => 0 <= offset && offset + WidthBytes(w) <= 4096
    case MapValuePtr(_, _, size, _) => 0 <= offset && offset + WidthBytes(w) <= size
    case RingBufPtr(_, _, size, _) => 0 <= offset && offset + WidthBytes(w) <= size
    case KernelPtr => true
    case DataPtr(_) => true
    case _ => false
  }

  predicate AllInit(frame: Frame, offset: int, w: MemWidth) {
    forall i :: 0 <= i < 512 && offset <= i - 512 < offset + WidthBytes(w) ==> frame.init[i]
  }

  lemma ReadableMeans(frame: Frame, offset: I64, w: MemWidth)
    requires WithinBounds(FramePtr(0), offset, w)
    ensures CheckReadable(frame, offset, WidthBytes(w)) <==> AllInit(frame, offset, w)
  {
    hide ByteIndex;
    var width := WidthBytes(w);
    if CheckReadable(frame, offset, width) {
      forall i | 0 <= i < 512 && offset <= i - 512 < offset + width
        ensures frame.init[i]
      {
        ReadableByte(frame, offset, width, i - 512 - offset);
      }
    }
    if AllInit(frame, offset, w) {
      forall k: nat | k < width
        ensures ByteIndex(offset, k).Some? && frame.init[ByteIndex(offset, k).value]
      {
        ByteIndexIs(offset, k);
        var i := offset + k + 512;
        assert frame.init[i];
      }
    }
  }

  /** A load passes if and only if its bytes lie in what its base points into, and on the stack have been written; near
      the limit of 64-bit integers the bounds check itself wraps. */
  lemma LoadAccepted(regs: Regs, frame: Frame, insn: BpfInsn, w: MemWidth)
    requires !NearLimit(ReachedOffset(regs[insn.src].kind, insn.offset))
    ensures var kind := regs[insn.src].kind;
            var o := ReachedOffset(kind, insn.offset);
            LoadResult(regs, frame, insn, w).Success? <==>
              WithinBounds(kind, o, w) && (kind.FramePtr? ==> AllInit(frame, o, w))
  {
    hide CheckBounds, CheckReadable, InRegion, WrapI64, NearLimit, AllInit;
    var kind := regs[insn.src].kind;
    var o := ReachedOffset(kind, insn.offset);
    match kind {
      case FramePtr(_) =>
        FrameBoundsMean(o, w);
        if WithinBounds(kind, o, w) {
          ReadableMeans(frame, o, w);
        }
      case CtxPtr(_) => RegionBoundsMean(o, w, 4096);
      case MapValuePtr(_, _, size, _) => RegionBoundsMean(o, w, size);
      case RingBufPtr(_, _, size, _) => RegionBoundsMean(o, w, size);
      case _ =>
    }
  }

  /** The store would put a frame or context pointer where others can read it. */
  predicate Leaks(base: RegType, stored: RegType) {
    (stored.FramePtr? || stored.CtxPtr?) && !base.FramePtr? && !base.MapValuePtr? && !base.RingBufPtr?
  }

  /** A store passes if and only if its bytes lie in what its base points into, and it leaks no pointer. */
  lemma StoreAccepted(regs: Regs, frame: Frame, insn: BpfInsn, w: MemWidth, isSt: bool)
    requires !NearLimit(ReachedOffset(regs[insn.dst].kind, insn.offset))
    ensures var kind := regs[insn.dst].kind;
            StoreResult(regs, frame, insn, w, isSt).Success? <==>
              WithinBounds(kind, ReachedOffset(kind, insn.offset), w) && (isSt || !Leaks(kind, regs[insn.src].kind))
  {
    hide CheckBounds, InRegion, WrapI64, NearLimit, AbstractStates.Spill, AbstractStates.MarkWritten;
    hide AbstractStates.ClearSpill;
    var kind := regs[insn.dst].kind;
    var o := ReachedOffset(kind, insn.offset);
    match kind {
      case FramePtr(_) => FrameBoundsMean(o, w);
      case CtxPtr(_) => RegionBoundsMean(o, w, 4096);
      case MapValuePtr(_, _, size, _) => RegionBoundsMean(o, w, size);
      case RingBufPtr(_, _, size, _) => RegionBoundsMean(o, w, size);
      case _ =>
    }
  }

  // --- What a load brings ---

  /** A pointer is loaded only whole: back from the slot it was spilled to, or, of kernel memory, from the context or
      through another such pointer. Anything else loaded is a number of which nothing is known. */
  lemma LoadedPointers(regs: Regs, frame: Frame, insn: BpfInsn, w: MemWidth)
    requires LoadResult(regs, frame, insn, w).Success?
    ensures var r, base := LoadResult(regs, frame, insn, w).value, regs[insn.src].kind;
            var o := ReachedOffset(base, insn.offset);
            var spilled := base.FramePtr? && w == W64 && o in frame.spills;
            && (spilled ==> r == frame.spills[o])
            && (!spilled ==> (r.kind.KernelPtr? <==> w == W64 && (base.CtxPtr? || base.KernelPtr?)))
            && (!spilled && !r.kind.KernelPtr? ==> r == ScalarUnknown())
  {
    hide CheckBounds, CheckReadable, InRegion, WrapI64;
  }

  // --- What a store leaves ---

  /** After a store into the frame exactly the bytes it covers are written besides those that were. */
  lemma StoredBytes(regs: Regs, frame: Frame, insn: BpfInsn, w: MemWidth, isSt: bool, i: nat)
    requires StoreResult(regs, frame, insn, w, isSt).Success? && i < 512
    ensures var base := regs[insn.dst].kind;
            var o := ReachedOffset(base, insn.offset);
            StoreResult(regs, frame, insn, w, isSt).value.init[i] <==>
              frame.init[i] || (base.FramePtr? && o <= i - 512 < o + WidthBytes(w))
  {
    hide CheckBounds, InRegion, WrapI64, Touches, Bytes;
    var o := ReachedOffset(regs[insn.dst].kind, insn.offset);
    TouchedBytes(o, WidthBytes(w), i);
    TouchedBytes(o, 8, i);
  }

  lemma JustReadable(frame: Frame, o: I64)
    requires CheckBounds(o, 8) && !NearLimit(o)
    ensures CheckReadable(MarkWritten(frame, o, 8), o, 8)
  {
    hide CheckBounds, Touches, NearLimit, ByteIndex, Bytes;
    FrameBoundsMean(o, W64);
    forall k: nat | k < 8
      ensures ByteIndex(o, k).Some? && MarkWritten(frame, o, 8).init[ByteIndex(o, k).value]
    {
      ByteIndexIs(o, k);
      TouchedBytes(o, 8, o + k + 512);
    }
  }

  /** What is stored in a slot comes back from it: a pointer as it was, anything else as a number. */
  lemma SpillThenLoad(regs: Regs, frame: Frame, insn: BpfInsn, after: Regs, load: BpfInsn)
    requires regs[insn.dst].kind.FramePtr? && after[load.src].kind.FramePtr?
    requires StoreResult(regs, frame, insn, W64, false).Success?
    requires ReachedOffset(after[load.src].kind, load.offset) == ReachedOffset(regs[insn.dst].kind, insn.offset)
    requires !NearLimit(ReachedOffset(regs[insn.dst].kind, insn.offset))
    ensures var val := regs[insn.src];
            LoadResult(after, StoreResult(regs, frame, insn, W64, false).value, load, W64)
              == Success(if val.kind.IsPtr() || val.kind.PtrOrNull? then val else ScalarUnknown())
  {
    hide CheckBounds, CheckReadable, WrapI64, NearLimit, AbstractStates.MarkWritten;
    var o := ReachedOffset(regs[insn.dst].kind, insn.offset);
    JustReadable(frame, o);
    JustReadable(ClearSpill(frame, o), o);
    SameReadable(MarkWritten(frame, o, 8), AbstractStates.Spill(frame, o, regs[insn.src]), o);
    MarkedKeepsSpills(ClearSpill(frame, o), o);
  }

  lemma SameReadable(a: Frame, b: Frame, o: I64)
    requires a.init == b.init
    ensures CheckReadable(a, o, 8) <==> CheckReadable(b, o, 8)
  {
    hide ByteIndex;
  }

  lemma MarkedKeepsSpills(frame: Frame, o: I64)
    ensures MarkWritten(frame, o, 8).spills == frame.spills
  {
    hide Touches;
  }

  // --- Joining frames ---

  /** What widening leaves written is the least that both frames allow. */
  lemma WidenedFrameIsLeast(a: Frame, b: Frame)
    ensures FrameWithin(a, WidenFrame(a, b)) && FrameWithin(b, WidenFrame(a, b))
    ensures forall u :: FrameWithin(a, u) && FrameWithin(b, u) ==> FrameWithin(WidenFrame(a, b), u)
  {}

  // --- Where values come from besides ---

  /** A wide load gives its constant and nothing else; a relocated map address is a number that only stands for a map, a
      relocated data symbol points to read-only global memory, a relocated field to kernel memory. */
  lemma WideLoads(insn: BpfInsn, reloc: Option<Reloc>, v: bv64)
    ensures var r := WideLoad(insn, reloc);
            match reloc
            case None => r.kind.Scalar? && (r.Contains(v) <==> v == WideImm(insn))
            case Some(MapReloc) => r.kind.Scalar? && r.Contains(v) && ArgAccepted(MapPtr, r.kind)
            case Some(DataReloc(name)) => r.kind == DataPtr(name) && ArgAccepted(PtrToReadonlyMem, r.kind)
            case Some(CoreFieldReloc) => r.kind.KernelPtr?
  {
    hide U, S, WideImm, Member;
    OnlyConstant(WideImm(insn), v);
    AnythingIn(Scalar, v);
  }

  lemma OnlyConstant(c: bv64, v: bv64)
    ensures ScalarValue(c).Contains(v) <==> v == c
  {
    hide U, S;
  }

  lemma AnythingIn(kind: RegType, v: bv64)
    ensures AnyValue(kind).Contains(v)
  {
    hide U, S;
  }
}

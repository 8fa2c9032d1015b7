/** The abstract state at a program point, as a value: eleven registers and the stack frame. */
module AbstractStates {
  import opened Wrappers
  import opened Words
  import opened Tnums
  import opened Instructions
  import opened RegStates

  const STACK_SIZE: nat := 512

  type Regs = regs: seq<RegState> | |regs| == 11 witness seq(11, _ => UninitReg())
  type InitMap = init: seq<bool> | |init| == 512 witness seq(512, _ => false)

  /** Which bytes of the frame have been written, and which registers were spilled where. */
  datatype Frame = Frame(init: InitMap, spills: map<I64, RegState>)

  function EntryRegs(): Regs {
    var u := UninitReg();
    [u, AnyValue(CtxPtr(0)), u, u, u, u, u, u, u, u, AnyValue(FramePtr(0))]
  }

  function EmptyFrame(): Frame {
    Frame(seq(512, _ => false), map[])
  }

  // --- Order and widening ---

  predicate RegsWithin(a: Regs, b: Regs) {
    forall i :: 0 <= i < 11 ==> a[i].IsSubstateOf(b[i])
  }

  /** Every byte written in `b` is written in `a`; spills are not compared. */
  predicate FrameWithin(a: Frame, b: Frame) {
    forall i :: 0 <= i < 512 ==> b.init[i] ==> a.init[i]
  }

  function WidenRegs(a: Regs, b: Regs): Regs {
    seq(11, i requires 0 <= i < 11 => a[i].Widen(b[i]))
  }

  function WidenFrame(a: Frame, b: Frame): Frame {
    Frame(seq(512, i requires 0 <= i < 512 => a.init[i] && b.init[i]),
          map off | off in a.spills :: if off in b.spills then a.spills[off].Widen(b.spills[off]) else a.spills[off])
  }

  // --- The stack frame ---

  /** The array index of a frame-pointer-relative offset. */
  function ToIndex(offset: I64): (idx: Option<nat>)
    ensures idx.Some? ==> idx.value < 512
  {
    var idx := WrapI64(512 + offset);
    if 0 <= idx < 512 then Some(idx) else None
  }

  /** Where byte `k` of an access at `offset` lies in the frame. */
  function ByteIndex(offset: I64, k: nat): (idx: Option<nat>)
    ensures idx.Some? ==> idx.value < 512
  {
    ToIndex(WrapI64(offset + k))
  }

  predicate CheckBounds(offset: I64, width: nat) {
    var start := WrapI64(512 + offset);
    var end := WrapI64(start + width);
    start >= 0 && end <= 512
  }

  /** Byte `idx` is one of the `width` bytes at `offset`. */
  predicate Touches(offset: I64, width: nat, idx: nat) {
    exists k: nat :: k < width && ByteIndex(offset, k) == Some(idx)
  }

  predicate CheckReadable(frame: Frame, offset: I64, width: nat) {
    forall k: nat :: k < width ==> ByteIndex(offset, k).Some? && frame.init[ByteIndex(offset, k).value]
  }

  function MarkWritten(frame: Frame, offset: I64, width: nat): Frame {
    frame.(init := seq(512, i requires 0 <= i < 512 => frame.init[i] || Touches(offset, width, i)))
  }

  function Spill(frame: Frame, offset: I64, reg: RegState): Frame {
    MarkWritten(frame, offset, 8).(spills := frame.spills[offset := reg])
  }

  function ClearSpill(frame: Frame, offset: I64): Frame {
    frame.(spills := frame.spills - {offset})
  }

  // --- Null-check refinement ---

  /** One register state after learning what the allocation `id` is. */
  function Resolve(r: RegState, id: nat, learned: RegType): RegState {
    if r.kind.PtrOrNull? && r.kind.id == id
    then if learned.Null? then NullReg() else r.(kind := learned)
    else r
  }

  function ResolveRegs(regs: Regs, id: nat, learned: RegType): Regs {
    seq(11, i requires 0 <= i < 11 => Resolve(regs[i], id, learned))
  }

  function ResolveSpills(frame: Frame, id: nat, learned: RegType): Frame {
    frame.(spills := map off | off in frame.spills :: Resolve(frame.spills[off], id, learned))
  }
}

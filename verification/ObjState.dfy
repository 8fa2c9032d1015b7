/** The state of the executable semantics: typed registers, a stack of slots, map values and ring buffers. */
module ObjState {
  import opened Wrappers
  import opened Instructions

  const STACK_SIZE: nat := 512

  /** A register holds a number, a pointer of some kind, or null. */
  datatype RegVal =
    | Scalar(value: bv64)
    | FramePtr(offset: int)
    | MapValuePtr(id: nat)
    | RingBufPtr(id: nat)
    | CtxPtr(offset: int)
    | Null
  {
    function ScalarValue(): Option<bv64> {
      if Scalar? then Some(value) else None
    }
  }

  type RegFile = regs: seq<RegVal> | |regs| == 11 witness seq(11, _ => Null)
  type Origins = origins: seq<nat> | |origins| == 11 witness seq(11, _ => 0)

  datatype StackSlot = StackSlot(offset: int, width: MemWidth, value: bv64)

  datatype RingSlot = RingSlot(id: nat, offset: int, width: MemWidth, value: bv64)

  /** The newest slots and entries come first. */
  datatype State = State(
    regs: RegFile, pc: int, stack: seq<StackSlot>, mapValues: seq<(nat, bv64)>, ringbuf: seq<RingSlot>,
    nextMapId: nat, origins: Origins)
  {
    function Origin(): nat { if pc >= 0 then pc else 0 }

    function SetReg(r: RegId, v: RegVal): State {
      this.(regs := regs[r := v], pc := pc + 1, origins := origins[r := Origin()])
    }

    function Jump(taken: bool, offset: int): State {
      this.(pc := if taken then pc + 1 + offset else pc + 1)
    }
  }

  // --- Memory ---

  predicate StackOffsetValid(offset: int, w: MemWidth) {
    var idx := STACK_SIZE + offset;
    idx >= 0 && idx + WidthBytes(w) <= STACK_SIZE
  }

  function StackRead(stack: seq<StackSlot>, offset: int, w: MemWidth): Option<bv64> {
    if stack == [] then None
    else if stack[0].offset == offset && stack[0].width == w then Some(stack[0].value)
    else StackRead(stack[1..], offset, w)
  }

  function StackWrite(stack: seq<StackSlot>, offset: int, w: MemWidth, v: bv64): seq<StackSlot> {
    [StackSlot(offset, w, v)] + stack
  }

  function StackLoad(st: State, offset: int, w: MemWidth): Option<bv64> {
    if StackOffsetValid(offset, w) then StackRead(st.stack, offset, w) else None
  }

  function StackStoreUnchecked(st: State, offset: int, w: MemWidth, v: bv64): State {
    st.(stack := StackWrite(st.stack, offset, w, v), pc := st.pc + 1)
  }

  function StackStore(st: State, offset: int, w: MemWidth, v: bv64): Option<State> {
    if StackOffsetValid(offset, w) then Some(StackStoreUnchecked(st, offset, w, v)) else None
  }

  function MapValueRead(mem: seq<(nat, bv64)>, id: nat): Option<bv64> {
    if mem == [] then None
    else if mem[0].0 == id then Some(mem[0].1)
    else MapValueRead(mem[1..], id)
  }

  function RingRead(mem: seq<RingSlot>, id: nat, offset: int, w: MemWidth): Option<bv64> {
    if mem == [] then None
    else if mem[0].id == id && mem[0].offset == offset && mem[0].width == w then Some(mem[0].value)
    else RingRead(mem[1..], id, offset, w)
  }

  function RingStore(st: State, id: nat, offset: int, w: MemWidth, v: bv64): State {
    st.(ringbuf := [RingSlot(id, offset, w, v)] + st.ringbuf, pc := st.pc + 1)
  }

  // --- Reading back what was written ---

  /** A load of the width and offset of the last store returns the value stored. */
  lemma StoreThenLoad(st: State, offset: int, w: MemWidth, v: bv64)
    ensures match StackStore(st, offset, w, v)
            case Some(st') => StackLoad(st', offset, w) == Some(v)
            case None => StackLoad(st, offset, w).None?
  {}

  /** A store leaves loads at other offsets, or of other widths, as they were. */
  lemma StoreKeepsOthers(st: State, offset: int, w: MemWidth, v: bv64, offset': int, w': MemWidth)
    requires offset' != offset || w' != w
    ensures match StackStore(st, offset, w, v)
            case Some(st') => StackLoad(st', offset', w') == StackLoad(st, offset', w')
            case None => true
  {
    assert StackWrite(st.stack, offset, w, v)[1..] == st.stack;
  }

  /** What is stored in a ring-buffer entry is read back at its offset and width. */
  lemma RingStoreThenRead(st: State, id: nat, offset: int, w: MemWidth, v: bv64)
    ensures RingRead(RingStore(st, id, offset, w, v).ringbuf, id, offset, w) == Some(v)
  {}

  /** A store into an entry changes no read of another entry, offset or width, and no other memory. */
  lemma RingStoreKeepsOthers(st: State, id: nat, offset: int, w: MemWidth, v: bv64, id': nat, offset': int,
                             w': MemWidth)
    requires id' != id || offset' != offset || w' != w
    ensures var st' := RingStore(st, id, offset, w, v);
            && RingRead(st'.ringbuf, id', offset', w') == RingRead(st.ringbuf, id', offset', w')
            && st'.stack == st.stack && st'.mapValues == st.mapValues && st'.regs == st.regs
  {
    var st' := RingStore(st, id, offset, w, v);
    assert st'.ringbuf[1..] == st.ringbuf;
  }
}

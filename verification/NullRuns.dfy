/** Runs that remember which values derive from the results of lookups and reservations.

  Registers carry, beside their bits, what their value derives from: the frame pointer, the result of a call, or
  neither. So do the eight-byte values stored in memory, by whatever register: a slot is named by the distance of its
  address from the frame's end, and is gone when a store or a helper writes over it. The frame is the program's own;
  outside it others write too, so there a slot may be gone at any time.
*/
module NullRuns {
  import opened Wrappers
  import opened Words
  import opened Addresses
  import opened Instructions
  import opened HelperTable
  import opened ControlFlow
  import opened Transfer
  import opened Machine

  datatype Origin = Nowhere | TheFrame | Result(call: nat)

  type Origins = from: seq<Origin> | |from| == 11 witness seq(11, _ => Nowhere)

  /** Eight bytes stored in memory. */
  datatype Slot = Slot(bits: bv64, origin: Origin)

  /** `results` are the results of all nullable calls so far, `from` says what each register derives from, `frame` is
      the address of the frame's end. */
  datatype Tagged = Tagged(at: State, from: Origins, results: seq<bv64>, frame: bv64, slots: map<int, Slot>)

  predicate IsNullableCall(insn: BpfInsn) {
    insn.opcode.Call? && var h := GetHelper(insn.imm); h.Some? && IsNullable(h.value.ret)
  }

  /** A result derives from its destination operand, or else from its source. */
  function AluOrigin(from: Origins, insn: BpfInsn, op: AluOp, source: Source): Origin {
    var src := if source.FromReg? then from[insn.src] else Nowhere;
    if op == MOV || from[insn.dst].Nowhere? then src else from[insn.dst]
  }

  function AfterCallOrigins(from: Origins, r0: Origin): Origins {
    from[0 := r0][1 := Nowhere][2 := Nowhere][3 := Nowhere][4 := Nowhere][5 := Nowhere]
  }

  // --- Memory ---

  /** The base register and the width of a memory access. */
  function AccessOf(insn: BpfInsn): Option<(RegId, MemWidth)> {
    match insn.opcode
    case Ldx(w) => Some((insn.src, w))
    case Stx(w) => Some((insn.dst, w))
    case St(w) => Some((insn.dst, w))
    case _ => None
  }

  /** Where an access through `base` goes. */
  function Accessed(s: Tagged, insn: BpfInsn, base: RegId): I64 {
    OffsetFrom(s.frame, Plus(s.at.regs[base], FromSigned(insn.offset)))
  }

  predicate InFrame(off: int, width: nat) { -512 <= off && off + width <= 0 }

  predicate MeetsFrame(off: int, width: nat) { -512 < off + width && off < 0 }

  predicate Overlaps(o: int, off: int, width: nat) { o < off + width && off < o + 8 }

  /** The slots that a store to these bytes leaves alone. */
  function Without(slots: map<int, Slot>, off: int, width: nat): map<int, Slot> {
    map o | o in slots && !Overlaps(o, off, width) :: slots[o]
  }

  /** The instruction reads a whole slot. */
  predicate Reloads(insn: BpfInsn, s: Tagged) {
    insn.opcode == Ldx(W64) && Accessed(s, insn, insn.src) in s.slots
  }

  /** What the program's own stores make of the slots. */
  function SlotsStored(insn: BpfInsn, s: Tagged): map<int, Slot> {
    match insn.opcode
    case Stx(w) =>
      var off := Accessed(s, insn, insn.dst);
      var left := Without(s.slots, off, WidthBytes(w));
      if w == W64 then left[off := Slot(s.at.regs[insn.src], s.from[insn.src])] else left
    case St(w) => Without(s.slots, Accessed(s, insn, insn.dst), WidthBytes(w))
    case _ => s.slots
  }

  /** The helper writes through one of its arguments, or may pass one to a function that does. */
  predicate MayWrite(spec: HelperSpec) {
    exists i :: 0 <= i < |spec.args| && spec.args[i] in {PtrToMem, PtrToStack, AnyArg}
  }

  predicate FrameMayChange(insn: BpfInsn) {
    insn.opcode.Call? && var h := GetHelper(insn.imm); h.Some? ==> MayWrite(h.value)
  }

  /** Slots may be gone, but those in the frame only if a helper wrote there. */
  predicate SlotsLeft(insn: BpfInsn, stored: map<int, Slot>, left: map<int, Slot>) {
    && left.Keys <= stored.Keys && (forall o :: o in left ==> left[o] == stored[o])
    && (!FrameMayChange(insn) ==> forall o :: o in stored && InFrame(o, 8) ==> o in left)
  }

  // --- Runs ---

  /** A value loaded from anywhere but a slot derives from nothing. */
  function NextOrigins(insn: BpfInsn, s: Tagged): Origins {
    match insn.opcode
    case Alu64(op, source) => s.from[insn.dst := AluOrigin(s.from, insn, op, source)]
    case Alu32(op, source) => s.from[insn.dst := AluOrigin(s.from, insn, op, source)]
    case LdImm64 => s.from[insn.dst := Nowhere]
    case Ldx(_) =>
      s.from[insn.dst := if Reloads(insn, s) then s.slots[Accessed(s, insn, insn.src)].origin else Nowhere]
    case Call => AfterCallOrigins(s.from, if IsNullableCall(insn) then Result(|s.results|) else Nowhere)
    case _ => s.from
  }

  ghost predicate TaggedSteps(prog: Program, relocated: set<nat>, s: Tagged, t: Tagged) {
    && Steps(prog, relocated, s.at, t.at) && t.frame == s.frame
    && var insn := prog[s.at.pc];
    && t.from == NextOrigins(insn, s) && SlotsLeft(insn, SlotsStored(insn, s), t.slots)
    && t.results == s.results + (if IsNullableCall(insn) then [t.at.regs[0]] else [])
    && (Reloads(insn, s) ==> t.at.regs[insn.dst] == s.slots[Accessed(s, insn, insn.src)].bits)
  }

  /** At the start only r10 derives from anything: it holds the address of the frame's end. */
  function EntryOrigins(): Origins { seq(11, _ => Nowhere)[10 := TheFrame] }

  function Entered(values: Values): Tagged { Tagged(State(0, values), EntryOrigins(), [], values[10], map[]) }

  ghost predicate IsTaggedRun(prog: Program, relocated: set<nat>, run: seq<Tagged>) {
    && |run| > 0 && run[0] == Entered(run[0].at.regs)
    && forall i :: 0 <= i < |run| - 1 ==> TaggedSteps(prog, relocated, run[i], run[i + 1])
  }

  /** A store that meets the frame goes through a value that derives from the frame pointer. */
  predicate StoresApart(insn: BpfInsn, s: Tagged) {
    (insn.opcode.Stx? || insn.opcode.St?) && MeetsFrame(Accessed(s, insn, insn.dst), WidthBytes(insn.opcode.width)) ==>
      s.from[insn.dst].TheFrame?
  }

  /** What else a program is given, the context, global data and the regions that calls return, lies apart from its
      frame: the stores of the run do not reach one from the other. */
  ghost predicate FrameIsPrivate(prog: Program, run: seq<Tagged>) {
    forall i :: 0 <= i < |run| - 1 && run[i].at.pc < |prog| ==> StoresApart(prog[run[i].at.pc], run[i])
  }

  // --- Using a null result ---

  /** The value derives from no call, or from one that returned a pointer. */
  predicate NotNull(origin: Origin, results: seq<bv64>) {
    origin.Result? ==> origin.call < |results| && results[origin.call] != 0
  }

  predicate TakesPointer(arg: ArgType) {
    arg in {PtrToStack, PtrToMapKey, PtrToMapValue, PtrToRingBuf, PtrToMem, PtrToReadonlyMem}
  }

  /** The instruction accesses memory through the register or passes it where a pointer is expected. */
  predicate UsesAsPointer(insn: BpfInsn, r: RegId) {
    if insn.opcode.Call? then
      var h := GetHelper(insn.imm);
      h.Some? && 1 <= r <= |h.value.args| && TakesPointer(h.value.args[r - 1])
    else AccessOf(insn).Some? && AccessOf(insn).value.0 == r
  }

  /** 64-bit arithmetic in a run. */
  lemma AluTagged(prog: Program, relocated: set<nat>, s: Tagged, op: AluOp, source: Source)
    requires s.at.pc < |prog| && prog[s.at.pc].opcode == Alu64(op, source) && prog[s.at.pc].offset == 0
    ensures var insn, regs := prog[s.at.pc], s.at.regs;
            var v := AluValue64(op, regs[insn.dst], OperandValue(regs, insn, source, true));
            TaggedSteps(prog, relocated, s, s.(at := State(s.at.pc + 1, regs[insn.dst := v]),
                                               from := s.from[insn.dst := AluOrigin(s.from, insn, op, source)]))
  {
    hide Steps, AluValue64, OperandValue, Accessed;
    AluRuns(prog, relocated, s.at, op, source);
  }

  /** A jump in a run. */
  lemma JumpTagged(prog: Program, relocated: set<nat>, s: Tagged, pc: nat)
    requires s.at.pc < |prog| && prog[s.at.pc].opcode.Jmp64? && Steps(prog, relocated, s.at, State(pc, s.at.regs))
    ensures TaggedSteps(prog, relocated, s, s.(at := State(pc, s.at.regs)))
  {
    hide Steps, Accessed;
  }

  lemma StepInside(prog: Program, relocated: set<nat>, s: State, t: State)
    requires Steps(prog, relocated, s, t)
    ensures s.pc < |prog|
  {
    hide Computes, Jumps, IsTarget;
  }
}

/** What BPF instructions do to concrete register values: arithmetic (RFC 9669, section 4.1), comparisons
    (section 4.3) and runs of whole programs. */
module Machine {
  import opened Wrappers
  import opened Words
  import opened Instructions
  import opened ControlFlow

  function AluValue64(op: AluOp, x: bv64, y: bv64): bv64 {
    match op
    case ADD => Plus(x, y)
    case SUB => Minus(x, y)
    case MUL => Times(x, y)
    case DIV => if U(y) == 0 then 0 else Quotient(x, y)
    case MOD => if U(y) == 0 then x else Remainder(x, y)
    case AND => And(x, y)
    case OR => Or(x, y)
    case XOR => Xor(x, y)
    case LSH => Shl(x, U(y) % 64)
    case RSH => Shr(x, U(y) % 64)
    case ARSH => Sar(x, U(y) % 64)
    case NEG => Minus(0, x)
    case MOV => y
  }

  /** 32-bit operations use the low halves and clear the upper half of the result. */
  function AluValue32(op: AluOp, x: bv64, y: bv64): bv64 {
    var lx, ly := Low(x), Low(y);
    match op
    case ADD => Low(Plus(lx, ly))
    case SUB => Low(Minus(lx, ly))
    case MUL => Low(Times(lx, ly))
    case DIV => if U(ly) == 0 then 0 else Low(Quotient(lx, ly))
    case MOD => if U(ly) == 0 then lx else Low(Remainder(lx, ly))
    case AND => And(lx, ly)
    case OR => Or(lx, ly)
    case XOR => Xor(lx, ly)
    case LSH => Low(Shl(lx, U(ly) % 32))
    case RSH => Shr(lx, U(ly) % 32)
    case ARSH => Low(Sar(FromSigned(S32(x)), U(ly) % 32))
    case NEG => Low(Minus(0, lx))
    case MOV => ly
  }

  function AluValue(op: AluOp, is64: bool, x: bv64, y: bv64): bv64 {
    if is64 then AluValue64(op, x, y) else AluValue32(op, x, y)
  }

  // --- Arithmetic forms selected by the offset field ---

  /** The number written by the low bits of `x` in two's complement, `modulus` being two to their number. */
  function SignedBelow(x: bv64, modulus: nat): (n: I64)
    requires modulus in {0x100, 0x1_0000, 0x1_0000_0000}
    ensures -(modulus / 2) <= n < modulus / 2
  {
    var n := U(x) % modulus;
    if n < modulus / 2 then n else n - modulus
  }

  /** Two to the number of bits that a sign-extending move keeps; none for an ordinary move. */
  function MoveModulus(offset: I16, is64: bool): Option<nat> {
    if offset == 8 then Some(0x100)
    else if offset == 16 then Some(0x1_0000)
    else if offset == 32 && is64 then Some(0x1_0000_0000)
    else None
  }

  /** Division rounding towards zero. */
  function Truncating(a: int, b: int): int
    requires b != 0
  {
    if a >= 0 then (if b > 0 then a / b else -(a / -b))
    else if b > 0 then -(-a / b) else -a / -b
  }

  function SignedQuotient(a: int, b: int): int { if b == 0 then 0 else Truncating(a, b) }

  function SignedRemainder(a: int, b: int): int { if b == 0 then a else a - b * Truncating(a, b) }

  function SignedDivision(op: AluOp, a: int, b: int): bv64 {
    FromSigned(WrapI64(if op == DIV then SignedQuotient(a, b) else SignedRemainder(a, b)))
  }

  /** The result of an ALU instruction, where the standard defines it: a non-zero offset selects a sign-extending move
      or a signed division. */
  function AluOutcome(op: AluOp, source: Source, is64: bool, offset: I16, x: bv64, y: bv64): Option<bv64> {
    if offset == 0 then Some(AluValue(op, is64, x, y))
    else if op == MOV && source.FromReg? && MoveModulus(offset, is64).Some? then
      var moved := FromSigned(SignedBelow(y, MoveModulus(offset, is64).value));
      Some(if is64 then moved else Low(moved))
    else if (op == DIV || op == MOD) && offset == 1 then
      Some(if is64 then SignedDivision(op, S(x), S(y)) else Low(SignedDivision(op, S32(x), S32(y))))
    else None
  }

  predicate Holds64(op: JmpOp, x: bv64, y: bv64) {
    match op
    case JA => true
    case JEQ => x == y
    case JNE => x != y
    case JGT => U(x) > U(y)
    case JGE => U(x) >= U(y)
    case JLT => U(x) < U(y)
    case JLE => U(x) <= U(y)
    case JSGT => S(x) > S(y)
    case JSGE => S(x) >= S(y)
    case JSLT => S(x) < S(y)
    case JSLE => S(x) <= S(y)
    case JSET => And(x, y) != 0
  }

  predicate Holds32(op: JmpOp, x: bv64, y: bv64) {
    var lx, ly := Low(x), Low(y);
    match op
    case JA => true
    case JEQ => lx == ly
    case JNE => lx != ly
    case JGT => U(lx) > U(ly)
    case JGE => U(lx) >= U(ly)
    case JLT => U(lx) < U(ly)
    case JLE => U(lx) <= U(ly)
    case JSGT => S32(x) > S32(y)
    case JSGE => S32(x) >= S32(y)
    case JSLT => S32(x) < S32(y)
    case JSLE => S32(x) <= S32(y)
    case JSET => And(lx, ly) != 0
  }

  /** The branch is taken for these operand values. */
  predicate Holds(op: JmpOp, is32: bool, x: bv64, y: bv64) {
    if is32 then Holds32(op, x, y) else Holds64(op, x, y)
  }

  // --- Runs ---

  type Values = regs: seq<bv64> | |regs| == 11 witness seq(11, _ => 0)

  datatype State = State(pc: nat, regs: Values)

  /** The second operand of an ALU or jump instruction. */
  function OperandValue(regs: Values, insn: BpfInsn, source: Source, is64: bool): bv64 {
    if source.FromImm? then ImmOperand(insn.imm, is64) else regs[insn.src]
  }

  /** The registers outside `changed` keep their values. */
  predicate Unchanged(before: Values, after: Values, changed: set<RegId>) {
    forall r: RegId :: r !in changed ==> after[r] == before[r]
  }

  /** `t` can follow `s` in a run. Memory, helpers, relocated addresses and undefined arithmetic are not modelled: what
      they put into a register is arbitrary. The 32-bit unconditional jump takes its distance from the immediate. */
  ghost predicate Steps(prog: Program, relocated: set<nat>, s: State, t: State) {
    s.pc < |prog| &&
    var insn, next := prog[s.pc], s.pc + 1;
    match insn.opcode
    case Alu64(op, source) => Computes(s, t, insn, op, source, true)
    case Alu32(op, source) => Computes(s, t, insn, op, source, false)
    case LdImm64 =>
      && t.pc == next && Unchanged(s.regs, t.regs, {insn.dst})
      && (s.pc !in relocated ==> t.regs[insn.dst] == WideImm(insn))
    case Ldx(_) => t.pc == next && Unchanged(s.regs, t.regs, {insn.dst})
    case Stx(_) => t == State(next, s.regs)
    case St(_) => t == State(next, s.regs)
    case Call => t.pc == next && Unchanged(s.regs, t.regs, {0, 1, 2, 3, 4, 5})
    case JmpJa => IsTarget(prog, s.pc, insn.offset, t.pc) && t.regs == s.regs
    case Jmp64(op, source) => Jumps(prog, s, t, Holds64(op, s.regs[insn.dst], OperandValue(s.regs, insn, source, true)))
    case Jmp32(op, source) =>
      if op == JA then IsTarget(prog, s.pc, insn.imm, t.pc) && t.regs == s.regs
      else Jumps(prog, s, t, Holds32(op, s.regs[insn.dst], OperandValue(s.regs, insn, source, false)))
    case Exit => false
    case Unknown(_) => false
  }

  predicate Computes(s: State, t: State, insn: BpfInsn, op: AluOp, source: Source, is64: bool) {
    var result := AluOutcome(op, source, is64, insn.offset, s.regs[insn.dst], OperandValue(s.regs, insn, source, is64));
    && t.pc == s.pc + 1 && Unchanged(s.regs, t.regs, {insn.dst})
    && (result.Some? ==> t.regs[insn.dst] == result.value)
  }

  predicate Jumps(prog: Program, s: State, t: State, taken: bool)
    requires s.pc < |prog|
  {
    t.regs == s.regs && if taken then IsTarget(prog, s.pc, prog[s.pc].offset, t.pc) else t.pc == s.pc + 1
  }

  /** A run from the first instruction, with any initial register values. */
  ghost predicate IsRun(prog: Program, relocated: set<nat>, run: seq<State>) {
    && |run| > 0 && run[0].pc == 0
    && forall i :: 0 <= i < |run| - 1 ==> Steps(prog, relocated, run[i], run[i + 1])
  }

  // --- Runs follow paths ---

  /** The 32-bit jump at `pc` goes along an edge of the control-flow graph, wherever it goes. */
  ghost predicate FollowsEdge(prog: Program, pc: nat)
    requires pc < |prog|
  {
    forall t: nat :: IsTarget(prog, pc, prog[pc].imm, t) ==> Edge(prog, pc, t)
  }

  /** The checker takes the distance of a 32-bit unconditional jump from the offset: right exactly when the immediate
      leads nowhere, to the same place, or to the next instruction. */
  lemma LongJumpExact(prog: Program, pc: nat)
    requires pc < |prog| && prog[pc].opcode.Jmp32? && prog[pc].opcode.jmpOp == JA
    ensures FollowsEdge(prog, pc) <==>
              Target(prog, pc, prog[pc].imm).None? || prog[pc].imm == prog[pc].offset || prog[pc].imm == 0
  {
    var imm := prog[pc].imm;
    if Target(prog, pc, imm).Some? {
      var t := Target(prog, pc, imm).value;
      forall u: nat | IsTarget(prog, pc, imm, u)
        ensures u == t
      {
        TargetUnique(prog, pc, imm, t, u);
      }
      if imm == 0 {
        NextSlot(prog, pc, t);
      }
      if FollowsEdge(prog, pc) && t == pc + 1 {
        assert RawPc(prog, pc + 1) == RawPc(prog, pc) + 1;
      }
    }
  }

  ghost predicate JumpsAlongEdges(prog: Program) {
    forall pc: nat :: pc < |prog| && prog[pc].opcode.Jmp32? && prog[pc].opcode.jmpOp == JA ==> FollowsEdge(prog, pc)
  }

  lemma StepIsEdge(prog: Program, relocated: set<nat>, s: State, t: State)
    requires JumpsAlongEdges(prog) && Steps(prog, relocated, s, t)
    ensures Edge(prog, s.pc, t.pc)
  {
    hide AluOutcome, Holds64, Holds32, OperandValue, Unchanged, WideImm, IsTarget;
    if prog[s.pc].opcode.Jmp32? && prog[s.pc].opcode.jmpOp == JA {
      assert FollowsEdge(prog, s.pc);
    }
  }

  function Positions(run: seq<State>): (path: seq<nat>)
    ensures |path| == |run| && forall i :: 0 <= i < |run| ==> path[i] == run[i].pc
  {
    seq(|run|, i requires 0 <= i < |run| => run[i].pc)
  }

  /** What holds along every path holds along every run. */
  lemma RunIsPath(prog: Program, relocated: set<nat>, run: seq<State>)
    requires JumpsAlongEdges(prog) && IsRun(prog, relocated, run)
    ensures IsPath(prog, Positions(run)) && Positions(run)[0] == 0
  {
    hide Steps, Edge, JumpsAlongEdges;
    var path := Positions(run);
    forall i | 0 <= i < |path| - 1
      ensures Edge(prog, path[i], path[i + 1])
    {
      StepIsEdge(prog, relocated, run[i], run[i + 1]);
    }
  }

  /** 64-bit arithmetic in a run. */
  lemma AluRuns(prog: Program, relocated: set<nat>, s: State, op: AluOp, source: Source)
    requires s.pc < |prog| && prog[s.pc].opcode == Alu64(op, source) && prog[s.pc].offset == 0
    ensures var insn := prog[s.pc];
            Steps(prog, relocated, s, State(s.pc + 1, s.regs[insn.dst :=
              AluValue64(op, s.regs[insn.dst], OperandValue(s.regs, insn, source, true))]))
  {
    hide AluValue64, OperandValue;
  }

  lemma MoveRuns(prog: Program, relocated: set<nat>, s: State, source: Source)
    requires s.pc < |prog| && prog[s.pc].opcode == Alu64(MOV, source) && prog[s.pc].offset == 0
    ensures Steps(prog, relocated, s,
                  State(s.pc + 1, s.regs[prog[s.pc].dst := OperandValue(s.regs, prog[s.pc], source, true)]))
  {
    hide Steps, OperandValue;
    AluRuns(prog, relocated, s, MOV, source);
  }
}

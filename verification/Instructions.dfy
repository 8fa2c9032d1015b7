/** Decoded BPF instructions. */
module Instructions {
  import opened Wrappers
  import opened Words

  type RegId = n: nat | n < 11

  datatype AluOp = ADD | SUB | MUL | DIV | OR | AND | LSH | RSH | NEG | MOD | XOR | MOV | ARSH

  datatype JmpOp = JA | JEQ | JGT | JGE | JSET | JNE | JLT | JLE | JSGT | JSGE | JSLT | JSLE

  /** Whether the second operand is the immediate or the source register. */
  datatype Source = FromImm | FromReg

  datatype MemWidth = W8 | W16 | W32 | W64

  datatype Opcode =
    | Alu64(aluOp: AluOp, source: Source)
    | Alu32(aluOp: AluOp, source: Source)
    | Ldx(width: MemWidth)
    | Stx(width: MemWidth)
    | St(width: MemWidth)
    | Jmp64(jmpOp: JmpOp, source: Source)
    | Jmp32(jmpOp: JmpOp, source: Source)
    | JmpJa
    | Call
    | LdImm64
    | Exit
    | Unknown(raw: bv8)

  datatype BpfInsn = BpfInsn(opcode: Opcode, dst: RegId, src: RegId, offset: I16, imm: I32, imm64: Option<bv64>)

  function WidthBytes(w: MemWidth): nat {
    match w
    case W8 => 1
    case W16 => 2
    case W32 => 4
    case W64 => 8
  }

  /** `imm as i64 as u64`: the sign-extended immediate. */
  function SignExtended(imm: I32): bv64 { FromSigned(imm) }

  /** `imm as u32 as u64`: the zero-extended immediate. */
  function ZeroExtended(imm: I32): bv64 { B(if imm < 0 then imm + TWO32 else imm) }

  /** The immediate operand of an ALU or jump instruction. */
  function ImmOperand(imm: I32, is64: bool): bv64 { if is64 then SignExtended(imm) else ZeroExtended(imm) }

  /** The constant a wide load puts into its register. */
  function WideImm(insn: BpfInsn): bv64 { insn.imm64.GetOr(ZeroExtended(insn.imm)) }
}

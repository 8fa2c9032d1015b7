/** Which arguments each helper is let to take, and what it leaves in r0. */
module CallChecks {
  import opened Wrappers
  import opened Words
  import opened Tnums
  import opened Instructions
  import opened HelperTable
  import opened RegStates
  import opened AbstractStates
  import opened ControlFlow
  import opened Transfer
  import opened Certificates

  /** Memory a helper may read a key or value from. */
  predicate IsSource(kind: RegType) { kind.FramePtr? || kind.MapValuePtr? || kind.DataPtr? }

  /** Memory a helper may write to: never the context, global or kernel memory. */
  predicate IsBuffer(kind: RegType) { kind.FramePtr? || kind.MapValuePtr? || kind.RingBufPtr? }

  /** What passes for a number; of what a kernel pointer points to the checker knows nothing. */
  predicate IsNumber(kind: RegType) { kind.Scalar? || kind.KernelPtr? || kind.Null? }

  /** The arguments of a call have the types that the helper is documented to take. A map is named by a number. */
  predicate TakesArguments(helper: int, regs: Regs) {
    var k1, k2, k3, k4 := regs[1].kind, regs[2].kind, regs[3].kind, regs[4].kind;
    if helper in {1, 3} then k1.Scalar? && IsSource(k2)
    else if helper == 2 then k1.Scalar? && IsSource(k2) && IsSource(k3) && IsNumber(k4)
    else if helper in {4, 112, 113, 115} then IsBuffer(k1) && IsNumber(k2) && IsNumber(k3)
    else if helper == 6 then IsSource(k1) && IsNumber(k2)
    else if helper == 16 then IsBuffer(k1) && IsNumber(k2)
    else if helper == 45 then IsBuffer(k1) && IsNumber(k2) && regs[3].IsReadable()
    else if helper == 131 then k1.Scalar? && IsNumber(k2) && IsNumber(k3)
    else if helper in {132, 133} then k1.RingBufPtr? && IsNumber(k2)
    else if helper == 147 then IsNumber(k1) && IsBuffer(k2) && IsNumber(k3)
    else if helper == 181 then IsNumber(k1) && regs[2].IsReadable() && regs[3].IsReadable() && IsNumber(k4)
    else true
  }

  lemma OneArgument(args: seq<ArgType>, regs: Regs, i: nat)
    requires i <= |args| <= 5
    ensures ArgError(args, regs, i).None? <==>
              i == |args| || (regs[1 + i].IsReadable() && ArgAccepted(args[i], regs[1 + i].kind)
                              && ArgError(args, regs, i + 1).None?)
  {
    hide ArgAccepted;
  }

  predicate Passes(args: seq<ArgType>, regs: Regs, i: nat)
    requires |args| <= 4
  {
    i < |args| && i < 4 ==> regs[1 + i].IsReadable() && ArgAccepted(args[i], regs[1 + i].kind)
  }

  lemma FewArguments(args: seq<ArgType>, regs: Regs)
    requires |args| <= 4
    ensures ArgError(args, regs, 0).None? <==>
              Passes(args, regs, 0) && Passes(args, regs, 1) && Passes(args, regs, 2) && Passes(args, regs, 3)
  {
    hide ArgAccepted, ArgError;
    OneArgument(args, regs, 0);
    if |args| > 0 { OneArgument(args, regs, 1); }
    if |args| > 1 { OneArgument(args, regs, 2); }
    if |args| > 2 { OneArgument(args, regs, 3); }
    if |args| > 3 { OneArgument(args, regs, 4); }
  }

  lemma ArgumentsMean(helper: int, regs: Regs)
    requires GetHelper(helper).Some?
    ensures ArgError(GetHelper(helper).value.args, regs, 0).None? <==> TakesArguments(helper, regs)
  {
    hide ArgError;
    FewArguments(GetHelper(helper).value.args, regs);
  }

  /** A call passes if and only if its helper is known and its arguments have these types: the types alone decide, never
      the length of a buffer. */
  lemma CallAccepted(prog: Program, relocs: map<nat, Reloc>, v: Visit)
    requires v.at.pc < |prog| && prog[v.at.pc].opcode.Call?
    ensures !Failing(prog, relocs, v) <==>
              GetHelper(prog[v.at.pc].imm).Some? && TakesArguments(prog[v.at.pc].imm, v.at.regs)
  {
    hide AfterCall, ReturnValue, FrameAfterCall, GetHelper, ArgError, TakesArguments;
    if GetHelper(prog[v.at.pc].imm).Some? {
      ArgumentsMean(prog[v.at.pc].imm, v.at.regs);
    }
  }

  /** What the helpers return: a lookup an unchecked pointer to 65536 bytes, a reservation one to the bytes asked for,
      each with the fresh identifier; the current task a kernel pointer; all others a number. */
  lemma ReturnedValues(regs: Regs, insn: BpfInsn, pc: nat, id: nat)
    requires GetHelper(insn.imm).Some?
    ensures var r := ReturnValue(GetHelper(insn.imm).value.ret, regs, pc, id);
            if insn.imm == 1 then r == AnyValue(PtrOrNull(MapValuePtr(id, 0, 65536, pc), Some(pc), id))
            else if insn.imm == 131 then
              r.kind.PtrOrNull? && r.kind.id == id && r.kind.inner.RingBufPtr? && r.kind.inner.id == id
              && r.kind.inner.offset == 0
              && r.kind.inner.size == if regs[2].tnum.IsKnown() then U(Low(regs[2].tnum.value)) else 65536
            else if insn.imm in {35, 158} then r == AnyValue(KernelPtr)
            else r == ScalarUnknown()
  {
    hide U, Low;
  }
}

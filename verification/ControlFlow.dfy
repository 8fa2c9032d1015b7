/** Program counters, branch targets and loop heads.

  Branch offsets count raw slots, and a wide load (RFC 9669, section 3.2) takes two of them, while the
  verifier numbers instructions consecutively. The two numberings are tied together here.
*/
module ControlFlow {
  import opened Wrappers
  import opened Words
  import opened Instructions

  type Program = seq<BpfInsn>

  function Slots(insn: BpfInsn): nat { if insn.opcode.LdImm64? then 2 else 1 }

  /** The raw slot at which instruction `i` starts. */
  function RawPc(prog: Program, i: nat): nat
    requires i <= |prog|
  {
    if i == 0 then 0 else RawPc(prog, i - 1) + Slots(prog[i - 1])
  }

  /** A branch at `pc` with this offset lands exactly on the first slot of instruction `t`. */
  predicate IsTarget(prog: Program, pc: nat, offset: int, t: nat)
    requires pc < |prog|
  {
    t < |prog| && RawPc(prog, t) == RawPc(prog, pc) + 1 + offset
  }

  ghost function Target(prog: Program, pc: nat, offset: int): (t: Option<nat>)
    requires pc < |prog|
    ensures t.Some? ==> IsTarget(prog, pc, offset, t.value)
    ensures t.None? ==> forall u :: !IsTarget(prog, pc, offset, u)
  {
    if exists t :: IsTarget(prog, pc, offset, t)
    then var t :| IsTarget(prog, pc, offset, t); Some(t)
    else None
  }

  lemma {:induction false} RawPcIncreases(prog: Program, i: nat, j: nat)
    requires i < j <= |prog|
    ensures RawPc(prog, i) + Slots(prog[i]) <= RawPc(prog, j)
    decreases j
  {
    if i + 1 < j {
      RawPcIncreases(prog, i, j - 1);
    }
  }

  lemma TargetUnique(prog: Program, pc: nat, offset: int, t: nat, u: nat)
    requires pc < |prog| && IsTarget(prog, pc, offset, t) && IsTarget(prog, pc, offset, u)
    ensures t == u
  {
    if t < u {
      RawPcIncreases(prog, t, u);
    } else if u < t {
      RawPcIncreases(prog, u, t);
    }
  }

  /** A jump over no slots goes to the next instruction. */
  lemma NextSlot(prog: Program, pc: nat, t: nat)
    requires pc < |prog| && !prog[pc].opcode.LdImm64? && IsTarget(prog, pc, 0, t)
    ensures t == pc + 1
  {
    if t <= pc {
      if t < pc {
        RawPcIncreases(prog, t, pc);
      }
    } else if pc + 1 < t {
      RawPcIncreases(prog, pc + 1, t);
    }
  }

  /** No branch reaches the second slot of a wide load: its offset does not resolve. */
  lemma SecondSlotIsNoTarget(prog: Program, pc: nat, offset: int, wide: nat)
    requires pc < |prog| && wide < |prog| && prog[wide].opcode.LdImm64?
    requires RawPc(prog, pc) + 1 + offset == RawPc(prog, wide) + 1
    ensures Target(prog, pc, offset).None?
  {
    forall t: nat
      ensures !IsTarget(prog, pc, offset, t)
    {
      if t < wide {
        RawPcIncreases(prog, t, wide);
      } else if wide < t < |prog| {
        RawPcIncreases(prog, wide, t);
      }
    }
  }

  // --- The tables the checker builds ---

  /** The two tables are right for the first `n` instructions. */
  predicate IsPcMapUpTo(prog: Program, n: nat, collapsedToRaw: seq<nat>, rawToCollapsed: map<nat, nat>)
    requires n <= |prog|
  {
    && |collapsedToRaw| == n
    && (forall i :: 0 <= i < n ==> collapsedToRaw[i] == RawPc(prog, i))
    && (forall raw :: raw in rawToCollapsed ==>
          rawToCollapsed[raw] < n && RawPc(prog, rawToCollapsed[raw]) == raw)
    && (forall i :: 0 <= i < n ==> RawPc(prog, i) in rawToCollapsed && rawToCollapsed[RawPc(prog, i)] == i)
  }

  predicate IsPcMap(prog: Program, collapsedToRaw: seq<nat>, rawToCollapsed: map<nat, nat>) {
    IsPcMapUpTo(prog, |prog|, collapsedToRaw, rawToCollapsed)
  }

  lemma ExtendPcMap(prog: Program, n: nat, collapsedToRaw: seq<nat>, rawToCollapsed: map<nat, nat>)
    requires n < |prog| && IsPcMapUpTo(prog, n, collapsedToRaw, rawToCollapsed)
    ensures IsPcMapUpTo(prog, n + 1, collapsedToRaw + [RawPc(prog, n)], rawToCollapsed[RawPc(prog, n) := n])
  {
    forall i | 0 <= i < n
      ensures RawPc(prog, i) < RawPc(prog, n)
    {
      RawPcIncreases(prog, i, n);
    }
  }

  method BuildPcMap(prog: Program) returns (collapsedToRaw: seq<nat>, rawToCollapsed: map<nat, nat>)
    ensures IsPcMap(prog, collapsedToRaw, rawToCollapsed)
  {
    collapsedToRaw, rawToCollapsed := [], map[];
    var rawPc := 0;
    for idx := 0 to |prog|
      invariant rawPc == RawPc(prog, idx)
      invariant IsPcMapUpTo(prog, idx, collapsedToRaw, rawToCollapsed)
    {
      ExtendPcMap(prog, idx, collapsedToRaw, rawToCollapsed);
      collapsedToRaw := collapsedToRaw + [rawPc];
      rawToCollapsed := rawToCollapsed[rawPc := idx];
      rawPc := rawPc + Slots(prog[idx]);
    }
  }

  method ResolveBranchTarget(prog: Program, pc: nat, offset: I16,
                             collapsedToRaw: seq<nat>, rawToCollapsed: map<nat, nat>) returns (t: Option<nat>)
    requires pc < |prog| && IsPcMap(prog, collapsedToRaw, rawToCollapsed)
    ensures t == Target(prog, pc, offset)
  {
    var rawTarget := collapsedToRaw[pc] + 1 + offset;
    if rawTarget < 0 || rawTarget !in rawToCollapsed {
      t := None;
      forall u: nat
        ensures !IsTarget(prog, pc, offset, u)
      {
        if u < |prog| {
          assert RawPc(prog, u) in rawToCollapsed;
        }
      }
    } else {
      t := Some(rawToCollapsed[rawTarget]);
      assert IsTarget(prog, pc, offset, t.value);
      TargetUnique(prog, pc, offset, t.value, Target(prog, pc, offset).value);
    }
  }

  // --- Control-flow edges and loop heads ---

  predicate IsJump(insn: BpfInsn) { insn.opcode.JmpJa? || insn.opcode.Jmp64? || insn.opcode.Jmp32? }

  predicate IsBranch(insn: BpfInsn) { insn.opcode.Jmp64? || insn.opcode.Jmp32? }

  /** Control can pass to the next instruction. */
  predicate FallsThrough(insn: BpfInsn) {
    !insn.opcode.Exit? && !insn.opcode.JmpJa? && !insn.opcode.Unknown?
  }

  predicate Edge(prog: Program, p: nat, q: nat) {
    p < |prog| &&
    ((FallsThrough(prog[p]) && q == p + 1) || (IsJump(prog[p]) && IsTarget(prog, p, prog[p].offset, q)))
  }

  /** The jump at `p` goes to `t`, at or before it. */
  predicate JumpsBack(prog: Program, p: nat, t: nat) {
    p < |prog| && t <= p && IsJump(prog[p]) && IsTarget(prog, p, prog[p].offset, t)
  }

  /** Instruction `t` is the target of a jump at or after it. */
  ghost predicate IsLoopHead(prog: Program, t: nat) {
    exists p: nat :: JumpsBack(prog, p, t)
  }

  lemma BackTarget(prog: Program, p: nat, t: nat)
    requires p < |prog|
    ensures JumpsBack(prog, p, t) <==> IsJump(prog[p]) && Target(prog, p, prog[p].offset) == Some(t) && t <= p
  {
    if IsTarget(prog, p, prog[p].offset, t) {
      TargetUnique(prog, p, prog[p].offset, t, Target(prog, p, prog[p].offset).value);
    }
  }

  method FindBackEdgeTargets(prog: Program, collapsedToRaw: seq<nat>, rawToCollapsed: map<nat, nat>)
    returns (targets: set<nat>)
    requires IsPcMap(prog, collapsedToRaw, rawToCollapsed)
    ensures forall t: nat :: t in targets <==> IsLoopHead(prog, t)
  {
    targets := {};
    for pc := 0 to |prog|
      invariant forall t: nat :: t in targets <==> exists p: nat :: p < pc && JumpsBack(prog, p, t)
    {
      forall t: nat
        ensures JumpsBack(prog, pc, t) <==>
                IsJump(prog[pc]) && Target(prog, pc, prog[pc].offset) == Some(t) && t <= pc
      {
        BackTarget(prog, pc, t);
      }
      if IsJump(prog[pc]) {
        var target := ResolveBranchTarget(prog, pc, prog[pc].offset, collapsedToRaw, rawToCollapsed);
        if target.Some? && target.value <= pc {
          targets := targets + {target.value};
        }
      }
    }
  }

  /** A path through the program: consecutive positions are joined by control-flow edges. */
  predicate IsPath(prog: Program, path: seq<nat>) {
    |path| > 0 && forall i :: 0 <= i < |path| - 1 ==> Edge(prog, path[i], path[i + 1])
  }

  lemma {:induction false} DescentOnPath(prog: Program, path: seq<nat>) returns (k: nat)
    requires IsPath(prog, path) && |path| >= 2 && path[|path| - 1] <= path[0]
    ensures k + 1 < |path| && path[k + 1] <= path[k]
    decreases |path|
  {
    if path[1] <= path[0] {
      k := 0;
    } else {
      var rest := path[1..];
      assert forall i :: 0 <= i < |rest| - 1 ==> Edge(prog, rest[i], rest[i + 1]) by {
        forall i | 0 <= i < |rest| - 1
          ensures Edge(prog, rest[i], rest[i + 1])
        {
          assert Edge(prog, path[i + 1], path[i + 1 + 1]);
        }
      }
      var k' := DescentOnPath(prog, rest);
      k := k' + 1;
    }
  }

  /** Every cycle goes through a loop head, so widening at loop heads cuts every cycle. */
  lemma CycleHasLoopHead(prog: Program, cycle: seq<nat>)
    requires IsPath(prog, cycle) && |cycle| >= 2 && cycle[0] == cycle[|cycle| - 1]
    ensures exists i :: 0 <= i < |cycle| && IsLoopHead(prog, cycle[i])
  {
    var k := DescentOnPath(prog, cycle);
    assert Edge(prog, cycle[k], cycle[k + 1]);
    assert JumpsBack(prog, cycle[k], cycle[k + 1]);
    assert IsLoopHead(prog, cycle[k + 1]);
  }

  // --- Leaving the program ---

  /** Some path from the first instruction ends at `t`. */
  ghost predicate Reaches(prog: Program, t: nat) {
    exists path :: IsPath(prog, path) && path[0] == 0 && path[|path| - 1] == t
  }

  lemma ExtendPath(prog: Program, path: seq<nat>, t: nat)
    requires IsPath(prog, path) && Edge(prog, path[|path| - 1], t)
    ensures IsPath(prog, path + [t])
  {
    var more := path + [t];
    forall i | 0 <= i < |more| - 1
      ensures Edge(prog, more[i], more[i + 1])
    {
      if i < |path| - 1 {
        assert Edge(prog, path[i], path[i + 1]);
      }
    }
  }

  lemma PrefixIsPath(prog: Program, path: seq<nat>)
    requires IsPath(prog, path) && |path| > 1
    ensures IsPath(prog, path[..|path| - 1]) && Edge(prog, path[|path| - 2], path[|path| - 1])
  {
    var init := path[..|path| - 1];
    forall i | 0 <= i < |init| - 1
      ensures Edge(prog, init[i], init[i + 1])
    {
      assert Edge(prog, path[i], path[i + 1]);
    }
    assert Edge(prog, path[|path| - 2], path[|path| - 2 + 1]);
  }

  /** Control leaves a program exactly by falling through its last instruction, when that can be reached. */
  lemma LeavingExact(prog: Program)
    requires prog != []
    ensures Reaches(prog, |prog|) <==> FallsThrough(prog[|prog| - 1]) && Reaches(prog, |prog| - 1)
  {
    hide Edge, FallsThrough;
    if Reaches(prog, |prog|) {
      var path: seq<nat> :| IsPath(prog, path) && path[0] == 0 && path[|path| - 1] == |prog|;
      PrefixIsPath(prog, path);
      LastEdge(prog, path[|path| - 2]);
      var init := path[..|path| - 1];
      assert init[0] == 0 && init[|init| - 1] == |prog| - 1;
    }
    if FallsThrough(prog[|prog| - 1]) && Reaches(prog, |prog| - 1) {
      var path: seq<nat> :| IsPath(prog, path) && path[0] == 0 && path[|path| - 1] == |prog| - 1;
      ExtendPath(prog, path, |prog|);
      assert (path + [|prog|])[0] == 0;
    }
  }

  lemma LastEdge(prog: Program, p: nat)
    requires Edge(prog, p, |prog|)
    ensures p == |prog| - 1 && FallsThrough(prog[p])
  {}

  /** No path leaves a program whose last instruction is an exit or an unconditional jump. */
  lemma {:induction false} StaysInside(prog: Program, path: seq<nat>)
    requires prog != [] && !FallsThrough(prog[|prog| - 1]) && IsPath(prog, path) && path[0] == 0
    ensures forall t :: t in path ==> t < |prog|
    decreases |path|
  {
    hide Edge, FallsThrough;
    if |path| == 1 {
      forall t | t in path
        ensures t < |prog|
      {
        assert t == path[0];
      }
    } else {
      var init, t := path[..|path| - 1], path[|path| - 1];
      PrefixIsPath(prog, path);
      StaysInside(prog, init);
      assert path == init + [t];
      EdgeStaysClose(prog, path[|path| - 2], t);
      LeavingExact(prog);
      assert Reaches(prog, t);
    }
  }

  lemma EdgeStaysClose(prog: Program, p: nat, q: nat)
    requires Edge(prog, p, q)
    ensures q <= |prog|
  {}
}

/** Cutting a program into basic blocks. */
module BasicBlocks {
  import opened Words
  import opened Instructions
  import opened ControlFlow

  datatype BasicBlock = BasicBlock(start: nat, end: nat)

  // --- What starts a block ---

  /** Instruction `i` makes `k` a leader: `k` is its jump target, or comes after it and it is conditional. */
  predicate MakesLeader(prog: Program, i: nat, k: int)
    requires i < |prog|
  {
    (IsJump(prog[i]) && k == i + 1 + prog[i].offset) || (IsBranch(prog[i]) && k == i + 1)
  }

  ghost predicate IsLeader(prog: Program, k: nat) {
    k == 0 || exists i: nat :: i < |prog| && MakesLeader(prog, i, k)
  }

  // --- What blocks are ---

  /** Non-empty blocks, one after the other, from 0 to `n`. */
  predicate Partitions(blocks: seq<BasicBlock>, n: nat) {
    && |blocks| > 0 && blocks[0].start == 0 && blocks[|blocks| - 1].end == n
    && (forall b :: 0 <= b < |blocks| ==> blocks[b].start < blocks[b].end)
    && (forall b :: 0 <= b < |blocks| - 1 ==> blocks[b].end == blocks[b + 1].start)
  }

  predicate StartsBlock(blocks: seq<BasicBlock>, k: nat) {
    exists b :: 0 <= b < |blocks| && blocks[b].start == k
  }

  // --- The algorithm ---

  method MarkLeaders(prog: Program) returns (leaders: array<bool>)
    requires prog != []
    ensures fresh(leaders) && leaders.Length == |prog|
    ensures forall k: nat :: k < |prog| ==> (leaders[k] <==> IsLeader(prog, k))
  {
    leaders := new bool[|prog|](_ => false);
    leaders[0] := true;
    for i := 0 to |prog|
      invariant forall k: nat :: k < |prog| ==>
                  (leaders[k] <==> k == 0 || exists j: nat :: j < i && MakesLeader(prog, j, k))
    {
      ghost var before := leaders[..];
      if IsJump(prog[i]) {
        var target := i + 1 + prog[i].offset;
        if 0 <= target < |prog| {
          leaders[target] := true;
        }
        if IsBranch(prog[i]) && i + 1 < |prog| {
          leaders[i + 1] := true;
        }
      }
      forall k: nat | k < |prog|
        ensures leaders[k] <==> before[k] || MakesLeader(prog, i, k)
      {
      }
    }
  }

  method FindBasicBlocks(prog: Program) returns (blocks: seq<BasicBlock>)
    ensures prog == [] ==> blocks == []
    ensures prog != [] ==> Partitions(blocks, |prog|)
    ensures prog != [] ==> forall k: nat :: k < |prog| ==> (StartsBlock(blocks, k) <==> IsLeader(prog, k))
  {
    hide IsLeader;
    if prog == [] {
      return [];
    }
    var leaders := MarkLeaders(prog);
    assert IsLeader(prog, 0) by { FirstIsLeader(prog); }
    blocks := [];
    var start := 0;
    for i := 1 to |prog|
      invariant start < i
      invariant forall k: nat :: k < |prog| ==> (leaders[k] <==> IsLeader(prog, k))
      invariant blocks == [] ==> start == 0
      invariant blocks != [] ==> Partitions(blocks, start)
      invariant forall k: nat :: k < i ==> (leaders[k] <==> k == start || StartsBlock(blocks, k))
    {
      if leaders[i] {
        AddBlock(blocks, start, i);
        blocks := blocks + [BasicBlock(start, i)];
        start := i;
      } else {
        StartsBelow(blocks, start, i);
      }
    }
    AddBlock(blocks, start, |prog|);
    ghost var before := blocks;
    blocks := blocks + [BasicBlock(start, |prog|)];
    forall k: nat | k < |prog|
      ensures StartsBlock(blocks, k) <==> IsLeader(prog, k)
    {
      assert leaders[k] <==> k == start || StartsBlock(before, k);
    }
  }

  lemma FirstIsLeader(prog: Program)
    ensures IsLeader(prog, 0)
  {}

  /** Starts in a partition lie below its end. */
  lemma StartsBelow(blocks: seq<BasicBlock>, end: nat, k: nat)
    requires blocks != [] ==> Partitions(blocks, end)
    requires end < k
    ensures !StartsBlock(blocks, k)
  {
    forall b | 0 <= b < |blocks|
      ensures blocks[b].start < k
    {
      EndsBelow(blocks, end, b);
    }
  }

  lemma {:induction false} EndsBelow(blocks: seq<BasicBlock>, end: nat, b: nat)
    requires Partitions(blocks, end) && b < |blocks|
    ensures blocks[b].end <= end
    decreases |blocks| - b
  {
    if b + 1 < |blocks| {
      EndsBelow(blocks, end, b + 1);
    }
  }

  lemma AddBlock(blocks: seq<BasicBlock>, start: nat, end: nat)
    requires start < end && (if blocks == [] then start == 0 else Partitions(blocks, start))
    ensures Partitions(blocks + [BasicBlock(start, end)], end)
    ensures forall k: nat :: StartsBlock(blocks + [BasicBlock(start, end)], k) <==> k == start || StartsBlock(blocks, k)
    ensures forall k: nat :: k > start ==> !StartsBlock(blocks, k)
  {
    var more := blocks + [BasicBlock(start, end)];
    forall k: nat
      ensures StartsBlock(more, k) <==> k == start || StartsBlock(blocks, k)
    {
      if StartsBlock(blocks, k) {
        var b :| 0 <= b < |blocks| && blocks[b].start == k;
        assert more[b].start == k;
      }
      if k == start {
        assert more[|blocks|].start == k;
      }
      if StartsBlock(more, k) {
        var b :| 0 <= b < |more| && more[b].start == k;
        assert b == |blocks| || blocks[b].start == k;
      }
    }
    forall k: nat | k > start
      ensures !StartsBlock(blocks, k)
    {
      StartsBelow(blocks, start, k);
    }
  }

  // --- Consequences ---

  /** No block starts inside another. */
  lemma {:induction false} NoStartInside(blocks: seq<BasicBlock>, n: nat, b: nat, c: nat)
    requires Partitions(blocks, n) && b < |blocks| && c < |blocks|
    ensures b < c ==> blocks[b].end <= blocks[c].start
    ensures c < b ==> blocks[c].end <= blocks[b].start
    decreases if b < c then c - b else b - c
  {
    if b + 1 < c {
      NoStartInside(blocks, n, b, c - 1);
    } else if c + 1 < b {
      NoStartInside(blocks, n, b - 1, c);
    }
  }

  /** Every instruction lies in exactly one block. */
  lemma {:induction false} BlockOf(blocks: seq<BasicBlock>, n: nat, k: nat) returns (b: nat)
    requires Partitions(blocks, n) && k < n
    ensures b < |blocks| && blocks[b].start <= k < blocks[b].end
    ensures forall c: nat :: c < |blocks| && blocks[c].start <= k < blocks[c].end ==> c == b
  {
    b := 0;
    while blocks[b].end <= k
      invariant b < |blocks| && blocks[b].start <= k
      decreases |blocks| - b
    {
      b := b + 1;
    }
    forall c: nat | c < |blocks| && blocks[c].start <= k < blocks[c].end
      ensures c == b
    {
      NoStartInside(blocks, n, b, c);
    }
  }

  /** Control leaves a block conditionally only at its end, and enters it only at its start. */
  lemma BlocksAreBasic(prog: Program, blocks: seq<BasicBlock>, b: nat, i: nat)
    requires Partitions(blocks, |prog|)
    requires forall k: nat :: k < |prog| ==> (StartsBlock(blocks, k) <==> IsLeader(prog, k))
    requires b < |blocks| && blocks[b].start <= i < blocks[b].end && i < |prog|
    ensures IsBranch(prog[i]) ==> i == blocks[b].end - 1
    ensures i > blocks[b].start ==> forall j: nat :: j < |prog| ==> !MakesLeader(prog, j, i)
  {
    EndsBelow(blocks, |prog|, b);
    if IsBranch(prog[i]) && i + 1 < blocks[b].end {
      assert MakesLeader(prog, i, i + 1);
      assert IsLeader(prog, i + 1);
      InsideIsNoStart(blocks, |prog|, b, i + 1);
    }
    if i > blocks[b].start {
      InsideIsNoStart(blocks, |prog|, b, i);
    }
  }

  lemma InsideIsNoStart(blocks: seq<BasicBlock>, n: nat, b: nat, k: nat)
    requires Partitions(blocks, n) && b < |blocks| && blocks[b].start < k < blocks[b].end
    ensures !StartsBlock(blocks, k)
  {
    forall c: nat | c < |blocks|
      ensures blocks[c].start != k
    {
      NoStartInside(blocks, n, b, c);
    }
  }

  // --- Wide instructions ---

  /** No wide load lies between the two instructions, the later one not counted. */
  predicate NoWideBetween(prog: Program, i: nat, k: nat)
    requires i < |prog| && k < |prog|
  {
    forall j :: Min(i, k) <= j < Max(i, k) ==> !prog[j].opcode.LdImm64?
  }

  /** Blocks are cut by instruction index, branches count raw slots: the two agree where there are no wide loads. */
  lemma {:induction false} RawDistance(prog: Program, i: nat, k: nat)
    requires i <= k <= |prog|
    ensures RawPc(prog, k) - RawPc(prog, i) >= k - i
    ensures RawPc(prog, k) - RawPc(prog, i) == k - i <==> forall j :: i <= j < k ==> !prog[j].opcode.LdImm64?
    decreases k
  {
    if i < k {
      RawDistance(prog, i, k - 1);
    }
  }

  /** The instruction where a jump makes the analyser cut is where the jump really goes, and the other way round,
      exactly when no wide load lies between. */
  lemma CutExact(prog: Program, i: nat, k: nat)
    requires i < |prog| && k < |prog|
    ensures k == i + 1 + prog[i].offset ==> (IsTarget(prog, i, prog[i].offset, k) <==> NoWideBetween(prog, i, k))
    ensures IsTarget(prog, i, prog[i].offset, k) ==> (k == i + 1 + prog[i].offset <==> NoWideBetween(prog, i, k))
  {
    if i <= k {
      RawDistance(prog, i, k);
    } else {
      RawDistance(prog, k, i);
    }
  }

  lemma LeadersAreTargets(prog: Program, i: nat, k: nat)
    requires i < |prog| && k < |prog| && NoWideBetween(prog, i, k)
    ensures MakesLeader(prog, i, k) <==>
              (IsJump(prog[i]) && IsTarget(prog, i, prog[i].offset, k)) || (IsBranch(prog[i]) && k == i + 1)
  {
    CutExact(prog, i, k);
  }

  /** Behind a wide load the cut is in the wrong place: the jump really goes one instruction earlier. */
  lemma WideLoadShifts(jump: BpfInsn, wide: BpfInsn, exit: BpfInsn)
    requires jump.opcode.JmpJa? && jump.offset == 2 && wide.opcode.LdImm64? && exit.opcode.Exit?
    ensures var prog := [jump, wide, exit, exit];
            IsTarget(prog, 0, 2, 2) && MakesLeader(prog, 0, 3) && !IsLeader(prog, 2)
  {
    var prog := [jump, wide, exit, exit];
    assert RawPc(prog, 1) == 1;
    assert RawPc(prog, 2) == 3;
  }
}

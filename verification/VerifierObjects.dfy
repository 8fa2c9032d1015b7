/** The mutable register file and stack frame the checker works on.

  Each object's `View` is the value it currently holds; every method says what that value becomes, in terms of
  the functions of `AbstractStates`. Copies kept for later (work items, explored states) are views.
*/
module VerifierObjects {
  import opened Wrappers
  import opened Words
  import opened Instructions
  import opened RegStates
  import opened AbstractStates

  class VerifierState {
    const regs: array<RegState>

    ghost predicate Valid() {
      regs.Length == 11
    }

    function View(): Regs
      requires Valid()
      reads regs
    {
      regs[..]
    }

    constructor Entry()
      ensures Valid() && fresh(regs) && View() == EntryRegs()
    {
      var a := new RegState[11](_ => UninitReg());
      a[1] := AnyValue(CtxPtr(0));
      a[10] := AnyValue(FramePtr(0));
      regs := a;
    }

    constructor Copy(view: Regs)
      ensures Valid() && fresh(regs) && View() == view
    {
      regs := new RegState[11](i requires 0 <= i < 11 => view[i]);
    }

    method Load(view: Regs)
      requires Valid()
      modifies regs
      ensures View() == view
    {
      forall i | 0 <= i < 11 {
        regs[i] := view[i];
      }
    }

    method Set(r: RegId, value: RegState)
      requires Valid()
      modifies regs
      ensures View() == old(View())[r := value]
    {
      regs[r] := value;
    }

    /** `refine_all_with_id`: every register sharing the allocation learns what it is. */
    method RefineAllWithId(id: nat, learned: RegType)
      requires Valid()
      modifies regs
      ensures View() == ResolveRegs(old(View()), id, learned)
    {
      for i := 0 to 11
        invariant forall k :: 0 <= k < i ==> regs[k] == Resolve(old(View())[k], id, learned)
        invariant forall k :: i <= k < 11 ==> regs[k] == old(View())[k]
      {
        if regs[i].kind.PtrOrNull? && regs[i].kind.id == id {
          regs[i] := if learned.Null? then NullReg() else regs[i].(kind := learned);
        }
      }
    }

    /** A call clobbers r1 to r5. */
    method ClobberCallerSaved()
      requires Valid()
      modifies regs
      ensures forall i :: 0 <= i < 11 ==>
                View()[i] == if 1 <= i <= 5 then UninitReg() else old(View())[i]
    {
      for r := 1 to 6
        invariant forall k :: 1 <= k < r ==> regs[k] == UninitReg()
        invariant regs[0] == old(View())[0] && forall k :: r <= k < 11 ==> regs[k] == old(View())[k]
      {
        regs[r] := UninitReg();
      }
    }
  }

  class StackState {
    const init: array<bool>
    var spills: map<I64, RegState>

    ghost predicate Valid() {
      init.Length == 512
    }

    function View(): Frame
      requires Valid()
      reads this, init
    {
      Frame(init[..], spills)
    }

    constructor ()
      ensures Valid() && fresh(init) && View() == EmptyFrame()
    {
      init := new bool[512](_ => false);
      spills := map[];
    }

    constructor Copy(view: Frame)
      ensures Valid() && fresh(init) && View() == view
    {
      init := new bool[512](i requires 0 <= i < 512 => view.init[i]);
      spills := view.spills;
    }

    method Load(view: Frame)
      requires Valid()
      modifies this, init
      ensures View() == view
    {
      forall i | 0 <= i < 512 {
        init[i] := view.init[i];
      }
      spills := view.spills;
    }

    /** `mark_written`: the bytes of a store become initialised; bytes outside the frame are skipped. */
    method MarkWritten(offset: I64, width: nat)
      requires Valid()
      modifies init
      ensures View() == AbstractStates.MarkWritten(old(View()), offset, width)
    {
      for k := 0 to width
        invariant forall i :: 0 <= i < 512 ==> init[i] == (old(View()).init[i] || Touches(offset, k, i))
      {
        var idx := ByteIndex(offset, k);
        forall i | 0 <= i < 512
          ensures Touches(offset, k + 1, i) <==> Touches(offset, k, i) || idx == Some(i)
        {
          TouchesNext(offset, k, i);
        }
        if idx.Some? {
          init[idx.value] := true;
        }
      }
    }

    method CheckReadable(offset: I64, width: nat) returns (readable: bool)
      requires Valid()
      ensures readable == AbstractStates.CheckReadable(View(), offset, width)
    {
      readable := true;
      for k := 0 to width
        invariant readable
        invariant forall j: nat :: j < k ==> ByteIndex(offset, j).Some? && init[ByteIndex(offset, j).value]
      {
        var idx := ByteIndex(offset, k);
        if idx.None? || !init[idx.value] {
          readable := false;
          return;
        }
      }
    }

    method Spill(offset: I64, reg: RegState)
      requires Valid()
      modifies this, init
      ensures View() == AbstractStates.Spill(old(View()), offset, reg)
    {
      MarkWritten(offset, 8);
      spills := spills[offset := reg];
    }

    method ClearSpill(offset: I64)
      requires Valid()
      modifies this
      ensures View() == AbstractStates.ClearSpill(old(View()), offset)
    {
      spills := spills - {offset};
    }

    /** `refine_spills_with_id`: every spilled copy of the allocation learns what it is. */
    method RefineSpillsWithId(id: nat, learned: RegType)
      requires Valid()
      modifies this
      ensures View() == ResolveSpills(old(View()), id, learned)
    {
      hide ResolvedBut, Resolve, NullReg;
      ghost var before := View();
      var left := spills.Keys;
      NoneResolved(before, id, learned);
      while left != {}
        invariant left <= before.spills.Keys && init[..] == before.init
        invariant spills == ResolvedBut(before, left, id, learned)
        decreases |left|
      {
        var off :| off in left;
        ResolveOne(before, left, off, id, learned);
        ResolveCases(spills[off], id, learned);
        if spills[off].kind.PtrOrNull? && spills[off].kind.id == id {
          spills := spills[off := if learned.Null? then NullReg() else spills[off].(kind := learned)];
        } else {
          assert spills[off := spills[off]] == spills;
        }
        left := left - {off};
      }
      AllResolved(before, id, learned);
    }
  }

  lemma NoneResolved(frame: Frame, id: nat, learned: RegType)
    ensures ResolvedBut(frame, frame.spills.Keys, id, learned) == frame.spills
  {
    hide Resolve;
  }

  lemma AllResolved(frame: Frame, id: nat, learned: RegType)
    ensures frame.(spills := ResolvedBut(frame, {}, id, learned)) == ResolveSpills(frame, id, learned)
  {
    hide Resolve;
  }

  lemma ResolveCases(r: RegState, id: nat, learned: RegType)
    ensures Resolve(r, id, learned) ==
              if r.kind.PtrOrNull? && r.kind.id == id
              then if learned.Null? then NullReg() else r.(kind := learned)
              else r
  {}

  /** The spills with those outside `left` resolved. */
  ghost function ResolvedBut(frame: Frame, left: set<I64>, id: nat, learned: RegType): map<I64, RegState> {
    map off | off in frame.spills :: if off in left then frame.spills[off] else Resolve(frame.spills[off], id, learned)
  }

  lemma ResolveOne(frame: Frame, left: set<I64>, off: I64, id: nat, learned: RegType)
    requires off in left && left <= frame.spills.Keys
    ensures var spills := ResolvedBut(frame, left, id, learned);
            && off in spills && spills[off] == frame.spills[off]
            && spills[off := Resolve(frame.spills[off], id, learned)] == ResolvedBut(frame, left - {off}, id, learned)
  {
    hide Resolve;
  }

  lemma TouchesNext(offset: I64, k: nat, i: nat)
    ensures Touches(offset, k + 1, i) <==> Touches(offset, k, i) || ByteIndex(offset, k) == Some(i)
  {
    if Touches(offset, k + 1, i) {
      var j: nat :| j < k + 1 && ByteIndex(offset, j) == Some(i);
      assert j == k || Touches(offset, k, i);
    }
  }

  // --- Comparing and widening frames ---

  method StackIsSubstate(a: Frame, b: Frame) returns (within: bool)
    ensures within == FrameWithin(a, b)
  {
    for i := 0 to 512
      invariant forall k :: 0 <= k < i ==> b.init[k] ==> a.init[k]
    {
      if b.init[i] && !a.init[i] {
        return false;
      }
    }
    return true;
  }

  /** The spill that widening leaves at an offset where `a` has one. */
  function WidenedSpill(a: Frame, b: Frame, off: I64): RegState
    requires off in a.spills
  {
    if off in b.spills then a.spills[off].Widen(b.spills[off]) else a.spills[off]
  }

  /** The widened spills outside `left`. */
  ghost function WidenedBut(a: Frame, b: Frame, left: set<I64>): map<I64, RegState> {
    map off | off in a.spills && off !in left :: WidenedSpill(a, b, off)
  }

  lemma WidenOne(a: Frame, b: Frame, left: set<I64>, off: I64)
    requires off in left && left <= a.spills.Keys
    ensures WidenedBut(a, b, left)[off := WidenedSpill(a, b, off)] == WidenedBut(a, b, left - {off})
  {
    hide WidenedSpill;
  }

  method WidenStack(a: Frame, b: Frame) returns (widened: Frame)
    ensures widened == WidenFrame(a, b)
  {
    hide RegState.Widen, WidenedBut;
    var init := new bool[512](_ => false);
    for i := 0 to 512
      invariant forall k :: 0 <= k < i ==> init[k] == (a.init[k] && b.init[k])
    {
      init[i] := a.init[i] && b.init[i];
    }
    var spills := WidenSpills(a, b);
    widened := Frame(init[..], spills);
  }

  method WidenSpills(a: Frame, b: Frame) returns (spills: map<I64, RegState>)
    ensures spills == WidenFrame(a, b).spills
  {
    hide RegState.Widen, WidenedSpill;
    spills := map[];
    var left := a.spills.Keys;
    while left != {}
      invariant left <= a.spills.Keys && spills == WidenedBut(a, b, left)
      decreases |left|
    {
      var off :| off in left;
      WidenOne(a, b, left, off);
      spills := spills[off := WidenedSpill(a, b, off)];
      left := left - {off};
    }
    AllWidened(a, b);
  }

  lemma AllWidened(a: Frame, b: Frame)
    ensures WidenedBut(a, b, {}) == WidenFrame(a, b).spills
  {
    hide RegState.Widen;
  }
}

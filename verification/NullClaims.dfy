/** What an abstract state says about null results, and when pruning and widening keep it. */
module NullClaims {
  import opened Wrappers
  import opened Words
  import opened Addresses
  import opened Tnums
  import opened Instructions
  import opened HelperTable
  import opened RegStates
  import opened AbstractStates
  import opened Transfer
  import opened Certificates
  import opened Machine
  import opened NullRuns

  // --- Claims ---

  /** A pointer that the checker once knew to be valid; what it loads from kernel memory it never checks. */
  predicate IsKnownPtr(kind: RegType) { kind.IsPtr() && !kind.KernelPtr? }

  predicate MayTrack(kind: RegType) { IsKnownPtr(kind) || kind.PtrOrNull? }

  /** What a type says about a value; `calls` maps identifiers to calls. */
  predicate Claim(kind: RegType, bits: bv64, origin: Origin, results: seq<bv64>, frame: bv64, calls: map<nat, nat>) {
    if kind.PtrOrNull? then
      && kind.id in calls && origin == Result(calls[kind.id])
      && calls[kind.id] < |results| && bits == results[calls[kind.id]]
    else if kind.FramePtr? then origin.TheFrame? && bits == AddressAt(frame, kind.offset)
    else IsKnownPtr(kind) ==> !origin.TheFrame? && NotNull(origin, results)
  }

  predicate RegsTrack(regs: Regs, s: Tagged, calls: map<nat, nat>) {
    forall r: RegId :: Claim(regs[r].kind, s.at.regs[r], s.from[r], s.results, s.frame, calls)
  }

  /** The type says something about the bits, not only about where they come from. */
  predicate ClaimsBits(kind: RegType) { kind.PtrOrNull? || kind.FramePtr? }

  predicate SlotTracks(kind: RegType, off: int, s: Tagged, calls: map<nat, nat>) {
    if off in s.slots then Claim(kind, s.slots[off].bits, s.slots[off].origin, s.results, s.frame, calls)
    else !MayTrack(kind)
  }

  predicate FrameTracks(frame: Frame, s: Tagged, calls: map<nat, nat>) {
    forall off :: off in frame.spills && InFrame(off, 8) ==> SlotTracks(frame.spills[off].kind, off, s, calls)
  }

  predicate Tracks(c: Config, s: Tagged, calls: map<nat, nat>) {
    RegsTrack(c.regs, s, calls) && FrameTracks(c.frame, s, calls)
  }

  // --- When one state's claims follow from another's ---

  /** Whatever type `w` claims of a value, type `c` claims too. */
  predicate Carries(w: RegType, c: RegType) {
    if w.PtrOrNull? then c.PtrOrNull? && c.id == w.id
    else if w.FramePtr? then c == w
    else IsKnownPtr(w) ==> IsKnownPtr(c) && !c.FramePtr?
  }

  predicate RegsCarry(w: Regs, c: Regs) {
    forall r: RegId :: Carries(w[r].kind, c[r].kind)
  }

  /** Wherever `w` has such a pointer spilled, `c` has one of the same type. */
  predicate SpillsCarry(w: Frame, c: Frame) {
    forall off :: off in w.spills && InFrame(off, 8) && MayTrack(w.spills[off].kind) ==>
      off in c.spills && Carries(w.spills[off].kind, c.spills[off].kind)
  }

  predicate KeepsClaims(w: Config, c: Config) {
    RegsCarry(w.regs, c.regs) && SpillsCarry(w.frame, c.frame)
  }

  lemma CarriedClaim(w: RegType, c: RegType, bits: bv64, origin: Origin, results: seq<bv64>, frame: bv64,
          calls: map<nat, nat>)
    requires Carries(w, c) && Claim(c, bits, origin, results, frame, calls)
    ensures Claim(w, bits, origin, results, frame, calls)
  {
    hide AddressAt;
  }

  lemma CarriedTracks(w: Config, c: Config, s: Tagged, calls: map<nat, nat>)
    requires KeepsClaims(w, c) && Tracks(c, s, calls)
    ensures Tracks(w, s, calls)
  {
    hide Claim, Carries;
    forall r: RegId
      ensures Claim(w.regs[r].kind, s.at.regs[r], s.from[r], s.results, s.frame, calls)
    {
      CarriedClaim(w.regs[r].kind, c.regs[r].kind, s.at.regs[r], s.from[r], s.results, s.frame, calls);
    }
    forall off | off in w.frame.spills && InFrame(off, 8)
      ensures SlotTracks(w.frame.spills[off].kind, off, s, calls)
    {
      var kind := w.frame.spills[off].kind;
      if MayTrack(kind) {
        assert off in c.frame.spills && InFrame(off, 8);
        CarriedSlot(kind, c.frame.spills[off].kind, off, s, calls);
      } else {
        UntrackedClaims(kind, off, s, calls);
      }
    }
  }

  lemma CarriedSlot(w: RegType, c: RegType, off: int, s: Tagged, calls: map<nat, nat>)
    requires Carries(w, c) && SlotTracks(c, off, s, calls)
    ensures SlotTracks(w, off, s, calls)
  {
    hide AddressAt;
  }

  lemma UntrackedClaims(kind: RegType, off: int, s: Tagged, calls: map<nat, nat>)
    requires !MayTrack(kind)
    ensures SlotTracks(kind, off, s, calls)
  {}

  /** Every identifier in the state lies below the bound. */
  predicate IdsBelow(c: Config, bound: nat) {
    && (forall r: RegId :: c.regs[r].kind.PtrOrNull? ==> c.regs[r].kind.id < bound)
    && (forall off :: off in c.frame.spills && c.frame.spills[off].kind.PtrOrNull? ==>
          c.frame.spills[off].kind.id < bound)
  }

  ghost predicate ClaimsFollow(w: Config, c: Config) {
    forall s: Tagged, calls: map<nat, nat> :: Tracks(c, s, calls) ==> Tracks(w, s, calls)
  }

  // --- A state in which every call has failed ---

  /** An unresolved pointer derives from the call with its identifier; what is no known pointer, from one call more. */
  function WorstOrigin(kind: RegType, bound: nat): Origin {
    if kind.PtrOrNull? then Result(kind.id)
    else if kind.FramePtr? then TheFrame
    else if IsKnownPtr(kind) then Nowhere
    else Result(bound)
  }

  function WorstBits(kind: RegType): bv64 { if kind.FramePtr? then AddressAt(0, kind.offset) else 0 }

  /** What lies at the offset; a scalar if nothing is spilled there. */
  function SpilledKind(frame: Frame, off: int): RegType {
    if off in frame.spills then frame.spills[off].kind else Scalar
  }

  function WorstState(c: Config, offs: set<int>, bound: nat): Tagged {
    Tagged(State(c.pc, seq(11, i requires 0 <= i < 11 => WorstBits(c.regs[i].kind))),
           seq(11, i requires 0 <= i < 11 => WorstOrigin(c.regs[i].kind, bound)), seq(bound + 1, _ => 0), 0,
           map off | off in offs ::
             Slot(WorstBits(SpilledKind(c.frame, off)), WorstOrigin(SpilledKind(c.frame, off), bound)))
  }

  function Identity(bound: nat): (m: map<nat, nat>)
    ensures forall i: nat :: (i in m <==> i < bound) && (i in m ==> m[i] == i)
  {
    if bound == 0 then map[] else Identity(bound - 1)[bound - 1 := bound - 1]
  }

  predicate WorstClaim(w: RegType, c: RegType, bound: nat) {
    Claim(w, WorstBits(c), WorstOrigin(c, bound), seq(bound + 1, _ => 0), 0, Identity(bound))
  }

  lemma WorstClaims(kind: RegType, bound: nat)
    requires kind.PtrOrNull? ==> kind.id < bound
    ensures WorstClaim(kind, kind, bound)
  {
    hide AddressAt;
  }

  lemma WorstTracks(c: Config, offs: set<int>, bound: nat)
    requires IdsBelow(c, bound) && forall off :: off in c.frame.spills ==> off in offs
    ensures Tracks(c, WorstState(c, offs, bound), Identity(bound))
  {
    hide Claim, WorstOrigin, WorstBits, Identity;
    var s := WorstState(c, offs, bound);
    forall r: RegId
      ensures Claim(c.regs[r].kind, s.at.regs[r], s.from[r], s.results, s.frame, Identity(bound))
    {
      WorstClaims(c.regs[r].kind, bound);
    }
    forall off | off in c.frame.spills && InFrame(off, 8)
      ensures SlotTracks(c.frame.spills[off].kind, off, s, Identity(bound))
    {
      WorstClaims(c.frame.spills[off].kind, bound);
    }
  }

  /** In the worst state a claim holds only if it is carried. */
  lemma WorstNeeds(w: RegType, c: RegType, bound: nat)
    requires (c.PtrOrNull? ==> c.id < bound) && (w.PtrOrNull? ==> w.id < bound)
    requires WorstClaim(w, c, bound)
    ensures Carries(w, c)
  {
    hide AddressAt;
    if w.FramePtr? && c.FramePtr? {
      AddressesDiffer(0, w.offset, c.offset);
    }
  }

  /** The claims of one state follow from those of another exactly when its pointer types are carried: in the registers,
      and in the frame, which pruning does not compare. */
  lemma KeepsClaimsExact(w: Config, c: Config, bound: nat)
    requires IdsBelow(w, bound) && IdsBelow(c, bound)
    ensures ClaimsFollow(w, c) <==> KeepsClaims(w, c)
  {
    hide Claim, Carries, WorstOrigin, WorstBits, Identity, MayTrack;
    if KeepsClaims(w, c) {
      forall s: Tagged, calls: map<nat, nat> | Tracks(c, s, calls)
        ensures Tracks(w, s, calls)
      {
        hide Tracks, KeepsClaims;
        CarriedTracks(w, c, s, calls);
      }
    }
    if ClaimsFollow(w, c) {
      var s := WorstState(c, w.frame.spills.Keys + c.frame.spills.Keys, bound);
      WorstTracks(c, w.frame.spills.Keys + c.frame.spills.Keys, bound);
      assert Tracks(w, s, Identity(bound));
      forall r: RegId
        ensures Carries(w.regs[r].kind, c.regs[r].kind)
      {
        WorstNeeds(w.regs[r].kind, c.regs[r].kind, bound);
      }
      forall off | off in w.frame.spills && InFrame(off, 8) && MayTrack(w.frame.spills[off].kind)
        ensures off in c.frame.spills && Carries(w.frame.spills[off].kind, c.frame.spills[off].kind)
      {
        assert SlotTracks(w.frame.spills[off].kind, off, s, Identity(bound));
        WorstNeeds(w.frame.spills[off].kind, SpilledKind(c.frame, off), bound);
        NothingFromScalar(w.frame.spills[off].kind);
      }
    }
  }

  lemma NothingFromScalar(w: RegType)
    requires MayTrack(w)
    ensures !Carries(w, Scalar)
  {}

  // --- Pruning and widening ---

  /** Pruning compares the register types, so only the spills can lose a claim. */
  lemma PruningKeeps(w: Config, c: Config)
    requires Subsumes(w, c)
    ensures KeepsClaims(w, c) <==> SpillsCarry(w.frame, c.frame)
  {
    hide FrameWithin, RegState.BoundsWithin, SpillsCarry;
    forall r: RegId
      ensures Carries(w.regs[r].kind, c.regs[r].kind)
    {
      assert c.regs[r].IsSubstateOf(w.regs[r]);
    }
  }

  /** What widening `prev` by an arriving type keeps of its claims. */
  predicate Meets(prev: RegType, c: RegType) { MayTrack(prev) ==> Carries(prev, c) || c.Uninit? }

  /** Widening keeps the types of the stored state, so the arriving state must carry them or be unset there. */
  lemma WideningKeeps(prev: Config, c: Config, w: Config)
    requires WidensTo(prev, c, w)
    ensures KeepsClaims(w, c) <==>
              && (forall r: RegId :: Meets(prev.regs[r].kind, c.regs[r].kind))
              && (forall off :: off in prev.frame.spills && InFrame(off, 8) && MayTrack(prev.frame.spills[off].kind) ==>
                    off in c.frame.spills && Meets(prev.frame.spills[off].kind, c.frame.spills[off].kind))
  {
    hide RegState.Widen;
    forall r: RegId
      ensures Carries(w.regs[r].kind, c.regs[r].kind) <==> Meets(prev.regs[r].kind, c.regs[r].kind)
    {
      WidenedCarries(prev.regs[r], c.regs[r]);
    }
    forall off | off in prev.frame.spills && InFrame(off, 8) && off in c.frame.spills
      ensures off in w.frame.spills
      ensures var k, k' := w.frame.spills[off].kind, c.frame.spills[off].kind;
              (MayTrack(k) ==> Carries(k, k')) <==> Meets(prev.frame.spills[off].kind, k')
    {
      WidenedCarries(prev.frame.spills[off], c.frame.spills[off]);
    }
  }

  lemma WidenedCarries(a: RegState, b: RegState)
    ensures var w := a.Widen(b);
            && (Carries(w.kind, b.kind) <==> Meets(a.kind, b.kind))
            && ((MayTrack(w.kind) ==> Carries(w.kind, b.kind)) <==> Meets(a.kind, b.kind))
            && (w.kind == a.kind || w.kind.Uninit?)
  {
    hide U, B, Or;
  }
}

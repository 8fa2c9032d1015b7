/** Every operation keeps tracked numbers well-formed: no bit is both known to be one and unknown. */
module TnumWellFormed {
  import opened Words
  import opened Tnums
  import opened TnumProofs
  import opened Instructions
  import opened RegStates
  import opened Transfer

  lemma AndDisjoint(av: bv64, am: bv64, bv: bv64, bm: bv64)
    ensures Disjoint(And(av, bv), AndMask(av, am, bv, bm))
  {}

  lemma OrDisjoint(av: bv64, am: bv64, bv: bv64, bm: bv64)
    ensures Disjoint(Or(av, bv), OrMask(av, am, bv, bm))
  {}

  lemma JoinDisjoint(av: bv64, am: bv64, bv: bv64, bm: bv64)
    requires Disjoint(av, am) && Disjoint(bv, bm)
    ensures Disjoint(And(av, bv), JoinMask(av, am, bv, bm))
  {}

  lemma LowDisjoint(v: bv64, m: bv64)
    requires Disjoint(v, m)
    ensures Disjoint(Low(v), Low(m))
  {}

  lemma ConstantDisjoint(v: bv64)
    ensures Disjoint(v, 0) && Disjoint(0, v)
  {}

  lemma ClearDisjoint(v: bv64, m: bv64, bits: bv64)
    requires Disjoint(v, m)
    ensures Disjoint(AndNot(v, bits), AndNot(m, bits)) && Disjoint(Or(v, bits), AndNot(m, bits))
  {}

  lemma ReplaceDisjoint(v: bv64, m: bv64, low: bv64)
    requires Disjoint(v, m)
    ensures Disjoint(Or(AndNot(v, 0xFFFF_FFFF), Low(low)), AndNot(m, 0xFFFF_FFFF))
  {}

  lemma ShlStep(v: bv64, m: bv64)
    requires Disjoint(v, m)
    ensures Disjoint(v << 1, m << 1)
  {}

  lemma {:induction false} ShlDisjoint(v: bv64, m: bv64, k: nat)
    requires Disjoint(v, m)
    ensures Disjoint(Shl(v, k), Shl(m, k))
    decreases k
  {
    hide Disjoint;
    if k > 0 {
      ShlStep(v, m);
      ShlDisjoint(v << 1, m << 1, k - 1);
    }
  }

  lemma ShrStep(v: bv64, m: bv64)
    requires Disjoint(v, m)
    ensures Disjoint(v >> 1, m >> 1)
  {}

  lemma {:induction false} ShrDisjoint(v: bv64, m: bv64, k: nat)
    requires Disjoint(v, m)
    ensures Disjoint(Shr(v, k), Shr(m, k))
    decreases k
  {
    hide Disjoint;
    if k > 0 {
      ShrStep(v, m);
      ShrDisjoint(v >> 1, m >> 1, k - 1);
    }
  }

  lemma BitwiseWf(op: AluOp, d: Tnum, s: Tnum)
    requires op in {AND, OR, XOR}
    ensures ScalarTnum(op, d, s).WellFormed()
  {
    hide Disjoint, And, Or, Xor, AndNot, AndMask, OrMask;
    AndDisjoint(d.value, d.mask, s.value, s.mask);
    OrDisjoint(d.value, d.mask, s.value, s.mask);
    KeptIsWellFormed(Xor(d.value, s.value), Or(d.mask, s.mask));
  }

  lemma ShiftWf(op: AluOp, d: Tnum, s: Tnum)
    requires op in {LSH, RSH} && d.WellFormed()
    ensures ScalarTnum(op, d, s).WellFormed()
  {
    hide Disjoint, U, Shl, Shr, Low;
    ConstantDisjoint(0);
    ConstantDisjoint(0xFFFF_FFFF_FFFF_FFFF);
    ShlDisjoint(d.value, d.mask, U(Low(s.value)));
    ShrDisjoint(d.value, d.mask, U(Low(s.value)));
  }

  lemma ConstantWf(op: AluOp, d: Tnum, s: Tnum)
    requires op in {ARSH, MUL, DIV, MOD}
    ensures ScalarTnum(op, d, s).WellFormed()
  {
    hide Disjoint, U, Sar, Times, Quotient, Remainder;
    ConstantDisjoint(ScalarTnum(op, d, s).value);
    ConstantDisjoint(0xFFFF_FFFF_FFFF_FFFF);
  }

  lemma ScalarTnumWf(op: AluOp, d: Tnum, s: Tnum)
    requires op != MOV && op != NEG && d.WellFormed()
    ensures ScalarTnum(op, d, s).WellFormed()
  {
    hide Disjoint, Tnum.Add, Tnum.Sub;
    if op == ADD || op == SUB {
      AddWellFormed(d, s);
    } else {
      hide ScalarTnum;
      if op in {AND, OR, XOR} {
        BitwiseWf(op, d, s);
      } else if op in {LSH, RSH} {
        ShiftWf(op, d, s);
      } else {
        ConstantWf(op, d, s);
      }
    }
  }

  lemma RefinedWf(r: RegState)
    requires r.tnum.WellFormed()
    ensures r.Refined().tnum.WellFormed() && r.Refined().kind == r.kind
  {
    hide Disjoint, U, B, Or;
    ConstantDisjoint(r.Refined().tnum.value);
  }
}

/**
 * What the binary solver's answers mean for the circuit.
 *
 * An assignment v of field values to witnesses is consistent with the
 * fact stores when every boolean witness is 0 or 1, every Invert pair
 * (x, r) has r = 1/x when x is not zero and r = 0 otherwise, and every
 * bounded witness is at most its bound. The lemmas below show that,
 * against any such assignment satisfying a gate, the values the solver
 * forces and the failures it reports are justified, and that a bound it
 * learns is respected; and they show one failure that is not justified.
 */
module BinarySoundness {
  import opened Wrappers
  import opened Field
  import opened Acir
  import opened Binary

  /** The meaning of an Invert directive: r = 1/x when x is not zero, else 0. */
  predicate InverseRelated(x: Field, r: Field)
  {
    (x == 0 ==> r == 0) && (x != 0 ==> Mul(x, r) == 1)
  }

  ghost predicate Consistent(s: BinarySolver, v: Witness -> Field)
    reads s
  {
    && (forall w :: w in s.binaryWitness ==> v(w) <= 1)
    && (forall x :: x in s.invertWitness ==> InverseRelated(v(x), v(s.invertWitness[x])))
    && (forall w :: w in s.positiveWitness ==> v(w) <= s.positiveWitness[w])
  }

  lemma MulMonotone(c: nat, x: nat, m: nat)
    requires x <= m
    ensures c * x <= c * m
  {
    assert c * m == c * x + c * (m - x);
  }

  /** A product over a boolean pair or an inverse pair is 0 or 1. */
  lemma ProductAtMostOne(s: BinarySolver, v: Witness -> Field, a: Witness, b: Witness)
    requires Consistent(s, v)
    requires s.AreBoolean(a, b)
    ensures Mul(v(a), v(b)) <= 1
  {
    if a in s.invertWitness && s.invertWitness[a] == b {
      assert InverseRelated(v(a), v(b));
      if v(a) == 0 { assert v(a) * v(b) == 0; }
    } else if b in s.invertWitness && s.invertWitness[b] == a {
      assert InverseRelated(v(b), v(a));
      assert v(a) * v(b) == v(b) * v(a);
      if v(b) == 0 { assert v(a) * v(b) == 0; }
    } else {
      assert v(a) <= 1 && v(b) <= 1;
      if v(a) == 0 { assert v(a) * v(b) == 0; } else { assert v(a) * v(b) == v(b); }
    }
  }

  /** A witness never exceeds the maximum value the solver reports for it. */
  lemma MaxValueHolds(s: BinarySolver, v: Witness -> Field, w: Witness)
    requires Consistent(s, v)
    requires s.GetMaxValue(w).Some?
    ensures v(w) <= s.GetMaxValue(w).value
  {
  }

  /** The products of a boolean-only expression add up to at most MulBound. */
  lemma {:induction false} MulSumBounded(s: BinarySolver, v: Witness -> Field, mul: seq<MulTerm>)
    requires Consistent(s, v)
    requires s.AllBoolean(mul)
    ensures MulSum(mul, v) <= MulBound(mul)
  {
    if mul != [] {
      var init, t := mul[..|mul| - 1], mul[|mul| - 1];
      assert s.AllBoolean(init) by {
        forall k | 0 <= k < |init| ensures s.AreBoolean(init[k].w1, init[k].w2) {
          assert init[k] == mul[k];
        }
      }
      MulSumBounded(s, v, init);
      ProductAtMostOne(s, v, t.w1, t.w2);
      MulMonotone(t.coef, Mul(v(t.w1), v(t.w2)), 1);
    }
  }

  /** The linear terms of a fully bounded expression add up to at most KnownBound. */
  lemma {:induction false} LinSumBounded(s: BinarySolver, v: Witness -> Field, lin: seq<LinearTerm>)
    requires Consistent(s, v)
    requires s.AllBounded(lin)
    ensures LinSum(lin, v) <= s.KnownBound(lin)
  {
    if lin != [] {
      var init, t := lin[..|lin| - 1], lin[|lin| - 1];
      assert s.AllBounded(init) by {
        forall k | 0 <= k < |init| ensures s.GetMaxValue(init[k].w).Some? {
          assert init[k] == lin[k];
        }
      }
      LinSumBounded(s, v, init);
      MaxValueHolds(s, v, t.w);
      MulMonotone(t.coef, v(t.w), s.GetMaxValue(t.w).value);
    }
  }

  /** Linear terms adding up to zero are each zero. */
  lemma {:induction false} LinSumZero(lin: seq<LinearTerm>, v: Witness -> Field)
    requires LinSum(lin, v) == 0
    ensures forall j :: 0 <= j < |lin| && lin[j].coef != 0 ==> v(lin[j].w) == 0
  {
    if lin != [] {
      var init, t := lin[..|lin| - 1], lin[|lin| - 1];
      LinSumZero(init, v);
      if t.coef != 0 && v(t.w) != 0 {
        MulMonotone(t.coef, 1, v(t.w));
      }
      forall j | 0 <= j < |lin| && lin[j].coef != 0 ensures v(lin[j].w) == 0 {
        if j < |init| { assert lin[j] == init[j]; }
      }
    }
  }

  /**
   * The bound rule is sound: when the integer bound of a gate is below P,
   * every assignment consistent with the facts that satisfies the gate has
   * q_c = 0 and gives 0 to every linear witness with a nonzero coefficient.
   * So forcing those witnesses to 0 loses no solution, and a nonzero q_c
   * means there is none.
   */
  lemma BoundedGateForcesZero(s: BinarySolver, v: Witness -> Field, e: Expression)
    requires Consistent(s, v)
    requires s.BinaryBound(e).Some? && s.BinaryBound(e).value < P
    requires Eval(e, v) == 0
    ensures e.qC == 0
    ensures forall j :: 0 <= j < |e.linearCombinations| && e.linearCombinations[j].coef != 0 ==>
      v(e.linearCombinations[j].w) == 0
  {
    MulSumBounded(s, v, e.mulTerms);
    LinSumBounded(s, v, e.linearCombinations);
    var total := MulSum(e.mulTerms, v) + LinSum(e.linearCombinations, v) + e.qC;
    assert total < P;
    assert total == 0;
    LinSumZero(e.linearCombinations, v);
  }

  /**
   * The inverse rule's Resolved answer is sound: for c*x*y = 0 over an
   * Invert pair with c not zero, both witnesses are 0.
   */
  lemma InverseZeroForcesBoth(s: BinarySolver, v: Witness -> Field, e: Expression)
    requires Consistent(s, v)
    requires s.InverseShape(e) && e.qC == 0 && e.mulTerms[0].coef != 0
    requires Eval(e, v) == 0
    ensures v(e.mulTerms[0].w1) == 0 && v(e.mulTerms[0].w2) == 0
  {
    var t := e.mulTerms[0];
    var a, b := t.w1, t.w2;
    assert e.mulTerms[..0] == [];
    ProductAtMostOne(s, v, a, b);
    var p := Mul(v(a), v(b));
    assert MulSum(e.mulTerms, v) == t.coef * p;
    assert LinSum(e.linearCombinations, v) == 0;
    if p == 1 {
      assert false;
    }
    assert v(a) * v(b) == v(b) * v(a);
    if a in s.invertWitness && s.invertWitness[a] == b {
      assert InverseRelated(v(a), v(b));
    } else {
      assert InverseRelated(v(b), v(a));
    }
  }

  /**
   * The inverse rule's UnsatisfiedConstrain answer is sound whenever the
   * product's coefficient does not cancel q_c: the product is 0 or 1, so the
   * gate evaluates to q_c or to coef + q_c, and neither is zero.
   */
  lemma InverseUnsatSound(s: BinarySolver, v: Witness -> Field, e: Expression)
    requires Consistent(s, v)
    requires s.InverseShape(e) && e.qC != 0 && Add(e.mulTerms[0].coef, e.qC) != 0
    ensures Eval(e, v) != 0
  {
    var t := e.mulTerms[0];
    assert e.mulTerms[..0] == [];
    ProductAtMostOne(s, v, t.w1, t.w2);
    var p := Mul(v(t.w1), v(t.w2));
    assert MulSum(e.mulTerms, v) == t.coef * p;
    assert LinSum(e.linearCombinations, v) == 0;
    if p == 1 {
      assert Eval(e, v) == Add(t.coef, e.qC);
    } else {
      assert Eval(e, v) == e.qC;
    }
  }

  /**
   * When the coefficient does cancel q_c the answer is wrong: for any c other
   * than 0 and -1, c*x*y - c = 0, that is x*y = 1, over the Invert pair
   * x |-> y is satisfied by x = y = 1, which is consistent with the facts,
   * and yet solve_booleans reports it unsatisfiable.
   */
  lemma InverseUnsatCounterexample(s: BinarySolver, c: Field, x: Witness, y: Witness, wm: map<Witness, Field>)
    requires s.invertWitness == map[x := y] && s.positiveWitness == map[]
    requires c != 0 && c != MinusOne
    ensures
      var e := Expression([MulTerm(c, x, y)], [], Neg(c));
      var one := (w: Witness) => 1 as Field;
      && Consistent(s, one)
      && Eval(e, one) == 0
      && s.BooleansOutcome(wm, e).0 == Err(UnsatisfiedConstrain)
  {
    var e := Expression([MulTerm(c, x, y)], [], Neg(c));
    var one := (w: Witness) => 1 as Field;
    assert e.mulTerms[..0] == [];
    assert MulSum(e.mulTerms, one) == c;
    assert s.InverseShape(e);
  }

  /**
   * Every failure of solve_booleans is justified by any consistent assignment
   * that satisfies the gate, except the inverse rule's failure when the
   * product's coefficient cancels q_c; and every forced witness with a
   * nonzero coefficient has the forced value 0 in that assignment.
   */
  lemma SolveBooleansSound(s: BinarySolver, wm: map<Witness, Field>, e: Expression, v: Witness -> Field)
    requires Consistent(s, v)
    requires Eval(e, v) == 0
    ensures s.BooleansOutcome(wm, e).0 == Err(UnsatisfiedConstrain) ==>
      s.InverseShape(e) && Add(e.mulTerms[0].coef, e.qC) == 0
    ensures s.BooleansOutcome(wm, e).0 == Ok(Resolved) && s.InverseShape(e) && e.mulTerms[0].coef != 0 ==>
      v(e.mulTerms[0].w1) == 0 && v(e.mulTerms[0].w2) == 0
    ensures s.BooleansOutcome(wm, e).0 == Ok(Resolved) && !s.InverseShape(e) ==>
      forall j :: 0 <= j < |e.linearCombinations| && e.linearCombinations[j].coef != 0 ==>
        v(e.linearCombinations[j].w) == 0
  {
    if s.InverseShape(e) && e.qC == 0 {
      if e.mulTerms[0].coef != 0 {
        InverseZeroForcesBoth(s, v, e);
      }
    } else if s.InverseShape(e) && e.qC != 1 {
      if Add(e.mulTerms[0].coef, e.qC) != 0 {
        InverseUnsatSound(s, v, e);
      }
    } else if s.BinaryBound(e).Some? && s.BinaryBound(e).value < P {
      BoundedGateForcesZero(s, v, e);
    }
  }

  /**
   * The bound rule forces every linear witness, including one whose
   * coefficient is zero and which the gate therefore does not constrain:
   * with w boolean, 0*w = 0 is resolved with w := 0, although the assignment
   * giving every witness 1 is consistent and satisfies it.
   */
  lemma ZeroCoefficientForced(s: BinarySolver, w: Witness, wm: map<Witness, Field>)
    requires w in s.binaryWitness && s.positiveWitness == map[]
    ensures
      var e := Expression([], [LinearTerm(0, w)], 0);
      var one := (x: Witness) => 1 as Field;
      && s.BooleansOutcome(wm, e) == (Ok(Resolved), wm[w := 0])
      && Consistent(s, one) && Eval(e, one) == 0 && one(w) != 0
  {
    var e := Expression([], [LinearTerm(0, w)], 0);
    var one := (x: Witness) => 1 as Field;
    var lin := e.linearCombinations;
    assert lin[..0] == [];
    assert lin[0].w in LinearWitnesses(lin);
    assert LinearWitnesses(lin) == {w};
    assert s.AllBounded(lin);
    assert s.KnownBound(lin) == 0;
    assert !s.InverseShape(e);
    assert s.BinaryBound(e) == Some(0);
    assert ZeroLinear(wm, lin) == wm[w := 0];
    assert LinSum(lin, one) == 0;
  }

  /** Every linear term is at most the whole integer sum. */
  lemma {:induction false} TermAtMostLinSum(lin: seq<LinearTerm>, v: Witness -> Field, i: int)
    requires 0 <= i < |lin|
    ensures lin[i].coef * v(lin[i].w) <= LinSum(lin, v)
  {
    var init := lin[..|lin| - 1];
    if i < |lin| - 1 {
      TermAtMostLinSum(init, v, i);
      assert init[i] == lin[i];
    }
  }

  /** A sole unknown term's share of the linear sum, bracketed by KnownBound. */
  lemma {:induction false} SoleUnknownSplit(s: BinarySolver, v: Witness -> Field, lin: seq<LinearTerm>, i: int)
    requires Consistent(s, v)
    requires s.SoleUnknown(lin, i)
    ensures lin[i].coef * v(lin[i].w) <= LinSum(lin, v) <= s.KnownBound(lin) + lin[i].coef * v(lin[i].w)
  {
    TermAtMostLinSum(lin, v, i);
    var init, t := lin[..|lin| - 1], lin[|lin| - 1];
    if i == |lin| - 1 {
      InitBounded(s, lin);
      LinSumBounded(s, v, init);
    } else {
      InitSoleUnknown(s, lin, i);
      SoleUnknownSplit(s, v, init, i);
      assert init[i] == lin[i];
      MaxValueHolds(s, v, t.w);
      MulMonotone(t.coef, v(t.w), s.GetMaxValue(t.w).value);
    }
  }

  /** Dropping the sole unknown, when it is last, leaves only bounded terms. */
  lemma InitBounded(s: BinarySolver, lin: seq<LinearTerm>)
    requires s.SoleUnknown(lin, |lin| - 1)
    ensures s.AllBounded(lin[..|lin| - 1])
  {
    var init := lin[..|lin| - 1];
    forall k | 0 <= k < |init| ensures s.GetMaxValue(init[k].w).Some? {
      assert init[k] == lin[k];
    }
  }

  /** Dropping a bounded last term keeps the sole unknown, and the last term is bounded. */
  lemma InitSoleUnknown(s: BinarySolver, lin: seq<LinearTerm>, i: int)
    requires s.SoleUnknown(lin, i) && i < |lin| - 1
    ensures s.SoleUnknown(lin[..|lin| - 1], i)
    ensures s.GetMaxValue(lin[|lin| - 1].w).Some?
  {
    var init := lin[..|lin| - 1];
    forall k | 0 <= k < |init| && k != i ensures s.GetMaxValue(init[k].w).Some? {
      assert init[k] == lin[k];
    }
  }

  /**
   * A bound learnt from an optimiser-shaped gate is sound: in every
   * assignment consistent with the facts that satisfies the gate, the
   * intermediate witness equals q_c plus the other terms, so it is at most
   * the recorded bound. Recording it keeps the facts consistent.
   */
  lemma OptimiserBoundSound(s: BinarySolver, v: Witness -> Field, e: Expression)
    requires Consistent(s, v)
    requires s.Deduce(e).BoundFact?
    requires Eval(e, v) == 0
    ensures v(s.Deduce(e).w) <= s.Deduce(e).bound
  {
    var i := BoundFactShape(s, e);
    SoleUnknownAtMostSum(s, v, e, i);
  }

  /**
   * In a satisfied gate without products whose sole unknown has coefficient
   * -1, the unknown equals q_c plus the other terms, so when q_c + KnownBound
   * is below P it is at most that sum.
   */
  lemma SoleUnknownAtMostSum(s: BinarySolver, v: Witness -> Field, e: Expression, i: int)
    requires Consistent(s, v)
    requires e.mulTerms == [] && s.SoleUnknown(e.linearCombinations, i)
    requires e.linearCombinations[i].coef == MinusOne && e.qC + s.KnownBound(e.linearCombinations) < P
    requires Eval(e, v) == 0
    ensures v(e.linearCombinations[i].w) <= e.qC + s.KnownBound(e.linearCombinations)
  {
    var lin := e.linearCombinations;
    var x := v(lin[i].w);
    SoleUnknownSplit(s, v, lin, i);
    var rest := LinSum(lin, v) - MinusOne * x;
    assert 0 <= rest <= s.KnownBound(lin);
    assert MulSum(e.mulTerms, v) == 0;
    ShiftedZero(rest + e.qC, x);
  }

  /** Where a bound fact comes from: the optimiser shape with a sole unknown of coefficient -1. */
  lemma BoundFactShape(s: BinarySolver, e: Expression) returns (i: int)
    requires s.Deduce(e).BoundFact?
    ensures e.mulTerms == [] && s.SoleUnknown(e.linearCombinations, i)
    ensures e.linearCombinations[i].coef == MinusOne && e.qC + s.KnownBound(e.linearCombinations) < P
    ensures s.Deduce(e) == BoundFact(e.linearCombinations[i].w, e.qC + s.KnownBound(e.linearCombinations))
  {
    var lin := e.linearCombinations;
    assert s.PatternIndex(e).None?;
    i :| s.SoleUnknown(lin, i);
    forall j | s.SoleUnknown(lin, j) ensures j == i { s.SoleUnknownUnique(lin, i, j); }
  }

  /** sum + (P - 1) * x = 0 in the field, with sum below P, means x = sum. */
  lemma ShiftedZero(sum: int, x: Field)
    requires 0 <= sum < P
    requires (sum + MinusOne * x) % P == 0
    ensures x == sum
  {
    assert sum + MinusOne * x == (sum - x) + P * x;
    assert (sum - x) % P == 0;
  }

  /** Consistency survives learning a bound fact from a satisfied gate. */
  lemma LearnedBoundKeepsConsistency(s: BinarySolver, v: Witness -> Field, e: Expression)
    requires Consistent(s, v)
    requires s.Deduce(e).BoundFact?
    requires Eval(e, v) == 0
    ensures forall w :: w in WithBound(s.positiveWitness, s.Deduce(e)) ==> v(w) <= WithBound(s.positiveWitness, s.Deduce(e))[w]
  {
    OptimiserBoundSound(s, v, e);
  }
}

/**
 * Which gate shapes teach the binary solver a fact, and which fact.
 */
module BinaryShapes {
  import opened Wrappers
  import opened Field
  import opened Acir
  import opened Binary

  /** The fact queries: inverse pairs are unordered, and what a maximum value is. */
  lemma FactQueries(s: BinarySolver, a: Witness, b: Witness)
    ensures s.AreInverse(a, b) == s.AreInverse(b, a)
    ensures s.AreBoolean(a, b) <==> s.AreInverse(a, b) || (a in s.binaryWitness && b in s.binaryWitness)
    ensures a in s.binaryWitness ==> s.GetMaxValue(a) == Some(1)
    ensures a !in s.binaryWitness && a in s.positiveWitness ==> s.GetMaxValue(a) == Some(s.positiveWitness[a])
    ensures a !in s.binaryWitness && a !in s.positiveWitness ==> s.GetMaxValue(a) == None
  {
  }

  /** c*x*x - c*x = 0, the boolean constraint x*x = x, marks x boolean. */
  lemma IdempotentMarksBoolean(s: BinarySolver, c: Field, x: Witness)
    ensures s.Deduce(Expression([MulTerm(c, x, x)], [LinearTerm(Neg(c), x)], 0)) == BooleanFact(x)
  {
    AddZeroIff(c, Neg(c));
  }

  /**
   * x = a*b and x = 1 - a*b, with a and b boolean or an Invert pair, mark x
   * boolean: c*a*b - c*x = 0, and c*a*b + c*x - c = 0 for c not zero.
   */
  lemma ProductMarksBoolean(s: BinarySolver, c: Field, a: Witness, b: Witness, x: Witness)
    requires s.AreBoolean(a, b)
    ensures s.Deduce(Expression([MulTerm(c, a, b)], [LinearTerm(Neg(c), x)], 0)) == BooleanFact(x)
    ensures c != 0 ==> s.Deduce(Expression([MulTerm(c, a, b)], [LinearTerm(c, x)], Neg(c))) == BooleanFact(x)
  {
    AddZeroIff(c, Neg(c));
  }

  /** y = z with exactly one side boolean marks the other side, in either order. */
  lemma EqualityPropagatesBoolean(s: BinarySolver, c: Field, y: Witness, z: Witness)
    requires s.IsBoolean(y) && !s.IsBoolean(z)
    ensures s.Deduce(Expression([], [LinearTerm(c, y), LinearTerm(Neg(c), z)], 0)) == BooleanFact(z)
    ensures s.Deduce(Expression([], [LinearTerm(c, z), LinearTerm(Neg(c), y)], 0)) == BooleanFact(z)
  {
    AddZeroIff(c, Neg(c));
  }

  /**
   * y + z = 1 (c*y + c*z - c = 0) always marks the FIRST witness, even when
   * that is the side already known boolean; the other side is not learnt.
   */
  lemma EqualityWithConstantMarksFirst(s: BinarySolver, c: Field, y: Witness, z: Witness)
    requires s.IsBoolean(y) && !s.IsBoolean(z) && c != 0
    ensures s.Deduce(Expression([], [LinearTerm(c, y), LinearTerm(c, z)], Neg(c))) == BooleanFact(y)
    ensures s.Deduce(Expression([], [LinearTerm(c, z), LinearTerm(c, y)], Neg(c))) == BooleanFact(z)
  {
    AddZeroIff(c, Neg(c));
  }

  /** Two linear terms whose witnesses are both boolean, or both not, teach nothing. */
  lemma EqualityNeedsOneBooleanSide(s: BinarySolver, e: Expression)
    requires e.mulTerms == [] && |e.linearCombinations| == 2
    requires s.IsBoolean(e.linearCombinations[0].w) == s.IsBoolean(e.linearCombinations[1].w)
    ensures s.Deduce(e) == NoFact
  {
  }

  /**
   * The optimiser shape with one unbounded witness: a bound q_c + KnownBound
   * when that is below P and its coefficient is -1, else a boolean mark.
   */
  lemma OptimiserSoleUnknown(s: BinarySolver, e: Expression, i: int)
    requires e.mulTerms == [] && |e.linearCombinations| > 2
    requires s.SoleUnknown(e.linearCombinations, i)
    ensures
      var lin := e.linearCombinations;
      var sum := e.qC + s.KnownBound(lin);
      s.Deduce(e) == if sum < P && lin[i].coef == MinusOne then BoundFact(lin[i].w, sum) else BooleanFact(lin[i].w)
  {
    forall j | s.SoleUnknown(e.linearCombinations, j) ensures j == i {
      s.SoleUnknownUnique(e.linearCombinations, i, j);
    }
  }

  /** The optimiser shape with two or more unbounded witnesses teaches nothing. */
  lemma OptimiserManyUnknowns(s: BinarySolver, e: Expression, i: int, j: int)
    requires e.mulTerms == [] && |e.linearCombinations| > 2
    requires 0 <= i < j < |e.linearCombinations|
    requires s.GetMaxValue(e.linearCombinations[i].w).None? && s.GetMaxValue(e.linearCombinations[j].w).None?
    ensures s.Deduce(e) == NoFact
  {
    forall k | 0 <= k < |e.linearCombinations| ensures !s.SoleUnknown(e.linearCombinations, k) {
      if k == i {
        assert s.GetMaxValue(e.linearCombinations[j].w).None?;
      }
    }
  }

  /** Only the shapes above teach anything; every fact names a linear witness of the gate. */
  lemma FactsComeFromShapes(s: BinarySolver, e: Expression)
    requires s.Deduce(e) != NoFact
    ensures
      || (|e.mulTerms| == 1 && |e.linearCombinations| == 1)
      || (|e.mulTerms| == 0 && |e.linearCombinations| >= 2)
    ensures s.Deduce(e).w in LinearWitnesses(e.linearCombinations)
    ensures s.Deduce(e).BoundFact? ==> s.Deduce(e).bound < P
  {
    var lin := e.linearCombinations;
    match s.PatternIndex(e)
    case Some(k) =>
      assert lin[k].w in LinearWitnesses(lin);
    case None =>
      var i :| s.SoleUnknown(lin, i);
      forall j | s.SoleUnknown(lin, j) ensures j == i { s.SoleUnknownUnique(lin, i, j); }
      assert lin[i].w in LinearWitnesses(lin);
  }

  /**
   * A term bound exactly equal to P is accepted by is_binary, but the bound
   * it returns is then not below P, so solve_booleans skips the gate.
   */
  lemma BoundAtModulusSkips(s: BinarySolver, wm: map<Witness, Field>, e: Expression)
    requires s.AllBoolean(e.mulTerms) && s.AllBounded(e.linearCombinations)
    requires MulBound(e.mulTerms) + s.KnownBound(e.linearCombinations) == P
    requires !s.InverseShape(e)
    ensures s.BinaryBound(e) == Some(P + e.qC)
    ensures s.BooleansOutcome(wm, e) == (Ok(Skip), wm)
  {
  }
}

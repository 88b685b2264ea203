/**
 * Two rules of the binary solver that answer more than the gate justifies,
 * each shown by a concrete gate, and a corrected rule with its soundness
 * proved against every assignment consistent with the facts.
 */
module BinaryFindings {
  import opened Wrappers
  import opened Field
  import opened Acir
  import opened Binary
  import opened BinarySoundness

  /**
   * solve_booleans with the inverse rule's failure limited to gates no
   * value satisfies: when coef + q_c = 0 the gate reads x*y = 1, which has
   * solutions, so it is skipped instead of reported unsatisfiable.
   */
  function CorrectedBooleansOutcome(s: BinarySolver, wm: map<Witness, Field>, e: Expression)
    : (Result<GateResolution, GateResolutionError>, map<Witness, Field>)
    reads s
  {
    if s.InverseShape(e) && e.qC != 0 && e.qC != 1 && Add(e.mulTerms[0].coef, e.qC) == 0 then (Ok(Skip), wm)
    else s.BooleansOutcome(wm, e)
  }

  /**
   * The corrected outcome never fails on a gate that a consistent assignment
   * satisfies, and it forces the same values as solve_booleans.
   */
  lemma CorrectedBooleansSound(s: BinarySolver, wm: map<Witness, Field>, e: Expression, v: Witness -> Field)
    requires Consistent(s, v)
    requires Eval(e, v) == 0
    ensures CorrectedBooleansOutcome(s, wm, e).0 != Err(UnsatisfiedConstrain)
    ensures CorrectedBooleansOutcome(s, wm, e).0 == Ok(Resolved) ==>
      CorrectedBooleansOutcome(s, wm, e) == s.BooleansOutcome(wm, e)
  {
    SolveBooleansSound(s, wm, e, v);
  }

  /** The correction changes nothing unless the coefficient cancels q_c, so never for coefficient -1. */
  lemma CorrectedBooleansAgrees(s: BinarySolver, wm: map<Witness, Field>, e: Expression)
    ensures !s.InverseShape(e) || e.qC == 1 || Add(e.mulTerms[0].coef, e.qC) != 0 ==>
      CorrectedBooleansOutcome(s, wm, e) == s.BooleansOutcome(wm, e)
    ensures s.InverseShape(e) && e.mulTerms[0].coef == MinusOne ==>
      CorrectedBooleansOutcome(s, wm, e) == s.BooleansOutcome(wm, e)
  {
  }

  /**
   * The optimiser rule marks a witness boolean that the gate leaves
   * unbounded: x + b1 + b2 = 0 with b1 and b2 boolean and x unknown is
   * satisfied by x = P - 1, b1 = 1, b2 = 0, consistently with the facts, yet
   * x is marked boolean. The corrected rule learns nothing from it.
   */
  lemma OptimiserBooleanCounterexample(s: BinarySolver)
    requires s.binaryWitness == {1, 2} && s.positiveWitness == map[] && s.invertWitness == map[]
    ensures
      var e := Expression([], [LinearTerm(1, 0), LinearTerm(1, 1), LinearTerm(1, 2)], 0);
      var v := (w: Witness) => if w == 0 then MinusOne else if w == 1 then 1 as Field else 0;
      && Consistent(s, v) && Eval(e, v) == 0
      && s.Deduce(e) == BooleanFact(0) && v(0) > 1
      && CorrectedOptimiserFact(s, e) == NoFact
  {
    var e := Expression([], [LinearTerm(1, 0), LinearTerm(1, 1), LinearTerm(1, 2)], 0);
    var v := (w: Witness) => if w == 0 then MinusOne else if w == 1 then 1 as Field else 0;
    var lin := e.linearCombinations;
    assert s.SoleUnknown(lin, 0);
    forall j | s.SoleUnknown(lin, j) ensures j == 0 { s.SoleUnknownUnique(lin, 0, j); }
    var l1, l2 := lin[..1], lin[..2];
    assert l2[..1] == l1 && l1[..0] == [] && lin[..2] == l2;
    assert s.KnownBound(l1) == 0 && LinSum(l1, v) == MinusOne;
    assert s.KnownBound(l2) == 1 && LinSum(l2, v) == P;
    assert s.KnownBound(lin) == 2 && LinSum(lin, v) == P;
    assert s.OptimiserFact(e) == BooleanFact(0);
  }

  /**
   * The optimiser rule keeping only what the gate implies: the bound
   * q_c + KnownBound for a sole unknown of coefficient -1, recorded as a
   * boolean mark when that bound is at most 1; nothing otherwise.
   */
  ghost function CorrectedOptimiserFact(s: BinarySolver, e: Expression): Fact
    reads s
  {
    match s.OptimiserFact(e)
    case BoundFact(w, bound) => if bound <= 1 then BooleanFact(w) else BoundFact(w, bound)
    case _ => NoFact
  }

  /** Every fact the corrected optimiser rule learns holds in every consistent satisfying assignment. */
  lemma CorrectedOptimiserSound(s: BinarySolver, v: Witness -> Field, e: Expression)
    requires Consistent(s, v)
    requires e.mulTerms == []
    requires Eval(e, v) == 0
    ensures CorrectedOptimiserFact(s, e).BooleanFact? ==> v(CorrectedOptimiserFact(s, e).w) <= 1
    ensures CorrectedOptimiserFact(s, e).BoundFact? ==>
      v(CorrectedOptimiserFact(s, e).w) <= CorrectedOptimiserFact(s, e).bound
  {
    var lin := e.linearCombinations;
    if s.OptimiserFact(e).BoundFact? {
      var i :| s.SoleUnknown(lin, i);
      forall j | s.SoleUnknown(lin, j) ensures j == i { s.SoleUnknownUnique(lin, i, j); }
      SoleUnknownAtMostSum(s, v, e, i);
    }
  }
}

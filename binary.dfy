/**
 * The binary side solver of the partial-witness generator.
 *
 * It keeps three growing fact stores (witnesses known to be boolean, the
 * input and result of each Invert directive, and known integer upper bounds)
 * and uses them to resolve arithmetic gates whose value, read as an exact
 * integer, cannot wrap around the field modulus.
 */
module Binary {
  import opened Wrappers
  import opened Field
  import opened Acir

  /** What one arithmetic gate teaches the solver. */
  datatype Fact = NoFact | BooleanFact(w: Witness) | BoundFact(w: Witness, bound: nat)

  function WithBoolean(booleans: set<Witness>, f: Fact): set<Witness>
  {
    if f.BooleanFact? then booleans + {f.w} else booleans
  }

  function WithBound(bounds: map<Witness, nat>, f: Fact): map<Witness, nat>
  {
    if f.BoundFact? then bounds[f.w := f.bound] else bounds
  }

  /** The sum of the product coefficients, read as unsigned integers. */
  function MulBound(mul: seq<MulTerm>): nat
  {
    if mul == [] then 0 else MulBound(mul[..|mul| - 1]) + mul[|mul| - 1].coef
  }

  lemma MulBoundStep(mul: seq<MulTerm>, i: nat)
    requires i < |mul|
    ensures MulBound(mul[..i + 1]) == MulBound(mul[..i]) + mul[i].coef
  {
    assert mul[..i + 1][..i] == mul[..i];
  }

  /** The witness map after every witness of `lin` is set to zero. */
  function ZeroLinear(wm: map<Witness, Field>, lin: seq<LinearTerm>): map<Witness, Field>
  {
    var ws := LinearWitnesses(lin);
    map k | k in wm.Keys + ws :: if k in ws then 0 else wm[k]
  }

  lemma ZeroLinearEmpty(wm: map<Witness, Field>)
    ensures ZeroLinear(wm, []) == wm
  {
    assert LinearWitnesses([]) == {};
  }

  lemma ZeroLinearStep(wm: map<Witness, Field>, lin: seq<LinearTerm>, i: nat)
    requires i < |lin|
    ensures ZeroLinear(wm, lin[..i + 1]) == ZeroLinear(wm, lin[..i])[lin[i].w := 0]
  {
    var before, after := lin[..i], lin[..i + 1];
    assert LinearWitnesses(after) == LinearWitnesses(before) + {lin[i].w} by {
      forall w | w in LinearWitnesses(after) ensures w in LinearWitnesses(before) + {lin[i].w} {
        var j :| 0 <= j < |after| && after[j].w == w;
        if j < i { assert before[j] == after[j]; }
      }
      forall w | w in LinearWitnesses(before) ensures w in LinearWitnesses(after) {
        var j :| 0 <= j < |before| && before[j].w == w;
        assert after[j] == before[j];
      }
      assert after[i] == lin[i];
    }
  }

  class BinarySolver {
    /** Witnesses known to be 0 or 1. */
    var binaryWitness: set<Witness>
    /** x |-> result for every Invert directive seen. */
    var invertWitness: map<Witness, Witness>
    /** Witnesses with a known integer upper bound. */
    var positiveWitness: map<Witness, nat>

    constructor ()
      ensures binaryWitness == {} && invertWitness == map[] && positiveWitness == map[]
    {
      binaryWitness := {};
      invertWitness := map[];
      positiveWitness := map[];
    }

    predicate IsBoolean(w: Witness)
      reads this
    {
      w in binaryWitness
    }

    predicate AreInverse(w1: Witness, w2: Witness)
      reads this
    {
      (w1 in invertWitness && invertWitness[w1] == w2) || (w2 in invertWitness && invertWitness[w2] == w1)
    }

    predicate AreBoolean(w1: Witness, w2: Witness)
      reads this
    {
      AreInverse(w1, w2) || (IsBoolean(w1) && IsBoolean(w2))
    }

    function GetMaxValue(w: Witness): Option<nat>
      reads this
    {
      if IsBoolean(w) then Some(1)
      else if w in positiveWitness then Some(positiveWitness[w])
      else None
    }

    /** Every product is over a boolean pair or an inverse pair. */
    predicate AllBoolean(mul: seq<MulTerm>)
      reads this
    {
      forall k :: 0 <= k < |mul| ==> AreBoolean(mul[k].w1, mul[k].w2)
    }

    /** Every linear witness has a known maximum value. */
    predicate AllBounded(lin: seq<LinearTerm>)
      reads this
    {
      forall k :: 0 <= k < |lin| ==> GetMaxValue(lin[k].w).Some?
    }

    /** coef * max for a term whose witness has a known maximum, else 0. */
    function TermBound(t: LinearTerm): nat
      reads this
    {
      match GetMaxValue(t.w)
      case Some(m) => t.coef * m
      case None => 0
    }

    /** The sum of TermBound over the terms whose witness has a known maximum. */
    function KnownBound(lin: seq<LinearTerm>): nat
      reads this
    {
      if lin == [] then 0 else KnownBound(lin[..|lin| - 1]) + TermBound(lin[|lin| - 1])
    }

    /**
     * The integer bound of an expression, when it has one: products over
     * boolean or inverse pairs, every linear witness bounded, and the term
     * bound at most P; the result adds q_c to the term bound.
     */
    function BinaryBound(e: Expression): Option<nat>
      reads this
    {
      var terms := MulBound(e.mulTerms) + KnownBound(e.linearCombinations);
      if AllBoolean(e.mulTerms) && AllBounded(e.linearCombinations) && terms <= P
      then Some(terms + e.qC)
      else None
    }

    lemma AllBooleanStep(mul: seq<MulTerm>, i: nat)
      requires i < |mul| && AllBoolean(mul[..i]) && AreBoolean(mul[i].w1, mul[i].w2)
      ensures AllBoolean(mul[..i + 1])
    {
      assert forall k :: 0 <= k <= i ==> mul[..i + 1][k] == mul[k];
    }

    lemma AllBoundedStep(lin: seq<LinearTerm>, j: nat)
      requires j < |lin| && AllBounded(lin[..j]) && GetMaxValue(lin[j].w).Some?
      ensures AllBounded(lin[..j + 1])
    {
      assert forall k :: 0 <= k <= j ==> lin[..j + 1][k] == lin[k];
    }

    lemma KnownBoundStep(lin: seq<LinearTerm>, j: nat)
      requires j < |lin|
      ensures KnownBound(lin[..j + 1]) == KnownBound(lin[..j]) + TermBound(lin[j])
    {
      assert lin[..j + 1][..j] == lin[..j];
    }

    method IsBinary(e: Expression) returns (r: Option<nat>)
      ensures r == BinaryBound(e)
    {
      var max: nat := 0;
      var mul := e.mulTerms;
      for i := 0 to |mul|
        invariant AllBoolean(mul[..i])
        invariant max == MulBound(mul[..i])
      {
        if !AreBoolean(mul[i].w1, mul[i].w2) {
          return None;
        }
        MulBoundStep(mul, i);
        AllBooleanStep(mul, i);
        max := max + mul[i].coef;
      }
      assert mul[..|mul|] == mul;
      var lin := e.linearCombinations;
      for j := 0 to |lin|
        invariant AllBounded(lin[..j])
        invariant max == MulBound(mul) + KnownBound(lin[..j])
      {
        var v := GetMaxValue(lin[j].w);
        if v.None? {
          return None;
        }
        KnownBoundStep(lin, j);
        AllBoundedStep(lin, j);
        max := max + lin[j].coef * v.value;
      }
      assert lin[..|lin|] == lin;
      if max > P {
        return None;
      }
      return Some(max + e.qC);
    }

    /** A single product over an inverse pair and no linear term. */
    predicate InverseShape(e: Expression)
      reads this
    {
      |e.mulTerms| == 1 && AreInverse(e.mulTerms[0].w1, e.mulTerms[0].w2) && |e.linearCombinations| == 0
    }

    method SolveInverse(e: Expression, wm: map<Witness, Field>)
      returns (res: Result<GateResolution, GateResolutionError>, wm': map<Witness, Field>)
      ensures InverseShape(e) && e.qC == 0 ==>
        res == Ok(Resolved) && wm' == wm[e.mulTerms[0].w1 := 0][e.mulTerms[0].w2 := 0]
      ensures InverseShape(e) && e.qC != 0 && e.qC != 1 ==>
        res == Err(UnsatisfiedConstrain) && wm' == wm
      ensures !InverseShape(e) || e.qC == 1 ==> res == Ok(Skip) && wm' == wm
    {
      wm' := wm;
      if |e.mulTerms| == 1 && AreInverse(e.mulTerms[0].w1, e.mulTerms[0].w2) && |e.linearCombinations| == 0 {
        if e.qC == 0 {
          wm' := wm'[e.mulTerms[0].w1 := 0];
          wm' := wm'[e.mulTerms[0].w2 := 0];
          return Ok(Resolved), wm';
        } else if e.qC != 1 {
          return Err(UnsatisfiedConstrain), wm';
        }
      }
      res := Ok(Skip);
    }

    /** The witnesses a resolution of `e` may assign. */
    function Touched(e: Expression): set<Witness>
      reads this
    {
      if InverseShape(e) then {e.mulTerms[0].w1, e.mulTerms[0].w2}
      else LinearWitnesses(e.linearCombinations)
    }

    /**
     * The outcome of solve_booleans: the inverse rule first, then the
     * bound rule, which forces every linear witness to zero when the bound
     * is below P and q_c is zero, and fails when q_c is not zero.
     */
    function BooleansOutcome(wm: map<Witness, Field>, e: Expression)
      : (Result<GateResolution, GateResolutionError>, map<Witness, Field>)
      reads this
    {
      if InverseShape(e) && e.qC == 0 then
        (Ok(Resolved), wm[e.mulTerms[0].w1 := 0][e.mulTerms[0].w2 := 0])
      else if InverseShape(e) && e.qC != 1 then
        (Err(UnsatisfiedConstrain), wm)
      else
        match BinaryBound(e)
        case Some(bound) =>
          if bound >= P then (Ok(Skip), wm)
          else if e.qC == 0 then (Ok(Resolved), ZeroLinear(wm, e.linearCombinations))
          else (Err(UnsatisfiedConstrain), wm)
        case None => (Ok(Skip), wm)
    }

    method SolveBooleans(wm: map<Witness, Field>, e: Expression)
      returns (res: Result<GateResolution, GateResolutionError>, wm': map<Witness, Field>)
      ensures (res, wm') == BooleansOutcome(wm, e)
      ensures res != Ok(Resolved) ==> wm' == wm
      ensures res == Ok(Resolved) ==> forall w :: w in Touched(e) ==> w in wm' && wm'[w] == 0
      ensures wm'.Keys <= wm.Keys + Touched(e)
      ensures forall k :: k in wm && k !in Touched(e) ==> k in wm' && wm'[k] == wm[k]
    {
      res, wm' := SolveInverse(e, wm);
      if res.Err? || res.value == Resolved {
        return;
      }
      var bound := IsBinary(e);
      if bound.Some? && bound.value < P {
        if e.qC == 0 {
          var lin := e.linearCombinations;
          ZeroLinearEmpty(wm);
          for i := 0 to |lin|
            invariant wm' == ZeroLinear(wm, lin[..i])
          {
            ZeroLinearStep(wm, lin, i);
            wm' := wm'[lin[i].w := 0];
          }
          assert lin[..|lin|] == lin;
          res := Ok(Resolved);
        } else {
          res := Err(UnsatisfiedConstrain);
        }
      } else {
        res := Ok(Skip);
      }
    }

    /**
     * Which linear witness the boolean shapes mark, if any:
     * c*x*x + d*x with c + d = 0 and q_c = 0; a single product over a boolean
     * or inverse pair whose linear coefficient cancels it (q_c = 0) or equals
     * it with q_c cancelling it; and a two-term x = y with exactly one side
     * boolean.
     */
    function PatternIndex(e: Expression): (r: Option<nat>)
      reads this
      ensures r.Some? ==> r.value < |e.linearCombinations|
    {
      var lin := e.linearCombinations;
      if |e.mulTerms| == 1 && |lin| == 1 then
        var m, l := e.mulTerms[0], lin[0];
        if m.w1 == m.w2 && m.w1 == l.w && e.qC == 0 && Add(m.coef, l.coef) == 0 then Some(0)
        else if AreBoolean(m.w1, m.w2) then
          if e.qC == 0 then
            if Add(m.coef, l.coef) == 0 then Some(0) else None
          else if Add(m.coef, e.qC) == 0 && m.coef == l.coef then Some(0)
          else None
        else None
      else if |e.mulTerms| == 0 && |lin| == 2 then
        var z: Option<nat> :=
          if IsBoolean(lin[0].w) && !IsBoolean(lin[1].w) then Some(1)
          else if IsBoolean(lin[1].w) && !IsBoolean(lin[0].w) then Some(0)
          else None;
        if z.None? then None
        else if e.qC == 0 then
          if Add(lin[0].coef, lin[1].coef) == 0 then z else None
        else if Add(e.qC, lin[1].coef) == 0 && lin[0].coef == lin[1].coef then Some(0)
        else None
      else None
    }

    /** The term at index i is the only one whose witness has no known maximum. */
    predicate SoleUnknown(lin: seq<LinearTerm>, i: int)
      reads this
    {
      && 0 <= i < |lin|
      && GetMaxValue(lin[i].w).None?
      && forall j :: 0 <= j < |lin| && j != i ==> GetMaxValue(lin[j].w).Some?
    }

    /**
     * The optimiser shape: with exactly one unbounded witness, it gets the
     * bound q_c + KnownBound when that is below P and its coefficient is -1,
     * and is marked boolean otherwise; with none or several, nothing is learnt.
     */
    ghost function OptimiserFact(e: Expression): Fact
      reads this
    {
      var lin := e.linearCombinations;
      if exists i :: SoleUnknown(lin, i) then
        var i :| SoleUnknown(lin, i);
        var sum := e.qC + KnownBound(lin);
        if sum < P && lin[i].coef == MinusOne then BoundFact(lin[i].w, sum)
        else BooleanFact(lin[i].w)
      else NoFact
    }

    /** The fact identify_booleans learns from an arithmetic expression. */
    ghost function Deduce(e: Expression): Fact
      reads this
    {
      match PatternIndex(e)
      case Some(k) => BooleanFact(e.linearCombinations[k].w)
      case None =>
        if |e.mulTerms| == 0 && |e.linearCombinations| > 2 then OptimiserFact(e) else NoFact
    }

    /** The fact stores after learning from `e`: only Deduce(e) is added. */
    twostate predicate Learned(e: Expression)
      reads this
    {
      && binaryWitness == WithBoolean(old(binaryWitness), old(Deduce(e)))
      && positiveWitness == WithBound(old(positiveWitness), old(Deduce(e)))
      && invertWitness == old(invertWitness)
    }

    /** No fact store loses an element or a key. */
    twostate predicate Grown()
      reads this
    {
      && old(binaryWitness) <= binaryWitness
      && old(invertWitness).Keys <= invertWitness.Keys
      && old(positiveWitness).Keys <= positiveWitness.Keys
    }

    /**
     * The optimiser scan: the index of the sole linear witness without a
     * known maximum (None when there is none or more than one), and q_c plus
     * the bound of the other terms.
     */
    method ScanUnknowns(lin: seq<LinearTerm>, qC: Field) returns (x: Option<nat>, max: nat)
      ensures x.Some? ==> SoleUnknown(lin, x.value) && max == qC + KnownBound(lin)
      ensures x.None? ==> !exists k :: SoleUnknown(lin, k)
    {
      x, max := None, qC;
      var i: nat := 0;
      while i < |lin|
        invariant i <= |lin|
        invariant max == qC + KnownBound(lin[..i])
        invariant x.None? ==> forall j :: 0 <= j < i ==> GetMaxValue(lin[j].w).Some?
        invariant x.Some? ==> x.value < i
        invariant x.Some? ==> GetMaxValue(lin[x.value].w).None?
        invariant x.Some? ==> forall j :: 0 <= j < i && j != x.value ==> GetMaxValue(lin[j].w).Some?
      {
        var v := GetMaxValue(lin[i].w);
        KnownBoundStep(lin, i);
        if v.Some? {
          max := max + lin[i].coef * v.value;
        } else if x.Some? {
          TwoUnknowns(lin, x.value, i);
          x := None;
          return;
        } else {
          x := Some(i);
        }
        i := i + 1;
      }
      assert lin[..i] == lin;
      if x.None? {
        NoUnknown(lin);
      }
    }

    /** Two terms without a known maximum leave no sole unknown. */
    lemma TwoUnknowns(lin: seq<LinearTerm>, a: nat, b: nat)
      requires a < |lin| && b < |lin| && a != b
      requires GetMaxValue(lin[a].w).None? && GetMaxValue(lin[b].w).None?
      ensures !exists k :: SoleUnknown(lin, k)
    {
      forall k | 0 <= k < |lin| ensures !SoleUnknown(lin, k) {
        if k == a {
          assert GetMaxValue(lin[b].w).None?;
        } else {
          assert GetMaxValue(lin[a].w).None?;
        }
      }
    }

    /** With every term's maximum known there is no sole unknown. */
    lemma NoUnknown(lin: seq<LinearTerm>)
      requires forall j :: 0 <= j < |lin| ==> GetMaxValue(lin[j].w).Some?
      ensures !exists k :: SoleUnknown(lin, k)
    {
    }

    lemma SoleUnknownUnique(lin: seq<LinearTerm>, i: int, j: int)
      requires SoleUnknown(lin, i) && SoleUnknown(lin, j)
      ensures i == j
    {
    }

    method IdentifyBooleans(e: Expression)
      modifies this
      ensures Learned(e) && Grown()
    {
      var lin := e.linearCombinations;
      ghost var f := Deduce(e);
      var x: Option<nat> := PatternIndex(e);
      if |e.mulTerms| == 0 && |lin| > 2 {
        assert x.None? && f == OptimiserFact(e);
        var max;
        x, max := ScanUnknowns(lin, e.qC);
        if x.Some? {
          assert f == (if max < P && lin[x.value].coef == MinusOne then BoundFact(lin[x.value].w, max)
                       else BooleanFact(lin[x.value].w)) by {
            forall i | SoleUnknown(lin, i) ensures i == x.value { SoleUnknownUnique(lin, i, x.value); }
          }
        } else {
          assert !exists k :: SoleUnknown(e.linearCombinations, k);
          assert OptimiserFact(e) == NoFact;
          assert f == NoFact;
        }
        if max < P && x.Some? && lin[x.value].coef == MinusOne {
          positiveWitness := positiveWitness[lin[x.value].w := max];
          x := None;
        }
      } else {
        assert f == if x.Some? then BooleanFact(lin[x.value].w) else NoFact;
      }
      if x.Some? {
        binaryWitness := binaryWitness + {lin[x.value].w};
      }
    }

    method IdentifyBinaries(gate: Gate)
      modifies this
      ensures gate.Arithmetic? ==> Learned(gate.expr)
      ensures gate.Directive? && gate.directive.Invert? ==>
        && invertWitness == old(invertWitness)[gate.directive.x := gate.directive.result]
        && binaryWitness == old(binaryWitness)
        && positiveWitness == old(positiveWitness)
      ensures !gate.Arithmetic? && !(gate.Directive? && gate.directive.Invert?) ==> unchanged(this)
      ensures Grown()
    {
      match gate
      case Directive(Invert(x, result)) =>
        invertWitness := invertWitness[x := result];
      case Arithmetic(a) =>
        IdentifyBooleans(a);
      case _ =>
    }

    /**
     * Solve one gate. An arithmetic gate is first reduced by `evaluate`
     * (the arithmetic solver, a parameter here); the outcome is computed on
     * the facts as they were, and then the facts of the reduced expression
     * are learnt. Any other gate only feeds the fact stores and is skipped.
     */
    method Solve(gate: Gate, wm: map<Witness, Field>, evaluate: (Expression, map<Witness, Field>) -> Expression)
      returns (res: Result<GateResolution, GateResolutionError>, wm': map<Witness, Field>)
      modifies this
      ensures gate.Arithmetic? ==>
        && (res, wm') == old(BooleansOutcome(wm, evaluate(gate.expr, wm)))
        && Learned(evaluate(gate.expr, wm))
      ensures !gate.Arithmetic? ==> res == Ok(Skip) && wm' == wm
      ensures !gate.Arithmetic? ==>
        binaryWitness == old(binaryWitness) && positiveWitness == old(positiveWitness)
      ensures gate.Directive? && gate.directive.Invert? ==>
        invertWitness == old(invertWitness)[gate.directive.x := gate.directive.result]
      ensures !gate.Arithmetic? && !(gate.Directive? && gate.directive.Invert?) ==>
        invertWitness == old(invertWitness)
      ensures Grown()
    {
      if gate.Arithmetic? {
        var partial := evaluate(gate.expr, wm);
        res, wm' := SolveBooleans(wm, partial);
        IdentifyBooleans(partial);
      } else {
        IdentifyBinaries(gate);
        res, wm' := Ok(Skip), wm;
      }
    }
  }
}

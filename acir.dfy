/**
 * The ACIR types the binary solver works on: witnesses, quadratic
 * expressions, gates, and the outcome of trying to solve one gate.
 */
module Acir {
  import opened Field

  /** The index of one circuit variable. */
  type Witness = nat

  /** A product term c * w1 * w2. */
  datatype MulTerm = MulTerm(coef: Field, w1: Witness, w2: Witness)

  /** A linear term c * w. */
  datatype LinearTerm = LinearTerm(coef: Field, w: Witness)

  /** The constraint  sum(mulTerms) + sum(linearCombinations) + qC = 0. */
  datatype Expression = Expression(mulTerms: seq<MulTerm>, linearCombinations: seq<LinearTerm>, qC: Field)

  datatype Directive = Invert(x: Witness, result: Witness) | OtherDirective

  datatype Gate = Arithmetic(expr: Expression) | Directive(directive: Directive) | OtherGate

  datatype GateResolution = Resolved | Skip

  datatype GateResolutionError = UnsatisfiedConstrain

  /** The witnesses that occur in a sequence of linear terms. */
  function LinearWitnesses(lin: seq<LinearTerm>): set<Witness>
  {
    set j | 0 <= j < |lin| :: lin[j].w
  }

  /** Sum over the product terms of coef * (v(w1) * v(w2) mod P), as an integer. */
  function MulSum(mul: seq<MulTerm>, v: Witness -> Field): nat
  {
    if mul == [] then 0
    else
      var t := mul[|mul| - 1];
      MulSum(mul[..|mul| - 1], v) + t.coef * Mul(v(t.w1), v(t.w2))
  }

  /** Sum over the linear terms of coef * v(w), as an integer. */
  function LinSum(lin: seq<LinearTerm>, v: Witness -> Field): nat
  {
    if lin == [] then 0
    else
      var t := lin[|lin| - 1];
      LinSum(lin[..|lin| - 1], v) + t.coef * v(t.w)
  }

  /**
   * The value of an expression in the field under a total assignment v:
   * the integer sum of the canonical term values, reduced modulo P (which
   * is congruent to adding and multiplying term by term in the field).
   */
  function Eval(e: Expression, v: Witness -> Field): Field
  {
    (MulSum(e.mulTerms, v) + LinSum(e.linearCombinations, v) + e.qC) % P
  }
}

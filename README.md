# Noir's binary side solver, in Dafny

This project models the binary side solver of the ACVM partial-witness
generator, `BinarySolver` in `crates/acvm/src/pwg/binary.rs`. It also models
the small manifest logic in `crates/nargo_project/src/lib.rs`.

The binary solver keeps three fact stores that only grow:

- the witnesses known to be boolean;
- the input and result of each `Invert` directive;
- a known integer upper bound for some witnesses.

It uses these facts in two ways. First, it resolves an arithmetic gate whose
value, read as an exact integer, provably cannot wrap around the field
modulus P. In that case "expression = 0" forces every linear witness to 0, or
the gate cannot be satisfied. Second, it learns new facts from gate shapes:
`x*x = x`, `x = a*b`, `x = y`, and sums produced by the optimiser.

Files:

- `wrappers.dfy`: `Option` and `Result`.
- `field.dfy`: the field. P is the BN254 scalar modulus. An element is its
  canonical value in [0, P). So reading `to_bytes` back with
  `from_bytes_be` gives the element itself.
- `acir.dfy`: witnesses, expressions, gates, and resolutions. It also defines
  `Eval`, the value of an expression under a total assignment.
- `binary.dfy`: the class `BinarySolver`. Its three fields are the fact
  stores. Its methods are proved against specification functions:
  `BinaryBound`, `BooleansOutcome`, and `Deduce`.
- `binary_shapes.dfy`: which gate shapes teach which fact.
- `binary_soundness.dfy`: what the solver's answers mean. Take any
  assignment that is consistent with the facts and satisfies the gate:
  - every forced witness with a nonzero coefficient has the forced value 0
    in that assignment;
  - its bound-rule failures are real;
  - its inverse-rule failures are real unless the product's coefficient
    cancels `q_c`;
  - a bound it learns holds.
- `binary_findings.dfy`: the two rules listed under Findings, each with a
  concrete gate that shows the problem and a corrected rule proved sound.
- `nargo_project.dfy`: `Dependency`, `Package`, `Config`, and
  `has_local_path`.

In these places the model follows the code, which differs from what its
names and comments suggest:

- The facts are learnt from the expression after `evaluate` has
  substituted the known values, not from the original gate.
- `is_binary` compares the term bound, without `q_c`, against P, and accepts
  a term bound equal to P. `solve_booleans` then compares bound + `q_c` with
  P, using strict less-than.
- The optimiser rule marks the sole unbounded witness boolean whenever it
  does not record a bound. There is no tightness test.
- Inverse pairs come only from `Invert` directives. An arithmetic gate of
  shape `c*x*y + q_c` is solved, but it is never recorded as a pair.

## Model

| member | source | states |
|---|---|---|
| `Binary.BinarySolver.constructor` | crates/acvm/src/pwg/binary.rs:28-34 | all three fact stores start empty |
| `Binary.BinarySolver.IsBinary` | crates/acvm/src/pwg/binary.rs:102-121 | result is `BinaryBound`. It is None when a product is not over a boolean or inverse pair, when a linear witness has no maximum, or when the term bound (coefficients times maxima, unsigned) exceeds P. A term bound equal to P is accepted. Otherwise the result is the term bound plus `q_c` |
| `Binary.BinarySolver.SolveInverse` | crates/acvm/src/pwg/binary.rs:123-142 | for a single product over an inverse pair with no linear term: `q_c` = 0 sets both witnesses to 0 and returns Resolved; `q_c` not 0 and not 1 returns UnsatisfiedConstrain with the map unchanged. Every other case returns Skip with the map unchanged |
| `Binary.BinarySolver.SolveBooleans` | crates/acvm/src/pwg/binary.rs:74-99 | the outcome is `BooleansOutcome`: the inverse rule first, with its error propagated; then, if the bound is below P, Resolved with every linear witness set to 0 when `q_c` = 0, else UnsatisfiedConstrain; otherwise Skip. Anything but Resolved leaves the map unchanged. Resolved sets every touched witness to 0. No key outside the touched witnesses changes |
| `Binary.BinarySolver.PatternIndex` | crates/acvm/src/pwg/binary.rs:146-192 | the boolean shapes name a linear term of the gate, never an index out of range |
| `Binary.BinarySolver.ScanUnknowns` | crates/acvm/src/pwg/binary.rs:195-205 | returns the index of the sole linear witness without a maximum, together with `q_c` + KnownBound; returns None exactly when there is no such sole witness (none, or two or more, where the loop breaks) |
| `Binary.BinarySolver.IdentifyBooleans` | crates/acvm/src/pwg/binary.rs:145-217 | adds exactly `Deduce(e)`: one boolean witness, or one bound, or nothing. The inverse store is unchanged and no store shrinks |
| `Binary.BinarySolver.IdentifyBinaries` | crates/acvm/src/pwg/binary.rs:220-230 | `Invert{x, result}` records x ↦ result; an arithmetic gate learns `Deduce`; any other gate changes nothing. No store shrinks |
| `Binary.BinarySolver.Solve` | crates/acvm/src/pwg/binary.rs:56-71 | on an arithmetic gate, the outcome is `BooleansOutcome` on the evaluated expression with the facts as they were before, and then the facts of that evaluated expression are learnt. Any other gate returns Skip with the witness map, the boolean store and the bound store unchanged; an `Invert` directive records its pair, and any other such gate leaves the inverse store unchanged too. The stores only grow |
| `BinaryShapes.FactQueries` | crates/acvm/src/pwg/binary.rs:36-54 | `are_inverse` is symmetric. `are_boolean` holds iff the pair is inverse or both witnesses are boolean. The max value is 1 for a boolean witness, else the recorded bound, else None |
| `BinaryShapes.IdempotentMarksBoolean` | crates/acvm/src/pwg/binary.rs:147-154 | `c*x*x - c*x = 0` marks x boolean |
| `BinaryShapes.ProductMarksBoolean` | crates/acvm/src/pwg/binary.rs:155-167 | with a and b boolean or inverse, `c*a*b - c*x = 0` and `c*a*b + c*x - c = 0` mark x boolean |
| `BinaryShapes.EqualityPropagatesBoolean` | crates/acvm/src/pwg/binary.rs:169-186 | `c*y - c*z = 0` with exactly y boolean marks z, in either term order |
| `BinaryShapes.EqualityWithConstantMarksFirst` | crates/acvm/src/pwg/binary.rs:187-191 | `c*y + c*z - c = 0` always marks the first term's witness, even when that is the side already boolean |
| `BinaryShapes.EqualityNeedsOneBooleanSide` | crates/acvm/src/pwg/binary.rs:171-182 | a two-term equation whose witnesses are both boolean, or both not, teaches nothing |
| `BinaryShapes.OptimiserSoleUnknown` | crates/acvm/src/pwg/binary.rs:193-216 | with one unbounded witness: if `q_c` + KnownBound is below P and its coefficient is -1, that sum is recorded as its bound; otherwise it is marked boolean |
| `BinaryShapes.OptimiserManyUnknowns` | crates/acvm/src/pwg/binary.rs:196-205 | two or more unbounded witnesses teach nothing |
| `BinaryShapes.FactsComeFromShapes` | crates/acvm/src/pwg/binary.rs:145-216 | a learnt fact comes only from a 1-product/1-term gate or a gate with no product and at least two terms. It names a linear witness of that gate, and a learnt bound is below P |
| `BinaryShapes.BoundAtModulusSkips` | crates/acvm/src/pwg/binary.rs:83-120 | a term bound equal to P is accepted by `is_binary`, but `solve_booleans` then skips the gate |
| `BinarySoundness.ProductAtMostOne` | crates/acvm/src/pwg/binary.rs:44-46 | under consistent facts, a product over a boolean or inverse pair is 0 or 1 |
| `BinarySoundness.MaxValueHolds` | crates/acvm/src/pwg/binary.rs:48-54 | under consistent facts, a witness never exceeds its max value |
| `BinarySoundness.MulSumBounded` | crates/acvm/src/pwg/binary.rs:104-109 | the products of an all-boolean expression add up, as integers, to at most the sum of their coefficients |
| `BinarySoundness.LinSumBounded` | crates/acvm/src/pwg/binary.rs:110-116 | the linear terms add up, as integers, to at most the sum of coefficient times max value |
| `BinarySoundness.LinSumZero` | crates/acvm/src/pwg/binary.rs:85-88 | linear terms whose integer sum is zero each have a zero coefficient or a zero witness |
| `BinarySoundness.BoundedGateForcesZero` | crates/acvm/src/pwg/binary.rs:83-92 | if the bound is below P, every consistent assignment satisfying the gate has `q_c` = 0 and gives 0 to each linear witness with a nonzero coefficient |
| `BinarySoundness.InverseZeroForcesBoth` | crates/acvm/src/pwg/binary.rs:132-135 | `c*x*y = 0` over an inverse pair with c ≠ 0 forces x = y = 0 in every consistent satisfying assignment |
| `BinarySoundness.InverseUnsatSound` | crates/acvm/src/pwg/binary.rs:136-138 | when `q_c` is not 0 and coef + `q_c` is not 0 in the field, no consistent assignment satisfies the gate, so the failure is justified; this covers coefficient -1 with `q_c` not 0 or 1 |
| `BinarySoundness.InverseUnsatCounterexample` | crates/acvm/src/pwg/binary.rs:128-138 | for every coefficient c other than 0 and -1, `c*x*y - c = 0` over the pair x ↦ y is satisfied by x = y = 1, consistently with the pair, yet it is reported UnsatisfiedConstrain |
| `BinarySoundness.SolveBooleansSound` | crates/acvm/src/pwg/binary.rs:74-99 | against any consistent satisfying assignment: a failure comes only from the inverse rule with coef + `q_c` = 0; every forced witness with a nonzero coefficient is 0 there |
| `BinarySoundness.ZeroCoefficientForced` | crates/acvm/src/pwg/binary.rs:85-88 | with w boolean, `0*w = 0` is resolved with w := 0, although the assignment giving every witness 1 is consistent and satisfies it |
| `BinarySoundness.SoleUnknownAtMostSum` | crates/acvm/src/pwg/binary.rs:206-211 | in a satisfied gate without products, a sole unknown of coefficient -1 is at most `q_c` + KnownBound when that sum is below P |
| `BinarySoundness.SoleUnknownSplit` | crates/acvm/src/pwg/binary.rs:196-205 | the linear sum is the sole unknown term plus at most KnownBound |
| `BinarySoundness.BoundFactShape` | crates/acvm/src/pwg/binary.rs:193-212 | a bound fact comes only from an optimiser gate with a sole unknown of coefficient -1; the bound is `q_c` + KnownBound and is below P |
| `BinarySoundness.OptimiserBoundSound` | crates/acvm/src/pwg/binary.rs:206-211 | in every consistent satisfying assignment, the intermediate witness is at most the bound recorded for it |
| `BinarySoundness.LearnedBoundKeepsConsistency` | crates/acvm/src/pwg/binary.rs:210 | recording that bound keeps the bound store consistent with the assignment |
| `BinaryFindings.CorrectedBooleansOutcome` | crates/acvm/src/pwg/binary.rs:128-141 | solve_booleans with the inverse failure dropped when coef + `q_c` = 0 (see `CorrectedBooleansSound`) |
| `BinaryFindings.CorrectedBooleansSound` | crates/acvm/src/pwg/binary.rs:74-99 | the corrected outcome never reports UnsatisfiedConstrain for a gate that a consistent assignment satisfies, and when it resolves it forces what solve_booleans forces |
| `BinaryFindings.CorrectedBooleansAgrees` | crates/acvm/src/pwg/binary.rs:136-138 | the correction changes the outcome only when coef + `q_c` = 0 with `q_c` not 0 or 1, so never for coefficient -1 |
| `BinaryFindings.OptimiserBooleanCounterexample` | crates/acvm/src/pwg/binary.rs:193-217 | `x + b1 + b2 = 0` with b1 and b2 boolean is satisfied by x = P - 1, b1 = 1, b2 = 0, consistently with the facts, yet x is marked boolean; the corrected rule learns nothing from it |
| `BinaryFindings.CorrectedOptimiserSound` | crates/acvm/src/pwg/binary.rs:206-217 | every fact the corrected optimiser rule learns holds in every consistent satisfying assignment: a boolean mark gives a value at most 1 and a bound gives a value at most the bound |
| `NargoProject.NewPackage` | crates/nargo_project/src/lib.rs:44-51 | no authors, compiler version "0.1", no backend, no license |
| `NargoProject.NewConfig` | crates/nargo_project/src/lib.rs:11-13 | the new package and an empty dependency map, hence no local path |
| `NargoProject.HasLocalPath` | crates/nargo_project/src/lib.rs:17-26 | true iff some dependency is a `Path` |
| `NargoProject.AllGithubHasNoLocalPath` | crates/nargo_project/src/lib.rs:19-24 | dependencies that are all `Github` give no local path |
| `NargoProject.AddingPathGivesLocalPath` | crates/nargo_project/src/lib.rs:17-26 | adding a `Path` dependency under any name gives a local path |

## Findings

| source | as written | input that shows it | evidently intended | confidence | as-written member | corrected member |
|---|---|---|---|---|---|---|
| crates/acvm/src/pwg/binary.rs:136-138 | a single product over an inverse pair fails with UnsatisfiedConstrain for every `q_c` other than 0 and 1, whatever its coefficient | `c*x*y - c = 0` with c not 0 or -1, over the pair x ↦ y, holds for x = y = 1 | fail only when no value satisfies the gate: `q_c` not 0 and coef + `q_c` not 0 | not executed; whether the optimiser emits such a gate cannot be seen here | `BinarySoundness.InverseUnsatCounterexample` | `BinaryFindings.CorrectedBooleansSound` |
| crates/acvm/src/pwg/binary.rs:206-217 | the sole unbounded witness of an optimiser-shaped gate is marked boolean whenever no bound is recorded for it | `x + b1 + b2 = 0`, with b1 and b2 boolean, holds for x = P - 1, b1 = 1, b2 = 0 | learn only what the gate implies: the bound `q_c` + KnownBound for coefficient -1, a boolean mark when that bound is at most 1 | not executed; whether the optimiser emits such a gate cannot be seen here | `BinaryFindings.OptimiserBooleanCounterexample` | `BinaryFindings.CorrectedOptimiserSound` |

`SolveBooleans`, `IdentifyBooleans` and `Solve` model the code as written.
The corrected rules are stated beside them and are not wired into the
solver.

## Left out

- `ArithmeticSolver::evaluate` is not part of this model. It is a parameter of `Solve`, a function from an expression and a witness map to an expression.
- The fixed-point gate loop that calls `BinarySolver::solve`, and the other `GateResolution` and error variants, are not part of this model.
- `FieldElement` internals are not modelled. P is fixed as BN254's scalar modulus. Field values are their canonical naturals, and `BigUint` is `nat`.
- `Witness` is an unbounded `nat`, not a 32-bit index.
- Gates and directives other than `Arithmetic` and `Invert` are collapsed into one constructor each. The binary solver only tells those two apart.
- The caller's `BTreeMap` is passed in and returned as a value instead of being mutated through `&mut`. No aliasing is modelled.
- `has_local_path` walks the dependencies in key order. The model picks them in an arbitrary order. The result does not depend on the order.
- `SolveBooleansSound`: forced values are proved only for witnesses with a nonzero coefficient. The bound rule also forces a witness whose coefficient is zero, which the gate does not constrain (`ZeroCoefficientForced`). Whether `evaluate` ever leaves such a term cannot be seen in the source, so this is not listed as a finding.
- `IdentifyBooleans`: a learnt boolean mark is not proved sound. For the product and equality shapes, that proof needs P prime and a nonzero cancelling coefficient. The optimiser shape marks a witness boolean even when the gate does not imply it (see Findings). Only learnt bounds are proved sound (`OptimiserBoundSound`).
- `BinarySolver`'s `Default` and the derived `Default`, `Clone` and serde impls of `Config` and `Package` are not modelled. They are library derives.
- The `parse_standard_toml` test is not modelled. It is TOML parsing by a library.
- The CLI commands, the dependency resolver, `toml.rs` and `errors.rs` are not modelled. They are file I/O, process control and git fetching.

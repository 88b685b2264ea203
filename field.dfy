/**
 * The prime field of ACIR values. A field element is held as its canonical
 * representative in [0, P); converting it to big-endian bytes and reading
 * them back as an unsigned integer therefore gives the element itself.
 */
module Field {
  /** The modulus of the BN254 scalar field, the field of acvm's FieldElement. */
  const P: nat := 21888242871839275222246405745257275088548364400416034343698204186575808495617

  type Field = x: nat | x < P

  /** -1 in the field. */
  const MinusOne: Field := P - 1

  function Add(a: Field, b: Field): Field
  {
    (a + b) % P
  }

  function Mul(a: Field, b: Field): Field
  {
    (a * b) % P
  }

  function Neg(a: Field): Field
  {
    (P - a) % P
  }

  /** A sum is zero exactly when the second summand is the negation of the first. */
  lemma AddZeroIff(a: Field, b: Field)
    ensures Add(a, b) == 0 <==> b == Neg(a)
  {
  }
}

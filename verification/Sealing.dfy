/** Two ways to pass a large condition around as one piece, so that a proof looks inside it only
    where it says so. */
module Sealing {

  /** p itself.  The verifier does not split a condition written under Folded into clauses. */
  ghost predicate Folded(p: bool) { p == true }

  /** A definition of the form "forall n :: Unseal(n) ==> D" stays closed to the verifier
      until a proof mentions Unseal. */
  ghost predicate Unseal(n: int) { n == n }
}

/** What several modules share. */
module Common {
  datatype Option<+T> = None | Some(value: T)

  type byte = b: int | 0 <= b < 256

  /**
   * A definition written `forall k: nat | IsKey(k) :: D` stands behind a key: the solver sees D
   * only in a proof that mentions a key, as `assert IsKey(0)` does. The large invariants are
   * kept this way, so that proofs which only pass them on stay small.
   */
  predicate IsKey(k: nat) { k >= 0 }
}

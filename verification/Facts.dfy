/**
 A guard for facts: `forall b {:trigger Use(b)} | Use(b) :: P` holds exactly when `P` does, but offers `P`
 only to a proof that says `assert Use(true);`. Proofs that just pass such a fact on stay small.
 */
module Facts {

  predicate Use(b: bool) {
    b
  }
}

/** The option and result types shared by every module. */
module Wrappers {
  datatype Option<+T> = None | Some(value: T)

  datatype Result<+T, +E> = Success(value: T) | Failure(error: E)
}

/** What runs between the port calls of one request. */
module Interference {
  /** `others(i)` is what runs before the i-th call: here, nothing. */
  ghost predicate Quiet<E>(others: nat -> seq<E>) {
    forall i: nat :: others(i) == []
  }

  /** A request that is alone is not disturbed. */
  lemma AloneIsQuiet<E>()
    ensures Quiet<E>(_ => [])
  {
  }
}

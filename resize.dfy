/**
 * The guard of MongoDBReplicaSetImpl.resize: only voting members are supported, so a
 * replica set may be resized to 0 or to an odd size between MIN_MEMBERS and MAX_MEMBERS.
 */
module Resize {
  const MIN_MEMBERS: int := 3
  const MAX_MEMBERS: int := 7

  /** Why a resize request was refused (the three IllegalStateException messages). */
  datatype Rejection = EvenSize | BelowMinimum | AboveMaximum

  /**
   * Delegated: the request is handed to the generic cluster resize with the same size.
   * Rejected: an IllegalStateException is thrown and nothing changes.
   * KeptCurrentSize: the final 'return getCurrentSize()' of the source.
   */
  datatype ResizeOutcome = Delegated(size: int) | Rejected(reason: Rejection) | KeptCurrentSize

  /** Java's '%' by 2 on an int: the remainder takes the sign of the dividend. */
  function JavaRem2(n: int): (r: int)
    ensures -1 <= r <= 1
    ensures r == 0 <==> n % 2 == 0
    ensures r == 1 <==> n > 0 && n % 2 == 1
    ensures r == -1 <==> n < 0 && n % 2 == 1
  {
    if n >= 0 then n % 2 else -((-n) % 2)
  }

  /**
   * resize(desired): accepted exactly for 0 and the odd sizes in [3, 7]; every other
   * size is refused, evenness being checked before the lower and the upper bound,
   * so the final fallthrough is never reached.
   */
  function ResizeRequest(desired: int): (r: ResizeOutcome)
    ensures r.Delegated? <==> desired == 0 || (MIN_MEMBERS <= desired <= MAX_MEMBERS && desired % 2 == 1)
    ensures r.Delegated? ==> r.size == desired
    ensures r == Rejected(EvenSize) <==> desired != 0 && desired % 2 == 0
    ensures r == Rejected(BelowMinimum) <==> desired % 2 == 1 && desired < MIN_MEMBERS
    ensures r == Rejected(AboveMaximum) <==> desired % 2 == 1 && desired > MAX_MEMBERS
    ensures r != KeptCurrentSize
  {
    if (desired >= MIN_MEMBERS && desired <= MAX_MEMBERS && JavaRem2(desired) == 1) || desired == 0 then
      Delegated(desired)
    else if JavaRem2(desired) == 0 then Rejected(EvenSize)
    else if desired < MIN_MEMBERS then Rejected(BelowMinimum)
    else if desired > MAX_MEMBERS then Rejected(AboveMaximum)
    else KeptCurrentSize
  }
}

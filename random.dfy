/**
 * A random number generator as the passes use it: a stream of draws from
 * `std::uniform_int_distribution`, read in order.
 */
module Random {
  /** The k-th draw of the stream from `uniform_int_distribution(lo, hi)`. */
  type Rng = (nat, nat, nat) -> nat

  /** Every draw lies within the bounds it was asked for. */
  ghost predicate Uniform(rng: Rng)
  {
    forall k: nat, lo: nat, hi: nat :: lo <= hi ==> lo <= rng(k, lo, hi) <= hi
  }
}

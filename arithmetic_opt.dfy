/** The option the arithmetic hook returns: how many MBA rounds to apply. */
module ArithmeticOpts {
  /** `uint8_t`. */
  newtype uint8 = x: int | 0 <= x < 256

  const DEFAULT_NB_ROUND: uint8 := 3

  datatype ArithmeticOpt = ArithmeticOpt(iterations: uint8)

  /** `ArithmeticOpt()`: the default number of rounds. */
  function Default(): (o: ArithmeticOpt)
    ensures o.iterations == DEFAULT_NB_ROUND && IsTruthy(o)
  {
    ArithmeticOpt(DEFAULT_NB_ROUND)
  }

  /** `ArithmeticOpt(uint8_t)`: the round count as given. */
  function FromRounds(it: uint8): (o: ArithmeticOpt)
    ensures o.iterations == it
    ensures IsTruthy(o) <==> it != 0
  {
    ArithmeticOpt(it)
  }

  /** `ArithmeticOpt(bool)`: the default round count, or none. */
  function FromBool(b: bool): (o: ArithmeticOpt)
    ensures IsTruthy(o) == b
    ensures b ==> o == Default()
    ensures !b ==> o.iterations == 0
  {
    ArithmeticOpt(if b then DEFAULT_NB_ROUND else 0)
  }

  /** `operator bool`: at least one round. */
  predicate IsTruthy(o: ArithmeticOpt)
  {
    o.iterations > 0
  }
}

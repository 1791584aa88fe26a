/**
 * Fixed-width machine integers of any width `w`, as LLVM's `iN` types
 * compute them: a word is a natural below 2^w, addition, subtraction and
 * multiplication wrap modulo 2^w, and the bitwise operations act bit by bit
 * on the low `w` bits.
 */
module Words {
  function Pow2(w: nat): (p: nat)
    ensures p >= 1
  {
    if w == 0 then 1 else 2 * Pow2(w - 1)
  }

  /** Reduction modulo 2^w: the word an `iN` operation leaves behind. */
  function Wrap(w: nat, v: int): (r: nat)
    ensures r < Pow2(w)
  {
    v % Pow2(w)
  }

  function Bit(b: bool): nat { if b then 1 else 0 }

  /** Bitwise and of the low `w` bits. */
  function BitAnd(w: nat, a: nat, b: nat): (r: nat)
    ensures r < Pow2(w)
  {
    if w == 0 then 0 else 2 * BitAnd(w - 1, a / 2, b / 2) + Bit(a % 2 == 1 && b % 2 == 1)
  }

  /** Bitwise or of the low `w` bits. */
  function BitOr(w: nat, a: nat, b: nat): (r: nat)
    ensures r < Pow2(w)
  {
    if w == 0 then 0 else 2 * BitOr(w - 1, a / 2, b / 2) + Bit(a % 2 == 1 || b % 2 == 1)
  }

  /** Bitwise exclusive or of the low `w` bits. */
  function BitXor(w: nat, a: nat, b: nat): (r: nat)
    ensures r < Pow2(w)
  {
    if w == 0 then 0 else 2 * BitXor(w - 1, a / 2, b / 2) + Bit(a % 2 != b % 2)
  }

  const TWO_64: nat := 0x1_0000_0000_0000_0000
  const UINT64_MAX: nat := TWO_64 - 1

  /**
   * `APInt::getLimitedValue(Limit)`: the value, or `Limit` when the value
   * exceeds it (a value wider than 64 bits always does).
   */
  function LimitedValue(v: nat, limit: nat): (r: nat)
    requires limit <= UINT64_MAX
    ensures r <= limit
    ensures v <= limit ==> r == v
  {
    if v > limit then limit else v
  }

  /** The all-ones word, `-1` in `iN`. */
  function AllOnes(w: nat): nat { Pow2(w) - 1 }

  /** `CreateNot`: exclusive or with all ones. */
  function BitNot(w: nat, a: nat): nat { BitXor(w, a, AllOnes(w)) }

  /** `CreateNeg`: subtraction from zero. */
  function Neg(w: nat, a: nat): nat { Wrap(w, 0 - a) }

  /** Powers of two multiply by adding exponents. */
  lemma {:induction false} Pow2Add(a: nat, b: nat)
    ensures Pow2(a + b) == Pow2(a) * Pow2(b)
  {
    if a > 0 {
      Pow2Add(a - 1, b);
    }
  }

  /** The word size of a 64-bit target. */
  lemma Pow2Of64()
    ensures Pow2(64) == 0x1_0000_0000_0000_0000
  {
    assert Pow2(8) == 256;
    Pow2Add(8, 8);
    Pow2Add(16, 16);
    Pow2Add(32, 32);
  }

  /** The word size of `i32`. */
  lemma Pow2Of32()
    ensures Pow2(32) == 0x1_0000_0000
  {
    assert Pow2(8) == 256;
    Pow2Add(8, 8);
    Pow2Add(16, 16);
  }

  /** Wider words hold more values. */
  lemma Pow2Mono(a: nat, b: nat)
    requires a <= b
    ensures Pow2(a) <= Pow2(b)
  {
    Pow2Add(a, b - a);
    MulAtLeast(Pow2(b - a), Pow2(a));
  }

  // ---------------------------------------------------------------------
  // Modular arithmetic

  lemma MulAtLeast(d: int, m: int)
    requires m > 0 && d >= 1
    ensures d * m >= m
  {
  }

  /** The remainder is determined by any decomposition `v == q * m + r` with `0 <= r < m`. */
  lemma ModUnique(v: int, m: int, q: int, r: int)
    requires m > 0 && 0 <= r < m && v == q * m + r
    ensures v % m == r
  {
    var d := v / m - q;
    assert v == (v / m) * m + v % m;
    assert d * m == (v / m) * m - q * m;
    assert d * m == r - v % m;
    if d >= 1 {
      MulAtLeast(d, m);
    } else if d <= -1 {
      MulAtLeast(-d, m);
    }
  }

  /** A word is its own reduction. */
  lemma WrapWord(w: nat, v: int)
    requires 0 <= v < Pow2(w)
    ensures Wrap(w, v) == v
  {
    ModUnique(v, Pow2(w), 0, v);
  }

  /** The constant `-1` is the all-ones word. */
  lemma WrapMinusOne(w: nat)
    ensures Wrap(w, -1) == AllOnes(w)
  {
    ModUnique(-1, Pow2(w), -1, AllOnes(w));
  }

  /** Adding a multiple of 2^w does not change the word. */
  lemma WrapShift(w: nat, v: int, k: int)
    ensures Wrap(w, v + k * Pow2(w)) == Wrap(w, v)
  {
    var m := Pow2(w);
    assert v == (v / m) * m + v % m;
    assert v + k * m == (v / m + k) * m + v % m;
    ModUnique(v + k * m, m, v / m + k, v % m);
  }

  /** Reducing an operand of a sum first gives the same word. */
  lemma WrapAddLeft(w: nat, u: int, v: int)
    ensures Wrap(w, Wrap(w, u) + v) == Wrap(w, u + v)
  {
    var m := Pow2(w);
    assert u == (u / m) * m + u % m;
    assert u + v == (u % m + v) + (u / m) * m;
    WrapShift(w, u % m + v, u / m);
  }

  lemma WrapAddRight(w: nat, u: int, v: int)
    ensures Wrap(w, u + Wrap(w, v)) == Wrap(w, u + v)
  {
    WrapAddLeft(w, v, u);
  }

  /** Subtracting what was added gives the word back. */
  lemma WrapAddSub(w: nat, a: int, s: int)
    requires 0 <= a < Pow2(w)
    ensures Wrap(w, Wrap(w, a + s) - s) == a
  {
    WrapAddLeft(w, a + s, -s);
    WrapWord(w, a);
  }

  /** The low `k + 1` bits are the low bit and then the low `k` bits of the rest. */
  lemma ModDouble(a: nat, k: nat)
    ensures a % Pow2(k + 1) == a % 2 + 2 * ((a / 2) % Pow2(k))
  {
    var p := Pow2(k);
    var q := (a / 2) / p;
    assert a / 2 == q * p + (a / 2) % p;
    assert a == q * (2 * p) + (a % 2 + 2 * ((a / 2) % p));
    ModUnique(a, 2 * p, q, a % 2 + 2 * ((a / 2) % p));
  }

  // ---------------------------------------------------------------------
  // Bitwise facts, by induction on the width

  /** Masking with zero leaves nothing. */
  lemma {:induction false} AndZero(w: nat, a: nat)
    ensures BitAnd(w, a, 0) == 0
  {
    if w > 0 {
      AndZero(w - 1, a / 2);
    }
  }

  /** Or with zero leaves a word unchanged. */
  lemma {:induction false} OrZero(w: nat, a: nat)
    requires a < Pow2(w)
    ensures BitOr(w, a, 0) == a
  {
    if w > 0 {
      OrZero(w - 1, a / 2);
    }
  }

  /** Masking with all ones keeps a word. */
  lemma {:induction false} AndAllOnes(w: nat, a: nat)
    requires a < Pow2(w)
    ensures BitAnd(w, a, AllOnes(w)) == a
  {
    if w > 0 {
      AndAllOnes(w - 1, a / 2);
      assert AllOnes(w) / 2 == AllOnes(w - 1) && AllOnes(w) % 2 == 1;
    }
  }

  /** Masking with all ones but the low `k` bits clears those bits. */
  lemma {:induction false} AndHighMask(w: nat, k: nat, a: nat)
    requires k <= w && a < Pow2(w)
    ensures Pow2(k) <= Pow2(w) && BitAnd(w, a, Pow2(w) - Pow2(k)) == a - a % Pow2(k)
  {
    if k == 0 {
      Pow2Mono(k, w);
      AndHighMaskZero(w, a);
    } else {
      HalfBelow(w, a);
      AndHighMask(w - 1, k - 1, a / 2);
      AndHighMaskStep(w, k, a);
    }
  }

  /** The base of `AndHighMask`: no bit cleared. */
  lemma AndHighMaskZero(w: nat, a: nat)
    requires a < Pow2(w)
    ensures BitAnd(w, a, Pow2(w) - Pow2(0)) == a - a % Pow2(0)
  {
    AndAllOnes(w, a);
    assert Pow2(0) == 1;
  }

  /** The step of `AndHighMask`: one bit more of width and of mask. */
  lemma AndHighMaskStep(w: nat, k: nat, a: nat)
    requires 1 <= k <= w && Pow2(k - 1) <= Pow2(w - 1)
    requires BitAnd(w - 1, a / 2, Pow2(w - 1) - Pow2(k - 1)) == a / 2 - a / 2 % Pow2(k - 1)
    ensures Pow2(k) <= Pow2(w)
    ensures BitAnd(w, a, Pow2(w) - Pow2(k)) == a - a % Pow2(k)
  {
    var m := Pow2(w) - Pow2(k);
    var h := Pow2(w - 1) - Pow2(k - 1);
    HighMaskHalf(w, k);
    var q := a / 2;
    AndEvenMask(w, a, m);
    ModDouble(a, k - 1);
    LowBitsSplit(a, q, a % 2, a % Pow2(k), q % Pow2(k - 1));
  }

  /** Halving a word one bit wider gives a word. */
  lemma HalfBelow(w: nat, a: nat)
    requires w >= 1 && a < Pow2(w)
    ensures a / 2 < Pow2(w - 1)
  {
    var p := Pow2(w - 1);
    assert a < 2 * p;
  }

  /** An even mask clears the low bit and masks the rest with its half. */
  lemma AndEvenMask(w: nat, a: nat, m: nat)
    requires w >= 1 && m % 2 == 0
    ensures BitAnd(w, a, m) == 2 * BitAnd(w - 1, a / 2, m / 2)
  {
  }

  /** Clearing the low `k + 1` bits of `a` is clearing the low `k` bits of `a / 2`, doubled. */
  lemma LowBitsSplit(a: int, q: int, bit: int, low: int, lowHalf: int)
    requires a == 2 * q + bit && low == bit + 2 * lowHalf
    ensures a - low == 2 * (q - lowHalf)
  {
  }

  /** The mask `2^w - 2^k` is even and halves to the mask one bit narrower. */
  lemma HighMaskHalf(w: nat, k: nat)
    requires 1 <= k <= w
    ensures (Pow2(w) - Pow2(k)) % 2 == 0 && (Pow2(w) - Pow2(k)) / 2 == Pow2(w - 1) - Pow2(k - 1)
  {
    var h := Pow2(w - 1) - Pow2(k - 1);
    assert Pow2(w) - Pow2(k) == 2 * h;
  }

  /** Masking with one keeps the low bit. */
  lemma AndOne(w: nat, a: nat)
    requires w >= 1
    ensures BitAnd(w, a, 1) == a % 2
  {
    AndZero(w - 1, a / 2);
  }

  /** Masking with four gives 0 on a multiple of 8. */
  lemma AndFourAligned(w: nat, a: nat)
    requires w >= 3 && a % 8 == 0
    ensures BitAnd(w, a, 4) == 0
  {
    AndZero(w - 3, a / 8);
    assert BitAnd(w - 2, a / 4, 1) == 2 * BitAnd(w - 3, a / 8, 0);
    assert BitAnd(w - 1, a / 2, 2) == 2 * BitAnd(w - 2, a / 4, 1);
  }

  /** Reducing modulo 2^w keeps the low bit when `w >= 1`. */
  lemma WrapKeepsParity(w: nat, v: nat)
    requires w >= 1
    ensures Wrap(w, v) % 2 == v % 2
  {
    var k := (v / 2) % Pow2(w - 1);
    ModDouble(v, w - 1);
    ModUnique(Wrap(w, v), 2, k, v % 2);
  }

  /** `a & b` and `a | b` add up to `a + b`. */
  lemma {:induction false} AndPlusOr(w: nat, a: nat, b: nat)
    requires a < Pow2(w) && b < Pow2(w)
    ensures BitAnd(w, a, b) + BitOr(w, a, b) == a + b
  {
    if w > 0 {
      AndPlusOr(w - 1, a / 2, b / 2);
    }
  }

  /** `a | b` is `a ^ b` plus `a & b`. */
  lemma {:induction false} OrIsXorPlusAnd(w: nat, a: nat, b: nat)
    ensures BitOr(w, a, b) == BitXor(w, a, b) + BitAnd(w, a, b)
  {
    if w > 0 {
      OrIsXorPlusAnd(w - 1, a / 2, b / 2);
    }
  }

  /** `a ^ b` plus twice `a & b` is `a + b`: the carry decomposition of a sum. */
  lemma XorPlusTwiceAnd(w: nat, a: nat, b: nat)
    requires a < Pow2(w) && b < Pow2(w)
    ensures BitXor(w, a, b) + 2 * BitAnd(w, a, b) == a + b
  {
    AndPlusOr(w, a, b);
    OrIsXorPlusAnd(w, a, b);
  }

  /** Complementing a word is subtracting it from all ones. */
  lemma {:induction false} NotIsComplement(w: nat, a: nat)
    requires a < Pow2(w)
    ensures BitNot(w, a) == AllOnes(w) - a
  {
    if w > 0 {
      NotIsComplement(w - 1, a / 2);
      assert AllOnes(w) / 2 == AllOnes(w - 1) && AllOnes(w) % 2 == 1;
    }
  }

  /** De Morgan: `~a | ~b == ~(a & b)`, with complements written as subtractions from all ones. */
  lemma {:induction false} DeMorgan(w: nat, a: nat, b: nat)
    requires a < Pow2(w) && b < Pow2(w)
    ensures BitOr(w, AllOnes(w) - a, AllOnes(w) - b) == AllOnes(w) - BitAnd(w, a, b)
  {
    if w > 0 {
      DeMorgan(w - 1, a / 2, b / 2);
      var na, nb := AllOnes(w) - a, AllOnes(w) - b;
      assert na / 2 == AllOnes(w - 1) - a / 2 && na % 2 == 1 - a % 2;
      assert nb / 2 == AllOnes(w - 1) - b / 2 && nb % 2 == 1 - b % 2;
    }
  }
}

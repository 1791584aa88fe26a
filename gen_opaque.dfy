/**
 * The generators that rebuild 0, 1 and other constants from values the
 * compiler cannot see through: the two stack slots T1 and T2 of the block's
 * opaque context (T1 holds T2's address and T2 holds T1's) and a private
 * global. A generator is described by the parameters it chose; `Eval` gives
 * the word the emitted instructions compute at run time.
 */
module GenOpaque {
  import opened Words
  import opened Wrappers

  /** Addresses are `i64`. */
  const ADDRESS_WIDTH: nat := 64

  /** `STACK_ALIGNEMENT`: the address bit the constant generator masks. */
  const STACK_ALIGNMENT: nat := 4

  /** What the block's slots hold at run time: T2's address and the two words loaded as `iN`. */
  datatype Frame = Frame(t2Addr: nat, t1Word: nat, t2Word: nat)

  /** T2 is an `i64` stack slot: its address is 8-aligned and fits 64 bits. */
  predicate Aligned(f: Frame)
  {
    f.t2Addr < TWO_64 && f.t2Addr % 8 == 0
  }

  /** The instructions a generator emits, by the parameters that fix them. */
  datatype Opaque =
    /** `(T2 ^ T1) - (T2 ^ T1)`, the first exclusive or being tagged for 3 MBA rounds. */
    | ZeroOf(width: nat)
    /** `((&T2 + odd) & 1)` cast to `iN`. */
    | OneOf(width: nat, odd: nat)
    /** `(z + lhs) + (z + rhs)` in `iN` with `z = &T2 & 4`; the sum is tagged for 3 MBA rounds. */
    | ConstOf(width: nat, lhs: nat, rhs: nat)

  /** The word the emitted instructions compute in the frame. */
  function Eval(o: Opaque, f: Frame): (r: nat)
  {
    match o
    case ZeroOf(w) => EvalZero(w, f)
    case OneOf(w, odd) => EvalOne(w, odd, f)
    case ConstOf(w, lhs, rhs) => EvalConst(w, lhs, rhs, f)
  }

  function EvalZero(w: nat, f: Frame): nat
  {
    var x := BitXor(w, Wrap(w, f.t2Word), Wrap(w, f.t1Word));
    Wrap(w, x - x)
  }

  function EvalOne(w: nat, odd: nat, f: Frame): nat
  {
    Wrap(w, BitAnd(ADDRESS_WIDTH, Wrap(ADDRESS_WIDTH, f.t2Addr + odd), 1))
  }

  function EvalConst(w: nat, lhs: nat, rhs: nat, f: Frame): nat
  {
    var z := Wrap(w, BitAnd(ADDRESS_WIDTH, f.t2Addr, STACK_ALIGNMENT));
    Wrap(w, Wrap(w, z + Wrap(w, lhs)) + Wrap(w, z + Wrap(w, rhs)))
  }

  // ---------------------------------------------------------------------
  // Choosing the parameters

  /** `GetOpaqueZero_1` (and `_2`, `_3`, which delegate to it). */
  function OpaqueZero(width: nat): (o: Opaque)
    ensures forall f :: Eval(o, f) == 0
  {
    ZeroOf(width)
  }

  /** `Odd`: a draw in `[1, 50]`, plus one when it is even. */
  function MakeOdd(draw: nat): (odd: nat)
    requires 1 <= draw <= 50
    ensures odd % 2 == 1 && draw <= odd <= 51
  {
    if draw % 2 == 0 then draw + 1 else draw
  }

  /** `GetOpaqueOne_1` (and `_2`, `_3`). */
  function OpaqueOne(width: nat, draw: nat): (o: Opaque)
    requires 1 <= draw <= 50
    ensures o.OneOf? && o.odd % 2 == 1
  {
    OneOf(width, MakeOdd(draw))
  }

  /** The bounds of the split draw as written: the `uint64_t` upper bound is narrowed to `uint8_t`. */
  function SplitBoundsAsWritten(val: nat): (b: (nat, nat))
    ensures b.0 == 1 && b.1 < 256
  {
    (1, val % 256)
  }

  /** For 256 the narrowed bounds are `[1, 0]`: the distribution is given an empty range. */
  lemma SplitBoundsEmptyAsWritten()
    ensures SplitBoundsAsWritten(256).0 > SplitBoundsAsWritten(256).1
  {
  }

  /** The split bounds as intended: `[1, Val]`, never empty for the values that reach the draw. */
  function SplitBounds(val: nat): (b: (nat, nat))
    ensures val >= 2 ==> 1 <= b.0 <= b.1 == val
  {
    (1, val)
  }

  /**
   * `GetOpaqueConst_1` (and `_2`, `_3`) as written: it works on
   * `Val = getLimitedValue()`, so a constant wider than 64 bits is rebuilt
   * from `UINT64_MAX`. `LHS = Val - Split` does not wrap, as `Split <= Val`.
   */
  function OpaqueConstAsWritten(width: nat, value: nat, split: nat): (o: Option<Opaque>)
    requires LimitedValue(value, UINT64_MAX) >= 2 ==> 1 <= split <= LimitedValue(value, UINT64_MAX)
    ensures o.None? <==> value <= 1
    ensures o.Some? ==> o.value.ConstOf? && o.value.lhs + o.value.rhs == LimitedValue(value, UINT64_MAX)
  {
    var val := LimitedValue(value, UINT64_MAX);
    if val <= 1 then None else Some(ConstOf(width, val - split, split))
  }

  /** An `i128` constant 2^64 is rebuilt as 2^64 - 1. */
  lemma WideConstantAsWritten(f: Frame)
    requires Aligned(f)
    ensures OpaqueConstAsWritten(128, TWO_64, 1).Some?
    ensures Eval(OpaqueConstAsWritten(128, TWO_64, 1).value, f) == TWO_64 - 1 != TWO_64
  {
    assert LimitedValue(TWO_64, UINT64_MAX) == TWO_64 - 1;
    assert OpaqueConstAsWritten(128, TWO_64, 1) == Some(ConstOf(128, TWO_64 - 2, 1));
    assert TWO_64 - 1 < Pow2(128) by {
      Pow2Of64();
      Pow2Mono(64, 128);
    }
    assert Wrap(128, BitAnd(ADDRESS_WIDTH, f.t2Addr, STACK_ALIGNMENT)) == 0 by {
      AndFourAligned(ADDRESS_WIDTH, f.t2Addr);
      WrapWord(128, 0);
    }
    SplitSum(128, TWO_64 - 1, 1, f);
  }

  /**
   * `GetOpaqueConst_1` as intended: the constant's own value is split, in
   * the constant's own width; nothing is generated for 0 and 1.
   */
  function OpaqueConst(width: nat, value: nat, split: nat): (o: Option<Opaque>)
    requires value >= 2 ==> SplitBounds(value).0 <= split <= SplitBounds(value).1
    ensures o.None? <==> value <= 1
    ensures o.Some? ==> o.value.ConstOf? && o.value.width == width && o.value.lhs + o.value.rhs == value
  {
    if value <= 1 then None else Some(ConstOf(width, value - split, split))
  }

  // ---------------------------------------------------------------------
  // What the emitted code computes

  /** The opaque one is 1 in any `iN` as long as T2's address is even. */
  lemma OneCorrect(width: nat, draw: nat, f: Frame)
    requires 1 <= draw <= 50 && width >= 1 && Aligned(f)
    ensures Eval(OpaqueOne(width, draw), f) == 1
  {
    var odd := MakeOdd(draw);
    EvenAddress(f);
    LowBitOfOddSum(width, ADDRESS_WIDTH, f.t2Addr, odd);
    assert EvalOne(width, odd, f) == 1;
  }

  lemma EvenAddress(f: Frame)
    requires Aligned(f)
    ensures f.t2Addr % 2 == 0
  {
    EightAlignedIsEven(f.t2Addr);
  }

  lemma EightAlignedIsEven(a: nat)
    requires a % 8 == 0
    ensures a % 2 == 0
  {
    var k := a / 8;
    assert a == 8 * k;
    assert a / 2 == 4 * k;
  }

  lemma LowBitOfOddSum(w: nat, aw: nat, addr: nat, odd: nat)
    requires w >= 1 && aw >= 1 && addr % 2 == 0 && odd % 2 == 1
    ensures Wrap(w, BitAnd(aw, Wrap(aw, addr + odd), 1)) == 1
  {
    WrapKeepsParity(aw, addr + odd);
    AndOne(aw, Wrap(aw, addr + odd));
    assert Pow2(w) == 2 * Pow2(w - 1);
    WrapWord(w, 1);
  }

  /**
   * The rebuilt constant is the constant, in any `iN` that holds it, when
   * T2's address is 8-aligned.
   */
  lemma ConstCorrect(width: nat, val: nat, split: nat, f: Frame)
    requires val < Pow2(width) && val >= 2
    requires SplitBounds(val).0 <= split <= SplitBounds(val).1
    requires Aligned(f)
    ensures OpaqueConst(width, val, split).Some?
    ensures Eval(OpaqueConst(width, val, split).value, f) == val
  {
    AndFourAligned(ADDRESS_WIDTH, f.t2Addr);
    WrapWord(width, 0);
    SplitSum(width, val, split, f);
  }

  lemma SplitSum(w: nat, val: nat, split: nat, f: Frame)
    requires split <= val < Pow2(w)
    requires Wrap(w, BitAnd(ADDRESS_WIDTH, f.t2Addr, STACK_ALIGNMENT)) == 0
    ensures EvalConst(w, val - split, split, f) == val
  {
    var l, r := Wrap(w, val - split), Wrap(w, split);
    WrapWord(w, l);
    WrapWord(w, r);
    assert EvalConst(w, val - split, split, f) == Wrap(w, l + r);
    WrapSum(w, val - split, split);
    WrapWord(w, val);
  }

  /** Adding two reduced words and reducing is reducing the sum. */
  lemma WrapSum(w: nat, u: nat, v: nat)
    ensures Wrap(w, Wrap(w, u) + Wrap(w, v)) == Wrap(w, u + v)
  {
    WrapAddLeft(w, u, Wrap(w, v));
    WrapAddRight(w, u, v);
  }
}

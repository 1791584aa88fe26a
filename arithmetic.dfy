/**
 * The arithmetic (MBA) pass. Each supported binary operation whose round
 * count is positive is moved into a private wrapper function
 * `__omvll_mba(X, Y)` that returns `X op Y`; the call replaces the
 * operation. The wrapper body is then rewritten `rounds` times: each round
 * replaces every supported operation of the body by a mixed boolean
 * arithmetic expression that computes the same word.
 */
module Arithmetic {
  import opened Wrappers
  import opened Words
  import opened ArithmeticOpts
  import ObfMetadata

  /** The opcodes of LLVM's `BinaryOperator`. */
  datatype Opcode =
    | Add | Sub | Mul | And | Or | Xor
    | Shl | LShr | AShr | UDiv | SDiv | URem | SRem
    | FAdd | FSub | FMul | FDiv | FRem

  /** `isSupported`: the operations the visitor has an identity for. */
  predicate IsSupported(op: Opcode)
  {
    op == Add || op == Sub || op == And || op == Xor || op == Or
  }

  /** The operations a rewritten wrapper body is built from. */
  predicate RingOp(op: Opcode)
  {
    IsSupported(op) || op == Mul
  }

  /** The integer value of an operation on two `w`-bit words. */
  function Apply(w: nat, op: Opcode, a: nat, b: nat): (r: nat)
    requires RingOp(op)
    ensures r < Pow2(w)
  {
    match op
    case Add => Wrap(w, a + b)
    case Sub => Wrap(w, a - b)
    case Mul => Wrap(w, a * b)
    case And => BitAnd(w, a, b)
    case Or => BitOr(w, a, b)
    case Xor => BitXor(w, a, b)
  }

  // ---------------------------------------------------------------------
  // The five identities, for every width

  /** `X ^ Y == (X | Y) - (X & Y)`. */
  lemma MbaXor(w: nat, a: nat, b: nat)
    requires a < Pow2(w) && b < Pow2(w)
    ensures Apply(w, Sub, BitOr(w, a, b), BitAnd(w, a, b)) == BitXor(w, a, b)
  {
    OrIsXorPlusAnd(w, a, b);
    WrapWord(w, BitXor(w, a, b));
  }

  /** `X + Y == (X & Y) + (X | Y)`. */
  lemma MbaAdd(w: nat, a: nat, b: nat)
    requires a < Pow2(w) && b < Pow2(w)
    ensures Apply(w, Add, BitAnd(w, a, b), BitOr(w, a, b)) == Wrap(w, a + b)
  {
    AndPlusOr(w, a, b);
  }

  /** `X & Y == (X + Y) - (X | Y)`. */
  lemma {:induction false} MbaAnd(w: nat, a: nat, b: nat)
    requires a < Pow2(w) && b < Pow2(w)
    ensures Apply(w, Sub, Wrap(w, a + b), BitOr(w, a, b)) == BitAnd(w, a, b)
  {
    AndPlusOr(w, a, b);
    WrapAddLeft(w, a + b, 0 - BitOr(w, a, b));
    WrapWord(w, BitAnd(w, a, b));
  }

  /** Without wrapping, `X + Y + 1 + (~X | ~Y)` overshoots `X | Y` by exactly 2^w. */
  lemma OrOvershoot(w: nat, a: nat, b: nat)
    requires a < Pow2(w) && b < Pow2(w)
    ensures a + b + 1 + BitOr(w, BitNot(w, a), BitNot(w, b)) == BitOr(w, a, b) + 1 * Pow2(w)
  {
    NotIsComplement(w, a);
    NotIsComplement(w, b);
    DeMorgan(w, a, b);
    AndPlusOr(w, a, b);
  }

  /** Wrapping after each of the three additions of the `Or` rewrite. */
  lemma OrWrapping(w: nat, a: int, b: int, n: int, o: nat)
    requires a + b + 1 + n == o + 1 * Pow2(w) && o < Pow2(w)
    ensures Wrap(w, Wrap(w, Wrap(w, a + b) + Wrap(w, 1)) + n) == o
  {
    var s := a + b;
    var one := Wrap(w, 1);
    calc {
      Wrap(w, Wrap(w, Wrap(w, s) + one) + n);
      { WrapAddLeft(w, Wrap(w, s) + one, n); }
      Wrap(w, Wrap(w, s) + (one + n));
      { WrapAddLeft(w, s, one + n); }
      Wrap(w, one + (s + n));
      { WrapAddLeft(w, 1, s + n); }
      Wrap(w, o + 1 * Pow2(w));
      { WrapShift(w, o, 1); }
      Wrap(w, o);
      { WrapWord(w, o); }
      o;
    }
  }

  /** `X | Y == X + Y + 1 + (~X | ~Y)`. */
  lemma {:induction false} MbaOr(w: nat, a: nat, b: nat)
    requires a < Pow2(w) && b < Pow2(w)
    ensures Wrap(w, Wrap(w, Wrap(w, a + b) + Wrap(w, 1)) + BitOr(w, BitNot(w, a), BitNot(w, b)))
            == BitOr(w, a, b)
  {
    OrOvershoot(w, a, b);
    OrWrapping(w, a, b, BitOr(w, BitNot(w, a), BitNot(w, b)), BitOr(w, a, b));
  }

  /** `2 * v` computed with the constant 2 as an `iN` constant. */
  lemma TwiceAsWord(w: nat, v: nat)
    ensures Wrap(w, Wrap(w, 2) * v) == Wrap(w, 2 * v)
  {
    if w == 1 {
      assert Pow2(1) == 2;
      ModUnique(2, 2, 1, 0);
      ModUnique(2 * v, 2, v, 0);
    } else if w >= 2 {
      assert Pow2(w) == 4 * Pow2(w - 2);
      WrapWord(w, 2);
    }
  }

  /** Wrapping in the `Sub` rewrite: the negation, the doubling and the final addition. */
  lemma SubWrapping(w: nat, a: nat, b: nat, x: nat, c: nat)
    requires x + 2 * c == a + Neg(w, b)
    ensures Wrap(w, x + Wrap(w, Wrap(w, 2) * c)) == Wrap(w, a - b)
  {
    calc {
      Wrap(w, x + Wrap(w, Wrap(w, 2) * c));
      { TwiceAsWord(w, c); }
      Wrap(w, x + Wrap(w, 2 * c));
      { WrapAddRight(w, x, 2 * c); }
      Wrap(w, a + Neg(w, b));
      { WrapAddRight(w, a, 0 - b); }
      Wrap(w, a - b);
    }
  }

  lemma MbaSubNamed(w: nat, a: nat, b: nat, xor: nat, and: nat)
    requires a < Pow2(w) && b < Pow2(w)
    requires xor == BitXor(w, a, Neg(w, b)) && and == BitAnd(w, a, Neg(w, b))
    ensures Wrap(w, xor + Wrap(w, Wrap(w, 2) * and)) == Wrap(w, a - b)
  {
    XorPlusTwiceAnd(w, a, Neg(w, b));
    SubWrapping(w, a, b, xor, and);
  }

  /** `X - Y == (X ^ -Y) + 2 * (X & -Y)`. */
  lemma MbaSub(w: nat, a: nat, b: nat)
    requires a < Pow2(w) && b < Pow2(w)
    ensures Wrap(w, BitXor(w, a, Neg(w, b)) + Wrap(w, Wrap(w, 2) * BitAnd(w, a, Neg(w, b))))
            == Wrap(w, a - b)
  {
    MbaSubNamed(w, a, b, BitXor(w, a, Neg(w, b)), BitAnd(w, a, Neg(w, b)));
  }

  // ---------------------------------------------------------------------
  // Wrapper bodies

  /** A wrapper body: an expression over the two parameters and constants. */
  datatype Expr =
    | Lhs
    | Rhs
    | Const(c: int)
    | Bin(op: Opcode, l: Expr, r: Expr)

  predicate WellFormed(e: Expr)
  {
    match e
    case Bin(op, l, r) => RingOp(op) && WellFormed(l) && WellFormed(r)
    case _ => true
  }

  /** The word a body computes for the arguments `x` and `y`. A constant is truncated to `iN`. */
  function Eval(w: nat, e: Expr, x: nat, y: nat): (r: nat)
    requires WellFormed(e) && x < Pow2(w) && y < Pow2(w)
    ensures r < Pow2(w)
  {
    match e
    case Lhs => x
    case Rhs => y
    case Const(c) => Wrap(w, c)
    case Bin(op, l, r) => Apply(w, op, Eval(w, l, x, y), Eval(w, r, x, y))
  }

  /** `CreateNot`: exclusive or with the all-ones constant. */
  function Not(e: Expr): (r: Expr)
    ensures WellFormed(e) ==> WellFormed(r)
  {
    Bin(Xor, e, Const(-1))
  }

  /** `CreateNeg`: subtraction from the zero constant. */
  function Negate(e: Expr): (r: Expr)
    ensures WellFormed(e) ==> WellFormed(r)
  {
    Bin(Sub, Const(0), e)
  }

  /** The visitor: the MBA expression that replaces `X op Y`. */
  function Rewrite(op: Opcode, x: Expr, y: Expr): (r: Expr)
    requires IsSupported(op)
    ensures WellFormed(x) && WellFormed(y) ==> WellFormed(r)
    ensures r.Bin? && IsSupported(r.op) && r.l.Bin?
  {
    match op
    case Xor => Bin(Sub, Bin(Or, x, y), Bin(And, x, y))
    case Add => Bin(Add, Bin(And, x, y), Bin(Or, x, y))
    case And => Bin(Sub, Bin(Add, x, y), Bin(Or, x, y))
    case Or => Bin(Add, Bin(Add, Bin(Add, x, y), Const(1)), Bin(Or, Not(x), Not(y)))
    case Sub => Bin(Add, Bin(Xor, x, Negate(y)), Bin(Mul, Const(2), Bin(And, x, Negate(y))))
  }

  lemma RewriteOrCorrect(w: nat, l: Expr, r: Expr, x: nat, y: nat, a: nat, b: nat)
    requires WellFormed(l) && WellFormed(r) && x < Pow2(w) && y < Pow2(w)
    requires a == Eval(w, l, x, y) && b == Eval(w, r, x, y)
    ensures Eval(w, Rewrite(Or, l, r), x, y) == BitOr(w, a, b)
  {
    var sum := Bin(Add, Bin(Add, l, r), Const(1));
    var nots := Bin(Or, Not(l), Not(r));
    assert Rewrite(Or, l, r) == Bin(Add, sum, nots);
    EvalOrSum(w, l, r, x, y, a, b);
    EvalOrNots(w, l, r, x, y, a, b);
    EvalBin(w, Add, sum, nots, x, y);
    MbaOr(w, a, b);
  }

  /** The left operand of the `Or` rewrite, `X + Y + 1`. */
  lemma EvalOrSum(w: nat, l: Expr, r: Expr, x: nat, y: nat, a: nat, b: nat)
    requires WellFormed(l) && WellFormed(r) && x < Pow2(w) && y < Pow2(w)
    requires a == Eval(w, l, x, y) && b == Eval(w, r, x, y)
    ensures WellFormed(Bin(Add, Bin(Add, l, r), Const(1)))
      && Eval(w, Bin(Add, Bin(Add, l, r), Const(1)), x, y) == Wrap(w, Wrap(w, a + b) + Wrap(w, 1))
  {
    EvalBin(w, Add, l, r, x, y);
    EvalBin(w, Add, Bin(Add, l, r), Const(1), x, y);
  }

  /** The right operand of the `Or` rewrite, `~X | ~Y`. */
  lemma EvalOrNots(w: nat, l: Expr, r: Expr, x: nat, y: nat, a: nat, b: nat)
    requires WellFormed(l) && WellFormed(r) && x < Pow2(w) && y < Pow2(w)
    requires a == Eval(w, l, x, y) && b == Eval(w, r, x, y)
    ensures WellFormed(Bin(Or, Not(l), Not(r)))
      && Eval(w, Bin(Or, Not(l), Not(r)), x, y) == BitOr(w, BitNot(w, a), BitNot(w, b))
  {
    EvalNot(w, l, x, y);
    EvalNot(w, r, x, y);
    EvalBin(w, Or, Not(l), Not(r), x, y);
  }

  /** A body node applies its operation to the words of its operands. */
  lemma EvalBin(w: nat, op: Opcode, l: Expr, r: Expr, x: nat, y: nat)
    requires RingOp(op) && WellFormed(l) && WellFormed(r) && x < Pow2(w) && y < Pow2(w)
    ensures Eval(w, Bin(op, l, r), x, y) == Apply(w, op, Eval(w, l, x, y), Eval(w, r, x, y))
  {
  }

  /** `CreateNot` computes the complement of its operand's word. */
  lemma EvalNot(w: nat, e: Expr, x: nat, y: nat)
    requires WellFormed(e) && x < Pow2(w) && y < Pow2(w)
    ensures Eval(w, Not(e), x, y) == BitNot(w, Eval(w, e, x, y))
  {
    var ones := Wrap(w, -1);
    WrapMinusOne(w);
    assert Eval(w, Not(e), x, y) == BitXor(w, Eval(w, e, x, y), ones);
  }

  lemma RewriteSubCorrect(w: nat, l: Expr, r: Expr, x: nat, y: nat, a: nat, b: nat)
    requires WellFormed(l) && WellFormed(r) && x < Pow2(w) && y < Pow2(w)
    requires a == Eval(w, l, x, y) && b == Eval(w, r, x, y)
    ensures Eval(w, Rewrite(Sub, l, r), x, y) == Wrap(w, a - b)
  {
    var xr := Bin(Xor, l, Negate(r));
    var twice := Bin(Mul, Const(2), Bin(And, l, Negate(r)));
    assert Rewrite(Sub, l, r) == Bin(Add, xr, twice);
    EvalNegate(w, r, x, y);
    EvalBin(w, Xor, l, Negate(r), x, y);
    EvalSubTwice(w, l, r, x, y, a, b);
    EvalBin(w, Add, xr, twice, x, y);
    MbaSubNamed(w, a, b, BitXor(w, a, Neg(w, b)), BitAnd(w, a, Neg(w, b)));
  }

  /** The right operand of the `Sub` rewrite, `2 * (X & -Y)`. */
  lemma EvalSubTwice(w: nat, l: Expr, r: Expr, x: nat, y: nat, a: nat, b: nat)
    requires WellFormed(l) && WellFormed(r) && x < Pow2(w) && y < Pow2(w)
    requires a == Eval(w, l, x, y) && b == Eval(w, r, x, y)
    ensures WellFormed(Bin(Mul, Const(2), Bin(And, l, Negate(r))))
      && Eval(w, Bin(Mul, Const(2), Bin(And, l, Negate(r))), x, y) == Wrap(w, Wrap(w, 2) * BitAnd(w, a, Neg(w, b)))
  {
    EvalNegate(w, r, x, y);
    EvalBin(w, And, l, Negate(r), x, y);
    EvalBin(w, Mul, Const(2), Bin(And, l, Negate(r)), x, y);
  }

  /** `CreateNeg` computes the two's complement negation of its operand's word. */
  lemma EvalNegate(w: nat, e: Expr, x: nat, y: nat)
    requires WellFormed(e) && x < Pow2(w) && y < Pow2(w)
    ensures Eval(w, Negate(e), x, y) == Neg(w, Eval(w, e, x, y))
  {
    var zero := Wrap(w, 0);
    WrapWord(w, 0);
    assert Eval(w, Negate(e), x, y) == Wrap(w, zero - Eval(w, e, x, y));
  }

  /** The `Xor`, `Add` and `And` rewrites: one operation on `X | Y` and one other on `X`, `Y`. */
  lemma RewriteLogicCorrect(w: nat, op: Opcode, l: Expr, r: Expr, x: nat, y: nat, a: nat, b: nat)
    requires op == Xor || op == Add || op == And
    requires WellFormed(l) && WellFormed(r) && x < Pow2(w) && y < Pow2(w)
    requires a == Eval(w, l, x, y) && b == Eval(w, r, x, y)
    ensures Eval(w, Rewrite(op, l, r), x, y) == Apply(w, op, a, b)
  {
    var rw := Rewrite(op, l, r);
    EvalBin(w, rw.l.op, l, r, x, y);
    EvalBin(w, rw.r.op, l, r, x, y);
    EvalBin(w, rw.op, rw.l, rw.r, x, y);
    if op == Xor {
      MbaXor(w, a, b);
    } else if op == Add {
      MbaAdd(w, a, b);
    } else {
      MbaAnd(w, a, b);
    }
  }

  /** Each rewrite computes the operation it replaces, at every width and for all operands. */
  lemma RewriteCorrect(w: nat, op: Opcode, l: Expr, r: Expr, x: nat, y: nat)
    requires IsSupported(op) && WellFormed(l) && WellFormed(r)
    requires x < Pow2(w) && y < Pow2(w)
    ensures Eval(w, Rewrite(op, l, r), x, y) == Apply(w, op, Eval(w, l, x, y), Eval(w, r, x, y))
  {
    var a, b := Eval(w, l, x, y), Eval(w, r, x, y);
    match op
    case Xor | Add | And => RewriteLogicCorrect(w, op, l, r, x, y, a, b);
    case Or => RewriteOrCorrect(w, l, r, x, y, a, b);
    case Sub => RewriteSubCorrect(w, l, r, x, y, a, b);
  }

  /**
   * One round over a wrapper body. Instructions are visited in order and
   * every visited one is replaced (all its uses redirected) by its rewrite,
   * so operands are rewritten before their users; the instructions a round
   * inserts are placed before the visited one and wait for the next round.
   */
  function Round(e: Expr): (r: Expr)
    ensures WellFormed(e) ==> WellFormed(r)
  {
    match e
    case Bin(op, l, r) =>
      if IsSupported(op) then Rewrite(op, Round(l), Round(r)) else Bin(op, Round(l), Round(r))
    case _ => e
  }

  /** A round never changes the word the body computes. */
  lemma {:induction false} RoundPreserves(w: nat, e: Expr, x: nat, y: nat)
    requires WellFormed(e) && x < Pow2(w) && y < Pow2(w)
    ensures Eval(w, Round(e), x, y) == Eval(w, e, x, y)
  {
    match e
    case Bin(op, l, r) =>
      RoundPreserves(w, l, x, y);
      RoundPreserves(w, r, x, y);
      if IsSupported(op) {
        RewriteCorrect(w, op, Round(l), Round(r), x, y);
      }
    case _ =>
  }

  /** The body computes `op` on the two parameters, at every width. */
  ghost predicate Computes(e: Expr, op: Opcode)
    requires RingOp(op)
  {
    WellFormed(e) &&
    forall w: nat, x: nat, y: nat :: x < Pow2(w) && y < Pow2(w) ==> Eval(w, e, x, y) == Apply(w, op, x, y)
  }

  /** `injectFunWrapper`: the wrapper returns `op` applied to its two parameters. */
  function WrapperBody(op: Opcode): (e: Expr)
    requires IsSupported(op)
    ensures Computes(e, op)
  {
    Bin(op, Lhs, Rhs)
  }

  /** The rounds loop over one wrapper: the body keeps computing the original operation. */
  method ObfuscateWrapper(op: Opcode, rounds: nat) returns (body: Expr)
    requires IsSupported(op)
    ensures Computes(body, op)
    ensures rounds > 0 ==> body != WrapperBody(op)
  {
    body := WrapperBody(op);
    for i := 0 to rounds
      invariant Computes(body, op)
      invariant body.Bin? && IsSupported(body.op) && (i > 0 ==> body.l.Bin?)
    {
      forall w: nat, x: nat, y: nat | x < Pow2(w) && y < Pow2(w)
        ensures Eval(w, Round(body), x, y) == Apply(w, op, x, y)
      {
        RoundPreserves(w, body, x, y);
      }
      body := Round(body);
    }
  }

  // ---------------------------------------------------------------------
  // The basic-block walk

  /** An instruction: what it is and its "obf" metadata node. */
  datatype InstKind = BinOp(op: Opcode) | WrapperCall(wrapper: nat) | OtherInst
  datatype Inst = Inst(kind: InstKind, obf: Option<seq<ObfMetadata.Metadata>>)

  /** A wrapper function the pass creates, with the rounds it gets and its final body. */
  datatype Wrapper = Wrapper(op: Opcode, rounds: nat, body: Expr)

  /**
   * The rounds for one instruction. An OPAQUE_OP annotation decides alone: its
   * value, or 0 when it carries none. Without one, the function's option does.
   */
  function NbRounds(inst: Inst, fnRounds: nat): (r: nat)
    ensures ObfMetadata.FindObf(inst.obf, ObfMetadata.OPAQUE_OP).None? ==> r == fnRounds
    ensures ObfMetadata.FindObf(inst.obf, ObfMetadata.OPAQUE_OP).Some? ==> r < TWO_64
  {
    match ObfMetadata.FindObf(inst.obf, ObfMetadata.OPAQUE_OP)
    case Some(mo) => if mo.value.Some? then mo.value.value else 0
    case None => fnRounds
  }

  /** An OPAQUE_OP annotation overrides the function's option: the count no longer depends on it. */
  lemma AnnotationOverrides(inst: Inst, fnRounds1: nat, fnRounds2: nat)
    requires ObfMetadata.HasObf(inst.obf, ObfMetadata.OPAQUE_OP)
    ensures NbRounds(inst, fnRounds1) == NbRounds(inst, fnRounds2)
  {
  }

  /** The instruction is moved into a wrapper: positive rounds and a supported binary operation. */
  predicate Selected(inst: Inst, fnRounds: nat)
  {
    NbRounds(inst, fnRounds) > 0 && inst.kind.BinOp? && IsSupported(inst.kind.op)
  }

  /** Every wrapper computes its operation. */
  ghost predicate WrappersCompute(ws: seq<Wrapper>)
  {
    forall k :: 0 <= k < |ws| ==> IsSupported(ws[k].op) && Computes(ws[k].body, ws[k].op)
  }

  function CountSelected(block: seq<Inst>, fnRounds: nat): (n: nat)
    ensures n <= |block|
  {
    if |block| == 0 then 0
    else CountSelected(block[..|block| - 1], fnRounds) + (if Selected(block[|block| - 1], fnRounds) then 1 else 0)
  }

  /** No wrapper is made exactly when no instruction is selected. */
  lemma {:induction false} CountSelectedZero(block: seq<Inst>, fnRounds: nat)
    ensures CountSelected(block, fnRounds) == 0 <==> forall i :: 0 <= i < |block| ==> !Selected(block[i], fnRounds)
  {
    if |block| > 0 {
      var init := block[..|block| - 1];
      CountSelectedZero(init, fnRounds);
      assert forall i :: 0 <= i < |init| ==> init[i] == block[i];
    }
  }

  /** The wrapper made for a selected instruction: `X op Y` with the instruction's rounds. */
  function WrapperFor(inst: Inst, fnRounds: nat): Wrapper
    requires inst.kind.BinOp?
  {
    Wrapper(inst.kind.op, NbRounds(inst, fnRounds), Bin(inst.kind.op, Lhs, Rhs))
  }

  /**
   * The first walk of `runOnBasicBlock` over a block: the new instructions and
   * the wrappers created, in order. A selected instruction becomes a call to
   * the next wrapper; any other stays.
   */
  function Outlining(block: seq<Inst>, fnRounds: nat): (r: (seq<Inst>, seq<Wrapper>))
    ensures |r.0| == |block| && |r.1| == CountSelected(block, fnRounds)
  {
    if |block| == 0 then ([], [])
    else
      var prior := Outlining(block[..|block| - 1], fnRounds);
      var inst := block[|block| - 1];
      if Selected(inst, fnRounds) then (prior.0 + [Inst(WrapperCall(|prior.1|), None)], prior.1 + [WrapperFor(inst, fnRounds)])
      else (prior.0 + [inst], prior.1)
  }

  /** `o`, put in place of `src`, calls a wrapper of `pending` for the operation and rounds of `src`. */
  predicate CallsWrapper(o: Inst, src: Inst, fnRounds: nat, pending: seq<Wrapper>)
  {
    o.kind.WrapperCall? && o.kind.wrapper < |pending| && src.kind.BinOp?
    && pending[o.kind.wrapper].op == src.kind.op
    && pending[o.kind.wrapper].rounds == NbRounds(src, fnRounds)
  }

  /** Every instruction that is not selected stays where it was. */
  lemma {:induction false} OutliningKeeps(block: seq<Inst>, fnRounds: nat)
    ensures forall i :: 0 <= i < |block| && !Selected(block[i], fnRounds) ==> Outlining(block, fnRounds).0[i] == block[i]
  {
    if |block| > 0 {
      var init := block[..|block| - 1];
      OutliningKeeps(init, fnRounds);
      assert forall i :: 0 <= i < |init| ==> init[i] == block[i];
    }
  }

  /** Every selected instruction calls a wrapper for its operation and rounds. */
  lemma {:induction false} OutliningCalls(block: seq<Inst>, fnRounds: nat)
    ensures forall i :: 0 <= i < |block| && Selected(block[i], fnRounds) ==>
              CallsWrapper(Outlining(block, fnRounds).0[i], block[i], fnRounds, Outlining(block, fnRounds).1)
  {
    if |block| > 0 {
      var init := block[..|block| - 1];
      OutliningCalls(init, fnRounds);
      var prior := Outlining(init, fnRounds);
      var r := Outlining(block, fnRounds);
      assert forall i :: 0 <= i < |init| ==> init[i] == block[i] && r.0[i] == prior.0[i];
      assert forall j :: 0 <= j < |prior.1| ==> r.1[j] == prior.1[j];
    }
  }

  /** A later selected instruction calls a later wrapper: each wrapper has one caller. */
  lemma {:induction false} OutliningOrdered(block: seq<Inst>, fnRounds: nat)
    ensures forall i, i' :: 0 <= i < i' < |block| && Selected(block[i], fnRounds) && Selected(block[i'], fnRounds) ==>
              Outlining(block, fnRounds).0[i].kind.WrapperCall? && Outlining(block, fnRounds).0[i'].kind.WrapperCall?
              && Outlining(block, fnRounds).0[i].kind.wrapper < Outlining(block, fnRounds).0[i'].kind.wrapper
  {
    if |block| > 0 {
      var init := block[..|block| - 1];
      OutliningOrdered(init, fnRounds);
      OutliningCalls(init, fnRounds);
      var prior := Outlining(init, fnRounds);
      var r := Outlining(block, fnRounds);
      assert forall i :: 0 <= i < |init| ==> init[i] == block[i] && r.0[i] == prior.0[i];
    }
  }

  /** Every wrapper computes `X op Y` for a supported operation before its rounds. */
  lemma {:induction false} OutliningBodies(block: seq<Inst>, fnRounds: nat)
    ensures forall j :: 0 <= j < |Outlining(block, fnRounds).1| ==>
              IsSupported(Outlining(block, fnRounds).1[j].op)
              && Outlining(block, fnRounds).1[j].body == Bin(Outlining(block, fnRounds).1[j].op, Lhs, Rhs)
  {
    if |block| > 0 {
      OutliningBodies(block[..|block| - 1], fnRounds);
    }
  }

  /**
   * The first walk of `runOnBasicBlock`: each selected instruction becomes a
   * call to a fresh wrapper computing `X op Y` with the instruction's rounds;
   * every other instruction stays. Wrappers are created in the order of their
   * instructions and each is called from exactly one place.
   */
  method OutlineSelected(block: seq<Inst>, fnRounds: nat) returns (out: seq<Inst>, pending: seq<Wrapper>)
    ensures (out, pending) == Outlining(block, fnRounds)
  {
    out := [];
    pending := [];
    var counter := 0;
    for k := 0 to |block|
      invariant counter == |pending| && (out, pending) == Outlining(block[..k], fnRounds)
    {
      assert block[..k + 1][..k] == block[..k];
      var inst := block[k];
      if Selected(inst, fnRounds) {
        var nbRounds := NbRounds(inst, fnRounds);
        pending := pending + [Wrapper(inst.kind.op, nbRounds, Bin(inst.kind.op, Lhs, Rhs))];
        out := out + [Inst(WrapperCall(counter), None)];
        counter := counter + 1;
      } else {
        out := out + [inst];
      }
    }
    assert block[..|block|] == block;
  }

  /** The second walk: every wrapper gets its rounds, in order. */
  method ObfuscateWrappers(pending: seq<Wrapper>) returns (wrappers: seq<Wrapper>)
    requires forall j :: 0 <= j < |pending| ==> IsSupported(pending[j].op)
    ensures |wrappers| == |pending|
    ensures forall i :: 0 <= i < |pending| ==> wrappers[i].op == pending[i].op && wrappers[i].rounds == pending[i].rounds
    ensures WrappersCompute(wrappers)
  {
    wrappers := [];
    for j := 0 to |pending|
      invariant |wrappers| == j
      invariant forall i :: 0 <= i < j ==> wrappers[i].op == pending[i].op && wrappers[i].rounds == pending[i].rounds
      invariant WrappersCompute(wrappers)
    {
      var body := ObfuscateWrapper(pending[j].op, pending[j].rounds);
      wrappers := wrappers + [Wrapper(pending[j].op, pending[j].rounds, body)];
    }
  }

  /**
   * `runOnBasicBlock`: the selected instructions become calls to wrappers that
   * compute the same operation after their rounds; every other instruction
   * stays. The block reports a change iff some instruction was selected.
   */
  method RunOnBasicBlock(block: seq<Inst>, fnRounds: nat) returns (out: seq<Inst>, wrappers: seq<Wrapper>, changed: bool)
    ensures |out| == |block| && |wrappers| == CountSelected(block, fnRounds)
    ensures forall i :: 0 <= i < |block| && !Selected(block[i], fnRounds) ==> out[i] == block[i]
    ensures forall i :: 0 <= i < |block| && Selected(block[i], fnRounds) ==>
              out[i].kind.WrapperCall? && out[i].kind.wrapper < |wrappers|
              && wrappers[out[i].kind.wrapper].op == block[i].kind.op
              && wrappers[out[i].kind.wrapper].rounds == NbRounds(block[i], fnRounds)
    ensures forall i, i' :: 0 <= i < i' < |block| && Selected(block[i], fnRounds) && Selected(block[i'], fnRounds) ==>
              out[i].kind.wrapper < out[i'].kind.wrapper
    ensures WrappersCompute(wrappers)
    ensures changed <==> exists i :: 0 <= i < |block| && Selected(block[i], fnRounds)
    ensures out == Outlining(block, fnRounds).0
  {
    var pending;
    out, pending := OutlineSelected(block, fnRounds);
    OutliningKeeps(block, fnRounds);
    OutliningCalls(block, fnRounds);
    OutliningOrdered(block, fnRounds);
    OutliningBodies(block, fnRounds);
    CountSelectedZero(block, fnRounds);
    wrappers := ObfuscateWrappers(pending);
    changed := |pending| > 0;
  }

  /** A function body: its basic blocks. */
  type Body = seq<seq<Inst>>

  /** Some instruction of the block is selected. */
  ghost predicate BlockSelects(block: seq<Inst>, fnRounds: nat)
  {
    exists i :: 0 <= i < |block| && Selected(block[i], fnRounds)
  }

  /** Some instruction of some block is selected. */
  ghost predicate BodySelects(blocks: Body, fnRounds: nat)
  {
    exists b :: 0 <= b < |blocks| && BlockSelects(blocks[b], fnRounds)
  }

  lemma BodySelectsSnoc(blocks: Body, b: nat, fnRounds: nat)
    requires b < |blocks|
    ensures BodySelects(blocks[..b + 1], fnRounds) == (BodySelects(blocks[..b], fnRounds) || BlockSelects(blocks[b], fnRounds))
  {
    if BodySelects(blocks[..b + 1], fnRounds) && !BlockSelects(blocks[b], fnRounds) {
      var c :| 0 <= c < b + 1 && BlockSelects(blocks[..b + 1][c], fnRounds);
      assert blocks[..b][c] == blocks[..b + 1][c];
    }
    if BodySelects(blocks[..b], fnRounds) {
      var c :| 0 <= c < b && BlockSelects(blocks[..b][c], fnRounds);
      assert blocks[..b + 1][c] == blocks[..b][c];
    }
    if BlockSelects(blocks[b], fnRounds) {
      assert blocks[..b + 1][b] == blocks[b];
    }
  }

  lemma WrappersComputeConcat(ws: seq<Wrapper>, ws': seq<Wrapper>)
    requires WrappersCompute(ws) && WrappersCompute(ws')
    ensures WrappersCompute(ws + ws')
  {
    assert forall k :: |ws| <= k < |ws + ws'| ==> (ws + ws')[k] == ws'[k - |ws|];
  }

  /** One step of the inner loop of `run`: one block through `runOnBasicBlock`. */
  method RunBlockStep(block: seq<Inst>, rounds: nat, wrappers: seq<Wrapper>)
    returns (nb: seq<Inst>, wrappers': seq<Wrapper>, bbChanged: bool)
    requires WrappersCompute(wrappers)
    ensures nb == Outlining(block, rounds).0
    ensures WrappersCompute(wrappers')
    ensures bbChanged == BlockSelects(block, rounds)
  {
    var ws;
    nb, ws, bbChanged := RunOnBasicBlock(block, rounds);
    WrappersComputeConcat(wrappers, ws);
    wrappers' := wrappers + ws;
  }

  /**
   * The inner loop of `run`: every block of one function goes through
   * `runOnBasicBlock`, and the new wrappers join those made so far.
   */
  method RunOnBlocks(blocks: Body, rounds: nat, wrappers: seq<Wrapper>)
    returns (newBlocks: Body, wrappers': seq<Wrapper>, fnChanged: bool)
    requires WrappersCompute(wrappers)
    ensures |newBlocks| == |blocks|
    ensures forall c :: 0 <= c < |blocks| ==> newBlocks[c] == Outlining(blocks[c], rounds).0
    ensures WrappersCompute(wrappers')
    ensures fnChanged == BodySelects(blocks, rounds)
  {
    newBlocks := [];
    wrappers' := wrappers;
    fnChanged := false;
    for b := 0 to |blocks|
      invariant |newBlocks| == b
      invariant forall c :: 0 <= c < b ==> newBlocks[c] == Outlining(blocks[c], rounds).0
      invariant WrappersCompute(wrappers')
      invariant fnChanged == BodySelects(blocks[..b], rounds)
    {
      var nb, bbChanged;
      nb, wrappers', bbChanged := RunBlockStep(blocks[b], rounds, wrappers');
      BodySelectsSnoc(blocks, b, rounds);
      newBlocks := newBlocks + [nb];
      fnChanged := fnChanged || bbChanged;
    }
    assert blocks[..|blocks|] == blocks;
  }

  /** `run`'s result for one function: untouched when its option is falsy, every block outlined otherwise. */
  ghost predicate RanOn(body: Body, opt: ArithmeticOpt, out: Body)
  {
    && |out| == |body|
    && (!IsTruthy(opt) ==> out == body)
    && (IsTruthy(opt) ==> forall b :: 0 <= b < |body| ==> out[b] == Outlining(body[b], opt.iterations as nat).0)
  }

  /**
   * `run`: functions whose option is falsy are left alone; the others have
   * every block processed with their round count. The module changes iff
   * some block of such a function changes.
   */
  method Run(fs: seq<Body>, opts: seq<ArithmeticOpt>) returns (changed: bool, out: seq<Body>, wrappers: seq<Wrapper>)
    requires |opts| == |fs|
    ensures |out| == |fs|
    ensures forall f :: 0 <= f < |fs| ==> RanOn(fs[f], opts[f], out[f])
    ensures WrappersCompute(wrappers)
    ensures changed <==> exists f :: 0 <= f < |fs| && IsTruthy(opts[f]) && BodySelects(fs[f], opts[f].iterations as nat)
  {
    changed := false;
    out := [];
    wrappers := [];
    for f := 0 to |fs|
      invariant |out| == f
      invariant forall g :: 0 <= g < f ==> RanOn(fs[g], opts[g], out[g])
      invariant WrappersCompute(wrappers)
      invariant changed <==> exists g :: 0 <= g < f && IsTruthy(opts[g]) && BodySelects(fs[g], opts[g].iterations as nat)
    {
      if !IsTruthy(opts[f]) {
        out := out + [fs[f]];
        continue;
      }
      var newBlocks, fnChanged;
      newBlocks, wrappers, fnChanged := RunOnBlocks(fs[f], opts[f].iterations as nat, wrappers);
      out := out + [newBlocks];
      changed := changed || fnChanged;
    }
  }
}

/**
 * The opaque-constants pass: integer constant operands are replaced by
 * instructions that recompute them from the block's opaque context (two
 * stack slots created once per block) and a private global. Which
 * constants are replaced is decided by the option the configuration hook
 * returns for the function, or forced by an `OPAQUE_CST` annotation on the
 * instruction.
 */
module OpaqueConstants {
  import opened Wrappers
  import opened Words
  import opened OpaqueConstantsOpts
  import opened GenOpaque
  import ObfMetadata
  import opened Random

  // ---------------------------------------------------------------------
  // Deciding which constants to protect

  /** The sentinel the set visitor clamps to. */
  const MAGIC: nat := 0x4208d8df2c6415bc

  /** The hook's option holds `uint64_t` values. */
  predicate ValidOpt(o: OpaqueConstantsOpt)
  {
    match o
    case LowerLimit(l) => l <= UINT64_MAX
    case Set(vs) => forall v :: v in vs ==> v < TWO_64
    case _ => true
  }

  /**
   * The three visitors of `Process` as written, for 0, for 1 and for any
   * other value.
   */
  function ShouldProtectAsWritten(opt: OpaqueConstantsOpt, value: nat): (r: bool)
    requires ValidOpt(opt)
    ensures opt.Skip? ==> !r
    ensures opt.Bool? ==> r == opt.flag
  {
    if value == 0 then
      match opt
      case Skip => false
      case Bool(b) => b
      case LowerLimit(_) => false
      case Set(vs) => 0 in vs
    else if value == 1 then
      match opt
      case Skip => false
      case Bool(b) => b
      case LowerLimit(l) => l >= 1
      case Set(vs) => 1 in vs
    else
      match opt
      case Skip => false
      case Bool(b) => b
      case LowerLimit(l) => LimitedValue(value, UINT64_MAX) > l
      case Set(vs) =>
        var lv := LimitedValue(value, MAGIC);
        lv == MAGIC || (vs != {} && lv in vs)
  }

  /** A lower limit of 100 protects the constant 1, and a lower limit of 0 does not. */
  lemma LowerLimitOneAsWritten()
    ensures ShouldProtectAsWritten(LowerLimit(100), 1) && !(1 > 100)
    ensures !ShouldProtectAsWritten(LowerLimit(0), 1) && 1 > 0
  {
  }

  /** An empty set protects `MAGIC`, a constant that fits in 64 bits. */
  lemma MagicAsWritten()
    ensures ShouldProtectAsWritten(Set({}), MAGIC) && MAGIC < TWO_64
  {
  }

  /**
   * The visitors as intended: a lower limit protects the constants above
   * it, including 1, and a set protects its members and the constants that
   * do not fit in 64 bits.
   */
  function ShouldProtect(opt: OpaqueConstantsOpt, value: nat): (r: bool)
    requires ValidOpt(opt)
    ensures opt.Skip? ==> !r
    ensures opt.Bool? ==> r == opt.flag
  {
    if value == 0 then
      match opt
      case Skip => false
      case Bool(b) => b
      case LowerLimit(_) => false
      case Set(vs) => 0 in vs
    else if value == 1 then
      match opt
      case Skip => false
      case Bool(b) => b
      case LowerLimit(l) => 1 > l
      case Set(vs) => 1 in vs
    else
      match opt
      case Skip => false
      case Bool(b) => b
      case LowerLimit(l) => LimitedValue(value, UINT64_MAX) > l
      case Set(vs) => value >= TWO_64 || value in vs
  }

  /**
   * One rule for every constant, 0 and 1 included: above the limit (as a
   * `uint64_t`), or in the set or too wide for it.
   */
  lemma ShouldProtectUniform(opt: OpaqueConstantsOpt, value: nat)
    requires ValidOpt(opt)
    ensures opt.LowerLimit? ==> (ShouldProtect(opt, value) <==> LimitedValue(value, UINT64_MAX) > opt.value)
    ensures opt.Set? ==> (ShouldProtect(opt, value) <==> value in opt.values || value >= TWO_64)
  {
  }

  /** The two readings differ only for 1 under a lower limit and for `[MAGIC, 2^64)` under a set. */
  lemma AsWrittenAgreesElsewhere(opt: OpaqueConstantsOpt, value: nat)
    requires ValidOpt(opt)
    requires !(opt.LowerLimit? && value == 1)
    requires !(opt.Set? && MAGIC <= value < TWO_64)
    ensures ShouldProtectAsWritten(opt, value) == ShouldProtect(opt, value)
  {
  }

  /** A false flag or an empty set protects nothing; a true flag protects everything that fits. */
  lemma FalsyProtectsNothing(opt: OpaqueConstantsOpt, value: nat)
    requires ValidOpt(opt) && value < TWO_64
    ensures (opt.Bool? || opt.Set?) && !IsTruthy(opt) ==> !ShouldProtect(opt, value)
    ensures opt == Bool(true) ==> ShouldProtect(opt, value)
  {
  }

  // ---------------------------------------------------------------------
  // The IR the pass walks

  datatype InstKind = Call | GetElementPtr | Switch | OtherKind

  datatype Operand =
    /** A `ConstantInt` of an `iN` type. */
    | IntConst(width: nat, value: nat)
    /** The value computed by generated instructions. */
    | Opaqued(o: Opaque)
    | OtherOperand

  datatype Inst = Inst(kind: InstKind, operands: seq<Operand>, obf: Option<seq<ObfMetadata.Metadata>>)

  /** A basic block; `hasInsertionPoint` is false when `getFirstInsertionPt()` is the end. */
  datatype Block = Block(id: nat, hasInsertionPoint: bool, insts: seq<Inst>)

  datatype Function = Function(id: nat, blocks: seq<Block>)

  /** The two `i64` slots T1 and T2 created in a block. */
  datatype OpaqueContext = OpaqueContext(block: nat)

  /** `isEligible`: calls, GEPs and switches keep their constants. */
  predicate IsEligible(i: Inst)
  {
    !(i.kind.Call? || i.kind.GetElementPtr? || i.kind.Switch?)
  }

  /** An `iN` constant has at least one bit and fits it. */
  predicate WellTyped(c: Operand)
  {
    c.IntConst? ==> c.width >= 1 && c.value < Pow2(c.width)
  }

  predicate InstWellTyped(i: Inst)
  {
    forall j :: 0 <= j < |i.operands| ==> WellTyped(i.operands[j])
  }

  predicate BlockWellTyped(b: Block)
  {
    forall k :: 0 <= k < |b.insts| ==> InstWellTyped(b.insts[k])
  }

  predicate FunctionWellTyped(f: Function)
  {
    forall k :: 0 <= k < |f.blocks| ==> BlockWellTyped(f.blocks[k])
  }

  /** `o` computes `v` in `iN` in every frame whose T2 is 8-aligned. */
  ghost predicate Rebuilds(o: Opaque, width: nat, v: nat)
  {
    o.width == width && forall f :: Aligned(f) ==> Eval(o, f) == v
  }

  /** What the pass may do to an operand: keep it, or replace a constant by code that rebuilds it. */
  ghost predicate OperandRefines(c: Operand, d: Operand)
  {
    d == c || (c.IntConst? && d.Opaqued? && Rebuilds(d.o, c.width, c.value))
  }

  ghost predicate InstRefines(i: Inst, i': Inst)
  {
    i'.kind == i.kind && i'.obf == i.obf && |i'.operands| == |i.operands|
    && forall j :: 0 <= j < |i.operands| ==> OperandRefines(i.operands[j], i'.operands[j])
  }

  ghost predicate BlockRefines(b: Block, b': Block)
  {
    b'.id == b.id && b'.hasInsertionPoint == b.hasInsertionPoint && |b'.insts| == |b.insts|
    && forall k :: 0 <= k < |b.insts| ==> InstRefines(b.insts[k], b'.insts[k])
  }

  ghost predicate FunctionRefines(f: Function, f': Function)
  {
    f'.id == f.id && |f'.blocks| == |f.blocks|
    && forall k :: 0 <= k < |f.blocks| ==> BlockRefines(f.blocks[k], f'.blocks[k])
  }

  predicate HasIntConst(ops: seq<Operand>)
  {
    exists j :: 0 <= j < |ops| && ops[j].IntConst?
  }

  /** The option an instruction is processed under: forced on by `OPAQUE_CST`, else the function's. */
  function Effective(i: Inst, opt: Option<OpaqueConstantsOpt>): (r: Option<OpaqueConstantsOpt>)
    ensures ObfMetadata.HasObf(i.obf, ObfMetadata.OPAQUE_CST) ==> r == Some(Bool(true))
    ensures !ObfMetadata.HasObf(i.obf, ObfMetadata.OPAQUE_CST) ==> r == opt
  {
    if ObfMetadata.HasObf(i.obf, ObfMetadata.OPAQUE_CST) then Some(Bool(true)) else opt
  }

  /** The instruction asks for a context: it is processed, eligible and has a constant operand. */
  predicate Touches(i: Inst, opt: Option<OpaqueConstantsOpt>)
  {
    Effective(i, opt).Some? && IsEligible(i) && HasIntConst(i.operands)
  }

  function AnyTouches(insts: seq<Inst>, opt: Option<OpaqueConstantsOpt>): bool
  {
    if |insts| == 0 then false else AnyTouches(insts[..|insts| - 1], opt) || Touches(insts[|insts| - 1], opt)
  }

  lemma {:induction false} AnyTouchesExactly(insts: seq<Inst>, opt: Option<OpaqueConstantsOpt>)
    ensures AnyTouches(insts, opt) <==> exists k :: 0 <= k < |insts| && Touches(insts[k], opt)
  {
    if |insts| > 0 {
      var init := insts[..|insts| - 1];
      AnyTouchesExactly(init, opt);
      if AnyTouches(init, opt) {
        var k :| 0 <= k < |init| && Touches(init[k], opt);
        assert insts[k] == init[k];
      }
      forall k | 0 <= k < |init| && Touches(insts[k], opt)
        ensures AnyTouches(init, opt)
      {
        assert init[k] == insts[k];
      }
    }
  }

  /** The context of a block once it has one (or could get one). */
  predicate Available(b: Block, ctx0: map<nat, OpaqueContext>)
  {
    b.id in ctx0 || b.hasInsertionPoint
  }

  /** Whether `Process(I, Op, CI, opt)` replaces the constant `c`. */
  predicate Opaques(i: Inst, b: Block, ctx0: map<nat, OpaqueContext>, opt: OpaqueConstantsOpt, c: Operand)
    requires ValidOpt(opt)
  {
    c.IntConst? && IsEligible(i) && Available(b, ctx0) && ShouldProtect(opt, c.value)
  }

  /** Whether `runOnBasicBlock` replaces operand `j` of instruction `k` of `b`. */
  predicate OpaquesAt(b: Block, k: nat, j: nat, ctx0: map<nat, OpaqueContext>, opt: Option<OpaqueConstantsOpt>)
    requires k < |b.insts| && j < |b.insts[k].operands|
    requires opt.Some? ==> ValidOpt(opt.value)
  {
    var e := Effective(b.insts[k], opt);
    e.Some? && Opaques(b.insts[k], b, ctx0, e.value, b.insts[k].operands[j])
  }

  /**
   * The state of the loop of `Process(I, opt)` after the first `j` operands:
   * every operand refines its original, those from `j` on are untouched, an
   * earlier one was replaced exactly when `Opaques` says, and the block has a
   * context exactly when an earlier operand asked.
   */
  ghost predicate OperandsDone(i: Inst, b: Block, opt: OpaqueConstantsOpt, j: nat, ops: seq<Operand>,
                               ctx0: map<nat, OpaqueContext>, ctx: map<nat, OpaqueContext>)
    requires j <= |i.operands| && ValidOpt(opt)
  {
    && |ops| == |i.operands|
    && (forall m :: 0 <= m < |ops| ==> OperandRefines(i.operands[m], ops[m]))
    && (forall m :: j <= m < |ops| ==> ops[m] == i.operands[m])
    && (forall m :: 0 <= m < j ==> (ops[m] != i.operands[m] <==> Opaques(i, b, ctx0, opt, i.operands[m])))
    && ctx == if IsEligible(i) && HasIntConst(i.operands[..j]) && Available(b, ctx0)
              then ctx0[b.id := OpaqueContext(b.id)] else ctx0
  }

  /**
   * The state of `runOnBasicBlock` after the first `k` instructions of `b`:
   * every instruction refines its original, those from `k` on are untouched,
   * an operand of an earlier one was replaced exactly when `OpaquesAt` says,
   * and the block has a context exactly when an earlier instruction asked.
   */
  ghost predicate BlockDone(b: Block, opt: Option<OpaqueConstantsOpt>, k: nat, insts: seq<Inst>,
                            ctx0: map<nat, OpaqueContext>, ctx: map<nat, OpaqueContext>)
    requires k <= |b.insts| && (opt.Some? ==> ValidOpt(opt.value))
  {
    && |insts| == |b.insts|
    && (forall m :: 0 <= m < |insts| ==> InstRefines(b.insts[m], insts[m]))
    && (forall m :: k <= m < |insts| ==> insts[m] == b.insts[m])
    && (forall m, j :: 0 <= m < k && 0 <= j < |b.insts[m].operands| ==>
          (insts[m].operands[j] != b.insts[m].operands[j] <==> OpaquesAt(b, m, j, ctx0, opt)))
    && ctx == if AnyTouches(b.insts[..k], opt) && Available(b, ctx0) then ctx0[b.id := OpaqueContext(b.id)] else ctx0
  }

  /**
   * The state of the loop over the blocks of `f` after the first `k`: every
   * block refines its original, those from `k` on are untouched and keep
   * their context status, an operand of an earlier block was replaced
   * exactly when `OpaquesAt` says, and contexts were only added, for
   * earlier blocks.
   */
  ghost predicate FunctionDone(f: Function, opt: Option<OpaqueConstantsOpt>, k: nat, blocks: seq<Block>,
                               ctx0: map<nat, OpaqueContext>, ctx: map<nat, OpaqueContext>)
    requires k <= |f.blocks| && (opt.Some? ==> ValidOpt(opt.value))
  {
    && |blocks| == |f.blocks|
    && (forall m :: 0 <= m < |blocks| ==> BlockRefines(f.blocks[m], blocks[m]))
    && (forall m :: k <= m < |blocks| ==> blocks[m] == f.blocks[m])
    && (forall m, n, j :: 0 <= m < k && 0 <= n < |f.blocks[m].insts| && 0 <= j < |f.blocks[m].insts[n].operands| ==>
          (blocks[m].insts[n].operands[j] != f.blocks[m].insts[n].operands[j] <==> OpaquesAt(f.blocks[m], n, j, ctx0, opt)))
    && (forall m :: k <= m < |blocks| ==> (f.blocks[m].id in ctx <==> f.blocks[m].id in ctx0))
    && (forall id :: id in ctx0 ==> id in ctx)
    && (forall id :: id in ctx ==> id in ctx0 || exists m :: 0 <= m < k && f.blocks[m].id == id)
  }

  /** The options `run` records: the first non-skip option of each function not seen before. */
  function InsertOpts(opts0: map<nat, OpaqueConstantsOpt>, fs: seq<Function>, hooks: seq<OpaqueConstantsOpt>): (r: map<nat, OpaqueConstantsOpt>)
    requires |hooks| == |fs|
    ensures forall fid :: fid in opts0 ==> fid in r && r[fid] == opts0[fid]
    ensures forall fid :: fid in r ==> fid in opts0 || exists i :: 0 <= i < |fs| && fs[i].id == fid && !hooks[i].Skip?
  {
    if |fs| == 0 then opts0
    else
      var n := |fs| - 1;
      var prev := InsertOpts(opts0, fs[..n], hooks[..n]);
      var r := if hooks[n].Skip? || fs[n].id in prev then prev else prev[fs[n].id := hooks[n]];
      assert forall fid :: fid in prev ==> fid in opts0 || exists i :: 0 <= i < n && fs[i].id == fid && !hooks[i].Skip? by {
        forall fid | fid in prev && fid !in opts0
          ensures exists i :: 0 <= i < n && fs[i].id == fid && !hooks[i].Skip?
        {
          var i :| 0 <= i < |fs[..n]| && fs[..n][i].id == fid && !hooks[..n][i].Skip?;
        }
      }
      r
  }

  /** Nothing changed below the block level except the instructions annotated `OPAQUE_CST`. */
  ghost predicate OnlyAnnotatedChange(f: Function, f': Function)
    requires FunctionRefines(f, f')
  {
    forall k, m :: 0 <= k < |f.blocks| && 0 <= m < |f.blocks[k].insts| ==>
      f'.blocks[k].insts[m] != f.blocks[k].insts[m] ==> ObfMetadata.HasObf(f.blocks[k].insts[m].obf, ObfMetadata.OPAQUE_CST)
  }

  /** One more function: its option is recorded if not skipped and its identity is new. */
  lemma InsertOptsStep(opts0: map<nat, OpaqueConstantsOpt>, fs: seq<Function>, hooks: seq<OpaqueConstantsOpt>, i: nat)
    requires |hooks| == |fs| && i < |fs|
    requires forall a, b :: 0 <= a < b < |fs| ==> fs[a].id != fs[b].id
    ensures var prev := InsertOpts(opts0, fs[..i], hooks[..i]);
      && (fs[i].id in prev <==> fs[i].id in opts0)
      && InsertOpts(opts0, fs[..i + 1], hooks[..i + 1])
         == if hooks[i].Skip? || fs[i].id in prev then prev else prev[fs[i].id := hooks[i]]
  {
    assert fs[..i + 1][..i] == fs[..i] && hooks[..i + 1][..i] == hooks[..i];
  }

  /** What `run` did to one function, given the contexts and options it started from. */
  ghost predicate RunResult(f: Function, hook: OpaqueConstantsOpt, f': Function, ctx0: map<nat, OpaqueContext>, opts0: map<nat, OpaqueConstantsOpt>)
  {
    FunctionRefines(f, f')
    && (hook.Skip? ==> f' == f)
    && (!hook.Skip? ==> ChangesExactly(f, f', ctx0, Recorded(opts0, f, hook)))
    && (f.id in opts0 ==> OnlyAnnotatedChange(f, f'))
  }

  /** Only which blocks have contexts and whether the function has an option matter. */
  lemma RunResultFrom(f: Function, hook: OpaqueConstantsOpt, f': Function, c1: map<nat, OpaqueContext>, c2: map<nat, OpaqueContext>,
                      o1: map<nat, OpaqueConstantsOpt>, o2: map<nat, OpaqueConstantsOpt>)
    requires RunResult(f, hook, f', c1, o1)
    requires forall k :: 0 <= k < |f.blocks| ==> (f.blocks[k].id in c1 <==> f.blocks[k].id in c2)
    requires f.id in o1 <==> f.id in o2
    ensures RunResult(f, hook, f', c2, o2)
  {
    if !hook.Skip? {
      ChangesExactlyCtx(f, f', c1, c2, Recorded(o1, f, hook));
    }
  }

  /** Block identities are unique across the functions of the module. */
  ghost predicate DistinctBlocks(fs: seq<Function>)
  {
    forall i, k, j, m :: 0 <= i < |fs| && 0 <= k < |fs[i].blocks| && 0 <= j < |fs| && 0 <= m < |fs[j].blocks| && (i, k) != (j, m) ==>
      fs[i].blocks[k].id != fs[j].blocks[m].id
  }

  /** Exactly the operands the option (or an annotation) protects were replaced. */
  ghost predicate ChangesExactly(f: Function, f': Function, ctx0: map<nat, OpaqueContext>, opt: Option<OpaqueConstantsOpt>)
  {
    FunctionRefines(f, f') && (opt.Some? ==> ValidOpt(opt.value))
    && forall k, n, j :: 0 <= k < |f.blocks| && 0 <= n < |f.blocks[k].insts| && 0 <= j < |f.blocks[k].insts[n].operands| ==>
      (f'.blocks[k].insts[n].operands[j] != f.blocks[k].insts[n].operands[j] <==> OpaquesAt(f.blocks[k], n, j, ctx0, opt))
  }

  /** Only which blocks have a context matters. */
  lemma ChangesExactlyCtx(f: Function, f': Function, c1: map<nat, OpaqueContext>, c2: map<nat, OpaqueContext>, opt: Option<OpaqueConstantsOpt>)
    requires forall k :: 0 <= k < |f.blocks| ==> (f.blocks[k].id in c1 <==> f.blocks[k].id in c2)
    requires ChangesExactly(f, f', c1, opt)
    ensures ChangesExactly(f, f', c2, opt)
  {
    forall k, n, j | 0 <= k < |f.blocks| && 0 <= n < |f.blocks[k].insts| && 0 <= j < |f.blocks[k].insts[n].operands|
      ensures OpaquesAt(f.blocks[k], n, j, c1, opt) == OpaquesAt(f.blocks[k], n, j, c2, opt)
    {
      assert Available(f.blocks[k], c1) == Available(f.blocks[k], c2);
    }
  }

  /** With no option, only annotated instructions can change. */
  lemma OnlyAnnotated(f: Function, f': Function, ctx0: map<nat, OpaqueContext>, opt: Option<OpaqueConstantsOpt>)
    requires ChangesExactly(f, f', ctx0, opt)
    ensures opt.None? ==> OnlyAnnotatedChange(f, f')
  {
    if opt.None? {
      forall k, n | 0 <= k < |f.blocks| && 0 <= n < |f.blocks[k].insts| && !ObfMetadata.HasObf(f.blocks[k].insts[n].obf, ObfMetadata.OPAQUE_CST)
        ensures f'.blocks[k].insts[n] == f.blocks[k].insts[n]
      {
        forall j | 0 <= j < |f.blocks[k].insts[n].operands|
          ensures f'.blocks[k].insts[n].operands[j] == f.blocks[k].insts[n].operands[j]
        {
          assert !OpaquesAt(f.blocks[k], n, j, ctx0, opt);
        }
        assert f'.blocks[k].insts[n].operands == f.blocks[k].insts[n].operands;
      }
    }
  }

  /** The option a function is processed under: the hook's, unless one was recorded before. */
  function Recorded(opts0: map<nat, OpaqueConstantsOpt>, f: Function, hook: OpaqueConstantsOpt): (r: Option<OpaqueConstantsOpt>)
    ensures r.Some? <==> f.id !in opts0
  {
    if f.id in opts0 then None else Some(hook)
  }

  /** The functions from `i` on have contexts for the same blocks in both maps. */
  ghost predicate SameContexts(fs: seq<Function>, i: nat, c1: map<nat, OpaqueContext>, c2: map<nat, OpaqueContext>)
  {
    forall m, k :: i <= m < |fs| && 0 <= k < |fs[m].blocks| ==> (fs[m].blocks[k].id in c1 <==> fs[m].blocks[k].id in c2)
  }

  /** Contexts created for the blocks of function `i` are not contexts of later functions' blocks. */
  lemma NewContextsElsewhere(fs: seq<Function>, i: nat, c0: map<nat, OpaqueContext>, c1: map<nat, OpaqueContext>, c2: map<nat, OpaqueContext>)
    requires i < |fs| && DistinctBlocks(fs)
    requires SameContexts(fs, i, c0, c2)
    requires forall id :: id in c0 ==> id in c1
    requires forall id :: id in c1 ==> id in c0 || exists k :: 0 <= k < |fs[i].blocks| && fs[i].blocks[k].id == id
    ensures SameContexts(fs, i + 1, c1, c2)
  {
  }

  /**
   * The state of `run` after the first `i` functions: the options of those
   * recorded, each processed as `RunResult` says, the rest untouched with
   * their blocks' context status unchanged, and `changed` telling whether
   * any function changed.
   */
  ghost predicate ModuleDone(fs: seq<Function>, hooks: seq<OpaqueConstantsOpt>, i: nat, out: seq<Function>, changed: bool,
                             ctx0: map<nat, OpaqueContext>, opts0: map<nat, OpaqueConstantsOpt>,
                             ctx: map<nat, OpaqueContext>, opts: map<nat, OpaqueConstantsOpt>)
    requires |hooks| == |fs| && i <= |fs|
  {
    && opts == InsertOpts(opts0, fs[..i], hooks[..i])
    && |out| == |fs|
    && (forall m :: 0 <= m < i ==> RunResult(fs[m], hooks[m], out[m], ctx0, opts0))
    && (forall m :: i <= m < |fs| ==> out[m] == fs[m])
    && SameContexts(fs, i, ctx, ctx0)
    && (changed <==> exists m :: 0 <= m < i && out[m] != fs[m])
  }

  /** The pass object: its random stream, the per-block contexts and the per-function options. */
  class OpaqueConstantsPass {
    var rng: Rng
    var drawn: nat
    var ctx: map<nat, OpaqueContext>
    var opts: map<nat, OpaqueConstantsOpt>

    /** A context is keyed by its own block. */
    ghost predicate CtxValid()
      reads this
    {
      forall b :: b in ctx ==> ctx[b] == OpaqueContext(b)
    }

    ghost predicate OptsValid()
      reads this
    {
      forall fid :: fid in opts ==> ValidOpt(opts[fid])
    }

    constructor(rng: Rng)
      ensures this.rng == rng && drawn == 0 && ctx == map[] && opts == map[]
    {
      this.rng := rng;
      drawn := 0;
      ctx := map[];
      opts := map[];
    }

    /** `getOrCreateContext`: found, created at the first insertion point, or none. */
    method GetOrCreateContext(b: Block) returns (c: Option<OpaqueContext>)
      requires CtxValid()
      modifies this
      ensures CtxValid()
      ensures c.Some? <==> Available(b, old(ctx))
      ensures c.Some? ==> c.value == OpaqueContext(b.id) && ctx == old(ctx)[b.id := c.value]
      ensures c.None? ==> ctx == old(ctx)
      ensures b.id in old(ctx) ==> ctx == old(ctx)
      ensures rng == old(rng) && drawn == old(drawn) && opts == old(opts)
    {
      if b.id in ctx {
        c := Some(ctx[b.id]);
      } else if !b.hasInsertionPoint {
        c := None;
      } else {
        c := Some(OpaqueContext(b.id));
        ctx := ctx[b.id := c.value];
      }
    }

    /** `Dist(RNG)` for `uniform_int_distribution(lo, hi)`. */
    method Draw(lo: nat, hi: nat) returns (v: nat)
      requires lo <= hi && Uniform(rng)
      modifies this
      ensures lo <= v <= hi && v == old(rng)(old(drawn), lo, hi)
      ensures drawn == old(drawn) + 1
      ensures rng == old(rng) && ctx == old(ctx) && opts == old(opts)
    {
      v := rng(drawn, lo, hi);
      drawn := drawn + 1;
    }

    /**
     * `GetOpaqueZero`, `GetOpaqueOne` and `GetOpaqueCst`: one of three
     * generators is picked by a draw in `[1, 3]`, and all three build the
     * same code.
     */
    method Generate(width: nat, value: nat) returns (g: Option<Opaque>)
      requires width >= 1 && value < Pow2(width) && Uniform(rng)
      modifies this
      ensures g.Some? && Rebuilds(g.value, width, value)
      ensures rng == old(rng) && ctx == old(ctx) && opts == old(opts) && drawn > old(drawn)
    {
      var sel := Draw(1, 3);
      if !(1 <= sel <= 3) {
        g := None;
      } else if value == 0 {
        g := Some(OpaqueZero(width));
      } else if value == 1 {
        var d := Draw(1, 50);
        g := Some(OpaqueOne(width, d));
        forall f | Aligned(f)
          ensures Eval(g.value, f) == value
        {
          OneCorrect(width, d, f);
        }
      } else {
        var split := Draw(SplitBounds(value).0, SplitBounds(value).1);
        g := OpaqueConst(width, value, split);
        forall f | Aligned(f)
          ensures Eval(g.value, f) == value
        {
          ConstCorrect(width, value, split, f);
        }
      }
    }

    /** `Process(I, Op, CI, opt)` for one constant operand of `i` in block `b`. */
    method ProcessConstant(i: Inst, b: Block, c: Operand, opt: OpaqueConstantsOpt) returns (d: Operand)
      requires c.IntConst? && WellTyped(c) && ValidOpt(opt) && Uniform(rng) && CtxValid()
      modifies this
      ensures CtxValid()
      ensures OperandRefines(c, d)
      ensures d != c <==> Opaques(i, b, old(ctx), opt, c)
      ensures ctx == if IsEligible(i) && Available(b, old(ctx)) then old(ctx)[b.id := OpaqueContext(b.id)] else old(ctx)
      ensures rng == old(rng) && opts == old(opts) && drawn >= old(drawn)
    {
      d := c;
      if !IsEligible(i) {
        return;
      }
      var context := GetOrCreateContext(b);
      if context.None? {
        return;
      }
      if !ShouldProtect(opt, c.value) {
        return;
      }
      var g := Generate(c.width, c.value);
      d := Opaqued(g.value);
    }

    /** `Process(I, opt)`: every `ConstantInt` operand in turn. */
    method ProcessInst(i: Inst, b: Block, opt: OpaqueConstantsOpt) returns (out: Inst)
      requires InstWellTyped(i) && ValidOpt(opt) && Uniform(rng) && CtxValid()
      modifies this
      ensures CtxValid()
      ensures InstRefines(i, out)
      ensures forall j :: 0 <= j < |i.operands| ==>
                (out.operands[j] != i.operands[j] <==> Opaques(i, b, old(ctx), opt, i.operands[j]))
      ensures ctx == if IsEligible(i) && HasIntConst(i.operands) && Available(b, old(ctx))
                     then old(ctx)[b.id := OpaqueContext(b.id)] else old(ctx)
      ensures rng == old(rng) && opts == old(opts) && drawn >= old(drawn)
    {
      var ops := i.operands;
      ghost var ctx0 := ctx;
      for j := 0 to |ops|
        invariant CtxValid() && rng == old(rng) && opts == old(opts) && drawn >= old(drawn)
        invariant OperandsDone(i, b, opt, j, ops, ctx0, ctx)
      {
        ops := ProcessOperand(i, b, opt, j, ops, ctx0);
      }
      assert i.operands[..|ops|] == i.operands;
      out := i.(operands := ops);
    }

    /** One turn of the loop of `Process(I, opt)`: operand `j`, when it is a `ConstantInt`. */
    method ProcessOperand(i: Inst, b: Block, opt: OpaqueConstantsOpt, j: nat, ops: seq<Operand>,
                          ghost ctx0: map<nat, OpaqueContext>) returns (ops': seq<Operand>)
      requires InstWellTyped(i) && ValidOpt(opt) && Uniform(rng) && CtxValid()
      requires j < |i.operands| && OperandsDone(i, b, opt, j, ops, ctx0, ctx)
      modifies this
      ensures CtxValid() && rng == old(rng) && opts == old(opts) && drawn >= old(drawn)
      ensures OperandsDone(i, b, opt, j + 1, ops', ctx0, ctx)
    {
      assert forall m :: 0 <= m < j ==> i.operands[..j][m] == i.operands[..j + 1][m];
      ops' := ops;
      if ops[j].IntConst? {
        assert i.operands[..j + 1][j].IntConst?;
        assert Available(b, ctx) == Available(b, ctx0);
        var d := ProcessConstant(i, b, ops[j], opt);
        ops' := ops[j := d];
        assert HasIntConst(i.operands[..j + 1]);
        forall m | 0 <= m < j ensures ops'[m] == ops[m] {}
      } else {
        assert HasIntConst(i.operands[..j + 1]) == HasIntConst(i.operands[..j]);
        assert !Opaques(i, b, ctx0, opt, i.operands[j]);
      }
    }

    /**
     * `runOnBasicBlock`: an instruction annotated `OPAQUE_CST` is processed
     * as under `Bool(true)`; the others under the function's option when
     * there is one.
     */
    method RunOnBasicBlock(b: Block, opt: Option<OpaqueConstantsOpt>) returns (out: Block)
      requires BlockWellTyped(b) && (opt.Some? ==> ValidOpt(opt.value)) && Uniform(rng) && CtxValid()
      modifies this
      ensures CtxValid()
      ensures BlockRefines(b, out)
      ensures forall k, j :: 0 <= k < |b.insts| && 0 <= j < |b.insts[k].operands| ==>
                (out.insts[k].operands[j] != b.insts[k].operands[j] <==> OpaquesAt(b, k, j, old(ctx), opt))
      ensures ctx == if AnyTouches(b.insts, opt) && Available(b, old(ctx))
                     then old(ctx)[b.id := OpaqueContext(b.id)] else old(ctx)
      ensures rng == old(rng) && opts == old(opts) && drawn >= old(drawn)
    {
      var insts := b.insts;
      ghost var ctx0 := ctx;
      for k := 0 to |insts|
        invariant CtxValid() && rng == old(rng) && opts == old(opts) && drawn >= old(drawn)
        invariant BlockDone(b, opt, k, insts, ctx0, ctx)
      {
        insts := RunOnInst(b, opt, k, insts, ctx0);
      }
      assert b.insts[..|b.insts|] == b.insts;
      out := b.(insts := insts);
    }

    /** One turn of the loop of `runOnBasicBlock`: instruction `k` under its effective option. */
    method RunOnInst(b: Block, opt: Option<OpaqueConstantsOpt>, k: nat, insts: seq<Inst>, ghost ctx0: map<nat, OpaqueContext>)
      returns (insts': seq<Inst>)
      requires BlockWellTyped(b) && (opt.Some? ==> ValidOpt(opt.value)) && Uniform(rng) && CtxValid()
      requires k < |b.insts| && BlockDone(b, opt, k, insts, ctx0, ctx)
      modifies this
      ensures CtxValid() && rng == old(rng) && opts == old(opts) && drawn >= old(drawn)
      ensures BlockDone(b, opt, k + 1, insts', ctx0, ctx)
    {
      assert b.insts[..k + 1][..k] == b.insts[..k];
      assert AnyTouches(b.insts[..k + 1], opt) == (AnyTouches(b.insts[..k], opt) || Touches(b.insts[k], opt));
      assert Available(b, ctx) == Available(b, ctx0);
      var i := insts[k];
      var e := Effective(i, opt);
      insts' := insts;
      if e.Some? {
        var i' := ProcessInst(i, b, e.value);
        insts' := insts[k := i'];
        forall m, j | 0 <= m < k + 1 && 0 <= j < |b.insts[m].operands|
          ensures insts'[m].operands[j] != b.insts[m].operands[j] <==> OpaquesAt(b, m, j, ctx0, opt)
        {
          if m < k {
            assert insts'[m] == insts[m];
          }
        }
      }
    }

    /**
     * `run`: a fresh random stream, then each function in turn. A function
     * whose option was already recorded is processed with no option, so
     * only its annotated instructions are touched.
     */
    method Run(fs: seq<Function>, hooks: seq<OpaqueConstantsOpt>, stream: Rng) returns (changed: bool, out: seq<Function>)
      requires |hooks| == |fs| && Uniform(stream) && CtxValid() && OptsValid()
      requires forall i :: 0 <= i < |fs| ==> FunctionWellTyped(fs[i]) && ValidOpt(hooks[i])
      requires forall i, j :: 0 <= i < j < |fs| ==> fs[i].id != fs[j].id
      requires DistinctBlocks(fs)
      modifies this
      ensures CtxValid() && OptsValid() && rng == stream
      ensures opts == InsertOpts(old(opts), fs, hooks)
      ensures |out| == |fs|
      ensures forall i :: 0 <= i < |fs| ==> RunResult(fs[i], hooks[i], out[i], old(ctx), old(opts))
      ensures changed <==> exists i :: 0 <= i < |fs| && out[i] != fs[i]
    {
      rng := stream;
      drawn := 0;
      out := fs;
      changed := false;
      ghost var ctx0, opts0 := ctx, opts;
      for i := 0 to |fs|
        invariant CtxValid() && OptsValid() && rng == stream
        invariant ModuleDone(fs, hooks, i, out, changed, ctx0, opts0, ctx, opts)
      {
        out, changed := RunStep(fs, hooks, i, out, changed, ctx0, opts0);
      }
      assert fs[..|fs|] == fs && hooks[..|fs|] == hooks;
    }

    /** One turn of the loop of `run`: function `i`. */
    method RunStep(fs: seq<Function>, hooks: seq<OpaqueConstantsOpt>, i: nat, out: seq<Function>, changed: bool,
                   ghost ctx0: map<nat, OpaqueContext>, ghost opts0: map<nat, OpaqueConstantsOpt>)
      returns (out': seq<Function>, changed': bool)
      requires |hooks| == |fs| && i < |fs| && Uniform(rng) && CtxValid() && OptsValid()
      requires forall m :: 0 <= m < |fs| ==> FunctionWellTyped(fs[m]) && ValidOpt(hooks[m])
      requires forall m, n :: 0 <= m < n < |fs| ==> fs[m].id != fs[n].id
      requires DistinctBlocks(fs)
      requires ModuleDone(fs, hooks, i, out, changed, ctx0, opts0, ctx, opts)
      modifies this
      ensures CtxValid() && OptsValid() && rng == old(rng)
      ensures ModuleDone(fs, hooks, i + 1, out', changed', ctx0, opts0, ctx, opts)
    {
      InsertOptsStep(opts0, fs, hooks, i);
      ghost var c0 := ctx;
      var f' := RunFunction(fs[i], hooks[i]);
      RunResultFrom(fs[i], hooks[i], f', c0, ctx0, InsertOpts(opts0, fs[..i], hooks[..i]), opts0);
      out' := out[i := f'];
      changed' := changed || f' != fs[i];
      NewContextsElsewhere(fs, i, c0, ctx, ctx0);
      assert forall m :: 0 <= m < i ==> out'[m] == out[m];
    }

    /** One iteration of `run`: skip, or record the option when new and process the blocks. */
    method RunFunction(f: Function, hook: OpaqueConstantsOpt) returns (out: Function)
      requires FunctionWellTyped(f) && ValidOpt(hook) && Uniform(rng) && CtxValid() && OptsValid()
      requires forall k, m :: 0 <= k < m < |f.blocks| ==> f.blocks[k].id != f.blocks[m].id
      modifies this
      ensures CtxValid() && OptsValid() && rng == old(rng)
      ensures opts == if hook.Skip? || f.id in old(opts) then old(opts) else old(opts)[f.id := hook]
      ensures RunResult(f, hook, out, old(ctx), old(opts))
      ensures forall id :: id in old(ctx) ==> id in ctx
      ensures forall id :: id in ctx ==> id in old(ctx) || exists k :: 0 <= k < |f.blocks| && f.blocks[k].id == id
    {
      if hook.Skip? {
        out := f;
        return;
      }
      var inserted: Option<OpaqueConstantsOpt> := None;
      if f.id !in opts {
        opts := opts[f.id := hook];
        inserted := Some(hook);
      }
      out := RunOnFunction(f, inserted);
    }

    /** The loop of `run` over the blocks of one function. */
    method RunOnFunction(f: Function, opt: Option<OpaqueConstantsOpt>) returns (out: Function)
      requires FunctionWellTyped(f) && (opt.Some? ==> ValidOpt(opt.value)) && Uniform(rng) && CtxValid()
      requires forall k, m :: 0 <= k < m < |f.blocks| ==> f.blocks[k].id != f.blocks[m].id
      modifies this
      ensures CtxValid() && rng == old(rng) && opts == old(opts)
      ensures FunctionRefines(f, out)
      ensures ChangesExactly(f, out, old(ctx), opt)
      ensures opt.None? ==> OnlyAnnotatedChange(f, out)
      ensures forall id :: id in old(ctx) ==> id in ctx
      ensures forall id :: id in ctx ==> id in old(ctx) || exists k :: 0 <= k < |f.blocks| && f.blocks[k].id == id
    {
      var blocks := f.blocks;
      ghost var ctx0 := ctx;
      for k := 0 to |blocks|
        invariant CtxValid() && rng == old(rng) && opts == old(opts)
        invariant FunctionDone(f, opt, k, blocks, ctx0, ctx)
      {
        blocks := RunOnBlock(f, opt, k, blocks, ctx0);
      }
      out := f.(blocks := blocks);
      OnlyAnnotated(f, out, old(ctx), opt);
    }

    /** One turn of the loop over the blocks: `runOnBasicBlock` on block `k`. */
    method RunOnBlock(f: Function, opt: Option<OpaqueConstantsOpt>, k: nat, blocks: seq<Block>, ghost ctx0: map<nat, OpaqueContext>)
      returns (blocks': seq<Block>)
      requires FunctionWellTyped(f) && (opt.Some? ==> ValidOpt(opt.value)) && Uniform(rng) && CtxValid()
      requires forall a, c :: 0 <= a < c < |f.blocks| ==> f.blocks[a].id != f.blocks[c].id
      requires k < |f.blocks| && FunctionDone(f, opt, k, blocks, ctx0, ctx)
      modifies this
      ensures CtxValid() && rng == old(rng) && opts == old(opts)
      ensures FunctionDone(f, opt, k + 1, blocks', ctx0, ctx)
    {
      ghost var c0 := ctx;
      var b' := RunOnBasicBlock(blocks[k], opt);
      assert Available(f.blocks[k], c0) == Available(f.blocks[k], ctx0);
      blocks' := blocks[k := b'];
      forall m, n, j | 0 <= m < k + 1 && 0 <= n < |f.blocks[m].insts| && 0 <= j < |f.blocks[m].insts[n].operands|
        ensures blocks'[m].insts[n].operands[j] != f.blocks[m].insts[n].operands[j] <==> OpaquesAt(f.blocks[m], n, j, ctx0, opt)
      {
        if m < k {
          assert blocks'[m] == blocks[m];
        }
      }
      forall m | k + 1 <= m < |blocks'|
        ensures f.blocks[m].id in ctx <==> f.blocks[m].id in ctx0
      {
        assert f.blocks[k].id != f.blocks[m].id;
      }
    }
  }
}

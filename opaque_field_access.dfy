/**
 * The opaque field access pass. A load or store whose address is a
 * constant offset from a base (a structure field, a byte of a buffer, an
 * element of a global array) gets its address rebuilt from an `i32`
 * offset computed at run time, an `add`, `sub` or `or` of two constants
 * tagged so that the opaque constants and arithmetic passes protect it
 * in turn. The model gives every pointer the address it denotes, as a base
 * and a byte offset, and shows which accesses are rewritten and that a
 * rewritten access still reaches the same byte.
 */
module OpaqueFieldAccess {
  import opened Wrappers
  import opened Words
  import ObfMetadata

  const TWO_31: nat := 0x8000_0000
  const TWO_32: nat := 0x1_0000_0000

  // ---------------------------------------------------------------------
  // Types and addresses

  /** The types a pointer may point to, with the data layout's sizes and field offsets. */
  datatype Ty =
    | IntTy(bits: nat)
    | ArrayOf(elem: Ty, length: nat)
    /** `DL.getStructLayout(S)`: the byte offset of every field and the allocation size. */
    | StructOf(id: nat, offsets: seq<nat>, size: nat)
    /** Any other type, opaque pointers included. */
    | OtherTy(size: nat)

  /** The allocation size in bytes. */
  function SizeOf(t: Ty): nat
  {
    match t
    case IntTy(bits) => (bits + 7) / 8
    case ArrayOf(e, n) => n * SizeOf(e)
    case StructOf(_, _, size) => size
    case OtherTy(size) => size
  }

  /** The byte offset that the indices after the first one select inside a `t`. */
  function IndexOffset(t: Ty, idxs: seq<nat>): Option<nat>
  {
    if |idxs| == 0 then Some(0)
    else
      match t
      case ArrayOf(e, _) =>
        (match IndexOffset(e, idxs[1..])
         case None => None
         case Some(o) => Some(idxs[0] * SizeOf(e) + o))
      case StructOf(_, offs, _) =>
        if |idxs| == 1 && idxs[0] < |offs| then Some(offs[idxs[0]]) else None
      case _ => None
  }

  /** `getelementptr t, base, i0, i1, ...`: `i0` whole `t`s, then the field or element the rest select. */
  function GepOffset(t: Ty, idxs: seq<nat>): Option<nat>
    requires |idxs| >= 1
  {
    match IndexOffset(t, idxs[1..])
    case None => None
    case Some(o) => Some(idxs[0] * SizeOf(t) + o)
  }

  /** What an address is an offset from: a value of the function or a global variable. */
  datatype Base = Local(id: nat) | Global(id: nat)

  /** A `getelementptr` index: an integer constant (its `getLimitedValue`) or anything else. */
  datatype Index = ConstIndex(value: nat) | DynIndex

  /** The operands of a constant expression. */
  datatype CEOperand = GlobalOp(id: nat, valueType: Ty) | ConstIntOp(value: nat) | OtherConstant

  datatype OffsetOp = AddOp | SubOp | OrOp

  /** An emitted `i32` offset instruction: the operation, its two constant operands and its "obf" node. */
  datatype OffsetExpr = OffsetExpr(op: OffsetOp, lhs: nat, rhs: nat, obf: Option<seq<ObfMetadata.Metadata>>)

  /** The pointer operand of a load or store. */
  datatype Pointer =
    /** A `getelementptr` instruction on a (typed) pointer to `pointee`. */
    | Gep(base: nat, pointee: Ty, indices: seq<Index>)
    /** A constant expression, such as `getelementptr` on a global. */
    | ConstExpr(operands: seq<CEOperand>)
    /** `bitcast(getelementptr inbounds i8, bitcast(base), offset)`: the rewritten struct or buffer access. */
    | BytesFrom(base: nat, offset: OffsetExpr)
    /** `getelementptr inbounds ElTy, bitcast(@global), offset`: the rewritten global array access. */
    | ElementsFrom(global: nat, elem: Ty, offset: OffsetExpr)
    | OtherPointer

  predicate AllConst(idxs: seq<Index>)
  {
    forall k :: 0 <= k < |idxs| ==> idxs[k].ConstIndex?
  }

  function Values(idxs: seq<Index>): (vs: seq<nat>)
    requires AllConst(idxs)
    ensures |vs| == |idxs|
  {
    seq(|idxs|, k requires 0 <= k < |idxs| => idxs[k].value)
  }

  predicate AllConstOps(ops: seq<CEOperand>)
  {
    forall k :: 0 <= k < |ops| ==> ops[k].ConstIntOp?
  }

  function OpValues(ops: seq<CEOperand>): (vs: seq<nat>)
    requires AllConstOps(ops)
    ensures |vs| == |ops|
  {
    seq(|ops|, k requires 0 <= k < |ops| => ops[k].value)
  }

  /** An `i32` word read as a signed offset, as `getelementptr` sign-extends its index. */
  function SignedI32(x: nat): int
  {
    if x < TWO_31 then x else x - TWO_32
  }

  /** The offset an emitted `i32` instruction computes. */
  function EvalOffset(e: OffsetExpr): int
  {
    var raw: int :=
      match e.op
      case AddOp => e.lhs + e.rhs
      case SubOp => e.lhs - e.rhs
      case OrOp => BitOr(32, e.lhs, e.rhs);
    SignedI32(raw % TWO_32)
  }

  /**
   * The address a pointer denotes, as a base and a byte offset, for the
   * shapes whose indices are all constant; `None` for the others.
   */
  function Address(p: Pointer): Option<(Base, int)>
  {
    match p
    case Gep(base, t, idxs) =>
      if |idxs| >= 1 && AllConst(idxs) then
        match GepOffset(t, Values(idxs))
        case None => None
        case Some(o) => Some((Local(base), o))
      else None
    case ConstExpr(ops) =>
      if |ops| >= 2 && ops[0].GlobalOp? && AllConstOps(ops[1..]) then
        match GepOffset(ops[0].valueType, OpValues(ops[1..]))
        case None => None
        case Some(o) => Some((Global(ops[0].id), o))
      else None
    case BytesFrom(base, e) => Some((Local(base), EvalOffset(e)))
    case ElementsFrom(g, el, e) => Some((Global(g), EvalOffset(e) * SizeOf(el)))
    case OtherPointer => None
  }

  /** Every constant index, and the offset the pointer denotes, fit a signed `i32`. */
  predicate InRange(p: Pointer)
  {
    (match p
     case Gep(_, _, idxs) => forall k :: 0 <= k < |idxs| && idxs[k].ConstIndex? ==> idxs[k].value < TWO_31
     case ConstExpr(ops) => forall k :: 0 <= k < |ops| && ops[k].ConstIntOp? ==> ops[k].value < TWO_31
     case _ => true)
    && (Address(p).Some? ==> Address(p).value.1 < TWO_31)
  }

  /** A constant field index of a structure access names one of its fields, as the IR verifier demands. */
  predicate WellFormed(p: Pointer)
  {
    p.Gep? && p.pointee.StructOf? && |p.indices| == 2 && p.indices[1].ConstIndex? ==>
      p.indices[1].value < |p.pointee.offsets|
  }

  // ---------------------------------------------------------------------
  // The rebuilt offsets

  /** The annotations put on every rebuilt offset: protect its constants, and two MBA rounds. */
  const OFFSET_OBF: seq<ObfMetadata.MetaObf> :=
    [ObfMetadata.MetaObf(ObfMetadata.OPAQUE_CST, None), ObfMetadata.MetaObf(ObfMetadata.OPAQUE_OP, Some(2))]

  /** An offset instruction with `OFFSET_OBF` attached. */
  function Tagged(op: OffsetOp, lhs: nat, rhs: nat): OffsetExpr
  {
    OffsetExpr(op, lhs, rhs, Some(ObfMetadata.SerializeAll(OFFSET_OBF)))
  }

  /** Every rebuilt offset is marked for the opaque constants pass and for two rounds of the arithmetic pass. */
  lemma TaggedForLaterPasses(op: OffsetOp, lhs: nat, rhs: nat)
    ensures ObfMetadata.HasObf(Tagged(op, lhs, rhs).obf, ObfMetadata.OPAQUE_CST)
    ensures ObfMetadata.FindObf(Tagged(op, lhs, rhs).obf, ObfMetadata.OPAQUE_OP) ==
            Some(ObfMetadata.MetaObf(ObfMetadata.OPAQUE_OP, Some(2)))
  {
    ObfMetadata.FindObfOfAdded(OFFSET_OBF, ObfMetadata.OPAQUE_CST, 0);
    ObfMetadata.FindObfOfAdded(OFFSET_OBF, ObfMetadata.OPAQUE_OP, 1);
  }

  /**
   * The two `uint32_t` halves of a buffer offset: `(V/2, V/2)` for an even
   * V and `((V-1)/2, (V+1)/2)` for an odd one.
   */
  function SplitOffset(val: nat): (halves: (nat, nat))
    ensures halves.0 < TWO_32 && halves.1 < TWO_32
    ensures val < TWO_32 ==> halves.0 + halves.1 == val && 0 <= halves.1 - halves.0 <= 1
  {
    if val % 2 == 0 then ((val / 2) % TWO_32, (val / 2) % TWO_32)
    else (((val - 1) / 2) % TWO_32, ((val + 1) / 2) % TWO_32)
  }

  /** Whatever the offset, the truncated halves still add up to it modulo 2^32. */
  lemma SplitOffsetWraps(val: nat)
    ensures (SplitOffset(val).0 + SplitOffset(val).1) % TWO_32 == val % TWO_32
  {
    var h := if val % 2 == 0 then val / 2 else (val - 1) / 2;
    var l := if val % 2 == 0 then val / 2 else (val + 1) / 2;
    assert h + l == val;
    assert SplitOffset(val) == (h % TWO_32, l % TWO_32);
    assert h == (h / TWO_32) * TWO_32 + h % TWO_32;
    assert l == (l / TWO_32) * TWO_32 + l % TWO_32;
    ModUnique(val, TWO_32, h / TWO_32 + l / TWO_32 + (h % TWO_32 + l % TWO_32) / TWO_32,
              (h % TWO_32 + l % TWO_32) % TWO_32);
  }

  /** An `add` of two halves below 2^31 evaluates to their sum. */
  lemma AddOffsetSmall(lhs: nat, rhs: nat)
    requires lhs + rhs < TWO_31
    ensures EvalOffset(Tagged(AddOp, lhs, rhs)) == lhs + rhs
  {
  }

  /** `off - 0` and `off | 0` evaluate to `off` below 2^31. */
  lemma ZeroOperandSmall(op: OffsetOp, off: nat)
    requires op != AddOp && off < TWO_31
    ensures EvalOffset(Tagged(op, off, 0)) == off
  {
    if op == OrOp {
      Pow2Of32();
      OrZero(32, off);
    }
  }

  // ---------------------------------------------------------------------
  // The handlers

  /**
   * `runOnStructRead` and `runOnStructWrite` as written: a first index
   * other than zero draws a warning, and the access is rewritten anyway.
   */
  function StructAccessAsWritten(hook: bool, base: nat, s: Ty, idxs: seq<Index>): (r: Option<Pointer>)
    requires s.StructOf? && WellFormed(Gep(base, s, idxs))
    ensures r.Some? <==> hook && |idxs| == 2 && idxs[0].ConstIndex? && idxs[1].ConstIndex?
  {
    if !hook || |idxs| != 2 || !idxs[0].ConstIndex? || !idxs[1].ConstIndex? then None
    else Some(BytesFrom(base, Tagged(AddOp, 0, s.offsets[idxs[1].value] % TWO_32)))
  }

  /**
   * `s[1].x`, written `getelementptr %S, %S* %p, 1, 0` with `S = {i32, i32}`,
   * is byte 8 of `p`; the rewritten access reads byte 0.
   */
  lemma StructFirstIndexAsWritten()
    ensures var s := StructOf(0, [0, 4], 8);
            var idxs := [ConstIndex(1), ConstIndex(0)];
            StructAccessAsWritten(true, 0, s, idxs).Some? &&
            Address(Gep(0, s, idxs)) == Some((Local(0), 8)) &&
            Address(StructAccessAsWritten(true, 0, s, idxs).value) == Some((Local(0), 0))
  {
    var idxs := [ConstIndex(1), ConstIndex(0)];
    assert Values(idxs) == [1, 0];
    assert Values(idxs)[1..] == [0];
  }

  /**
   * The struct handlers as intended: only `getelementptr %S, p, 0, field`
   * is rewritten, to `p + 0 + offset(field)` in bytes.
   */
  function StructAccess(hook: bool, base: nat, s: Ty, idxs: seq<Index>): (r: Option<Pointer>)
    requires s.StructOf? && WellFormed(Gep(base, s, idxs))
    ensures r.Some? <==> hook && |idxs| == 2 && idxs[0] == ConstIndex(0) && idxs[1].ConstIndex?
    ensures r.Some? ==> r.value.BytesFrom? && r.value.base == base
  {
    if !hook || |idxs| != 2 || idxs[0] != ConstIndex(0) || !idxs[1].ConstIndex? then None
    else Some(BytesFrom(base, Tagged(AddOp, 0, s.offsets[idxs[1].value] % TWO_32)))
  }

  /** The rewritten struct access reaches the field's byte. */
  lemma StructAccessPreserves(hook: bool, base: nat, s: Ty, idxs: seq<Index>)
    requires s.StructOf? && WellFormed(Gep(base, s, idxs)) && InRange(Gep(base, s, idxs))
    requires StructAccess(hook, base, s, idxs).Some?
    ensures Address(Gep(base, s, idxs)) == Some((Local(base), s.offsets[idxs[1].value]))
    ensures Address(StructAccess(hook, base, s, idxs).value) == Address(Gep(base, s, idxs))
  {
    var vs := Values(idxs);
    assert vs[1..] == [idxs[1].value];
    var off := s.offsets[idxs[1].value];
    assert GepOffset(s, vs) == Some(off);
    AddOffsetSmall(0, off % TWO_32);
  }

  /**
   * `runOnBufferRead` and `runOnBufferWrite`: a byte access is rewritten
   * only when the load or store is tagged `PROTECT_FIELD_ACCESS`; the
   * offset becomes the sum of its two halves.
   */
  function BufferAccess(tagged: bool, base: nat, idx: nat): (r: Option<Pointer>)
    ensures r.Some? <==> tagged
    ensures r.Some? ==> r.value.BytesFrom? && r.value.base == base && r.value.offset.op == AddOp
  {
    if !tagged then None
    else
      var halves := SplitOffset(LimitedValue(idx, UINT64_MAX));
      Some(BytesFrom(base, Tagged(AddOp, halves.0, halves.1)))
  }

  /** The rewritten buffer access reaches the same byte when the offset fits a signed `i32`. */
  lemma BufferAccessPreserves(base: nat, idx: nat)
    requires idx < TWO_31
    ensures Address(Gep(base, IntTy(8), [ConstIndex(idx)])) == Some((Local(base), idx))
    ensures Address(BufferAccess(true, base, idx).value) == Address(Gep(base, IntTy(8), [ConstIndex(idx)]))
  {
    assert Values([ConstIndex(idx)]) == [idx];
    var halves := SplitOffset(idx);
    AddOffsetSmall(halves.0, halves.1);
  }

  /** The constant-expression shape both handlers look for. */
  predicate GlobalArrayShape(ops: seq<CEOperand>)
  {
    |ops| >= 3 && ops[0].GlobalOp? && ops[2].ConstIntOp? && ops[0].valueType.ArrayOf?
  }

  /**
   * `runOnConstantExprRead` (`off - 0`) and `runOnConstantExprWrite`
   * (`off | 0`) as written: the third operand is taken as the element
   * index and the other indices are dropped.
   */
  function ConstExprAccessAsWritten(hook: bool, write: bool, ops: seq<CEOperand>): (r: Option<Pointer>)
    ensures r.Some? <==> GlobalArrayShape(ops) && hook
  {
    if !GlobalArrayShape(ops) || !hook then None
    else
      var op := if write then OrOp else SubOp;
      Some(ElementsFrom(ops[0].id, ops[0].valueType.elem, Tagged(op, LimitedValue(ops[2].value, UINT64_MAX) % TWO_32, 0)))
  }

  /**
   * `g[1][2]` on `int g[2][4]` is the constant expression
   * `getelementptr [2 x [4 x i32]], @g, 0, 1, 2`, byte 24 of `g`; the
   * rewritten access reads byte 16.
   */
  lemma ConstExprNestedAsWritten(write: bool)
    ensures var ops := [GlobalOp(7, ArrayOf(ArrayOf(IntTy(32), 4), 2)), ConstIntOp(0), ConstIntOp(1), ConstIntOp(2)];
            ConstExprAccessAsWritten(true, write, ops).Some? &&
            Address(ConstExpr(ops)) == Some((Global(7), 24)) &&
            Address(ConstExprAccessAsWritten(true, write, ops).value) == Some((Global(7), 16))
  {
    var row := ArrayOf(IntTy(32), 4);
    var t := ArrayOf(row, 2);
    var ops := [GlobalOp(7, t), ConstIntOp(0), ConstIntOp(1), ConstIntOp(2)];
    assert SizeOf(row) == 16;
    assert IndexOffset(IntTy(32), []) == Some(0);
    assert IndexOffset(row, [2]) == Some(8) by {
      assert [2][1..] == [];
    }
    assert IndexOffset(t, [1, 2]) == Some(24) by {
      assert [1, 2][1..] == [2];
    }
    assert OpValues(ops[1..]) == [0, 1, 2];
    assert [0, 1, 2][1..] == [1, 2];
    assert GepOffset(t, [0, 1, 2]) == Some(24);
    var op := if write then OrOp else SubOp;
    assert ConstExprAccessAsWritten(true, write, ops) == Some(ElementsFrom(7, row, Tagged(op, 1, 0)));
    ElementsAddress(7, row, op, 1);
  }

  /**
   * The constant-expression handlers as intended: only
   * `getelementptr T, @g, 0, off` on a global array is rewritten.
   */
  function ConstExprAccess(hook: bool, write: bool, ops: seq<CEOperand>): (r: Option<Pointer>)
    ensures r.Some? <==> GlobalArrayShape(ops) && |ops| == 3 && ops[1] == ConstIntOp(0) && hook
    ensures r.Some? ==> r.value.ElementsFrom? && r.value.global == ops[0].id
    ensures r.Some? ==> r.value.offset.op == (if write then OrOp else SubOp) && r.value.offset.rhs == 0
  {
    if !GlobalArrayShape(ops) || |ops| != 3 || ops[1] != ConstIntOp(0) || !hook then None
    else
      var op := if write then OrOp else SubOp;
      Some(ElementsFrom(ops[0].id, ops[0].valueType.elem, Tagged(op, LimitedValue(ops[2].value, UINT64_MAX) % TWO_32, 0)))
  }

  /** The rewritten global array access reaches the same element when the index fits a signed `i32`. */
  lemma ConstExprAccessPreserves(hook: bool, write: bool, ops: seq<CEOperand>)
    requires InRange(ConstExpr(ops))
    requires ConstExprAccess(hook, write, ops).Some?
    ensures Address(ConstExpr(ops)) == Some((Global(ops[0].id), ops[2].value * SizeOf(ops[0].valueType.elem)))
    ensures Address(ConstExprAccess(hook, write, ops).value) == Address(ConstExpr(ops))
  {
    var off := ops[2].value;
    assert off < TWO_31;
    GlobalElementAddress(ops);
    var op := if write then OrOp else SubOp;
    assert LimitedValue(off, UINT64_MAX) % TWO_32 == off;
    ElementsAddress(ops[0].id, ops[0].valueType.elem, op, off);
  }

  /** `getelementptr [n x e], @g, 0, off` is byte `off * sizeof(e)` of `g`. */
  lemma GlobalElementAddress(ops: seq<CEOperand>)
    requires GlobalArrayShape(ops) && |ops| == 3 && ops[1] == ConstIntOp(0)
    ensures Address(ConstExpr(ops)) == Some((Global(ops[0].id), ops[2].value * SizeOf(ops[0].valueType.elem)))
  {
    var vs := OpValues(ops[1..]);
    var e := ops[0].valueType.elem;
    assert vs == [0, ops[2].value];
    assert vs[1..] == [ops[2].value];
    assert [ops[2].value][1..] == [];
    assert IndexOffset(e, []) == Some(0);
    assert IndexOffset(ops[0].valueType, [ops[2].value]) == Some(ops[2].value * SizeOf(e));
  }

  /** The rebuilt `off - 0` or `off | 0` selects element `off`. */
  lemma ElementsAddress(g: nat, el: Ty, op: OffsetOp, off: nat)
    requires op != AddOp && off < TWO_31
    ensures Address(ElementsFrom(g, el, Tagged(op, off, 0))) == Some((Global(g), off * SizeOf(el)))
  {
    ZeroOperandSmall(op, off);
  }

  // ---------------------------------------------------------------------
  // Loads, stores and the pass

  /** The user's answers: `obfuscate_struct_access(F, S)` and `obfuscate_variable_access(F, GV)`, by ids. */
  datatype Hooks = Hooks(structAccess: (nat, nat) -> bool, variableAccess: (nat, nat) -> bool)

  /**
   * `runOnLoad` and `runOnStore`: dispatch on the pointer operand. A
   * struct pointee goes to the struct handler; a single constant index on
   * `i8` to the buffer handler (other integer widths only warn); arrays and
   * other `getelementptr`s are left alone; a constant expression goes to
   * the constant-expression handler.
   */
  function RewritePointer(fid: nat, hooks: Hooks, write: bool, p: Pointer, obf: Option<seq<ObfMetadata.Metadata>>): (r: Option<Pointer>)
    requires WellFormed(p)
    ensures r.Some? ==> r.value != p
    ensures r.Some? ==>
              || (p.Gep? && p.pointee.StructOf? && hooks.structAccess(fid, p.pointee.id))
              || (p.Gep? && p.pointee == IntTy(8) && ObfMetadata.HasObf(obf, ObfMetadata.PROTECT_FIELD_ACCESS))
              || (p.ConstExpr? && GlobalArrayShape(p.operands) && hooks.variableAccess(fid, p.operands[0].id))
  {
    match p
    case Gep(base, t, idxs) =>
      if t.StructOf? then StructAccess(hooks.structAccess(fid, t.id), base, t, idxs)
      else if t.IntTy? && |idxs| == 1 && idxs[0].ConstIndex? && t.bits == 8 then
        BufferAccess(ObfMetadata.HasObf(obf, ObfMetadata.PROTECT_FIELD_ACCESS), base, idxs[0].value)
      else None
    case ConstExpr(ops) =>
      if |ops| == 0 then None
      else ConstExprAccess(ops[0].GlobalOp? && hooks.variableAccess(fid, ops[0].id), write, ops)
    case _ => None
  }

  /** A rewritten pointer denotes the address the original did, when its offsets fit a signed `i32`. */
  lemma RewritePreservesAddress(fid: nat, hooks: Hooks, write: bool, p: Pointer, obf: Option<seq<ObfMetadata.Metadata>>)
    requires WellFormed(p) && InRange(p)
    requires RewritePointer(fid, hooks, write, p, obf).Some?
    ensures Address(p).Some?
    ensures Address(RewritePointer(fid, hooks, write, p, obf).value) == Address(p)
  {
    match p
    case Gep(base, t, idxs) =>
      if t.StructOf? {
        StructAccessPreserves(hooks.structAccess(fid, t.id), base, t, idxs);
      } else {
        assert idxs == [ConstIndex(idxs[0].value)];
        BufferAccessPreserves(base, idxs[0].value);
      }
    case ConstExpr(ops) =>
      ConstExprAccessPreserves(ops[0].GlobalOp? && hooks.variableAccess(fid, ops[0].id), write, ops);
  }

  datatype Inst =
    | Load(ptr: Pointer, obf: Option<seq<ObfMetadata.Metadata>>)
    | Store(ptr: Pointer, obf: Option<seq<ObfMetadata.Metadata>>)
    | OtherInst

  predicate InstWellFormed(i: Inst)
  {
    !i.OtherInst? ==> WellFormed(i.ptr)
  }

  /** One instruction after the pass: a load or store may get a new pointer operand, nothing else changes. */
  function RunOnInst(fid: nat, hooks: Hooks, i: Inst): (r: Inst)
    requires InstWellFormed(i)
    ensures r.Load? == i.Load? && r.Store? == i.Store?
    ensures !i.OtherInst? ==> r.obf == i.obf
    ensures r != i <==> !i.OtherInst? && RewritePointer(fid, hooks, i.Store?, i.ptr, i.obf).Some?
  {
    match i
    case Load(p, obf) =>
      (match RewritePointer(fid, hooks, false, p, obf)
       case None => i
       case Some(q) => Load(q, obf))
    case Store(p, obf) =>
      (match RewritePointer(fid, hooks, true, p, obf)
       case None => i
       case Some(q) => Store(q, obf))
    case OtherInst => i
  }

  /** A rewritten load or store touches the byte it touched before. */
  lemma RunOnInstPreserves(fid: nat, hooks: Hooks, i: Inst)
    requires InstWellFormed(i) && !i.OtherInst? && InRange(i.ptr)
    ensures RunOnInst(fid, hooks, i).ptr == i.ptr || Address(RunOnInst(fid, hooks, i).ptr) == Address(i.ptr)
  {
    if RewritePointer(fid, hooks, i.Store?, i.ptr, i.obf).Some? {
      RewritePreservesAddress(fid, hooks, i.Store?, i.ptr, i.obf);
    }
  }

  predicate BlockWellFormed(insts: seq<Inst>)
  {
    forall k :: 0 <= k < |insts| ==> InstWellFormed(insts[k])
  }

  /** A block after the pass, instruction by instruction. */
  function RunOnBlock(fid: nat, hooks: Hooks, insts: seq<Inst>): (r: seq<Inst>)
    requires BlockWellFormed(insts)
    ensures |r| == |insts|
  {
    seq(|insts|, k requires 0 <= k < |insts| => RunOnInst(fid, hooks, insts[k]))
  }

  /** `runOnBasicBlock`: visits every instruction and reports whether some load or store was rewritten. */
  method RunOnBasicBlock(fid: nat, hooks: Hooks, insts: seq<Inst>) returns (changed: bool, out: seq<Inst>)
    requires BlockWellFormed(insts)
    ensures out == RunOnBlock(fid, hooks, insts)
    ensures changed <==> exists k :: 0 <= k < |insts| && !insts[k].OtherInst? &&
                                   RewritePointer(fid, hooks, insts[k].Store?, insts[k].ptr, insts[k].obf).Some?
    ensures changed <==> out != insts
  {
    changed := false;
    out := [];
    for k := 0 to |insts|
      invariant |out| == k
      invariant forall j :: 0 <= j < k ==> out[j] == RunOnInst(fid, hooks, insts[j])
      invariant changed <==> exists j :: 0 <= j < k && out[j] != insts[j]
    {
      var i := RunOnInst(fid, hooks, insts[k]);
      changed := changed || i != insts[k];
      out := out + [i];
    }
    if !changed {
      assert out == insts;
    }
  }

  datatype Function = Function(id: nat, blocks: seq<seq<Inst>>)

  predicate FunctionWellFormed(f: Function)
  {
    forall j :: 0 <= j < |f.blocks| ==> BlockWellFormed(f.blocks[j])
  }

  /** A function after the pass, block by block. */
  function RunOnFunction(hooks: Hooks, f: Function): (r: Function)
    requires FunctionWellFormed(f)
    ensures r.id == f.id && |r.blocks| == |f.blocks|
  {
    Function(f.id, seq(|f.blocks|, j requires 0 <= j < |f.blocks| => RunOnBlock(f.id, hooks, f.blocks[j])))
  }

  /** `run`: every block of every function; reports whether any block changed. */
  method Run(fs: seq<Function>, hooks: Hooks) returns (changed: bool, out: seq<Function>)
    requires forall i :: 0 <= i < |fs| ==> FunctionWellFormed(fs[i])
    ensures |out| == |fs|
    ensures forall i :: 0 <= i < |fs| ==> out[i] == RunOnFunction(hooks, fs[i])
    ensures changed <==> out != fs
  {
    changed := false;
    out := [];
    for i := 0 to |fs|
      invariant |out| == i
      invariant forall j :: 0 <= j < i ==> out[j] == RunOnFunction(hooks, fs[j])
      invariant changed <==> out != fs[..i]
    {
      var f := fs[i];
      var blocks: seq<seq<Inst>> := [];
      var fnChanged := false;
      for j := 0 to |f.blocks|
        invariant |blocks| == j
        invariant forall m :: 0 <= m < j ==> blocks[m] == RunOnBlock(f.id, hooks, f.blocks[m])
        invariant fnChanged <==> blocks != f.blocks[..j]
      {
        var c, b := RunOnBasicBlock(f.id, hooks, f.blocks[j]);
        assert f.blocks[..j + 1] == f.blocks[..j] + [f.blocks[j]];
        if blocks != f.blocks[..j] {
          assert blocks + [b] != f.blocks[..j] + [f.blocks[j]] by {
            var m :| 0 <= m < j && blocks[m] != f.blocks[m];
            assert (blocks + [b])[m] == blocks[m];
          }
        }
        fnChanged := fnChanged || c;
        blocks := blocks + [b];
      }
      assert f.blocks[..|f.blocks|] == f.blocks;
      var g := Function(f.id, blocks);
      assert g == RunOnFunction(hooks, f);
      assert fs[..i + 1] == fs[..i] + [f];
      if out != fs[..i] {
        assert out + [g] != fs[..i] + [f] by {
          var m :| 0 <= m < i && out[m] != fs[m];
          assert (out + [g])[m] == out[m];
        }
      }
      changed := changed || fnChanged;
      out := out + [g];
    }
    assert fs[..|fs|] == fs;
  }
}

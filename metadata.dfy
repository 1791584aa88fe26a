/**
 * Obfuscation annotations attached to instructions under the "obf" key.
 * An annotation (`MetaObf`) is a kind and an optional 64-bit value; it is
 * stored as a metadata tuple `[i32 kind]` or `[i32 kind, i64 value]`, and an
 * instruction carries one "obf" node whose operands are those tuples.
 */
module ObfMetadata {
  import opened Wrappers
  import IR
  import opened Words

  /** The `MObfTy` kinds. A kind read back from metadata is whatever number was stored. */
  const NONE: nat := 0
  const OPAQUE_CST: nat := 1
  const OPAQUE_OP: nat := 2
  const OPAQUE_COND: nat := 3
  const PROTECT_FIELD_ACCESS: nat := 4

  const TWO_32: nat := 0x1_0000_0000

  /** An annotation: its kind and, when present, its `uint64_t` value. */
  datatype MetaObf = MetaObf(kind: nat, value: Option<nat>)
  {
    predicate IsNone() { kind == NONE }

    /** The kind fits the 32-bit constant it is stored in and the value is a `uint64_t`. */
    predicate Representable()
    {
      kind < TWO_32 && (value.Some? ==> value.value < TWO_64)
    }
  }

  /** `MetaObf::None`: the default annotation, what a malformed entry decodes to. */
  const NoneObf: MetaObf := MetaObf(NONE, None)

  /** Metadata as far as these helpers look into it. */
  datatype Metadata =
    | Tuple(ops: seq<Metadata>)
    /** `ConstantAsMetadata` wrapping a `ConstantInt` of the given bit width. */
    | ConstInt(width: nat, bits: nat)
    /** `ConstantAsMetadata` wrapping any other constant. */
    | OtherConst
    /** Strings, non-tuple nodes and everything else. */
    | OtherMetadata

  /** `serialize`: the kind as an unsigned i32 constant, then the value as an i64 constant if any. */
  function Serialize(m: MetaObf): (r: Metadata)
    ensures r.Tuple? && 1 <= |r.ops| <= 2
    ensures |r.ops| == 2 <==> m.value.Some?
    ensures r.ops[0].ConstInt? && r.ops[0].width == 32
  {
    var ty := ConstInt(32, m.kind % TWO_32);
    match m.value
    case None => Tuple([ty])
    case Some(v) => Tuple([ty, ConstInt(64, v % TWO_64)])
  }

  /**
   * `deserialize`: a tuple whose first operand is an integer constant gives
   * that kind, and a second integer operand gives the value; anything else
   * is `MetaObf::None`.
   */
  function Deserialize(md: Metadata): (r: MetaObf)
    ensures !(md.Tuple? && |md.ops| >= 1 && md.ops[0].ConstInt?) ==> r == NoneObf
    ensures r.value.Some? ==> md.Tuple? && |md.ops| >= 2 && md.ops[1].ConstInt?
    ensures r.kind < TWO_64 && (r.value.Some? ==> r.value.value < TWO_64)
  {
    match md
    case Tuple(ops) =>
      if |ops| < 1 || !ops[0].ConstInt? then NoneObf
      else
        var value := if |ops| > 1 && ops[1].ConstInt? then Some(LimitedValue(ops[1].bits, UINT64_MAX)) else None;
        MetaObf(LimitedValue(ops[0].bits, UINT64_MAX), value)
    case _ => NoneObf
  }

  /** Reading back what was written gives the annotation unchanged. */
  lemma DeserializeSerialize(m: MetaObf)
    requires m.Representable()
    ensures Deserialize(Serialize(m)) == m
  {
  }

  /** The tuples `addMetadata` writes for a list of annotations, in order. */
  function SerializeAll(entries: seq<MetaObf>): (r: seq<Metadata>)
    ensures |r| == |entries|
    ensures forall i :: 0 <= i < |r| ==> Deserialize(r[i]) == entries[i] || !entries[i].Representable()
  {
    seq(|entries|, i requires 0 <= i < |entries| => Serialize(entries[i]))
  }

  /** Every operand of an "obf" node, decoded. */
  function DecodeAll(ops: seq<Metadata>): (r: seq<MetaObf>)
    ensures |r| == |ops|
  {
    seq(|ops|, i requires 0 <= i < |ops| => Deserialize(ops[i]))
  }

  /** An instruction's "obf" attachment: a node with its operands, or none. */
  class Instruction
  {
    var obf: Option<seq<Metadata>>

    constructor (obf: Option<seq<Metadata>>)
      ensures this.obf == obf
    {
      this.obf := obf;
    }
  }

  /** `addMetadata`: replaces the node with one serialised tuple per entry, in order. */
  method AddMetadata(inst: Instruction, entries: seq<MetaObf>)
    modifies inst
    ensures inst.obf.Some?
    ensures |inst.obf.value| == |entries|
    ensures forall i :: 0 <= i < |entries| ==> inst.obf.value[i] == Serialize(entries[i])
  {
    var node: seq<Metadata> := [];
    for k := 0 to |entries|
      invariant |node| == k
      invariant forall i :: 0 <= i < k ==> node[i] == Serialize(entries[i])
    {
      node := node + [Serialize(entries[k])];
    }
    inst.obf := Some(node);
  }

  predicate IsAnnotation(m: MetaObf) { !m.IsNone() }

  /** What `getObfMetadata` returns: every decoded entry that is not `None`, in order. */
  function Annotations(node: Option<seq<Metadata>>): (r: seq<MetaObf>)
    ensures forall m :: m in r ==> !m.IsNone()
    ensures node.None? ==> r == []
  {
    match node
    case None => []
    case Some(ops) => IR.Filter(DecodeAll(ops), IsAnnotation)
  }

  /** `getObfMetadata`: decodes the operands one by one and keeps the annotations. */
  method GetObfMetadata(node: Option<seq<Metadata>>) returns (result: seq<MetaObf>)
    ensures result == Annotations(node)
  {
    result := [];
    if node.Some? {
      var ops := node.value;
      for k := 0 to |ops|
        invariant result == IR.Filter(DecodeAll(ops[..k]), IsAnnotation)
      {
        var mo := Deserialize(ops[k]);
        assert DecodeAll(ops[..k + 1]) == DecodeAll(ops[..k]) + [mo];
        assert DecodeAll(ops[..k + 1])[..k] == DecodeAll(ops[..k]);
        if !mo.IsNone() {
          result := result + [mo];
        }
      }
      assert ops[..|ops|] == ops;
    }
  }

  /** Annotations written by `addMetadata` read back as the non-`None` entries, in order. */
  lemma AnnotationsOfAdded(entries: seq<MetaObf>)
    requires forall i :: 0 <= i < |entries| ==> entries[i].Representable()
    ensures Annotations(Some(SerializeAll(entries))) == IR.Filter(entries, IsAnnotation)
  {
    assert DecodeAll(SerializeAll(entries)) == entries;
  }

  /** The first position whose annotation has the given kind. */
  function FirstOfKind(ms: seq<MetaObf>, kind: nat): (r: Option<nat>)
    ensures r.Some? ==>
              r.value < |ms| && ms[r.value].kind == kind && forall j :: 0 <= j < r.value ==> ms[j].kind != kind
    ensures r.None? ==> forall j :: 0 <= j < |ms| ==> ms[j].kind != kind
  {
    if |ms| == 0 then None
    else if ms[0].kind == kind then Some(0)
    else
      match FirstOfKind(ms[1..], kind)
      case None => None
      case Some(i) => Some(i + 1)
  }

  /** What `getObf` returns: the first decoded entry of the kind, if the node has one. */
  function FindObf(node: Option<seq<Metadata>>, kind: nat): (r: Option<MetaObf>)
    ensures r.Some? ==> r.value.kind == kind
  {
    match node
    case None => None
    case Some(ops) =>
      match FirstOfKind(DecodeAll(ops), kind)
      case None => None
      case Some(i) => Some(Deserialize(ops[i]))
  }

  /** `getObf`: scans the operands and returns at the first one of the requested kind. */
  method GetObf(node: Option<seq<Metadata>>, kind: nat) returns (r: Option<MetaObf>)
    ensures r == FindObf(node, kind)
    ensures r.Some? <==> node.Some? && exists i :: 0 <= i < |node.value| && Deserialize(node.value[i]).kind == kind
  {
    if node.None? {
      return None;
    }
    var ops := node.value;
    var k := 0;
    while k < |ops|
      invariant k <= |ops|
      invariant forall j :: 0 <= j < k ==> Deserialize(ops[j]).kind != kind
    {
      var mo := Deserialize(ops[k]);
      if mo.kind == kind {
        assert DecodeAll(ops)[k] == mo;
        return Some(mo);
      }
      k := k + 1;
    }
    assert forall j :: 0 <= j < |ops| ==> DecodeAll(ops)[j].kind != kind;
    return None;
  }

  /** `hasObf`: an entry of the kind exists and the kind is not `NONE`. */
  function HasObf(node: Option<seq<Metadata>>, kind: nat): (r: bool)
  {
    var o := FindObf(node, kind);
    o.Some? && !o.value.IsNone()
  }

  /** `hasObf` holds exactly when some operand decodes to the requested, non-`NONE`, kind. */
  lemma HasObfExactly(node: Option<seq<Metadata>>, kind: nat)
    ensures HasObf(node, kind) <==>
      kind != NONE && node.Some? && exists i :: 0 <= i < |node.value| && Deserialize(node.value[i]).kind == kind
  {
    if node.Some? {
      var ms := DecodeAll(node.value);
      if i :| 0 <= i < |node.value| && Deserialize(node.value[i]).kind == kind {
        assert ms[i].kind == kind;
      }
    }
  }

  /** After `addMetadata`, `getObf` finds the first written entry of the kind. */
  lemma FindObfOfAdded(entries: seq<MetaObf>, kind: nat, i: nat)
    requires forall j :: 0 <= j < |entries| ==> entries[j].Representable()
    requires i < |entries| && entries[i].kind == kind
    requires forall j :: 0 <= j < i ==> entries[j].kind != kind
    ensures FindObf(Some(SerializeAll(entries)), kind) == Some(entries[i])
  {
    assert DecodeAll(SerializeAll(entries)) == entries;
  }
}

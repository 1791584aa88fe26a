/**
 * The break-control-flow pass. Each function that the user selects is
 * cloned. The copy gets, as prologue data, a block of AArch64 code that
 * disassemblers follow, followed by the function's old prologue bytes and
 * NOP-like padding up to a multiple of 32 bytes. The original function is
 * emptied and becomes a trampoline that calls the copy just past that
 * prologue. The model computes the new prologue, the trampoline's target
 * and the copy's parameter attributes.
 */
module BreakControlFlow {
  import opened Wrappers
  import opened Words
  import opened Random
  import ObfMetadata
  import IR

  const INST_SIZE: nat := 4
  /** The largest function alignment an AArch64 subtarget asks for. */
  const FUNCTION_ALIGNMENT: nat := 0x20

  /** `NOP`, `mov x0, x0`, `ror x2, x2, #0` and `mov x20, x20`, little-endian. */
  const NOP_INSTS: seq<seq<bv8>> := [
    [0x1f, 0x20, 0x03, 0xd5],
    [0xe0, 0x03, 0x00, 0xaa],
    [0x42, 0x00, 0xc2, 0x93],
    [0xf4, 0x03, 0x14, 0xaa]
  ]

  /** `alignTo(n, FUNCTION_ALIGNMENT)`: the least multiple of 32 at or above `n`. */
  function AlignTo(n: nat): (r: nat)
    ensures r % FUNCTION_ALIGNMENT == 0 && n <= r < n + FUNCTION_ALIGNMENT
  {
    if n % FUNCTION_ALIGNMENT == 0 then n else n + (FUNCTION_ALIGNMENT - n % FUNCTION_ALIGNMENT)
  }

  /** The messages of the fatal errors building the prologue reports. */
  const BAD_JIT_ALIGNMENT: string := "Bad alignment for the ASM block"
  const NO_PROLOGUE_INJECTION: string := "Can't inject BreakControlFlow prologue"
  const BAD_ALIGNMENT: string := "Bad alignment"

  /**
   * The prologue data a function has: none, a constant data sequence (of any
   * element type, such as `[2 x i32]`) given by its raw bytes, or any other constant.
   */
  datatype PrologueData = NoPrologue | RawPrologue(raw: seq<bv8>) | OtherPrologue

  /** The NOP-like instruction the `k`-th draw of `Dist(0, 3)` picks. */
  function NopAt(rng: Rng, k: nat): (nop: seq<bv8>)
    requires Uniform(rng)
    ensures nop in NOP_INSTS && |nop| == INST_SIZE
  {
    NOP_INSTS[rng(k, 0, |NOP_INSTS| - 1)]
  }

  /** `nb` NOP-like instructions drawn from `start` on, in draw order. */
  function Padding(rng: Rng, start: nat, nb: nat): (pad: seq<bv8>)
    requires Uniform(rng)
    ensures |pad| == INST_SIZE * nb
  {
    if nb == 0 then [] else Padding(rng, start, nb - 1) + NopAt(rng, start + nb - 1)
  }

  /** A sequence of whole instructions, each one of `NOP_INSTS`. */
  predicate IsNops(s: seq<bv8>)
  {
    if |s| == 0 then true
    else |s| >= INST_SIZE && s[|s| - INST_SIZE..] in NOP_INSTS && IsNops(s[..|s| - INST_SIZE])
  }

  /** The padding is made of NOP-like instructions only. */
  lemma {:induction false} PaddingIsNops(rng: Rng, start: nat, nb: nat)
    requires Uniform(rng)
    ensures IsNops(Padding(rng, start, nb))
  {
    if nb > 0 {
      var pad := Padding(rng, start, nb);
      assert pad[..|pad| - INST_SIZE] == Padding(rng, start, nb - 1);
      assert pad[|pad| - INST_SIZE..] == NopAt(rng, start + nb - 1);
      PaddingIsNops(rng, start, nb - 1);
    }
  }

  /** How many NOP-like instructions pad the JIT bytes plus the old prologue. */
  function PaddingCount(n: nat): nat
  {
    if n % FUNCTION_ALIGNMENT == 0 then 0 else (AlignTo(n) - n) / INST_SIZE
  }

  /** How many draws building the prologue takes. */
  function DrawsFor(jit: seq<bv8>, data: PrologueData): nat
  {
    if |jit| % FUNCTION_ALIGNMENT == 0 && data.RawPrologue? && (AlignTo(|jit| + |data.raw|) - (|jit| + |data.raw|)) % INST_SIZE == 0
    then PaddingCount(|jit| + |data.raw|)
    else 0
  }

  /**
   * The prologue the copy gets: the JIT bytes, then the old prologue bytes
   * and enough padding to reach a multiple of 32; a misaligned JIT block,
   * a gap that is not whole instructions and a prologue that is not a
   * constant data sequence are fatal.
   */
  function PrologueFor(jit: seq<bv8>, data: PrologueData, rng: Rng, start: nat): Result<seq<bv8>>
    requires Uniform(rng)
  {
    if |jit| % FUNCTION_ALIGNMENT != 0 then Fatal(BAD_JIT_ALIGNMENT)
    else
      match data
      case NoPrologue => Ok(jit)
      case OtherPrologue => Fatal(NO_PROLOGUE_INJECTION)
      case RawPrologue(raw) =>
        var p := jit + raw;
        if |p| % FUNCTION_ALIGNMENT == 0 then Ok(p)
        else if (AlignTo(|p|) - |p|) % INST_SIZE != 0 then Fatal(BAD_ALIGNMENT)
        else Ok(p + Padding(rng, start, PaddingCount(|p|)))
  }

  /**
   * A prologue that is built is a multiple of 32 bytes: the JIT bytes, the
   * old prologue bytes, then fewer than 32 bytes of NOP-like instructions.
   */
  lemma PrologueLayout(jit: seq<bv8>, data: PrologueData, rng: Rng, start: nat)
    requires Uniform(rng) && PrologueFor(jit, data, rng, start).Ok?
    ensures var p := PrologueFor(jit, data, rng, start).value;
      var prior := if data.RawPrologue? then data.raw else [];
      |p| % FUNCTION_ALIGNMENT == 0
      && |jit| + |prior| <= |p| < |jit| + |prior| + FUNCTION_ALIGNMENT
      && p[..|jit|] == jit && p[|jit|..|jit| + |prior|] == prior
      && IsNops(p[|jit| + |prior|..])
  {
    var p := PrologueFor(jit, data, rng, start).value;
    if data.RawPrologue? {
      var n := |jit| + |data.raw|;
      var pad: seq<bv8> := [];
      if n % FUNCTION_ALIGNMENT != 0 {
        pad := Padding(rng, start, PaddingCount(n));
        PaddingIsNops(rng, start, PaddingCount(n));
        PaddedLength(n);
      }
      assert p == jit + data.raw + pad;
      ThreeParts(jit, data.raw, pad);
    } else {
      ThreeParts(jit, [], []);
    }
  }

  /** The parts of a concatenation of three byte strings are found at their offsets. */
  lemma ThreeParts(a: seq<bv8>, b: seq<bv8>, c: seq<bv8>)
    ensures (a + b + c)[..|a|] == a && (a + b + c)[|a|..|a| + |b|] == b && (a + b + c)[|a| + |b|..] == c
  {
  }

  /** Whole-instruction padding brings `n` bytes exactly to the next multiple of 32. */
  lemma PaddedLength(n: nat)
    requires n % FUNCTION_ALIGNMENT != 0 && (AlignTo(n) - n) % INST_SIZE == 0
    ensures n + INST_SIZE * PaddingCount(n) == AlignTo(n)
  {
    var gap := AlignTo(n) - n;
    assert gap == INST_SIZE * (gap / INST_SIZE) + gap % INST_SIZE;
  }

  /**
   * Building fails exactly when the JIT block is not a multiple of 32
   * bytes, the prologue is not a constant data sequence, or the old
   * prologue's raw bytes are not whole 4-byte instructions, whatever the draws.
   */
  lemma PrologueFatalIff(jit: seq<bv8>, data: PrologueData, rng: Rng, start: nat)
    requires Uniform(rng)
    ensures PrologueFor(jit, data, rng, start).Fatal? <==> PrologueFails(jit, data)
  {
    if |jit| % FUNCTION_ALIGNMENT == 0 && data.RawPrologue? {
      var n := |jit| + |data.raw|;
      AlignedPrefixMod(|jit|, |data.raw|);
      if n % FUNCTION_ALIGNMENT != 0 {
        GapWholeInsts(n);
      }
    }
  }

  /** The conditions under which building the prologue is fatal. */
  predicate PrologueFails(jit: seq<bv8>, data: PrologueData)
  {
    |jit| % FUNCTION_ALIGNMENT != 0 || data.OtherPrologue? || (data.RawPrologue? && |data.raw| % INST_SIZE != 0)
  }

  /** Bytes after a 32-byte aligned prefix keep their offset modulo the instruction size. */
  lemma AlignedPrefixMod(a: nat, b: nat)
    requires a % FUNCTION_ALIGNMENT == 0
    ensures (a + b) % INST_SIZE == b % INST_SIZE
  {
    var k := a / FUNCTION_ALIGNMENT;
    assert a + b == INST_SIZE * (8 * k) + b;
  }

  /** The gap up to the next multiple of 32 is whole instructions exactly when `n` is. */
  lemma GapWholeInsts(n: nat)
    requires n % FUNCTION_ALIGNMENT != 0
    ensures (AlignTo(n) - n) % INST_SIZE == 0 <==> n % INST_SIZE == 0
  {
    var r := n % FUNCTION_ALIGNMENT;
    AlignedPrefixMod(n - r, r);
    assert AlignTo(n) - n == FUNCTION_ALIGNMENT - r;
  }

  // ---------------------------------------------------------------------
  // The copy and the trampoline

  datatype Attr = StructRet | NoAlias | OtherAttr(id: nat)

  /** A `sret` parameter of the copy loses `sret` and gains `noalias`; other parameters keep their attributes. */
  function Demoted(attrs: set<Attr>): (r: set<Attr>)
    ensures StructRet !in r
    ensures NoAlias in r <==> NoAlias in attrs || StructRet in attrs
    ensures forall a :: a != StructRet && a != NoAlias ==> (a in r <==> a in attrs)
  {
    if StructRet in attrs then attrs - {StructRet} + {NoAlias} else attrs
  }

  /** The loop over the copy's arguments. */
  method DemoteStructRet(params: seq<set<Attr>>) returns (out: seq<set<Attr>>)
    ensures |out| == |params|
    ensures forall i :: 0 <= i < |params| ==> out[i] == Demoted(params[i])
  {
    out := params;
    for i := 0 to |params|
      invariant |out| == |params|
      invariant forall j :: 0 <= j < |params| ==> out[j] == if j < i then Demoted(params[j]) else params[j]
    {
      if StructRet in out[i] {
        out := out[i := out[i] - {StructRet} + {NoAlias}];
      }
    }
  }

  /** The annotations on the two address additions and on the volatile store of the target. */
  const ADD_OBF: seq<ObfMetadata.MetaObf> :=
    [ObfMetadata.MetaObf(ObfMetadata.OPAQUE_OP, Some(2)), ObfMetadata.MetaObf(ObfMetadata.OPAQUE_CST, None)]
  const STORE_OBF: seq<ObfMetadata.MetaObf> :=
    [ObfMetadata.MetaObf(ObfMetadata.PROTECT_FIELD_ACCESS, None), ObfMetadata.MetaObf(ObfMetadata.OPAQUE_CST, None)]

  /**
   * The trampoline's body: the copy's address plus 0, plus `PrologueSize`,
   * each addition and the store annotated for the later passes, then a
   * call through the result.
   */
  datatype Trampoline = Trampoline(prologueSize: nat, addObf: seq<ObfMetadata.Metadata>, storeObf: seq<ObfMetadata.Metadata>,
                                   fnAttrs: set<FnAttr>)

  /** The function attributes the trampoline is given. */
  datatype FnAttr = OptimizeForSize | NoInline

  function MakeTrampoline(prologueSize: nat): Trampoline
  {
    Trampoline(prologueSize, ObfMetadata.SerializeAll(ADD_OBF), ObfMetadata.SerializeAll(STORE_OBF),
               {OptimizeForSize, NoInline})
  }

  /** The address the trampoline calls, with 64-bit additions, for a copy at `fAddr`. */
  function CallTarget(t: Trampoline, fAddr: nat): nat
  {
    Wrap(64, Wrap(64, fAddr + 0) + t.prologueSize)
  }

  /** The trampoline calls the first instruction after the copy's prologue. */
  lemma TrampolineSkipsPrologue(prologue: seq<bv8>, fAddr: nat)
    requires fAddr + |prologue| < Pow2(64)
    ensures CallTarget(MakeTrampoline(|prologue|), fAddr) == fAddr + |prologue|
  {
    WrapWord(64, fAddr);
    WrapWord(64, fAddr + |prologue|);
  }

  /**
   * The additions carry opaque-operation (2 rounds) and opaque-constant
   * requests, the store a field-access one, and the trampoline is optimised
   * for size and never inlined.
   */
  lemma TrampolineAnnotated(prologueSize: nat)
    ensures var t := MakeTrampoline(prologueSize);
      OptimizeForSize in t.fnAttrs && NoInline in t.fnAttrs &&
      ObfMetadata.FindObf(Some(t.addObf), ObfMetadata.OPAQUE_OP) == Some(ObfMetadata.MetaObf(ObfMetadata.OPAQUE_OP, Some(2)))
      && ObfMetadata.HasObf(Some(t.addObf), ObfMetadata.OPAQUE_CST)
      && ObfMetadata.HasObf(Some(t.storeObf), ObfMetadata.PROTECT_FIELD_ACCESS)
      && ObfMetadata.HasObf(Some(t.storeObf), ObfMetadata.OPAQUE_CST)
  {
    ObfMetadata.FindObfOfAdded(ADD_OBF, ObfMetadata.OPAQUE_OP, 0);
    ObfMetadata.FindObfOfAdded(ADD_OBF, ObfMetadata.OPAQUE_CST, 1);
    ObfMetadata.FindObfOfAdded(STORE_OBF, ObfMetadata.PROTECT_FIELD_ACCESS, 0);
    ObfMetadata.FindObfOfAdded(STORE_OBF, ObfMetadata.OPAQUE_CST, 1);
  }

  /** A function as the pass sees it: its flags, its prologue data and its parameters' attributes. */
  datatype CfgFunction = CfgFunction(info: IR.Function, prologue: PrologueData, params: seq<set<Attr>>)

  /** The outcome for one function: the internal copy with its new prologue and attributes, and the trampoline. */
  datatype Broken = Broken(copyPrologue: seq<bv8>, copyParams: seq<set<Attr>>, copyInternal: bool, trampoline: Trampoline)

  /** `f` became `b`: the copy has the prologue built from draw `start` on, and the trampoline skips it. */
  ghost predicate BrokenFrom(jit: seq<bv8>, f: CfgFunction, rng: Rng, start: nat, b: Broken)
  {
    Uniform(rng)
    && PrologueFor(jit, f.prologue, rng, start) == Ok(b.copyPrologue)
    && |b.copyParams| == |f.params|
    && (forall i :: 0 <= i < |f.params| ==> b.copyParams[i] == Demoted(f.params[i]))
    && b.copyInternal
    && b.trampoline == MakeTrampoline(|b.copyPrologue|)
  }

  /** `runOnFunction` fails on `f`: it is non-empty, selected, and its prologue cannot be built. */
  predicate BreaksFatally(jit: seq<bv8>, f: CfgFunction, selected: bool)
  {
    f.info.instructionCount > 0 && selected && PrologueFails(jit, f.prologue)
  }

  /** What `run` records for a function `runOnFunction` did not fail on. */
  ghost predicate RanOn(jit: seq<bv8>, rng: Rng, f: CfgFunction, selected: bool, o: Option<Broken>)
  {
    && (o.Some? <==> f.info.instructionCount > 0 && selected)
    && (o.Some? ==> exists start: nat :: BrokenFrom(jit, f, rng, start, o.value))
    && !BreaksFatally(jit, f, selected)
  }

  /** The pass object: the module's random stream and how many draws it has handed out. */
  class BreakControlFlowPass {
    var rng: Rng
    var drawn: nat

    constructor(rng: Rng)
      ensures this.rng == rng && drawn == 0
    {
      this.rng := rng;
      drawn := 0;
    }

    /** The padding loop: `nb` NOP-like instructions, one draw each. */
    method Pad(prologue: seq<bv8>, nb: nat) returns (padded: seq<bv8>)
      requires Uniform(rng)
      modifies this
      ensures rng == old(rng) && drawn == old(drawn) + nb
      ensures padded == prologue + Padding(rng, old(drawn), nb)
    {
      padded := prologue;
      for i := 0 to nb
        invariant rng == old(rng) && drawn == old(drawn) + i
        invariant padded == prologue + Padding(rng, old(drawn), i)
      {
        var nop := NopAt(rng, drawn);
        drawn := drawn + 1;
        padded := padded + nop;
      }
    }

    /** The prologue assembly of `runOnFunction`. */
    method BuildPrologue(jit: seq<bv8>, data: PrologueData) returns (r: Result<seq<bv8>>)
      requires Uniform(rng)
      modifies this
      ensures rng == old(rng)
      ensures r == PrologueFor(jit, data, rng, old(drawn))
      ensures drawn == old(drawn) + DrawsFor(jit, data)
    {
      if |jit| % FUNCTION_ALIGNMENT != 0 {
        return Fatal(BAD_JIT_ALIGNMENT);
      }
      match data {
        case NoPrologue =>
          r := Ok(jit);
        case OtherPrologue =>
          r := Fatal(NO_PROLOGUE_INJECTION);
        case RawPrologue(raw) =>
          var newPrologue := jit + raw;
          if |newPrologue| % FUNCTION_ALIGNMENT != 0 {
            var align := AlignTo(|newPrologue|);
            var delta := align - |newPrologue|;
            if delta % INST_SIZE != 0 {
              return Fatal(BAD_ALIGNMENT);
            }
            var nb := delta / INST_SIZE;
            assert nb == PaddingCount(|newPrologue|) == DrawsFor(jit, data);
            newPrologue := Pad(newPrologue, nb);
          } else {
            assert DrawsFor(jit, data) == 0;
          }
          r := Ok(newPrologue);
      }
    }

    /**
     * `runOnFunction`: a function without instructions, or one the user
     * does not select, is left alone; otherwise it is split into the copy
     * and the trampoline.
     */
    method RunOnFunction(jit: seq<bv8>, f: CfgFunction, selected: bool) returns (r: Result<Option<Broken>>)
      requires Uniform(rng)
      modifies this
      ensures rng == old(rng)
      ensures f.info.instructionCount == 0 || !selected ==> r == Ok(None) && drawn == old(drawn)
      ensures f.info.instructionCount > 0 && selected ==>
        drawn == old(drawn) + DrawsFor(jit, f.prologue)
        && (r.Fatal? <==> PrologueFor(jit, f.prologue, rng, old(drawn)).Fatal?)
        && (r.Ok? ==> r.value.Some? && BrokenFrom(jit, f, rng, old(drawn), r.value.value))
      ensures r.Fatal? <==> BreaksFatally(jit, f, selected)
    {
      if f.info.instructionCount == 0 || !selected {
        return Ok(None);
      }
      PrologueFatalIff(jit, f.prologue, rng, drawn);
      var prologue := BuildPrologue(jit, f.prologue);
      if prologue.Fatal? {
        return Fatal(prologue.message);
      }
      var params := DemoteStructRet(f.params);
      var trampoline := MakeTrampoline(|prologue.value|);
      r := Ok(Some(Broken(prologue.value, params, true, trampoline)));
    }

    /**
     * `run`: every function of the module in order, any fatal error
     * stopping the compilation; the module changed iff some function was
     * split, and the pass fails exactly when some non-empty selected
     * function's prologue cannot be built.
     */
    method Run(jit: seq<bv8>, fs: seq<CfgFunction>, hooks: seq<bool>) returns (r: Result<(bool, seq<Option<Broken>>)>)
      requires |hooks| == |fs| && Uniform(rng)
      modifies this
      ensures rng == old(rng)
      ensures r.Ok? ==>
        var (changed, out) := r.value;
        |out| == |fs|
        && (forall i :: 0 <= i < |fs| ==> (out[i].Some? <==> fs[i].info.instructionCount > 0 && hooks[i]))
        && (forall i :: 0 <= i < |fs| && out[i].Some? ==> exists start: nat :: BrokenFrom(jit, fs[i], rng, start, out[i].value))
        && (changed <==> exists i :: 0 <= i < |fs| && out[i].Some?)
      ensures r.Fatal? <==> exists i :: 0 <= i < |fs| && BreaksFatally(jit, fs[i], hooks[i])
    {
      var changed := false;
      var out: seq<Option<Broken>> := [];
      for i := 0 to |fs|
        invariant rng == old(rng)
        invariant |out| == i
        invariant forall m :: 0 <= m < i ==> RanOn(jit, rng, fs[m], hooks[m], out[m])
        invariant changed <==> exists m :: 0 <= m < i && out[m].Some?
      {
        ghost var start := drawn;
        var res := RunOnFunction(jit, fs[i], hooks[i]);
        if res.Fatal? {
          return Fatal(res.message);
        }
        assert res.value.Some? ==> BrokenFrom(jit, fs[i], rng, start, res.value.value);
        assert RanOn(jit, rng, fs[i], hooks[i], res.value);
        out := out + [res.value];
        changed := changed || res.value.Some?;
      }
      r := Ok((changed, out));
    }
  }
}

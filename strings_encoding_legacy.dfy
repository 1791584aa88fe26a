/**
 * The older string-encoding pass (src/passes/strings-encoding/StringEncoding.cpp).
 *
 * Short strings are encoded "on the stack": every byte is XORed with its own
 * random key byte, and each use of the string is preceded by straight-line
 * code that rebuilds the clear text in a stack buffer, visiting the bytes in
 * a shuffled order. Longer strings are encoded with one of the embedded
 * `ROUTINES` pairs and decoded by a call into a stack buffer (the "stack
 * loop" variant) or, for the Global verdict, once by a module constructor.
 */
module StringsEncodingLegacy {
  import opened Wrappers
  import opened IR
  import Routines
  import SE = StringEncoding

  /**
   * `ROUTINES`: the embedded C encode/decode pairs. In both pairs `decode`
   * has the same body as `encode`; the second one also XORs the byte index.
   */
  const LegacyRoutines: seq<Routines.Routine> := [Routines.KeyXor, Routines.KeyIndexXor]

  /** Each embedded `decode` undoes its `encode`, for every key and every input. */
  lemma LegacyRoundTrip(idx: nat, key: bv64, s: seq<bv8>)
    requires idx < |LegacyRoutines|
    ensures |Routines.Apply(LegacyRoutines[idx], key, s)| == |s|
    ensures Routines.Apply(LegacyRoutines[idx], key, Routines.Apply(LegacyRoutines[idx], key, s)) == s
  {
    Routines.ApplyInvolution(LegacyRoutines[idx], key, s);
  }

  /** The messages of the fatal errors a malformed key leads to. */
  const STACK_KEY_NOT_BUFFER: string := "String stack decoding is expecting a buffer as a key"
  const STACK_LOOP_KEY_NOT_BUFFER: string := "String stack decoding loop is expecting a buffer as a key! "

  /** The user's verdict for one string (`StringEncodingOpt`). */
  datatype StringEncOpt = Skip | Stack(loopThreshold: nat) | Global | Replace(newString: seq<bv8>) | Default

  /** How a global has been encoded (`EncodingTy`). */
  datatype EncodingTy = NoEncoding | StackEncoding | StackLoopEncoding | GlobalEncoding | ReplaceEncoding

  /** `KeyTy`: no key, a byte buffer (`key_buffer_t`) or a 64-bit integer (`key_int_t`). */
  datatype Key = NoKey | BufferKey(bytes: seq<bv8>) | IntKey(value: bv64)

  /** `EncodingInfo`: the encoding, its key and the index of the routine pair compiled for it. */
  datatype EncodingInfo = EncodingInfo(ty: EncodingTy, key: Key, routine: nat)

  /**
   * One stack decoding emitted by `injectOnStack`: the global whose use it
   * precedes and the shuffled order in which it visits the bytes.
   */
  datatype StackSite = StackSite(global: SE.GlobalId, order: seq<nat>)

  /** The ranges of `Dist(1, Max)` for an integer key and `Dist(0, ROUTINES.size() - 1)` for the routine. */
  predicate ValidLoopDraw(d: SE.Draw)
  {
    d.key != 0 && d.routine < |LegacyRoutines|
  }

  /** The range of `Dist(1, 254)` for one key byte of a stack encoding. */
  predicate ValidKeyByte(b: bv8)
  {
    1 <= b <= 254
  }

  /** `p` lists every index below `n` exactly once. */
  predicate IsPermutation(p: seq<nat>, n: nat)
  {
    && |p| == n
    && (forall i :: 0 <= i < n ==> p[i] < n)
    && (forall i, j :: 0 <= i < j < n ==> p[i] != p[j])
    && (forall j :: 0 <= j < n ==> j in p)
  }

  /**
   * The verdict `process` substitutes for Default: a stack encoding with loop
   * threshold 6 for elements narrower than 20 bytes, a global one otherwise.
   */
  function ResolveDefault(d: ConstantData): (opt: StringEncOpt)
    ensures opt == Stack(6) <==> d.elementByteSize < 20
    ensures opt == Global <==> d.elementByteSize >= 20
  {
    if d.elementByteSize < 20 then Stack(6) else Global
  }

  /**
   * A C string has one-byte elements, so Default always takes the stack path,
   * and it takes the loop variant exactly when the string, terminator
   * included, has at least 6 bytes.
   */
  lemma DefaultOnCStrings(d: ConstantData)
    requires d.IsCString()
    ensures ResolveDefault(d) == Stack(6)
    ensures |d.raw| >= ResolveDefault(d).loopThreshold <==> |d.AsCString()| >= 5
  {
  }

  /** The byte-wise XOR of two sequences of the same length. */
  function XorBytes(a: seq<bv8>, b: seq<bv8>): (r: seq<bv8>)
    requires |a| == |b|
    ensures |r| == |a|
  {
    seq(|a|, i requires 0 <= i < |a| => a[i] ^ b[i])
  }

  /** XORing with the same key twice gives the input back. */
  lemma XorRoundTrip(str: seq<bv8>, key: seq<bv8>)
    requires |str| == |key|
    ensures XorBytes(key, XorBytes(str, key)) == str
  {
    var enc := XorBytes(str, key);
    forall i | 0 <= i < |str| ensures XorBytes(key, enc)[i] == str[i] {
      assert enc[i] == str[i] ^ key[i];
    }
  }

  /** A key byte in `[1, 254]` is never zero, so a stack encoding changes every byte. */
  lemma StackEncodingChangesEveryByte(str: seq<bv8>, key: seq<bv8>)
    requires |str| == |key| && forall i :: 0 <= i < |key| ==> ValidKeyByte(key[i])
    ensures forall i :: 0 <= i < |str| ==> XorBytes(str, key)[i] != str[i]
  {
    forall i | 0 <= i < |str| ensures XorBytes(str, key)[i] != str[i] {
      assert XorBytes(str, key)[i] == str[i] ^ key[i];
      assert key[i] != 0;
    }
  }

  /**
   * The encoding half of `processOnStack`: one key byte per input byte, drawn
   * from `Dist(1, 254)` in order (`std::generate`), then `encoded[i] = str[i] ^ key[i]`.
   */
  method EncodeOnStack(str: seq<bv8>, keyDraws: seq<bv8>) returns (encoded: seq<bv8>, key: seq<bv8>)
    requires |keyDraws| >= |str|
    requires forall i :: 0 <= i < |keyDraws| ==> ValidKeyByte(keyDraws[i])
    ensures key == keyDraws[..|str|]
    ensures |encoded| == |str| && forall i :: 0 <= i < |key| ==> ValidKeyByte(key[i])
    ensures encoded == XorBytes(str, key)
    ensures XorBytes(key, encoded) == str
  {
    var keyBuf := new bv8[|str|];
    var i := 0;
    while i < |str|
      invariant 0 <= i <= |str|
      invariant forall k :: 0 <= k < i ==> keyBuf[k] == keyDraws[k]
    {
      keyBuf[i] := keyDraws[i];
      i := i + 1;
    }
    key := keyBuf[..];
    var out := new bv8[|str|];
    i := 0;
    while i < |str|
      invariant 0 <= i <= |str|
      invariant forall k :: 0 <= k < i ==> out[k] == str[k] ^ key[k]
    {
      out[i] := str[i] ^ key[i];
      i := i + 1;
    }
    encoded := out[..];
    assert encoded == XorBytes(str, key);
    XorRoundTrip(str, key);
  }

  /**
   * The code `injectOnStack` emits before a use of a stack-encoded string, as
   * it runs: for each `j` of the shuffled `order`, store key byte `j` into
   * slot `j` of the stack buffer, load it back, XOR it with encoded byte `j`
   * and store the result into slot `j`. Every slot ends up holding the
   * decoded byte.
   */
  method RunStackDecoding(enc: seq<bv8>, key: seq<bv8>, order: seq<nat>, clear: array<bv8>)
    requires |key| == |enc| == clear.Length
    requires IsPermutation(order, |enc|)
    modifies clear
    ensures clear[..] == XorBytes(key, enc)
  {
    var i := 0;
    while i < |enc|
      invariant 0 <= i <= |enc|
      invariant forall k :: 0 <= k < i ==> clear[order[k]] == key[order[k]] ^ enc[order[k]]
    {
      var j := order[i];
      var encVal := enc[j];
      clear[j] := key[j];
      var keyVal := clear[j];
      clear[j] := keyVal ^ encVal;
      i := i + 1;
    }
    forall j | 0 <= j < |enc| ensures clear[j] == XorBytes(key, enc)[j] {
      assert j in order;
      var k :| 0 <= k < |order| && order[k] == j;
    }
  }

  /** A global whose initializer is a constant array of single bytes. */
  predicate HasBytes(g: SE.GlobalVar)
  {
    g.initializer.Some? && g.initializer.value.DataInit? && g.initializer.value.data.elementByteSize == 1
  }

  /** A global whose initializer is a constant data array. */
  predicate HasData(g: SE.GlobalVar)
  {
    g.initializer.Some? && g.initializer.value.DataInit?
  }

  /** Whether an entry of `gve_info_` agrees with the global it describes. */
  ghost predicate Consistent(info: EncodingInfo, g: SE.GlobalVar, plain: Option<seq<bv8>>)
  {
    match info.ty
    case StackEncoding =>
      plain.Some? && info.key.BufferKey? && HasBytes(g)
      && |info.key.bytes| == |SE.Raw(g)|
      && (forall i :: 0 <= i < |info.key.bytes| ==> ValidKeyByte(info.key.bytes[i]))
      && XorBytes(info.key.bytes, SE.Raw(g)) == plain.value
    case StackLoopEncoding | GlobalEncoding =>
      plain.Some? && info.key.IntKey? && ValidLoopDraw(SE.Draw(info.key.value, info.routine)) && HasBytes(g)
      && Routines.Apply(LegacyRoutines[info.routine], info.key.value, SE.Raw(g)) == plain.value
    case _ => true
  }

  /**
   * The pass state is consistent: every recorded encoding agrees with its
   * global, every emitted stack decoding visits a permutation of its
   * string's bytes, and every decode call carries the recorded key and routine.
   */
  ghost predicate ValidState(s: LegacyState)
  {
    && (forall g :: g in s.gveInfo ==>
          g in s.globals && Consistent(s.gveInfo[g], s.globals[g], if g in s.plain then Some(s.plain[g]) else None))
    && (forall site :: site in s.stackSites ==>
          site.global in s.gveInfo && site.global in s.globals
          && s.gveInfo[site.global].ty == StackEncoding
          && IsPermutation(site.order, |SE.Raw(s.globals[site.global])|))
    && (forall call :: call in s.inlineWlist ==> InlineCallValid(s, call))
  }

  /** A decode call of `inline_wlist_` decodes a stack-loop or global encoding with its own key. */
  ghost predicate InlineCallValid(s: LegacyState, call: SE.DecodeCall)
  {
    && call.global in s.gveInfo && call.global in s.globals
    && (if call.local then s.gveInfo[call.global].ty == StackLoopEncoding
        else s.gveInfo[call.global].ty == GlobalEncoding)
    && s.gveInfo[call.global].key == IntKey(call.key)
    && s.gveInfo[call.global].routine == call.routine
    && call.size == |SE.Raw(s.globals[call.global])|
  }

  /** Recording the encoding of a global not yet in `gve_info_`, consistently, keeps the state consistent. */
  lemma RecordKeepsValid(s: LegacyState, g: SE.GlobalId, gv: SE.GlobalVar, info: EncodingInfo,
                         p: Option<seq<bv8>>)
    requires ValidState(s) && g in s.globals && g !in s.gveInfo
    requires Consistent(info, gv, p)
    ensures ValidState(s.(globals := s.globals[g := gv], gveInfo := s.gveInfo[g := info],
                          plain := if p.Some? then s.plain[g := p.value] else s.plain))
  {
    var t := s.(globals := s.globals[g := gv], gveInfo := s.gveInfo[g := info],
                plain := if p.Some? then s.plain[g := p.value] else s.plain);
    forall site | site in t.stackSites
      ensures site.global in t.gveInfo && site.global in t.globals
      ensures t.gveInfo[site.global].ty == StackEncoding
      ensures IsPermutation(site.order, |SE.Raw(t.globals[site.global])|)
    {
      assert site.global != g;
    }
    forall call | call in t.inlineWlist ensures InlineCallValid(t, call) {
      assert InlineCallValid(s, call);
    }
  }

  /** Emitting a stack decoding for a stack-encoded global keeps the state consistent. */
  lemma PushSiteKeepsValid(s: LegacyState, site: StackSite)
    requires ValidState(s) && site.global in s.gveInfo && site.global in s.globals
    requires s.gveInfo[site.global].ty == StackEncoding
    requires IsPermutation(site.order, |SE.Raw(s.globals[site.global])|)
    ensures ValidState(s.(stackSites := s.stackSites + [site]))
  {
    var t := s.(stackSites := s.stackSites + [site]);
    forall call | call in t.inlineWlist ensures InlineCallValid(t, call) {
      assert InlineCallValid(s, call);
    }
  }

  /** Queueing a decode call with the recorded key and routine keeps the state consistent. */
  lemma PushCallKeepsValid(s: LegacyState, call: SE.DecodeCall)
    requires ValidState(s) && InlineCallValid(s, call)
    ensures ValidState(s.(inlineWlist := s.inlineWlist + [call]))
  {
    var t := s.(inlineWlist := s.inlineWlist + [call]);
    forall c | c in t.inlineWlist ensures InlineCallValid(t, c) {
      assert InlineCallValid(s, c);
    }
  }

  /** The state after `processGlobal` encodes `g` in place with `draw`. */
  ghost function GlobalEncoded(s: LegacyState, g: SE.GlobalId, draw: SE.Draw): LegacyState
    requires g in s.globals && draw.routine < |LegacyRoutines|
  {
    var raw := SE.Raw(s.globals[g]);
    var enc := Routines.Apply(LegacyRoutines[draw.routine], draw.key, raw);
    s.(globals := s.globals[g := s.globals[g].(isConstant := false, initializer := Some(SE.DataInit(ConstantData(1, enc))))],
       gveInfo := s.gveInfo[g := EncodingInfo(GlobalEncoding, IntKey(draw.key), draw.routine)],
       plain := s.plain[g := raw],
       inlineWlist := s.inlineWlist + [SE.DecodeCall(g, draw.key, |raw|, draw.routine, false)],
       ctors := s.ctors + [g])
  }

  /** The state after `processOnStackLoop` encodes `g` with `draw` and queues its decode call into a stack buffer. */
  ghost function StackLoopEncoded(s: LegacyState, g: SE.GlobalId, draw: SE.Draw): LegacyState
    requires g in s.globals && draw.routine < |LegacyRoutines|
  {
    var raw := SE.Raw(s.globals[g]);
    var enc := Routines.Apply(LegacyRoutines[draw.routine], draw.key, raw);
    s.(globals := s.globals[g := s.globals[g].(initializer := Some(SE.DataInit(ConstantData(1, enc))))],
       gveInfo := s.gveInfo[g := EncodingInfo(StackLoopEncoding, IntKey(draw.key), draw.routine)],
       plain := s.plain[g := raw],
       inlineWlist := s.inlineWlist + [SE.DecodeCall(g, draw.key, |raw|, draw.routine, true)])
  }

  /** The state after the byte-by-byte branch of `processOnStack` encodes `g` with `key` and emits its stack decoding. */
  ghost function StackEncoded(s: LegacyState, g: SE.GlobalId, key: seq<bv8>, order: seq<nat>): LegacyState
    requires g in s.globals && |key| == |SE.Raw(s.globals[g])|
  {
    var raw := SE.Raw(s.globals[g]);
    s.(globals := s.globals[g := s.globals[g].(initializer := Some(SE.DataInit(ConstantData(1, XorBytes(raw, key)))))],
       gveInfo := s.gveInfo[g := EncodingInfo(StackEncoding, BufferKey(key), 0)],
       plain := s.plain[g := raw],
       stackSites := s.stackSites + [StackSite(g, order)])
  }

  /** The state after `processOnStack`: the loop variant from `loopThreshold` bytes on, byte by byte below. */
  ghost function OnStackEncoded(s: LegacyState, g: SE.GlobalId, loopThreshold: nat, keyDraws: seq<bv8>, order: seq<nat>,
                                draw: SE.Draw): LegacyState
    requires g in s.globals && draw.routine < |LegacyRoutines| && |keyDraws| >= |SE.Raw(s.globals[g])|
  {
    var raw := SE.Raw(s.globals[g]);
    if |raw| >= loopThreshold then StackLoopEncoded(s, g, draw) else StackEncoded(s, g, keyDraws[..|raw|], order)
  }

  /** The state after `processReplace` stores the fitted replacement of `g`, NUL-terminated. */
  ghost function ReplaceEncoded(s: LegacyState, g: SE.GlobalId, newString: seq<bv8>): LegacyState
    requires g in s.globals && s.globals[g].initializer.Some? && s.globals[g].initializer.value.DataInit?
    requires s.globals[g].initializer.value.data.NumElements() >= 1
  {
    var n := s.globals[g].initializer.value.data.NumElements();
    s.(globals := s.globals[g := s.globals[g].(initializer :=
         Some(SE.DataInit(ConstantData(1, SE.FitReplacement(newString, n) + [0]))))],
       gveInfo := s.gveInfo[g := EncodingInfo(ReplaceEncoding, NoKey, 0)])
  }

  /** The state after `process` applies the verdict `opt` to `g`. */
  ghost function ProcessedState(s: LegacyState, g: SE.GlobalId, opt: StringEncOpt, keyDraws: seq<bv8>, order: seq<nat>,
                                draw: SE.Draw): LegacyState
    requires g in s.globals && HasData(s.globals[g]) && draw.routine < |LegacyRoutines|
    requires |keyDraws| >= |SE.Raw(s.globals[g])|
    requires opt.Replace? ==> s.globals[g].initializer.value.data.NumElements() >= 1
  {
    match opt
    case Skip => s
    case Stack(threshold) => OnStackEncoded(s, g, threshold, keyDraws, order, draw)
    case Global => GlobalEncoded(s, g, draw)
    case Replace(newString) => ReplaceEncoded(s, g, newString)
    case Default =>
      if s.globals[g].initializer.value.data.elementByteSize < 20 then OnStackEncoded(s, g, 6, keyDraws, order, draw)
      else GlobalEncoded(s, g, draw)
  }

  /**
   * What `process` records for each verdict: Skip changes nothing, Default is
   * resolved on the element size, Stack picks the loop variant from the
   * threshold on, Global also registers a constructor, and no other global
   * changes.
   */
  lemma ProcessedRecordsVerdict(s: LegacyState, g: SE.GlobalId, opt: StringEncOpt, keyDraws: seq<bv8>,
                                order: seq<nat>, draw: SE.Draw)
    requires g in s.globals && HasData(s.globals[g]) && draw.routine < |LegacyRoutines|
    requires |keyDraws| >= |SE.Raw(s.globals[g])|
    requires opt.Replace? ==> s.globals[g].initializer.value.data.NumElements() >= 1
    ensures var resolved := if opt.Default? then ResolveDefault(s.globals[g].initializer.value.data) else opt;
      var t := ProcessedState(s, g, opt, keyDraws, order, draw);
      && (resolved.Skip? ==> t == s)
      && (!resolved.Skip? ==> g in t.gveInfo && g in t.globals)
      && (resolved.Stack? ==> t.gveInfo[g].ty == (if |SE.Raw(s.globals[g])| >= resolved.loopThreshold
                                                  then StackLoopEncoding else StackEncoding))
      && (resolved.Global? ==> t.gveInfo[g].ty == GlobalEncoding && t.ctors == s.ctors + [g])
      && (resolved.Replace? ==> t.gveInfo[g].ty == ReplaceEncoding)
      && (forall h :: h in s.globals && h != g ==> h in t.globals && t.globals[h] == s.globals[h])
  {
  }

  /** Encoding a fresh global in place keeps the pass state consistent. */
  lemma GlobalEncodedValid(s: LegacyState, g: SE.GlobalId, draw: SE.Draw)
    requires ValidState(s) && ValidLoopDraw(draw) && g in s.globals && g !in s.gveInfo && HasData(s.globals[g])
    ensures ValidState(GlobalEncoded(s, g, draw))
  {
    var raw := SE.Raw(s.globals[g]);
    var enc := Routines.Apply(LegacyRoutines[draw.routine], draw.key, raw);
    LegacyRoundTrip(draw.routine, draw.key, raw);
    var gv := s.globals[g].(isConstant := false, initializer := Some(SE.DataInit(ConstantData(1, enc))));
    var info := EncodingInfo(GlobalEncoding, IntKey(draw.key), draw.routine);
    assert SE.Raw(gv) == enc;
    assert Consistent(info, gv, Some(raw));
    RecordKeepsValid(s, g, gv, info, Some(raw));
    var t := s.(globals := s.globals[g := gv], gveInfo := s.gveInfo[g := info], plain := s.plain[g := raw]);
    var call := SE.DecodeCall(g, draw.key, |raw|, draw.routine, false);
    assert InlineCallValid(t, call);
    PushCallKeepsValid(t, call);
    var u := t.(inlineWlist := t.inlineWlist + [call]);
    CtorsKeepValid(u, s.ctors + [g]);
    assert GlobalEncoded(s, g, draw) == u.(ctors := s.ctors + [g]);
  }

  /** The constructors registered so far play no part in consistency. */
  lemma CtorsKeepValid(s: LegacyState, ctors: seq<SE.GlobalId>)
    requires ValidState(s)
    ensures ValidState(s.(ctors := ctors))
  {
    var t := s.(ctors := ctors);
    forall call | call in t.inlineWlist ensures InlineCallValid(t, call) {
      assert InlineCallValid(s, call);
    }
  }

  /** The state `LegacyStringEncodingPass` works on, as one value. */
  datatype LegacyState = LegacyState(
    globals: map<SE.GlobalId, SE.GlobalVar>,
    gveInfo: map<SE.GlobalId, EncodingInfo>,
    plain: map<SE.GlobalId, seq<bv8>>,
    inlineWlist: seq<SE.DecodeCall>,
    ctors: seq<SE.GlobalId>,
    stackSites: seq<StackSite>)

  /** The pass object and the module state it changes. */
  class LegacyStringEncodingPass {
    /** The module's globals, whose initializers the pass rewrites. */
    var globals: map<SE.GlobalId, SE.GlobalVar>
    /** `gve_info_`. */
    var gveInfo: map<SE.GlobalId, EncodingInfo>
    /**
     * `inline_wlist_`: decode calls to inline; `local` marks the calls into a
     * stack buffer, the others decode in place from a constructor.
     */
    var inlineWlist: seq<SE.DecodeCall>
    /** `ctor_`: one constructor per globally encoded string, by global. */
    var ctors: seq<SE.GlobalId>
    /** The stack decodings emitted so far. */
    var stackSites: seq<StackSite>
    /** The original bytes of every encoded global. */
    ghost var plain: map<SE.GlobalId, seq<bv8>>

    ghost predicate Valid()
      reads this
    {
      ValidState(State())
    }

    ghost function State(): LegacyState
      reads this
    {
      LegacyState(globals, gveInfo, plain, inlineWlist, ctors, stackSites)
    }

    constructor (globals: map<SE.GlobalId, SE.GlobalVar>)
      ensures Valid()
      ensures this.globals == globals && gveInfo == map[] && inlineWlist == [] && ctors == [] && stackSites == []
    {
      this.globals := globals;
      gveInfo := map[];
      inlineWlist := [];
      ctors := [];
      stackSites := [];
      plain := map[];
    }

    /**
     * `injectOnStack`: a key that is not a byte buffer is a fatal error;
     * otherwise the stack decoding is emitted, visiting the bytes in the
     * shuffled `order`.
     */
    method InjectOnStack(g: SE.GlobalId, order: seq<nat>) returns (r: Result<bool>)
      requires g in gveInfo && g in globals
      requires IsPermutation(order, |SE.Raw(globals[g])|)
      modifies this`stackSites
      ensures !gveInfo[g].key.BufferKey? ==> r.Fatal? && stackSites == old(stackSites)
      ensures gveInfo[g].key.BufferKey? ==> r == Ok(true) && stackSites == old(stackSites) + [StackSite(g, order)]
    {
      if !gveInfo[g].key.BufferKey? {
        return Fatal(STACK_KEY_NOT_BUFFER);
      }
      stackSites := stackSites + [StackSite(g, order)];
      return Ok(true);
    }

    /**
     * `injectOnStackLoop`: a key that is not an integer is a fatal error;
     * otherwise a decode call into a stack buffer is queued for inlining.
     */
    method InjectOnStackLoop(g: SE.GlobalId) returns (r: Result<bool>)
      requires g in gveInfo && g in globals
      modifies this`inlineWlist
      ensures !gveInfo[g].key.IntKey? ==> r.Fatal? && inlineWlist == old(inlineWlist)
      ensures gveInfo[g].key.IntKey? ==> (r == Ok(true) && inlineWlist == old(inlineWlist) +
        [SE.DecodeCall(g, gveInfo[g].key.value, |SE.Raw(globals[g])|, gveInfo[g].routine, true)])
    {
      var info := gveInfo[g];
      if !info.key.IntKey? {
        return Fatal(STACK_LOOP_KEY_NOT_BUFFER);
      }
      inlineWlist := inlineWlist + [SE.DecodeCall(g, info.key.value, |SE.Raw(globals[g])|, info.routine, true)];
      return Ok(true);
    }

    /** `injectDecoding`: only stack and stack-loop encodings need code before each use. */
    method InjectDecoding(g: SE.GlobalId, order: seq<nat>) returns (r: Result<bool>)
      requires Valid() && g in gveInfo
      requires IsPermutation(order, |SE.Raw(globals[g])|)
      modifies this`stackSites, this`inlineWlist
      ensures Valid()
      ensures gveInfo[g].ty in {NoEncoding, ReplaceEncoding, GlobalEncoding} ==>
        r == Ok(false) && stackSites == old(stackSites) && inlineWlist == old(inlineWlist)
      ensures gveInfo[g].ty == StackEncoding ==>
        r == Ok(true) && stackSites == old(stackSites) + [StackSite(g, order)] && inlineWlist == old(inlineWlist)
      ensures gveInfo[g].ty == StackLoopEncoding ==>
        r == Ok(true) && stackSites == old(stackSites) && inlineWlist == old(inlineWlist) +
          [SE.DecodeCall(g, gveInfo[g].key.value, |SE.Raw(globals[g])|, gveInfo[g].routine, true)]
    {
      match gveInfo[g].ty
      case NoEncoding => return Ok(false);
      case ReplaceEncoding => return Ok(false);
      case GlobalEncoding => return Ok(false);
      case StackEncoding =>
        assert gveInfo[g].key.BufferKey? && g in globals;
        PushSiteKeepsValid(State(), StackSite(g, order));
        r := InjectOnStack(g, order);
      case StackLoopEncoding =>
        assert gveInfo[g].key.IntKey? && g in globals;
        PushCallKeepsValid(State(), SE.DecodeCall(g, gveInfo[g].key.value, |SE.Raw(globals[g])|, gveInfo[g].routine, true));
        r := InjectOnStackLoop(g);
    }

    /** Encodes the raw bytes of `g` with the `encode` of routine pair `routine`, as the JIT-compiled routine does. */
    method EncodeWithRoutine(g: SE.GlobalId, key: bv64, routine: nat) returns (encoded: seq<bv8>)
      requires g in globals && routine < |LegacyRoutines|
      ensures encoded == Routines.Apply(LegacyRoutines[routine], key, SE.Raw(globals[g]))
    {
      var str := SE.Raw(globals[g]);
      var buf := new bv8[|str|];
      Routines.RunRoutine(LegacyRoutines[routine], buf, str, key, |str|);
      assert str[..|str|] == str;
      encoded := buf[..];
    }

    /**
     * `processOnStackLoop`: encodes the string with a drawn integer key and
     * routine pair, records Stack-loop, and queues the decode call.
     */
    method ProcessOnStackLoop(g: SE.GlobalId, draw: SE.Draw) returns (r: Result<bool>)
      requires Valid() && ValidLoopDraw(draw) && g in globals && g !in gveInfo && HasData(globals[g])
      modifies this
      ensures Valid() && r == Ok(true)
      ensures State() == StackLoopEncoded(old(State()), g, draw)
    {
      var raw := SE.Raw(globals[g]);
      var enc := EncodeWithRoutine(g, draw.key, draw.routine);
      LegacyRoundTrip(draw.routine, draw.key, raw);
      var gv := globals[g].(initializer := Some(SE.DataInit(ConstantData(1, enc))));
      var info := EncodingInfo(StackLoopEncoding, IntKey(draw.key), draw.routine);
      RecordKeepsValid(State(), g, gv, info, Some(raw));
      globals := globals[g := gv];
      gveInfo := SE.Insert(gveInfo, g, info);
      plain := plain[g := raw];
      ghost var mid := State();
      r := InjectOnStackLoop(g);
      PushCallKeepsValid(mid, SE.DecodeCall(g, draw.key, |raw|, draw.routine, true));
    }

    /**
     * `processOnStack`: a string of at least `loopThreshold` bytes (terminator
     * included) goes to the stack-loop variant; a shorter one is encoded byte
     * by byte with fresh key bytes, recorded as Stack with that key, and gets
     * its stack decoding in the shuffled `order`.
     */
    method ProcessOnStack(g: SE.GlobalId, loopThreshold: nat, keyDraws: seq<bv8>, order: seq<nat>, draw: SE.Draw)
      returns (r: Result<bool>)
      requires Valid() && ValidLoopDraw(draw) && g in globals && g !in gveInfo && HasData(globals[g])
      requires |keyDraws| >= |SE.Raw(globals[g])| && forall i :: 0 <= i < |keyDraws| ==> ValidKeyByte(keyDraws[i])
      requires IsPermutation(order, |SE.Raw(globals[g])|)
      modifies this
      ensures Valid() && r == Ok(true)
      ensures State() == OnStackEncoded(old(State()), g, loopThreshold, keyDraws, order, draw)
    {
      var str := SE.Raw(globals[g]);
      if |str| >= loopThreshold {
        r := ProcessOnStackLoop(g, draw);
        return;
      }
      var encoded, key := EncodeOnStack(str, keyDraws);
      var gv := globals[g].(initializer := Some(SE.DataInit(ConstantData(1, encoded))));
      var info := EncodingInfo(StackEncoding, BufferKey(key), 0);
      RecordKeepsValid(State(), g, gv, info, Some(str));
      globals := globals[g := gv];
      gveInfo := SE.Insert(gveInfo, g, info);
      plain := plain[g := str];
      ghost var mid := State();
      r := InjectOnStack(g, order);
      PushSiteKeepsValid(mid, StackSite(g, order));
    }

    /**
     * `processGlobal`: makes the global writable, encodes it with a drawn
     * integer key and routine pair, registers a constructor whose decode call
     * decodes it in place, and records Global.
     */
    method ProcessGlobal(g: SE.GlobalId, draw: SE.Draw) returns (changed: bool)
      requires Valid() && ValidLoopDraw(draw) && g in globals && g !in gveInfo && HasData(globals[g])
      modifies this
      ensures Valid() && changed
      ensures State() == GlobalEncoded(old(State()), g, draw)
    {
      ghost var s := State();
      var raw := SE.Raw(globals[g]);
      var enc := EncodeWithRoutine(g, draw.key, draw.routine);
      var gv := globals[g].(isConstant := false, initializer := Some(SE.DataInit(ConstantData(1, enc))));
      var info := EncodingInfo(GlobalEncoding, IntKey(draw.key), draw.routine);
      globals := globals[g := gv];
      gveInfo := SE.Insert(gveInfo, g, info);
      plain := plain[g := raw];
      ctors := ctors + [g];
      inlineWlist := inlineWlist + [SE.DecodeCall(g, draw.key, |raw|, draw.routine, false)];
      GlobalEncodedValid(s, g, draw);
      assert State() == GlobalEncoded(s, g, draw);
      return true;
    }

    /** `processReplace`: stores the fitted replacement, NUL-terminated, and records Replace. */
    method ProcessReplace(g: SE.GlobalId, newString: seq<bv8>) returns (changed: bool)
      requires Valid() && g in globals && g !in gveInfo && HasData(globals[g])
      requires globals[g].initializer.value.data.NumElements() >= 1
      modifies this`globals, this`gveInfo
      ensures Valid() && changed
      ensures State() == ReplaceEncoded(old(State()), g, newString)
    {
      var n := globals[g].initializer.value.data.NumElements();
      var text := SE.FitReplacement(newString, n) + [0];
      var gv := globals[g].(initializer := Some(SE.DataInit(ConstantData(1, text))));
      RecordKeepsValid(State(), g, gv, EncodingInfo(ReplaceEncoding, NoKey, 0), None);
      globals := globals[g := gv];
      gveInfo := SE.Insert(gveInfo, g, EncodingInfo(ReplaceEncoding, NoKey, 0));
      return true;
    }

    /**
     * `process`: dispatches a verdict; Skip changes nothing, and Default
     * becomes `ResolveDefault` of the string's data.
     */
    method Process(g: SE.GlobalId, opt: StringEncOpt, keyDraws: seq<bv8>, order: seq<nat>, draw: SE.Draw)
      returns (r: Result<bool>)
      requires Valid() && ValidLoopDraw(draw) && g in globals && g !in gveInfo && HasData(globals[g])
      requires globals[g].initializer.value.data.NumElements() >= 1
      requires |keyDraws| >= |SE.Raw(globals[g])| && forall i :: 0 <= i < |keyDraws| ==> ValidKeyByte(keyDraws[i])
      requires IsPermutation(order, |SE.Raw(globals[g])|)
      modifies this
      ensures Valid()
      ensures opt.Skip? ==> r == Ok(false) && globals == old(globals) && gveInfo == old(gveInfo)
      ensures !opt.Skip? ==> r == Ok(true) && g in gveInfo
      ensures State() == ProcessedState(old(State()), g, opt, keyDraws, order, draw)
    {
      match opt
      case Skip => return Ok(false);
      case Stack(threshold) => r := ProcessOnStack(g, threshold, keyDraws, order, draw);
      case Global =>
        var c := ProcessGlobal(g, draw);
        r := Ok(c);
      case Replace(s) =>
        var c := ProcessReplace(g, s);
        r := Ok(c);
      case Default =>
        if globals[g].initializer.value.data.elementByteSize < 20 {
          r := ProcessOnStack(g, 6, keyDraws, order, draw);
        } else {
          var c := ProcessGlobal(g, draw);
          r := Ok(c);
        }
    }
  }

  /**
   * Every stack decoding emitted for a global rebuilds its original bytes:
   * `RunStackDecoding` applies to the site and yields the plain text.
   */
  lemma StackSiteRecoversPlain(s: LegacyState, site: StackSite)
    requires ValidState(s) && site in s.stackSites
    ensures site.global in s.gveInfo && site.global in s.globals && site.global in s.plain
    ensures var info := s.gveInfo[site.global];
      var enc := SE.Raw(s.globals[site.global]);
      && info.key.BufferKey? && |info.key.bytes| == |enc|
      && IsPermutation(site.order, |enc|)
      && XorBytes(info.key.bytes, enc) == s.plain[site.global]
  {
  }

  /**
   * Every queued decode call, run on its global's encoded bytes with its key
   * and routine, yields the original bytes.
   */
  lemma InlineCallRecoversPlain(s: LegacyState, call: SE.DecodeCall)
    requires ValidState(s) && call in s.inlineWlist
    ensures call.global in s.globals && call.global in s.plain && call.routine < |LegacyRoutines|
    ensures Routines.Apply(LegacyRoutines[call.routine], call.key, SE.Raw(s.globals[call.global]))
      == s.plain[call.global]
  {
    assert InlineCallValid(s, call);
  }
}

/**
 * The current string-encoding pass (src/passes/string-encoding/StringEncoding.cpp).
 *
 * For every operand that refers to a constant C string, the pass asks the
 * user's `obfuscate_string` hook for a verdict and then either leaves the
 * string alone, replaces it by another text of the same size, or encodes it
 * with one of the routine pairs of `Routines` under a random 64-bit key,
 * recording the encoding of the global in `GVarEncInfo`. Locally encoded
 * strings are decoded at run time, once, into a zero-initialised buffer; globally
 * encoded ones are decoded by a module constructor.
 */
module StringEncoding {
  import opened Wrappers
  import opened IR
  import Routines

  /** The message of the fatal error a key that is not a buffer leads to. */
  const STACK_LOOP_KEY_NOT_BUFFER: string := "String stack decoding loop is expecting a buffer as a key! "

  /** The user's verdict for one string. */
  datatype StringEncodingOpt = Skip | Local | Global | Replace(newString: seq<bv8>) | Default

  /** How a global has been encoded (`EncodingTy`). */
  datatype EncodingTy = NoEncoding | LocalEncoding | GlobalEncoding | ReplaceEncoding

  /** The key recorded for an encoded global: none yet, or a 64-bit integer (`KeyIntTy`). */
  datatype Key = NoKey | IntKey(value: bv64)

  /** `EncodingInfo`: the encoding, its key and the index of the routine pair used. */
  datatype EncodingInfo = EncodingInfo(ty: EncodingTy, key: Key, routine: nat)

  type GlobalId = nat

  /** A global's initializer: constant data, or anything else. */
  datatype Initializer = DataInit(data: ConstantData) | OtherInit

  /** A global variable as the pass reads it. */
  datatype GlobalVar = GlobalVar(
    isNullValue: bool,
    isZeroValue: bool,
    isConstant: bool,
    initializer: Option<Initializer>)

  /**
   * One operand of an instruction, after the pass has looked through pointer
   * casts and constant expressions: the global it reaches, if any, and whether
   * that global was found inside another global's constant-expression
   * initializer.
   */
  datatype Operand = Operand(target: Option<GlobalId>, viaConstantExprInitializer: bool)

  /** A decode call the pass emits and later inlines (`ToInline`). */
  datatype DecodeCall = DecodeCall(global: GlobalId, key: bv64, size: nat, routine: nat, local: bool)

  /** The random draws one encoding consumes: a key, then a routine index. */
  datatype Draw = Draw(key: bv64, routine: nat)

  /** The ranges of `Dist(1, Max)` for the key and `Dist(0, NumRoutines - 1)` for the routine. */
  predicate ValidDraw(d: Draw)
  {
    d.key != 0 && d.routine < Routines.NumEncodeDecodeRoutines()
  }

  /** `isEligible(GlobalVariable)`. */
  predicate IsEligibleGlobal(g: GlobalVar)
  {
    !g.isNullValue && !g.isZeroValue && g.isConstant && g.initializer.Some?
  }

  /** `isEligible(ConstantDataSequential)`: a C string of more than one character. */
  predicate IsEligibleData(d: ConstantData)
  {
    d.IsCString() && |d.AsCString()| > 1
  }

  /** `isSkip`. */
  predicate IsSkip(opt: StringEncodingOpt)
  {
    opt.Skip?
  }

  /** The encoding a non-skip verdict leads to (`process`): Default is handled as Local. */
  function EncodingFor(opt: StringEncodingOpt): (ty: EncodingTy)
    requires !IsSkip(opt)
    ensures ty == ReplaceEncoding <==> opt.Replace?
    ensures ty == GlobalEncoding <==> opt.Global?
    ensures ty == LocalEncoding <==> (opt.Local? || opt.Default?)
  {
    match opt
    case Local => LocalEncoding
    case Default => LocalEncoding
    case Global => GlobalEncoding
    case Replace(_) => ReplaceEncoding
  }

  /** The verdict the pass acts on for a string: the hook is asked only about eligible data. */
  function Verdict(d: ConstantData, hook: seq<bv8> -> StringEncodingOpt): (opt: StringEncodingOpt)
    ensures !IsEligibleData(d) ==> opt == Skip
    ensures IsEligibleData(d) ==> opt == hook(d.AsCString())
  {
    if IsEligibleData(d) then hook(d.AsCString()) else Skip
  }

  /**
   * Whether an operand reaching global `g` gets processed: `g` is eligible, its
   * initializer is constant data, the verdict is not Skip, and a string found
   * through a constant-expression initializer is only processed globally.
   */
  predicate Selected(g: GlobalVar, viaCE: bool, hook: seq<bv8> -> StringEncodingOpt)
  {
    IsEligibleGlobal(g) && g.initializer.value.DataInit?
    && var opt := Verdict(g.initializer.value.data, hook);
       !IsSkip(opt) && (viaCE ==> opt.Global?)
  }

  function Zeros(n: nat): (z: seq<bv8>)
    ensures |z| == n && forall i :: 0 <= i < n ==> z[i] == 0
  {
    if n == 0 then [] else Zeros(n - 1) + [0]
  }

  /**
   * The text `processReplace` stores, before its NUL terminator: a shorter
   * replacement padded with NULs, a longer one truncated, to `numElements - 1`
   * characters.
   */
  function FitReplacement(newString: seq<bv8>, numElements: nat): seq<bv8>
    requires numElements >= 1
  {
    if |newString| < numElements then newString + Zeros(numElements - |newString| - 1)
    else newString[..numElements - 1]
  }

  /** The fitted text keeps the replacement's prefix and pads with NULs, to one less than the original size. */
  lemma FitReplacementShape(newString: seq<bv8>, numElements: nat)
    requires numElements >= 1
    ensures |FitReplacement(newString, numElements)| == numElements - 1
    ensures forall i :: 0 <= i < numElements - 1 ==>
      FitReplacement(newString, numElements)[i] == if i < |newString| then newString[i] else 0
  {
  }

  /** The new initializer of a replaced string has the element count of the original. */
  lemma ReplacementKeepsSize(newString: seq<bv8>, d: ConstantData)
    requires IsEligibleData(d)
    ensures d.NumElements() >= 3
    ensures ConstantData(1, FitReplacement(newString, d.NumElements()) + [0]).NumElements() == d.NumElements()
  {
    FitReplacementShape(newString, d.NumElements());
  }

  /** Whether an entry of `GVarEncInfo` agrees with the global it describes. */
  ghost predicate Consistent(info: EncodingInfo, g: GlobalVar, plain: Option<seq<bv8>>)
  {
    match info.ty
    case LocalEncoding | GlobalEncoding =>
      plain.Some? && info.key.IntKey? && ValidDraw(Draw(info.key.value, info.routine))
      && g.initializer.Some? && g.initializer.value.DataInit?
      && g.initializer.value.data.elementByteSize == 1
      && Routines.Decode(info.routine, info.key.value, g.initializer.value.data.raw) == plain.value
    case _ => true
  }

  /** Every recorded encoding is consistent with its global, and the key decodes it back. */
  ghost predicate ValidState(s: PassState)
  {
    forall g :: g in s.encInfo ==>
      g in s.globals && Consistent(s.encInfo[g], s.globals[g], if g in s.plain then Some(s.plain[g]) else None)
  }

  /** `GVarEncInfo.insert`: a key already present keeps its value. */
  function Insert<K, V>(m: map<K, V>, k: K, v: V): (r: map<K, V>)
    ensures k in m ==> r == m
    ensures k !in m ==> r == m[k := v]
  {
    if k in m then m else m[k := v]
  }

  /** The pass object and the module state it changes. */
  class StringEncodingPass {
    /** The module's globals, whose initializers the pass rewrites. */
    var globals: map<GlobalId, GlobalVar>
    /** `GVarEncInfo`. */
    var encInfo: map<GlobalId, EncodingInfo>
    /** `ToInline`: decode calls to inline once every function is visited. */
    var toInline: seq<DecodeCall>
    /** `Ctors`: one constructor per globally encoded string, by global. */
    var ctors: seq<GlobalId>
    /** The original bytes of every global encoded locally or globally. */
    ghost var plain: map<GlobalId, seq<bv8>>

    /** Every recorded encoding is consistent with its global, and the key decodes it back. */
    ghost predicate Valid()
      reads this
    {
      ValidState(State())
    }

    constructor (globals: map<GlobalId, GlobalVar>)
      ensures Valid()
      ensures this.globals == globals && encInfo == map[] && toInline == [] && ctors == []
    {
      this.globals := globals;
      encInfo := map[];
      toInline := [];
      ctors := [];
      plain := map[];
    }

    /**
     * `injectDecodingLocally`: emits a decode call through the decode-once
     * wrapper; a recorded key that is not an integer is a fatal error.
     */
    method InjectDecodingLocally(g: GlobalId) returns (r: Result<bool>)
      requires g in encInfo && g in globals
      requires globals[g].initializer.Some? && globals[g].initializer.value.DataInit?
      modifies this`toInline
      ensures !encInfo[g].key.IntKey? ==> r.Fatal? && toInline == old(toInline)
      ensures encInfo[g].key.IntKey? ==> (r == Ok(true) && toInline == old(toInline) +
        [DecodeCall(g, encInfo[g].key.value, |globals[g].initializer.value.data.raw|, encInfo[g].routine, true)])
    {
      var info := encInfo[g];
      if !info.key.IntKey? {
        return Fatal(STACK_LOOP_KEY_NOT_BUFFER);
      }
      var size := |globals[g].initializer.value.data.raw|;
      toInline := toInline + [DecodeCall(g, info.key.value, size, info.routine, true)];
      return Ok(true);
    }

    /** `injectDecoding`: only locally encoded globals get a decode call. */
    method InjectDecoding(g: GlobalId) returns (r: Result<bool>)
      requires g in encInfo && g in globals
      requires globals[g].initializer.Some? && globals[g].initializer.value.DataInit?
      modifies this`toInline
      ensures encInfo[g].ty != LocalEncoding ==> r == Ok(false) && toInline == old(toInline)
      ensures encInfo[g].ty == LocalEncoding && encInfo[g].key.IntKey? ==> r == Ok(true)
      ensures encInfo[g].ty == LocalEncoding && !encInfo[g].key.IntKey? ==> r.Fatal?
      ensures r == Ok(true) ==> |toInline| == |old(toInline)| + 1
      ensures r != Ok(true) ==> toInline == old(toInline)
      ensures old(toInline) <= toInline
    {
      match encInfo[g].ty
      case NoEncoding => return Ok(false);
      case ReplaceEncoding => return Ok(false);
      case GlobalEncoding => return Ok(false);
      case LocalEncoding => r := InjectDecodingLocally(g);
    }

    /** `processReplace`: stores the fitted replacement, NUL-terminated, and records Replace. */
    method ProcessReplace(g: GlobalId, newString: seq<bv8>) returns (changed: bool)
      requires Valid() && g in globals && g !in encInfo
      requires globals[g].initializer.Some? && globals[g].initializer.value.DataInit?
      requires globals[g].initializer.value.data.NumElements() >= 1
      modifies this`globals, this`encInfo
      ensures Valid() && changed
      ensures var n := old(globals[g].initializer.value.data.NumElements());
        globals == old(globals)[g := old(globals[g]).(initializer :=
          Some(DataInit(ConstantData(1, FitReplacement(newString, n) + [0]))))]
      ensures encInfo == old(encInfo)[g := EncodingInfo(ReplaceEncoding, NoKey, 0)]
    {
      var n := globals[g].initializer.value.data.NumElements();
      var text := FitReplacement(newString, n) + [0];
      globals := globals[g := globals[g].(initializer := Some(DataInit(ConstantData(1, text))))];
      encInfo := Insert(encInfo, g, EncodingInfo(ReplaceEncoding, NoKey, 0));
      return true;
    }

    /** Encodes the raw bytes of `g` with routine `routine` and key `key`, as `EncodeFn` does. */
    method EncodeData(g: GlobalId, key: bv64, routine: nat) returns (encoded: seq<bv8>)
      requires g in globals && globals[g].initializer.Some? && globals[g].initializer.value.DataInit?
      requires routine < Routines.NumEncodeDecodeRoutines()
      ensures encoded == Routines.Encode(routine, key, globals[g].initializer.value.data.raw)
    {
      var str := globals[g].initializer.value.data.raw;
      var buf := new bv8[|str|];
      Routines.RunRoutine(Routines.GetEncodeRoutine(routine), buf, str, key, |str|);
      assert str[..|str|] == str;
      encoded := buf[..];
    }

    /**
     * `processLocal`: encodes the string in place, records Local with the
     * drawn key, and emits the wrapped decode call.
     */
    method ProcessLocal(g: GlobalId, draw: Draw) returns (r: Result<bool>)
      requires Valid() && ValidDraw(draw) && g in globals && g !in encInfo
      requires globals[g].initializer.Some? && globals[g].initializer.value.DataInit?
      modifies this
      ensures Valid() && r == Ok(true)
      ensures var raw := old(globals[g].initializer.value.data.raw);
        var enc := Routines.Encode(draw.routine, draw.key, raw);
        && globals == old(globals)[g := old(globals[g]).(initializer := Some(DataInit(ConstantData(1, enc))))]
        && encInfo == old(encInfo)[g := EncodingInfo(LocalEncoding, IntKey(draw.key), draw.routine)]
        && plain == old(plain)[g := raw]
        && toInline == old(toInline) + [DecodeCall(g, draw.key, |raw|, draw.routine, true)]
      ensures ctors == old(ctors)
    {
      var raw := globals[g].initializer.value.data.raw;
      var enc := EncodeData(g, draw.key, draw.routine);
      Routines.RoundTrip(draw.routine, draw.key, raw);
      globals := globals[g := globals[g].(initializer := Some(DataInit(ConstantData(1, enc))))];
      encInfo := Insert(encInfo, g, EncodingInfo(LocalEncoding, IntKey(draw.key), draw.routine));
      plain := plain[g := raw];
      r := InjectDecodingLocally(g);
    }

    /**
     * `processGlobal`: encodes the string, makes the global writable, registers
     * a constructor that decodes it in place, and records Global.
     */
    method ProcessGlobal(g: GlobalId, draw: Draw) returns (changed: bool)
      requires Valid() && ValidDraw(draw) && g in globals && g !in encInfo
      requires globals[g].initializer.Some? && globals[g].initializer.value.DataInit?
      modifies this
      ensures Valid() && changed
      ensures var raw := old(globals[g].initializer.value.data.raw);
        var enc := Routines.Encode(draw.routine, draw.key, raw);
        && globals == old(globals)[g := old(globals[g]).(isConstant := false,
             initializer := Some(DataInit(ConstantData(1, enc))))]
        && encInfo == old(encInfo)[g := EncodingInfo(GlobalEncoding, IntKey(draw.key), draw.routine)]
        && plain == old(plain)[g := raw]
        && toInline == old(toInline) + [DecodeCall(g, draw.key, |raw|, draw.routine, false)]
        && ctors == old(ctors) + [g]
    {
      var raw := globals[g].initializer.value.data.raw;
      var enc := EncodeData(g, draw.key, draw.routine);
      Routines.RoundTrip(draw.routine, draw.key, raw);
      globals := globals[g := globals[g].(isConstant := false,
        initializer := Some(DataInit(ConstantData(1, enc))))];
      ctors := ctors + [g];
      toInline := toInline + [DecodeCall(g, draw.key, |raw|, draw.routine, false)];
      encInfo := Insert(encInfo, g, EncodingInfo(GlobalEncoding, IntKey(draw.key), draw.routine));
      plain := plain[g := raw];
      return true;
    }

    /** `process`: dispatches a verdict; Skip changes nothing and Default is handled as Local. */
    method Process(g: GlobalId, opt: StringEncodingOpt, draw: Draw) returns (r: Result<bool>)
      requires Valid() && ValidDraw(draw) && g in globals && g !in encInfo
      requires globals[g].initializer.Some? && globals[g].initializer.value.DataInit?
      requires globals[g].initializer.value.data.NumElements() >= 1
      modifies this
      ensures Valid()
      ensures opt.Skip? ==> r == Ok(false) && globals == old(globals) && encInfo == old(encInfo)
      ensures !opt.Skip? ==> r == Ok(true) && g in encInfo && encInfo[g].ty == EncodingFor(opt)
      ensures !opt.Skip? && !opt.Replace? ==>
        encInfo[g] == EncodingInfo(EncodingFor(opt), IntKey(draw.key), draw.routine)
        && plain[g] == old(globals[g].initializer.value.data.raw)
      ensures opt.Replace? ==> var n := old(globals[g].initializer.value.data.NumElements());
        globals[g].initializer == Some(DataInit(ConstantData(1, FitReplacement(opt.newString, n) + [0])))
      ensures globals.Keys == old(globals.Keys)
      ensures forall h :: h in old(globals) && h != g ==> globals[h] == old(globals[h])
      ensures forall h :: h in old(encInfo) ==> h in encInfo && encInfo[h] == old(encInfo[h])
      ensures forall h :: h in encInfo ==> h in old(encInfo) || h == g
      ensures forall h :: h in old(plain) && h != g ==> h in plain && plain[h] == old(plain[h])
      ensures old(toInline) <= toInline && old(ctors) <= ctors
    {
      match opt
      case Skip => return Ok(false);
      case Local => r := ProcessLocal(g, draw);
      case Default => r := ProcessLocal(g, draw);
      case Global =>
        var c := ProcessGlobal(g, draw);
        r := Ok(c);
      case Replace(s) =>
        var c := ProcessReplace(g, s);
        r := Ok(c);
    }

    /** The abstract state of the pass. */
    ghost function State(): PassState
      reads this
    {
      PassState(globals, encInfo, plain, toInline, ctors)
    }

    /**
     * The body of `encodeStrings` for one operand. A string already recorded in
     * `GVarEncInfo` only gets a decode call; another one is processed when it
     * is `Selected`. `drew` tells whether the random draw was consumed.
     */
    method EncodeOperand(op: Operand, hook: seq<bv8> -> StringEncodingOpt, draw: Draw)
      returns (changed: bool, drew: bool)
      requires Valid() && ValidDraw(draw)
      requires op.target.Some? ==> op.target.value in globals
      modifies this
      ensures Valid()
      ensures OperandStep(old(State()), State(), op, hook, changed)
    {
      changed, drew := false, false;
      if op.target.None? {
        return;
      }
      var g := op.target.value;
      var gv := globals[g];
      if !(gv.initializer.Some? && IsEligibleGlobal(gv) && gv.initializer.value.DataInit?) {
        return;
      }
      if g in encInfo {
        changed := DecodeAgain(op, hook);
        return;
      }
      var opt := Verdict(gv.initializer.value.data, hook);
      if IsSkip(opt) || (op.viaConstantExprInitializer && !opt.Global?) {
        return;
      }
      drew := EncodeSelected(op, hook, opt, draw);
      changed := true;
    }

    /** An operand reaching a string encoded before only gets a decode call. */
    method DecodeAgain(op: Operand, hook: seq<bv8> -> StringEncodingOpt) returns (changed: bool)
      requires Valid() && op.target.Some? && op.target.value in globals && op.target.value in encInfo
      requires globals[op.target.value].initializer.Some? && globals[op.target.value].initializer.value.DataInit?
      modifies this
      ensures Valid()
      ensures OperandStep(old(State()), State(), op, hook, changed)
    {
      var res := InjectDecoding(op.target.value);
      changed := res.value;
    }

    /** An operand reaching a selected string that is not encoded yet: `process` with its verdict. */
    method EncodeSelected(op: Operand, hook: seq<bv8> -> StringEncodingOpt, opt: StringEncodingOpt, draw: Draw)
      returns (drew: bool)
      requires Valid() && ValidDraw(draw)
      requires op.target.Some? && op.target.value in globals && op.target.value !in encInfo
      requires Selected(globals[op.target.value], op.viaConstantExprInitializer, hook)
      requires opt == Verdict(globals[op.target.value].initializer.value.data, hook)
      modifies this
      ensures Valid() && drew == !opt.Replace?
      ensures OperandStep(old(State()), State(), op, hook, true)
    {
      var g := op.target.value;
      ReplacementKeepsSize([], globals[g].initializer.value.data);
      var res := Process(g, opt, draw);
      drew := !opt.Replace?;
    }

    /**
     * `encodeStrings` over the operands of one function, in order. Each local
     * or global encoding consumes the next random draw.
     */
    method EncodeStrings(ops: seq<Operand>, hook: seq<bv8> -> StringEncodingOpt, draws: seq<Draw>)
      returns (changed: bool, used: nat)
      requires Valid()
      requires forall j :: 0 <= j < |ops| && ops[j].target.Some? ==> ops[j].target.value in globals
      requires |draws| >= |ops| && forall k :: 0 <= k < |draws| ==> ValidDraw(draws[k])
      modifies this
      ensures Valid() && used <= |draws|
      ensures Progress(old(State()), State(), ops, hook, changed)
    {
      changed := false;
      used := 0;
      var i := 0;
      ghost var s0 := State();
      ProgressInit(s0, ops, hook);
      while i < |ops|
        invariant 0 <= i <= |ops| && used <= i
        invariant Valid() && globals.Keys == s0.globals.Keys
        invariant Progress(s0, State(), ops[..i], hook, changed)
      {
        changed, used := EncodeNext(ops, hook, draws, i, changed, used, s0);
        i := i + 1;
      }
      assert ops[..|ops|] == ops;
    }

    /** One turn of the loop of `encodeStrings`: operand `i`, with the next unused draw. */
    method EncodeNext(ops: seq<Operand>, hook: seq<bv8> -> StringEncodingOpt, draws: seq<Draw>, i: nat,
                      changed: bool, used: nat, ghost s0: PassState) returns (changed': bool, used': nat)
      requires Valid() && i < |ops| && used <= i && |draws| >= |ops| && ValidDraw(draws[used])
      requires ops[i].target.Some? ==> ops[i].target.value in globals
      requires Progress(s0, State(), ops[..i], hook, changed)
      modifies this
      ensures Valid() && used' <= i + 1
      ensures Progress(s0, State(), ops[..i + 1], hook, changed')
    {
      ghost var mid := State();
      var c, drew := EncodeOperand(ops[i], hook, draws[used]);
      ProgressStep(s0, mid, State(), ops, i, hook, changed, c);
      changed' := changed || c;
      used' := if drew then used + 1 else used;
    }
  }

  /** The state `StringEncodingPass` works on, as one value. */
  datatype PassState = PassState(
    globals: map<GlobalId, GlobalVar>,
    encInfo: map<GlobalId, EncodingInfo>,
    plain: map<GlobalId, seq<bv8>>,
    toInline: seq<DecodeCall>,
    ctors: seq<GlobalId>)

  /**
   * What one operand does to the pass state `s`, giving `t`; `changed` is
   * the value `encodeStrings` ORs into its result.
   */
  ghost predicate OperandStep(s: PassState, t: PassState, op: Operand,
                              hook: seq<bv8> -> StringEncodingOpt, changed: bool)
  {
    && t.globals.Keys == s.globals.Keys
    && s.encInfo.Keys <= t.encInfo.Keys
    && (forall h :: h in s.encInfo ==> t.encInfo[h] == s.encInfo[h])
    && (forall h :: h in t.encInfo && h !in s.encInfo ==> op.target == Some(h) && h in s.globals)
    // Globals other than the operand's, and already encoded ones, are untouched.
    && (forall h :: h in s.globals && (op.target != Some(h) || h in s.encInfo) ==>
          t.globals[h] == s.globals[h] && (h in t.encInfo <==> h in s.encInfo)
          && (h in s.plain ==> h in t.plain && t.plain[h] == s.plain[h]))
    // The operand's global, if not yet encoded, is encoded exactly when it is selected.
    && (op.target.Some? && op.target.value in s.globals && op.target.value !in s.encInfo ==>
          var g := op.target.value;
          if Selected(s.globals[g], op.viaConstantExprInitializer, hook) then
            g in t.encInfo && t.encInfo[g].ty == EncodingFor(Verdict(s.globals[g].initializer.value.data, hook))
            && (t.encInfo[g].ty != ReplaceEncoding ==> g in t.plain && t.plain[g] == Raw(s.globals[g]))
          else
            g !in t.encInfo && t.globals[g] == s.globals[g])
    && s.toInline <= t.toInline && s.ctors <= t.ctors
    && (changed <==> (t.encInfo.Keys != s.encInfo.Keys || |t.toInline| > |s.toInline|))
  }

  /**
   * What `encodeStrings` over `ops` has done to state `s0`, giving `s`:
   * earlier encodings are kept and never redone, every new encoding comes
   * from a selected operand with the verdict's encoding and decodes back to
   * the original bytes, every selected operand's global is encoded, and the
   * result reports whether anything was emitted.
   */
  ghost predicate Progress(s0: PassState, s: PassState, ops: seq<Operand>,
                           hook: seq<bv8> -> StringEncodingOpt, changed: bool)
  {
    && s.globals.Keys == s0.globals.Keys
    && (forall h :: h in s0.encInfo ==>
          h in s.encInfo && s.encInfo[h] == s0.encInfo[h] && h in s.globals && h in s0.globals
          && s.globals[h] == s0.globals[h])
    && (forall h :: h in s.globals && h !in s.encInfo ==> h in s0.globals && s.globals[h] == s0.globals[h])
    && (forall h :: h in s.encInfo && h !in s0.encInfo ==>
          h in s0.globals && NewlyEncoded(h, s0.globals[h], ops, hook, s.encInfo[h])
          && (s.encInfo[h].ty != ReplaceEncoding ==> h in s.plain && s.plain[h] == Raw(s0.globals[h])))
    && (forall j :: 0 <= j < |ops| ==> SelectedOperand(ops[j], s0.globals, hook) ==>
          ops[j].target.value in s.encInfo)
    && s0.toInline <= s.toInline && s0.ctors <= s.ctors
    && (changed <==> (s.encInfo.Keys != s0.encInfo.Keys || |s.toInline| > |s0.toInline|))
  }

  /** Before any operand, nothing has happened. */
  lemma ProgressInit(s: PassState, ops: seq<Operand>, hook: seq<bv8> -> StringEncodingOpt)
    requires ValidState(s)
    ensures Progress(s, s, ops[..0], hook, false)
  {
  }

  /** One more operand extends the progress of `encodeStrings` by one step. */
  lemma ProgressStep(s0: PassState, s1: PassState, s2: PassState, ops: seq<Operand>, i: nat,
                     hook: seq<bv8> -> StringEncodingOpt, changed: bool, c: bool)
    requires i < |ops|
    requires Progress(s0, s1, ops[..i], hook, changed)
    requires OperandStep(s1, s2, ops[i], hook, c)
    ensures Progress(s0, s2, ops[..i + 1], hook, changed || c)
  {
    ProgressStepNew(s0, s1, s2, ops, i, hook, changed, c);
    ProgressStepSelected(s0, s1, s2, ops, i, ops[..i + 1], hook, changed, c);
    assert s0.encInfo.Keys <= s1.encInfo.Keys;
    SubsetChain(s0.encInfo.Keys, s1.encInfo.Keys, s2.encInfo.Keys);
  }

  /** Along a chain of subsets, the last differs from the first exactly when some step adds something. */
  lemma SubsetChain<T>(a: set<T>, b: set<T>, c: set<T>)
    requires a <= b <= c
    ensures c != a <==> b != a || c != b
  {
    if c == a {
      assert b <= a;
    }
  }

  lemma ProgressStepNew(s0: PassState, s1: PassState, s2: PassState, ops: seq<Operand>, i: nat,
                        hook: seq<bv8> -> StringEncodingOpt, changed: bool, c: bool)
    requires i < |ops|
    requires Progress(s0, s1, ops[..i], hook, changed)
    requires OperandStep(s1, s2, ops[i], hook, c)
    ensures forall h :: h in s2.encInfo && h !in s0.encInfo ==>
      h in s0.globals && NewlyEncoded(h, s0.globals[h], ops[..i + 1], hook, s2.encInfo[h])
      && (s2.encInfo[h].ty != ReplaceEncoding ==> h in s2.plain && s2.plain[h] == Raw(s0.globals[h]))
  {
    var ops1 := ops[..i + 1];
    forall h | h in s2.encInfo && h !in s0.encInfo
      ensures h in s0.globals && NewlyEncoded(h, s0.globals[h], ops1, hook, s2.encInfo[h])
      ensures s2.encInfo[h].ty != ReplaceEncoding ==> h in s2.plain && s2.plain[h] == Raw(s0.globals[h])
    {
      if h in s1.encInfo {
        assert s2.encInfo[h] == s1.encInfo[h];
        assert NewlyEncoded(h, s0.globals[h], ops[..i], hook, s1.encInfo[h]);
        var j :| 0 <= j < i && ops[..i][j].target == Some(h)
          && Selected(s0.globals[h], ops[..i][j].viaConstantExprInitializer, hook)
          && s1.encInfo[h].ty == EncodingFor(Verdict(s0.globals[h].initializer.value.data, hook));
        assert ops1[j] == ops[..i][j];
      } else {
        assert ops1[i] == ops[i];
        assert s1.globals[h] == s0.globals[h];
      }
    }
  }

  lemma ProgressStepSelected(s0: PassState, s1: PassState, s2: PassState, ops: seq<Operand>, i: nat,
                             ops1: seq<Operand>, hook: seq<bv8> -> StringEncodingOpt, changed: bool, c: bool)
    requires i < |ops| && ops1 == ops[..i + 1]
    requires Progress(s0, s1, ops[..i], hook, changed)
    requires OperandStep(s1, s2, ops[i], hook, c)
    ensures forall j :: 0 <= j < |ops1| ==> SelectedOperand(ops1[j], s0.globals, hook) ==>
      ops1[j].target.value in s2.encInfo
  {
    forall j | 0 <= j < |ops1| && SelectedOperand(ops1[j], s0.globals, hook)
      ensures ops1[j].target.value in s2.encInfo
    {
      if j < i {
        assert ops1[j] == ops[..i][j];
      } else {
        var g := ops[i].target.value;
        if g !in s1.encInfo {
          assert s1.globals[g] == s0.globals[g];
        }
      }
    }
  }

  lemma ProgressStepUntouched(s0: PassState, s1: PassState, s2: PassState, ops: seq<Operand>, i: nat,
                              hook: seq<bv8> -> StringEncodingOpt, changed: bool, c: bool)
    requires i < |ops|
    requires Progress(s0, s1, ops[..i], hook, changed)
    requires OperandStep(s1, s2, ops[i], hook, c)
    ensures forall h :: h in s2.globals && h !in s2.encInfo ==> h in s0.globals && s2.globals[h] == s0.globals[h]
    ensures forall h :: h in s0.encInfo ==>
      h in s2.encInfo && s2.encInfo[h] == s0.encInfo[h] && h in s2.globals && s2.globals[h] == s0.globals[h]
  {
  }

  /** The raw bytes of a global's data initializer, or nothing. */
  function Raw(g: GlobalVar): seq<bv8>
  {
    if g.initializer.Some? && g.initializer.value.DataInit? then g.initializer.value.data.raw else []
  }

  /** An operand whose global, in state `globals`, is processed. */
  ghost predicate SelectedOperand(op: Operand, globals: map<GlobalId, GlobalVar>,
                                  hook: seq<bv8> -> StringEncodingOpt)
  {
    op.target.Some? && op.target.value in globals
    && Selected(globals[op.target.value], op.viaConstantExprInitializer, hook)
  }

  /**
   * Global `h` (with initial state `g0`) was processed because of some
   * operand: one that reaches it, is `Selected`, and whose verdict gives the
   * recorded encoding.
   */
  ghost predicate NewlyEncoded(h: GlobalId, g0: GlobalVar, ops: seq<Operand>,
                               hook: seq<bv8> -> StringEncodingOpt, info: EncodingInfo)
  {
    exists j :: 0 <= j < |ops| && ops[j].target == Some(h)
      && Selected(g0, ops[j].viaConstantExprInitializer, hook)
      && info.ty == EncodingFor(Verdict(g0.initializer.value.data, hook))
  }

  /** `run`: a function is visited unless it is excluded, empty or only a declaration. */
  predicate IsVisited(f: Function)
  {
    !f.globallyExcluded && !f.isEmpty && !f.isDeclaration
  }

  /**
   * The functions `run` hands to `encodeStrings`, in module order: none for
   * a globally excluded module, otherwise exactly the visited ones.
   */
  method FunctionsToVisit(m: Module) returns (toVisit: seq<Function>)
    ensures m.globallyExcluded ==> toVisit == []
    ensures !m.globallyExcluded ==> toVisit == Filter(m.functions, IsVisited)
  {
    toVisit := [];
    if m.globallyExcluded {
      return;
    }
    var i := 0;
    while i < |m.functions|
      invariant 0 <= i <= |m.functions|
      invariant toVisit == Filter(m.functions[..i], IsVisited)
    {
      var f := m.functions[i];
      assert m.functions[..i + 1][..i] == m.functions[..i];
      if IsVisited(f) {
        toVisit := toVisit + [f];
      }
      i := i + 1;
    }
    assert m.functions[..i] == m.functions;
  }

  /** A function of a non-excluded module is visited if and only if it passes the filter. */
  lemma VisitedExactly(m: Module, f: Function)
    requires !m.globallyExcluded
    ensures f in Filter(m.functions, IsVisited) <==> f in m.functions && IsVisited(f)
  {
    if f in m.functions && IsVisited(f) {
      FilterKeeps(m.functions, IsVisited, f);
    }
  }

  /**
   * The run-time behaviour of the `__omvll_decode_wrap` wrapper emitted for
   * one locally encoded string: the `NeedDecode` global, initially false, and
   * the zero-initialised `ClearBuffer` global the string is decoded into.
   */
  class DecodeOnceWrapper {
    /** The `NeedDecode` global: false until the first call has decoded the string. */
    var needDecode: bool
    /** The `ClearBuffer` global. */
    const clearBuffer: array<bv8>
    /** The encoded initializer of the string's global. */
    const encoded: seq<bv8>
    const key: bv64
    const routine: nat
    /** How many times the decode routine has run. */
    ghost var decodes: nat

    ghost predicate Valid()
      reads this, clearBuffer
    {
      && routine < Routines.NumEncodeDecodeRoutines()
      && clearBuffer.Length == |encoded|
      && decodes == (if needDecode then 1 else 0)
      && (needDecode ==> clearBuffer[..] == Routines.Decode(routine, key, encoded))
      && (!needDecode ==> clearBuffer[..] == Zeros(|encoded|))
    }

    constructor (call: DecodeCall, encoded: seq<bv8>)
      requires call.routine < Routines.NumEncodeDecodeRoutines() && call.size == |encoded|
      ensures Valid() && fresh(clearBuffer)
      ensures !needDecode && decodes == 0
      ensures this.encoded == encoded && key == call.key && routine == call.routine
    {
      this.encoded := encoded;
      key := call.key;
      routine := call.routine;
      clearBuffer := new bv8[|encoded|](_ => 0);
      needDecode := false;
      decodes := 0;
    }

    /**
     * One call of the wrapper: decode into the buffer only while the flag is
     * false, then set it. The routine therefore runs at most once, and every
     * call leaves the decoded string in the buffer.
     */
    method Call()
      requires Valid()
      modifies this, clearBuffer
      ensures Valid() && needDecode && decodes == 1
      ensures clearBuffer[..] == Routines.Decode(routine, key, encoded)
      ensures old(needDecode) ==> clearBuffer[..] == old(clearBuffer[..])
    {
      if needDecode == false {
        Routines.RunRoutine(Routines.GetDecodeRoutine(routine), clearBuffer, encoded, key, |encoded|);
        assert encoded[..|encoded|] == encoded;
        needDecode := true;
        decodes := decodes + 1;
      }
    }
  }

  /**
   * With the key and routine recorded for a locally encoded global, its
   * decode wrapper recovers the original bytes.
   */
  lemma WrapperRecoversPlain(s: PassState, g: GlobalId)
    requires ValidState(s) && g in s.encInfo && s.encInfo[g].ty == LocalEncoding
    ensures g in s.plain && s.encInfo[g].key.IntKey?
    ensures Routines.Decode(s.encInfo[g].routine, s.encInfo[g].key.value, Raw(s.globals[g])) == s.plain[g]
  {
  }
}

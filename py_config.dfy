/**
 * The Python configuration bridge: every hook of the user's
 * `ObfuscationConfig` subclass is called through the embedded interpreter,
 * and the Python value it returns is normalised into the option the passes
 * read. A hook the user does not override gives the "do nothing" option; a
 * hook that raises is a fatal error.
 */
module PyObfuscationConfig {
  import opened Wrappers
  import StringEncoding
  import ArithmeticOpts
  import OpaqueConstantsOpts

  /** The hooks whose answer is a flag. */
  datatype FlagHook =
    | BreakControlFlow
    | FlattenCfg
    | ObfuscateStructAccess
    | ObfuscateVariableAccess
    | AntiHooking

  /** A bound option object a hook can return as is. */
  datatype OptObject =
    | StringOptObject(stringOpt: StringEncoding.StringEncodingOpt)
    | FlagOptObject(hook: FlagHook, flag: bool)
    | ArithmeticOptObject(arithmeticOpt: ArithmeticOpts.ArithmeticOpt)
    | ConstantsOptObject(constantsOpt: OpaqueConstantsOpts.OpaqueConstantsOpt)

  /** The Python values the hooks distinguish; a `str` is seen through its UTF-8 bytes. */
  datatype PyValue =
    | PyNone
    | PyBool(b: bool)
    | PyStr(utf8: seq<bv8>)
    | PyBytes(bytes: seq<bv8>)
    | PyInt(i: int)
    | PyList(items: seq<PyValue>)
    | PyObject(obj: OptObject)
    | PyOther

  /** What calling a hook does: there is no override, the override raises, or it returns a value. */
  datatype Call = NotOverridden | Raises(what: string) | Returns(value: PyValue)

  const TWO_64: nat := 0x1_0000_0000_0000_0000

  function HookError(hook: string, what: string): string
  {
    "Error in '" + hook + "': '" + what + "'"
  }

  /** The name the override is looked up under. */
  function FlagHookName(h: FlagHook): string
  {
    match h
    case BreakControlFlow => "break_control_flow"
    case FlattenCfg => "flatten_cfg"
    case ObfuscateStructAccess => "obfuscate_struct_access"
    case ObfuscateVariableAccess => "obfuscate_variable_access"
    case AntiHooking => "anti_hooking"
  }

  /** `obfuscate_string`. */
  function ObfuscateString(c: Call): (r: Result<StringEncoding.StringEncodingOpt>)
    ensures c.NotOverridden? ==> r == Ok(StringEncoding.Skip)
    ensures c.Raises? ==> r.Fatal?
  {
    match c
    case NotOverridden => Ok(StringEncoding.Skip)
    case Raises(what) => Fatal(HookError("obfuscate_string", what))
    case Returns(v) =>
      match v
      case PyNone => Ok(StringEncoding.Skip)
      case PyBool(b) => Ok(if b then StringEncoding.Default else StringEncoding.Skip)
      case PyStr(s) => Ok(StringEncoding.Replace(s))
      case PyBytes(s) => Ok(StringEncoding.Replace(s))
      case PyObject(StringOptObject(o)) => Ok(o)
      case _ => Fatal(HookError("obfuscate_string", "unable to cast Python instance"))
  }

  /** `break_control_flow`, `flatten_cfg`, `obfuscate_struct_access`, `obfuscate_variable_access` and `anti_hooking`. */
  function FlagHookAnswer(h: FlagHook, c: Call): (r: Result<bool>)
    ensures c.NotOverridden? ==> r == Ok(false)
    ensures c.Raises? ==> r.Fatal?
  {
    match c
    case NotOverridden => Ok(false)
    case Raises(what) => Fatal(HookError(FlagHookName(h), what))
    case Returns(v) =>
      match v
      case PyNone => Ok(false)
      case PyBool(b) => Ok(b)
      case PyObject(FlagOptObject(h', flag)) =>
        if h' == h then Ok(flag) else Fatal(HookError(FlagHookName(h), "unable to cast Python instance"))
      case _ => Fatal(HookError(FlagHookName(h), "unable to cast Python instance"))
  }

  /** `obfuscate_arithmetic`: `None` and `False` give no rounds, `True` the default count. */
  function ObfuscateArithmetic(c: Call): (r: Result<ArithmeticOpts.ArithmeticOpt>)
    ensures c.NotOverridden? ==> r == Ok(ArithmeticOpts.FromBool(false))
    ensures c.Raises? ==> r.Fatal?
  {
    match c
    case NotOverridden => Ok(ArithmeticOpts.FromBool(false))
    case Raises(what) => Fatal(HookError("obfuscate_arithmetic", what))
    case Returns(v) =>
      match v
      case PyNone => Ok(ArithmeticOpts.FromBool(false))
      case PyBool(b) => Ok(ArithmeticOpts.FromBool(b))
      case PyObject(ArithmeticOptObject(o)) => Ok(o)
      case _ => Fatal(HookError("obfuscate_arithmetic", "unable to cast Python instance"))
  }

  /**
   * `cast<uint64_t>()` of one list item: an `int` in range, or a `bool`,
   * which Python counts as the integer 0 or 1; anything else does not cast.
   */
  function AsUInt64(v: PyValue): (r: Option<nat>)
    ensures r.Some? ==> r.value < TWO_64
    ensures r.Some? <==> (v.PyInt? && 0 <= v.i < TWO_64) || v.PyBool?
  {
    match v
    case PyInt(i) => if 0 <= i < TWO_64 then Some(i as nat) else None
    case PyBool(b) => Some(if b then 1 else 0)
    case _ => None
  }

  /** The loop over a returned list: every item cast to `uint64_t`, the first that does not cast failing. */
  function CastAll(items: seq<PyValue>): (r: Option<seq<nat>>)
    ensures r.Some? ==> |r.value| == |items|
    ensures r.Some? ==> forall i :: 0 <= i < |items| ==> AsUInt64(items[i]) == Some(r.value[i])
    ensures r.None? ==> exists i :: 0 <= i < |items| && AsUInt64(items[i]).None?
  {
    if |items| == 0 then Some([])
    else
      var last := items[|items| - 1];
      match CastAll(items[..|items| - 1])
      case None =>
        var i :| 0 <= i < |items| - 1 && AsUInt64(items[..|items| - 1][i]).None?;
        assert items[i] == items[..|items| - 1][i];
        None
      case Some(vs) =>
        match AsUInt64(last)
        case None => None
        case Some(n) => Some(vs + [n])
  }

  /** `obfuscate_constants`: `None` skips, a flag is kept, a list of integers becomes the set of its values. */
  function ObfuscateConstants(c: Call): (r: Result<OpaqueConstantsOpts.OpaqueConstantsOpt>)
    ensures c.NotOverridden? ==> r == Ok(OpaqueConstantsOpts.Skip)
    ensures c.Raises? ==> r.Fatal?
  {
    match c
    case NotOverridden => Ok(OpaqueConstantsOpts.Skip)
    case Raises(what) => Fatal(HookError("obfuscate_constants", what))
    case Returns(v) =>
      match v
      case PyNone => Ok(OpaqueConstantsOpts.Skip)
      case PyBool(b) => Ok(OpaqueConstantsOpts.Bool(b))
      case PyList(items) =>
        (match CastAll(items)
         case None => Fatal(HookError("obfuscate_constants", "unable to cast Python instance to C++ type"))
         case Some(vs) => Ok(OpaqueConstantsOpts.SetOf(vs)))
      case PyObject(ConstantsOptObject(o)) => Ok(o)
      case _ => Fatal(HookError("obfuscate_constants", "unable to cast Python instance"))
  }

  /** `report_diff`: the arguments handed to the override, if there is one. */
  function ReportDiff(c: Call, pass: string, original: string, obfuscated: string): (r: Result<Option<(string, string, string)>>)
    ensures c.NotOverridden? ==> r == Ok(None)
    ensures c.Returns? ==> r == Ok(Some((pass, original, obfuscated)))
    ensures c.Raises? ==> r.Fatal?
  {
    match c
    case NotOverridden => Ok(None)
    case Raises(what) => Fatal(HookError("report_diff", what))
    case Returns(_) => Ok(Some((pass, original, obfuscated)))
  }

  // ---------------------------------------------------------------------
  // The normalisation table

  /** Without an override every pass is told to do nothing. */
  lemma NoOverrideDoesNothing(h: FlagHook)
    ensures ObfuscateString(NotOverridden) == Ok(StringEncoding.Skip)
    ensures FlagHookAnswer(h, NotOverridden) == Ok(false)
    ensures !ArithmeticOpts.IsTruthy(ObfuscateArithmetic(NotOverridden).value)
    ensures ObfuscateConstants(NotOverridden).value.Skip?
    ensures ReportDiff(NotOverridden, "", "", "") == Ok(None)
  {
  }

  /**
   * `obfuscate_string` skips exactly for `None`, `False`, a missing override
   * and a returned skip option, and is fatal for anything it cannot read.
   */
  lemma StringSkips(c: Call)
    ensures ObfuscateString(c) == Ok(StringEncoding.Skip) <==>
      || c.NotOverridden?
      || c == Returns(PyNone)
      || c == Returns(PyBool(false))
      || c == Returns(PyObject(StringOptObject(StringEncoding.Skip)))
    ensures c.Returns? && (c.value.PyInt? || c.value.PyList? || c.value.PyOther?) ==> ObfuscateString(c).Fatal?
  {
  }

  /** A flag hook turns its pass on exactly for `True` or a bound flag of its own set. */
  lemma FlagOn(h: FlagHook, c: Call)
    ensures FlagHookAnswer(h, c) == Ok(true) <==>
      c == Returns(PyBool(true)) || c == Returns(PyObject(FlagOptObject(h, true)))
  {
  }

  /** `obfuscate_arithmetic` asks for rounds exactly when it returns `True`. */
  lemma ArithmeticTable(v: PyValue)
    requires v.PyNone? || v.PyBool?
    ensures ObfuscateArithmetic(Returns(v)).Ok?
    ensures ArithmeticOpts.IsTruthy(ObfuscateArithmetic(Returns(v)).value) <==> v == PyBool(true)
  {
  }

  /** A list of `uint64_t`-sized integers becomes the set of exactly those integers. */
  lemma ConstantsListTable(vs: seq<nat>)
    requires forall i :: 0 <= i < |vs| ==> vs[i] < TWO_64
    ensures var r := ObfuscateConstants(Returns(PyList(seq(|vs|, i requires 0 <= i < |vs| => PyInt(vs[i])))));
      r.Ok? && r.value.Set? && forall x :: x in r.value.values <==> x in vs
  {
    var items := seq(|vs|, i requires 0 <= i < |vs| => PyInt(vs[i]));
    assert forall i :: 0 <= i < |items| ==> AsUInt64(items[i]) == Some(vs[i]);
    var cast := CastAll(items);
    assert cast.Some?;
    assert cast.value == vs;
  }

  /** A `bool` in the list stands for 0 or 1: `[True, False]` protects exactly 0 and 1. */
  lemma ConstantsListBools()
    ensures var r := ObfuscateConstants(Returns(PyList([PyBool(true), PyBool(false)])));
      r.Ok? && r.value.Set? && r.value.values == {0, 1}
  {
    var items := [PyBool(true), PyBool(false)];
    var first := items[..1];
    assert first == [PyBool(true)] && first[..|first| - 1] == [] && items[..|items| - 1] == first;
    assert AsUInt64(PyBool(true)) == Some(1) && AsUInt64(PyBool(false)) == Some(0);
    var none: seq<nat> := [];
    assert CastAll(first[..|first| - 1]) == Some(none);
    assert CastAll(first) == Some(none + [1]);
    assert CastAll(items) == Some(none + [1] + [0]);
    assert none + [1] + [0] == [1, 0];
    assert OpaqueConstantsOpts.SetOf([1, 0]).values == {0, 1} by {
      assert forall v :: v in OpaqueConstantsOpts.SetOf([1, 0]).values <==> v in [1, 0];
    }
  }

  /** A list holding anything that does not cast to `uint64_t` is fatal. */
  lemma ConstantsListFatal(items: seq<PyValue>, i: nat)
    requires i < |items| && AsUInt64(items[i]).None?
    ensures ObfuscateConstants(Returns(PyList(items))).Fatal?
  {
  }
}

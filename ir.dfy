/**
 * The slice of LLVM IR that the passes inspect, as plain values: functions
 * with the flags the gating filters read, modules as ordered lists of
 * functions, and constant data arrays as raw bytes.
 */
module IR {
  /** A function as the per-pass filters see it. */
  datatype Function = Function(
    name: string,
    isDeclaration: bool,
    isIntrinsic: bool,
    isEmpty: bool,
    isCoroutine: bool,
    alwaysInline: bool,
    globallyExcluded: bool,
    instructionCount: nat)

  /** A module: its global exclusion flag and its functions in order. */
  datatype Module = Module(globallyExcluded: bool, functions: seq<Function>)

  /** The name prefix of the helpers the plugin itself emits. */
  const OmvllPrefix: string := "__omvll"

  predicate HasOmvllPrefix(name: string)
  {
    |OmvllPrefix| <= |name| && name[..|OmvllPrefix|] == OmvllPrefix
  }

  /**
   * A constant data array (`ConstantDataSequential`): the size of one element
   * and the raw bytes of all elements (`getRawDataValues`).
   */
  datatype ConstantData = ConstantData(elementByteSize: nat, raw: seq<bv8>)
  {
    /** `getNumElements`. */
    function NumElements(): nat
    {
      if elementByteSize == 0 then 0 else |raw| / elementByteSize
    }

    /** `isCString`: an i8 array whose last byte, and only that byte, is NUL. */
    predicate IsCString()
    {
      elementByteSize == 1 && |raw| > 0 && raw[|raw| - 1] == 0
      && forall i :: 0 <= i < |raw| - 1 ==> raw[i] != 0
    }

    /** `getAsCString`: the string without its terminating NUL. */
    function AsCString(): seq<bv8>
      requires IsCString()
    {
      raw[..|raw| - 1]
    }
  }

  /** The elements of `s` that satisfy `p`, in their original order. */
  function Filter<T>(s: seq<T>, p: T -> bool): (r: seq<T>)
    ensures |r| <= |s|
    ensures forall x :: x in r ==> x in s && p(x)
  {
    if |s| == 0 then []
    else Filter(s[..|s| - 1], p) + (if p(s[|s| - 1]) then [s[|s| - 1]] else [])
  }

  /** Every element of `s` that satisfies `p` is kept by `Filter`. */
  lemma {:induction false} FilterKeeps<T>(s: seq<T>, p: T -> bool, x: T)
    requires x in s && p(x)
    ensures x in Filter(s, p)
  {
    if s[|s| - 1] != x {
      assert x in s[..|s| - 1];
      FilterKeeps(s[..|s| - 1], p, x);
    }
  }
}

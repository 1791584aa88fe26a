/**
 * The XOR encode/decode routine pairs of the string-encoding pass
 * (src/passes/string-encoding/Routines.cpp).
 *
 * A key is a 64-bit integer read through its host (little-endian) byte
 * view; byte `i` of a string is combined with key byte `i mod 8`, and the
 * second routine also mixes in the low 8 bits of the position. The encoders
 * are compiled into the pass; the decoders are C source text that the pass
 * compiles for the target. Both tables are modelled by the routine they
 * implement.
 */
module Routines {
  /** The two routine shapes that appear in both tables. */
  datatype Routine = KeyXor | KeyIndexXor

  /** The encoder table (`EncodeRoutines`). */
  const EncodeRoutines: seq<Routine> := [KeyXor, KeyIndexXor]

  /** The C decoder table (`DecodeRoutines`), as the routine each text implements. */
  const DecodeRoutines: seq<Routine> := [KeyXor, KeyIndexXor]

  /** `getNumEncodeDecodeRoutines`: the common size of both tables. */
  function NumEncodeDecodeRoutines(): (n: nat)
    ensures n == |EncodeRoutines| == |DecodeRoutines| == 2
  {
    |EncodeRoutines|
  }

  /** `getEncodeRoutine`: only defined below the table size (the source asserts it). */
  function GetEncodeRoutine(idx: nat): (r: Routine)
    requires idx < NumEncodeDecodeRoutines()
    ensures r == (if idx == 0 then KeyXor else KeyIndexXor)
  {
    EncodeRoutines[idx]
  }

  /** `getDecodeRoutine`: the decoder paired with encoder `idx`. */
  function GetDecodeRoutine(idx: nat): (r: Routine)
    requires idx < NumEncodeDecodeRoutines()
    ensures r == GetEncodeRoutine(idx)
  {
    DecodeRoutines[idx]
  }

  /** 256 to the power `k`: the weight of byte `k` in a little-endian integer. */
  function Pow256(k: nat): (p: nat)
    ensures p > 0
  {
    if k == 0 then 1 else 256 * Pow256(k - 1)
  }

  /** Byte `k` of the little-endian byte view of `key` (`raw_key[k]`). */
  function KeyByte(key: bv64, k: nat): bv8
    requires k < 8
  {
    ((key as int / Pow256(k)) % 256) as bv8
  }

  /** The low 8 bits of a position, as the implicit `int` to `char` store keeps them. */
  function LowByte(i: nat): bv8
  {
    (i % 256) as bv8
  }

  /** The byte a routine writes at position `i` for byte `b`; encoders and decoders share it. */
  function MixByte(r: Routine, key: bv64, b: bv8, i: nat): bv8
  {
    match r
    case KeyXor => b ^ KeyByte(key, i % 8)
    case KeyIndexXor => b ^ KeyByte(key, i % 8) ^ LowByte(i)
  }

  /** The whole buffer a routine produces from `s`, position by position. */
  function Apply(r: Routine, key: bv64, s: seq<bv8>): (t: seq<bv8>)
    ensures |t| == |s|
  {
    if |s| == 0 then [] else Apply(r, key, s[..|s| - 1]) + [MixByte(r, key, s[|s| - 1], |s| - 1)]
  }

  /** Position `i` of the output depends only on byte `i` of the input and on `i`. */
  lemma {:induction false} ApplyAt(r: Routine, key: bv64, s: seq<bv8>, i: nat)
    requires i < |s|
    ensures Apply(r, key, s)[i] == MixByte(r, key, s[i], i)
  {
    if i < |s| - 1 {
      ApplyAt(r, key, s[..|s| - 1], i);
    }
  }

  /** What encoder `idx` writes for input `s`. */
  function Encode(idx: nat, key: bv64, s: seq<bv8>): seq<bv8>
    requires idx < NumEncodeDecodeRoutines()
  {
    Apply(GetEncodeRoutine(idx), key, s)
  }

  /** What the C decoder `idx` writes for input `s`. */
  function Decode(idx: nat, key: bv64, s: seq<bv8>): seq<bv8>
    requires idx < NumEncodeDecodeRoutines()
  {
    Apply(GetDecodeRoutine(idx), key, s)
  }

  /** Mixing a byte twice with the same routine, key and position restores it. */
  lemma MixByteTwice(r: Routine, key: bv64, b: bv8, i: nat)
    ensures MixByte(r, key, MixByte(r, key, b, i), i) == b
  {
    var k := KeyByte(key, i % 8);
    match r
    case KeyXor =>
      assert (b ^ k) ^ k == b;
    case KeyIndexXor =>
      var l := LowByte(i);
      assert ((b ^ k ^ l) ^ k) ^ l == b;
  }

  /** Applying a routine twice with the same key restores the buffer. */
  lemma {:induction false} ApplyInvolution(r: Routine, key: bv64, s: seq<bv8>)
    ensures Apply(r, key, Apply(r, key, s)) == s
  {
    var t := Apply(r, key, Apply(r, key, s));
    var once := Apply(r, key, s);
    forall i | 0 <= i < |s| ensures t[i] == s[i] {
      ApplyAt(r, key, s, i);
      ApplyAt(r, key, once, i);
      MixByteTwice(r, key, s[i], i);
    }
  }

  /** Decoding what encoder `idx` produced, with the same key and size, gives back the input. */
  lemma RoundTrip(idx: nat, key: bv64, s: seq<bv8>)
    requires idx < NumEncodeDecodeRoutines()
    ensures Decode(idx, key, Encode(idx, key, s)) == s
  {
    ApplyInvolution(GetEncodeRoutine(idx), key, s);
  }

  /** Encoding is an involution: encoding twice with the same key restores the buffer. */
  lemma EncodeInvolution(idx: nat, key: bv64, s: seq<bv8>)
    requires idx < NumEncodeDecodeRoutines()
    ensures Encode(idx, key, Encode(idx, key, s)) == s
  {
    ApplyInvolution(GetEncodeRoutine(idx), key, s);
  }

  /** Routine 0 is a plain XOR with the key bytes, and routine 1 also XORs the position. */
  lemma EncodeBytes(idx: nat, key: bv64, s: seq<bv8>, i: nat)
    requires idx < NumEncodeDecodeRoutines() && i < |s|
    ensures idx == 0 ==> Encode(idx, key, s)[i] == s[i] ^ KeyByte(key, i % 8)
    ensures idx == 1 ==> Encode(idx, key, s)[i] == s[i] ^ KeyByte(key, i % 8) ^ LowByte(i)
  {
    ApplyAt(GetEncodeRoutine(idx), key, s, i);
  }

  /**
   * Runs routine `r` over `out` and `input`, as both the `EncodeRoutines`
   * lambdas and the C decoders do: only `out[0..size)` is written, and a
   * non-positive size writes nothing. The caller's buffers must hold `size`
   * bytes.
   */
  method RunRoutine(r: Routine, out: array<bv8>, input: seq<bv8>, key: bv64, size: int)
    requires size <= out.Length && size <= |input|
    modifies out
    ensures var n := if size < 0 then 0 else size;
      out[..] == Apply(r, key, input[..n]) + old(out[..])[n..]
  {
    ghost var was := out[..];
    ghost var n := if size < 0 then 0 else size;
    var i := 0;
    while i < size
      invariant 0 <= i <= n
      invariant forall k :: 0 <= k < i ==> out[k] == MixByte(r, key, input[k], k)
      invariant forall k :: i <= k < out.Length ==> out[k] == was[k]
    {
      out[i] := MixByte(r, key, input[i], i);
      i := i + 1;
    }
    ghost var want := Apply(r, key, input[..n]) + was[n..];
    forall k | 0 <= k < out.Length ensures out[k] == want[k] {
      if k < n {
        ApplyAt(r, key, input[..n], k);
      }
    }
    assert out[..] == want;
  }
}

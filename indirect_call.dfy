/**
 * The indirect call pass. Every direct call to an ordinary function is
 * turned into a call through an address rebuilt at run time as
 * `Share2 - Share1`, where `Share1` is a random 256-aligned word and
 * `Share2` is the callee's address plus `Share1`; the shares of a function
 * live in two constant global arrays, one slot per rewritten call.
 */
module IndirectCall {
  import opened Wrappers
  import opened Words
  import opened Random
  import IR

  const UINT32_MAX: nat := 0xFFFF_FFFF

  /** `0xFFFFFF00`: every bit of a `uint32_t` but the low eight. */
  const SHARE_MASK: nat := 0xFFFF_FF00

  /** `getRandomShareAligned`: a draw from `[1, UINT32_MAX]` rounded down to a multiple of 256. */
  function ShareAligned(draw: nat): (s: nat)
    ensures s % 256 == 0 && s <= draw < s + 256
  {
    draw - draw % 256
  }

  /** Rounding down is what `Dist(*RNG) & 0xFFFFFF00` computes on a `uint32_t`. */
  lemma ShareAlignedIsMask(draw: nat)
    requires 1 <= draw <= UINT32_MAX
    ensures ShareAligned(draw) == BitAnd(32, draw, SHARE_MASK)
  {
    Pow2Of32();
    assert Pow2(8) == 256;
    AndHighMask(32, 8, draw);
  }

  /** The callee of a direct call, with what the filter reads and its address as an integer. */
  datatype Callee = Callee(addr: nat, isIntrinsic: bool, alwaysInline: bool)

  /** What a call calls. */
  datatype Target =
    /** `getCalledFunction()` is this function. */
    | Direct(callee: Callee)
    /** `inttoptr(load shares2[slot] - load shares1[slot])`: the rewritten call. */
    | ThroughShares(slot: nat)
    /** Any other called operand. */
    | OtherTarget

  datatype Inst = Call(target: Target) | OtherInst

  /** A call the pass rewrites: a direct call to a function that is neither an intrinsic nor always inlined. */
  predicate IsCandidate(i: Inst)
  {
    i.Call? && i.target.Direct? && !i.target.callee.isIntrinsic && !i.target.callee.alwaysInline
  }

  /** The positions of the candidate calls, in order: the `DirectCalls` vector. */
  function Positions(insts: seq<Inst>): (ps: seq<nat>)
    ensures forall j :: 0 <= j < |ps| ==> ps[j] < |insts| && IsCandidate(insts[ps[j]])
    ensures forall j, m :: 0 <= j < m < |ps| ==> ps[j] < ps[m]
    ensures forall k :: 0 <= k < |insts| && IsCandidate(insts[k]) ==> k in ps
  {
    if |insts| == 0 then []
    else
      var n := |insts| - 1;
      var rest := Positions(insts[..n]);
      assert forall k :: 0 <= k < n ==> insts[..n][k] == insts[k];
      rest + (if IsCandidate(insts[n]) then [n] else [])
  }

  /** The two constant arrays `.icall.shares1` and `.icall.shares2`. */
  datatype Shares = Shares(first: seq<nat>, second: seq<nat>)

  /** The word a call's target address is, in a `pw`-bit address space, given the function's shares. */
  function TargetAddress(pw: nat, i: Inst, sh: Shares): Option<nat>
  {
    if !i.Call? then None
    else
      match i.target
      case Direct(c) => Some(c.addr)
      case ThroughShares(j) =>
        if j < |sh.first| && j < |sh.second| then Some(Wrap(pw, sh.second[j] as int - sh.first[j])) else None
      case OtherTarget => None
  }

  /** The share the `k`-th draw of the stream gives, as a `pw`-bit word. */
  function ShareAt(pw: nat, rng: Rng, k: nat): nat
  {
    Wrap(pw, ShareAligned(rng(k, 1, UINT32_MAX)))
  }

  /** The shares drawn for a function's candidates, from position `start` of the stream. */
  function FirstShares(pw: nat, rng: Rng, start: nat, n: nat): (s: seq<nat>)
    ensures |s| == n
  {
    if n == 0 then [] else FirstShares(pw, rng, start, n - 1) + [ShareAt(pw, rng, start + n - 1)]
  }

  /** `Share2 = ptrtoint(callee) + Share1` for each candidate. */
  function SecondShares(pw: nat, insts: seq<Inst>, first: seq<nat>): (s: seq<nat>)
    requires |first| == |Positions(insts)|
    ensures |s| == |first|
  {
    var ps := Positions(insts);
    seq(|ps|, j requires 0 <= j < |ps| => Wrap(pw, insts[ps[j]].target.callee.addr + first[j]))
  }

  /** Every callee address is a `pw`-bit word. */
  predicate AddressesFit(pw: nat, insts: seq<Inst>)
  {
    forall k :: 0 <= k < |insts| && insts[k].Call? && insts[k].target.Direct? ==> insts[k].target.callee.addr < Pow2(pw)
  }

  /** The calls after the rewrite: the `j`-th candidate calls through slot `j`, nothing else changes. */
  predicate RewrittenFrom(insts: seq<Inst>, out: seq<Inst>)
  {
    var ps := Positions(insts);
    |out| == |insts|
    && (forall j :: 0 <= j < |ps| ==> out[ps[j]] == Call(ThroughShares(j)))
    && (forall k :: 0 <= k < |insts| && k !in ps ==> out[k] == insts[k])
  }

  /**
   * Every call of the rewritten function reaches the address it reached
   * before: `Share2 - Share1` is the callee's address modulo 2^pw.
   */
  lemma RewriteKeepsTargets(pw: nat, insts: seq<Inst>, out: seq<Inst>, first: seq<nat>)
    requires AddressesFit(pw, insts) && RewrittenFrom(insts, out)
    requires |first| == |Positions(insts)|
    ensures forall k :: 0 <= k < |insts| ==>
              TargetAddress(pw, out[k], Shares(first, SecondShares(pw, insts, first))) ==
              TargetAddress(pw, insts[k], Shares(first, SecondShares(pw, insts, first)))
    ensures forall k :: 0 <= k < |insts| && IsCandidate(insts[k]) ==>
              TargetAddress(pw, out[k], Shares(first, SecondShares(pw, insts, first))) == Some(insts[k].target.callee.addr)
  {
    var ps := Positions(insts);
    var sh := Shares(first, SecondShares(pw, insts, first));
    forall k | 0 <= k < |insts| && k in ps
      ensures TargetAddress(pw, out[k], sh) == Some(insts[k].target.callee.addr)
    {
      var j :| 0 <= j < |ps| && ps[j] == k;
      WrapAddSub(pw, insts[k].target.callee.addr, first[j]);
    }
  }

  lemma PositionsSnoc(insts: seq<Inst>, k: nat)
    requires k < |insts|
    ensures Positions(insts[..k + 1]) == Positions(insts[..k]) + (if IsCandidate(insts[k]) then [k] else [])
  {
    assert insts[..k + 1][..k] == insts[..k];
  }

  lemma SecondSharesSnoc(pw: nat, insts: seq<Inst>, k: nat, first: seq<nat>, s1: nat)
    requires k < |insts| && IsCandidate(insts[k]) && |first| == |Positions(insts[..k])|
    ensures |first + [s1]| == |Positions(insts[..k + 1])|
    ensures SecondShares(pw, insts[..k + 1], first + [s1]) ==
            SecondShares(pw, insts[..k], first) + [Wrap(pw, insts[k].target.callee.addr + s1)]
  {
    PositionsSnoc(insts, k);
    var ps := Positions(insts[..k]);
    forall j | 0 <= j < |ps|
      ensures insts[..k + 1][ps[j]] == insts[..k][ps[j]]
    {
    }
  }

  lemma SecondSharesSkip(pw: nat, insts: seq<Inst>, k: nat, first: seq<nat>)
    requires k < |insts| && !IsCandidate(insts[k]) && |first| == |Positions(insts[..k])|
    ensures |first| == |Positions(insts[..k + 1])|
    ensures SecondShares(pw, insts[..k + 1], first) == SecondShares(pw, insts[..k], first)
  {
    PositionsSnoc(insts, k);
    var ps := Positions(insts[..k]);
    forall j | 0 <= j < |ps|
      ensures insts[..k + 1][ps[j]] == insts[..k][ps[j]]
    {
    }
  }

  /**
   * The second loop of `process`: the call at `calls[j]` gets the address
   * rebuilt from slot `j`.
   */
  method RewriteCalls(insts: seq<Inst>, calls: seq<nat>) returns (out: seq<Inst>)
    requires calls == Positions(insts)
    ensures RewrittenFrom(insts, out)
  {
    out := insts;
    for idx := 0 to |calls|
      invariant RewrittenUpTo(insts, calls, idx, out)
    {
      out := RewriteOne(insts, calls, idx, out);
    }
    assert calls[..|calls|] == calls;
  }

  /** The calls at `calls[..n]` are rewritten, every other instruction is untouched. */
  ghost predicate RewrittenUpTo(insts: seq<Inst>, calls: seq<nat>, n: nat, out: seq<Inst>)
    requires n <= |calls|
  {
    && |out| == |insts|
    && (forall j :: 0 <= j < n ==> calls[j] < |out| && out[calls[j]] == Call(ThroughShares(j)))
    && (forall k :: 0 <= k < |insts| && k !in calls[..n] ==> out[k] == insts[k])
  }

  /** One turn of the second loop of `process`: the call at `calls[idx]`. */
  method RewriteOne(insts: seq<Inst>, calls: seq<nat>, idx: nat, out: seq<Inst>) returns (out': seq<Inst>)
    requires idx < |calls| && calls[idx] < |insts|
    requires forall j :: 0 <= j < idx ==> calls[j] < calls[idx]
    requires RewrittenUpTo(insts, calls, idx, out)
    ensures RewrittenUpTo(insts, calls, idx + 1, out')
  {
    assert calls[..idx + 1] == calls[..idx] + [calls[idx]];
    out' := out[calls[idx] := Call(ThroughShares(idx))];
  }

  /** What `process` leaves: the calls rewritten, and the arrays exactly when some call was. */
  predicate ProcessedAs(pw: nat, insts: seq<Inst>, changed: bool, out: seq<Inst>, shares: Option<Shares>)
  {
    RewrittenFrom(insts, out)
    && (changed <==> |Positions(insts)| > 0)
    && (shares.Some? <==> changed)
    && (shares.Some? ==>
          |shares.value.first| == |Positions(insts)| &&
          shares.value.second == SecondShares(pw, insts, shares.value.first))
  }

  /** The user's answer for a function: `std::optional<IndirectCallConfig>`. */
  predicate Selected(opt: Option<bool>, f: IR.Function)
  {
    opt == Some(true) && !f.globallyExcluded && !f.isDeclaration && !f.isIntrinsic && !IR.HasOmvllPrefix(f.name)
  }

  datatype CallFunction = CallFunction(info: IR.Function, insts: seq<Inst>)

  /** One function after `run`: unchanged unless selected, processed otherwise. */
  predicate FunctionResult(moduleExcluded: bool, pw: nat, hook: Option<bool>, f: CallFunction, g: CallFunction, sh: Option<Shares>)
  {
    g.info == f.info
    && (moduleExcluded || !Selected(hook, f.info) ==> g == f && sh.None?)
    && (!moduleExcluded && Selected(hook, f.info) ==> ProcessedAs(pw, f.insts, sh.Some?, g.insts, sh))
  }

  /** The pass object and its module random stream. */
  class IndirectCallPass {
    var rng: Rng
    var drawn: nat

    constructor(rng: Rng)
      ensures this.rng == rng && drawn == 0
    {
      this.rng := rng;
      drawn := 0;
    }

    /**
     * The first loop of `process`: one draw per candidate call, its two
     * shares and its position, in order.
     */
    method GatherCandidates(pw: nat, insts: seq<Inst>) returns (calls: seq<nat>, first: seq<nat>, second: seq<nat>)
      requires Uniform(rng)
      modifies this
      ensures rng == old(rng) && drawn == old(drawn) + |Positions(insts)|
      ensures calls == Positions(insts)
      ensures first == FirstShares(pw, rng, old(drawn), |calls|)
      ensures second == SecondShares(pw, insts, first)
    {
      first, second, calls := [], [], [];
      var start := drawn;
      for k := 0 to |insts|
        invariant rng == old(rng) && start == old(drawn) && drawn == start + |calls|
        invariant calls == Positions(insts[..k])
        invariant first == FirstShares(pw, rng, start, |calls|)
        invariant second == SecondShares(pw, insts[..k], first)
      {
        calls, first, second := GatherOne(pw, insts, k, start, calls, first, second);
      }
      assert insts[..|insts|] == insts;
    }

    /** One turn of the first loop of `process`: a candidate call takes the next draw. */
    method GatherOne(pw: nat, insts: seq<Inst>, k: nat, start: nat, calls: seq<nat>, first: seq<nat>, second: seq<nat>)
      returns (calls': seq<nat>, first': seq<nat>, second': seq<nat>)
      requires k < |insts| && drawn == start + |calls|
      requires calls == Positions(insts[..k]) && first == FirstShares(pw, rng, start, |calls|)
      requires second == SecondShares(pw, insts[..k], first)
      modifies this
      ensures rng == old(rng) && drawn == start + |calls'|
      ensures calls' == Positions(insts[..k + 1]) && first' == FirstShares(pw, rng, start, |calls'|)
      ensures second' == SecondShares(pw, insts[..k + 1], first')
    {
      PositionsSnoc(insts, k);
      if IsCandidate(insts[k]) {
        var s1 := ShareAt(pw, rng, drawn);
        drawn := drawn + 1;
        SecondSharesSnoc(pw, insts, k, first, s1);
        calls', first', second' := calls + [k], first + [s1], second + [Wrap(pw, insts[k].target.callee.addr + s1)];
      } else {
        SecondSharesSkip(pw, insts, k, first);
        calls', first', second' := calls, first, second;
      }
    }

    /**
     * `process`: gathers the candidate calls with a fresh pair of shares
     * each, then makes the `j`-th candidate call through slot `j`. Nothing
     * is created when there is no candidate.
     */
    method Process(pw: nat, insts: seq<Inst>) returns (changed: bool, out: seq<Inst>, shares: Option<Shares>)
      requires Uniform(rng)
      modifies this
      ensures rng == old(rng) && drawn == old(drawn) + |Positions(insts)|
      ensures ProcessedAs(pw, insts, changed, out, shares)
      ensures shares.Some? ==> shares.value.first == FirstShares(pw, rng, old(drawn), |Positions(insts)|)
    {
      var calls, first, second := GatherCandidates(pw, insts);
      if |calls| == 0 {
        return false, insts, None;
      }
      out := RewriteCalls(insts, calls);
      return true, out, Some(Shares(first, second));
    }

    /**
     * `run`: an excluded module is left alone; otherwise every selected
     * function is processed, each getting its own pair of arrays.
     */
    method Run(moduleExcluded: bool, pw: nat, fs: seq<CallFunction>, hooks: seq<Option<bool>>)
      returns (changed: bool, out: seq<CallFunction>, shares: seq<Option<Shares>>)
      requires |hooks| == |fs| && Uniform(rng)
      modifies this
      ensures rng == old(rng)
      ensures moduleExcluded ==> !changed && out == fs && drawn == old(drawn)
      ensures |out| == |fs| && |shares| == |fs|
      ensures forall i :: 0 <= i < |fs| ==> FunctionResult(moduleExcluded, pw, hooks[i], fs[i], out[i], shares[i])
      ensures changed <==> exists i :: 0 <= i < |fs| && shares[i].Some?
    {
      if moduleExcluded {
        return false, fs, seq(|fs|, i => None);
      }
      changed := false;
      out := [];
      shares := [];
      for i := 0 to |fs|
        invariant rng == old(rng)
        invariant |out| == i && |shares| == i
        invariant forall m :: 0 <= m < i ==> FunctionResult(false, pw, hooks[m], fs[m], out[m], shares[m])
        invariant changed <==> exists m :: 0 <= m < i && shares[m].Some?
      {
        var f := fs[i];
        var g, sh := f, None;
        if Selected(hooks[i], f.info) {
          var c, insts;
          c, insts, sh := Process(pw, f.insts);
          g := CallFunction(f.info, insts);
        }
        assert FunctionResult(false, pw, hooks[i], f, g, sh);
        out := out + [g];
        shares := shares + [sh];
        changed := changed || sh.Some?;
      }
    }
  }
}

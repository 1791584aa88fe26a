/**
 * Function outlining: blocks of a function are picked at random and moved
 * into functions of their own, the original block becoming a call to the
 * new function. Blocks whose code depends on the caller's stack frame, or
 * that the extractor cannot handle, are never picked.
 */
module FunctionOutline {
  import IR
  import opened BlockSelection

  /** The per-function option: leave the function alone, or outline each block with a probability. */
  datatype OutlineOpt = Skip | WithProbability(probability: nat)

  /** The intrinsics an instruction may call, as far as outlining tells them apart. */
  datatype Intrinsic =
    | VaStart | VaCopy | VaEnd
    | LocalAddress | LocalEscape | LocalRecover
    | StackSave | StackRestore
    | GetDynamicAreaOffset | StackProtector
    | LifetimeStart | LifetimeEnd
    | OtherIntrinsic(id: nat)

  /** What a call instruction calls. */
  datatype Callee =
    | IntrinsicFn(id: Intrinsic, name: string)
    | Direct(name: string)
    | InlineAsm
    | OutlinedCall(k: nat)

  /**
   * An instruction: the three kinds of `CallBase`, `resume`, any other
   * terminator and any other instruction.
   */
  datatype OInst =
    | Call(callee: Callee, mustTail: bool)
    | Invoke(callee: Callee)
    | CallBr(callee: Callee)
    | Resume
    | OtherTerminator(opcode: nat)
    | Plain(opcode: nat)

  /** A value the extracted region would take as an input, by what makes it swift-specific. */
  datatype InputValue = InputValue(swiftErrorAlloca: bool, swiftErrorArgument: bool, passedAsSwiftParam: bool)

  /**
   * A basic block. Besides its instructions and flags, it carries what the
   * code extractor reports for the region made of this block alone: whether
   * it is eligible, its inputs, and whether the extraction yields a function.
   */
  datatype OBlock = OBlock(
    insts: seq<OInst>,
    addressTaken: bool,
    isEH: bool,
    swiftErrorAlloca: bool,
    extractorEligible: bool,
    inputs: seq<InputValue>,
    extractSucceeds: bool)

  // ---------------------------------------------------------------------
  // Which blocks may be outlined

  /** `isStackFrameDependentIntrinsic`. */
  predicate StackFrameDependent(id: Intrinsic)
  {
    match id
    case VaStart | VaCopy | VaEnd | LocalAddress | LocalEscape | LocalRecover
      | StackSave | StackRestore | GetDynamicAreaOffset | StackProtector => true
    case _ => false
  }

  const StackFrameIntrinsics: set<Intrinsic> :=
    {VaStart, VaCopy, VaEnd, LocalAddress, LocalEscape, LocalRecover, StackSave, StackRestore, GetDynamicAreaOffset, StackProtector}

  /** Exactly ten intrinsics depend on the stack frame; the lifetime markers are not among them. */
  lemma StackFrameDependentExactly(id: Intrinsic)
    ensures StackFrameDependent(id) <==> id in StackFrameIntrinsics
    ensures |StackFrameIntrinsics| == 10
    ensures !StackFrameDependent(LifetimeStart) && !StackFrameDependent(LifetimeEnd)
  {
  }

  predicate IsCallBase(x: OInst)
  {
    x.Call? || x.Invoke? || x.CallBr?
  }

  predicate IsTerminator(x: OInst)
  {
    x.Invoke? || x.CallBr? || x.Resume? || x.OtherTerminator?
  }

  /** An `IntrinsicInst`: a plain call (not an invoke) whose callee is an intrinsic. */
  predicate IsIntrinsicInst(x: OInst)
  {
    x.Call? && x.callee.IntrinsicFn?
  }

  /** The reasons one instruction makes outlining unfavourable. */
  predicate UnfavorableInst(x: OInst)
  {
    (IsIntrinsicInst(x) && StackFrameDependent(x.callee.id))
    || (IsCallBase(x) && ((x.Call? && x.mustTail) || x.callee.InlineAsm? || x.CallBr?))
  }

  /** `outliningMayBeUnfavorable`. */
  predicate MayBeUnfavorable(insts: seq<OInst>)
  {
    exists k :: 0 <= k < |insts| && UnfavorableInst(insts[k])
  }

  /** `isOutlineCandidate`; the last instruction is the terminator. */
  predicate OutlineCandidate(blk: OBlock)
  {
    |blk.insts| >= 3
    && !blk.addressTaken && !blk.isEH && !blk.swiftErrorAlloca && !MayBeUnfavorable(blk.insts)
    && var t := blk.insts[|blk.insts| - 1]; !(t.Invoke? || t.Resume? || t.CallBr?)
  }

  /** A well-formed block ends in its one terminator. */
  predicate WellFormed(blk: OBlock)
  {
    |blk.insts| > 0 && IsTerminator(blk.insts[|blk.insts| - 1])
    && forall k :: 0 <= k < |blk.insts| - 1 ==> !IsTerminator(blk.insts[k])
  }

  /**
   * The terminator test for `callbr` can never decide anything: a block
   * ending in `callbr` is already unfavourable.
   */
  lemma CallBrTestRedundant(blk: OBlock)
    ensures OutlineCandidate(blk) <==>
      |blk.insts| >= 3 && !blk.addressTaken && !blk.isEH && !blk.swiftErrorAlloca && !MayBeUnfavorable(blk.insts)
      && !blk.insts[|blk.insts| - 1].Invoke? && !blk.insts[|blk.insts| - 1].Resume?
  {
    if |blk.insts| >= 3 && blk.insts[|blk.insts| - 1].CallBr? {
      assert UnfavorableInst(blk.insts[|blk.insts| - 1]);
    }
  }

  /**
   * No instruction of a well-formed candidate depends on the caller's
   * frame: none calls a frame-dependent intrinsic in any way, none is a
   * `musttail` call or inline assembly, and none is an `invoke`, a
   * `callbr` or a `resume`.
   */
  lemma CandidateIsFrameIndependent(blk: OBlock)
    requires WellFormed(blk) && OutlineCandidate(blk)
    ensures forall k :: 0 <= k < |blk.insts| ==>
      var x := blk.insts[k];
      !x.Invoke? && !x.CallBr? && !x.Resume?
      && !(IsCallBase(x) && x.callee.IntrinsicFn? && StackFrameDependent(x.callee.id))
      && !(x.Call? && x.mustTail) && !(IsCallBase(x) && x.callee.InlineAsm?)
  {
    forall k | 0 <= k < |blk.insts|
      ensures !blk.insts[k].Invoke? && !blk.insts[k].CallBr? && !blk.insts[k].Resume?
    {
      if k < |blk.insts| - 1 {
        assert !IsTerminator(blk.insts[k]);
      }
    }
  }

  /** `hasSwiftErrorOrSwiftSelfAttribute` over the region's inputs. */
  predicate HasSwiftErrorOrSwiftSelf(inputs: seq<InputValue>)
  {
    exists k :: 0 <= k < |inputs| && (inputs[k].swiftErrorAlloca || inputs[k].swiftErrorArgument || inputs[k].passedAsSwiftParam)
  }

  /** A picked block is outlined when the extractor accepts it, no input is swift-specific and the extraction succeeds. */
  predicate Extractable(blk: OBlock)
  {
    blk.extractorEligible && !HasSwiftErrorOrSwiftSelf(blk.inputs) && blk.extractSucceeds
  }

  // ---------------------------------------------------------------------
  // Lifetime markers

  predicate IsLifetimeMarker(x: OInst)
  {
    IsIntrinsicInst(x) && (x.callee.id == LifetimeStart || x.callee.id == LifetimeEnd)
  }

  predicate NoMarkers(insts: seq<OInst>)
  {
    forall k :: 0 <= k < |insts| ==> !IsLifetimeMarker(insts[k])
  }

  /** The instructions with every lifetime marker erased. */
  function Unmarked(insts: seq<OInst>): (r: seq<OInst>)
    ensures |r| <= |insts|
  {
    if |insts| == 0 then []
    else
      var k := |insts| - 1;
      Unmarked(insts[..k]) + (if IsLifetimeMarker(insts[k]) then [] else [insts[k]])
  }

  /** Erasing keeps exactly the instructions that are not lifetime markers. */
  lemma {:induction false} UnmarkedMembers(insts: seq<OInst>)
    ensures forall x :: x in Unmarked(insts) <==> x in insts && !IsLifetimeMarker(x)
  {
    if |insts| > 0 {
      var k := |insts| - 1;
      UnmarkedMembers(insts[..k]);
      assert insts == insts[..k] + [insts[k]];
    }
  }

  /** A body without lifetime markers is left as it is. */
  lemma {:induction false} UnmarkedNone(insts: seq<OInst>)
    requires NoMarkers(insts)
    ensures Unmarked(insts) == insts
  {
    if |insts| > 0 {
      var k := |insts| - 1;
      UnmarkedNone(insts[..k]);
      assert insts == insts[..k] + [insts[k]];
    }
  }

  /** Erasing twice erases nothing more. */
  lemma UnmarkedIdempotent(insts: seq<OInst>)
    ensures Unmarked(Unmarked(insts)) == Unmarked(insts)
  {
    var r := Unmarked(insts);
    UnmarkedMembers(insts);
    assert forall k :: 0 <= k < |r| ==> r[k] in r;
    UnmarkedNone(r);
  }

  function UnmarkedBlocks(blocks: seq<OBlock>): (r: seq<OBlock>)
    ensures |r| == |blocks|
    ensures forall i :: 0 <= i < |blocks| ==> r[i] == blocks[i].(insts := Unmarked(blocks[i].insts))
  {
    seq(|blocks|, i requires 0 <= i < |blocks| => blocks[i].(insts := Unmarked(blocks[i].insts)))
  }

  /** `eraseLifetimeMarkers` on one block: the loop that erases the markers as it meets them. */
  method EraseMarkers(insts: seq<OInst>) returns (kept: seq<OInst>)
    ensures kept == Unmarked(insts)
  {
    kept := [];
    for k := 0 to |insts|
      invariant kept == Unmarked(insts[..k])
    {
      assert insts[..k + 1][..k] == insts[..k];
      if !IsLifetimeMarker(insts[k]) {
        kept := kept + [insts[k]];
      }
    }
    assert insts[..|insts|] == insts;
  }

  /** `eraseLifetimeMarkers` on a whole function. */
  method EraseLifetimeMarkers(blocks: seq<OBlock>) returns (out: seq<OBlock>)
    ensures out == UnmarkedBlocks(blocks)
  {
    out := blocks;
    for i := 0 to |blocks|
      invariant |out| == |blocks|
      invariant forall j :: 0 <= j < i ==> out[j] == blocks[j].(insts := Unmarked(blocks[j].insts))
      invariant forall j :: i <= j < |blocks| ==> out[j] == blocks[j]
    {
      var kept := EraseMarkers(blocks[i].insts);
      out := out[i := blocks[i].(insts := kept)];
    }
  }

  // ---------------------------------------------------------------------
  // Outlining the picked blocks of one function

  /** The blocks `process` may pick: any candidate but the entry. */
  function CandidateFlags(blocks: seq<OBlock>): (e: seq<bool>)
    ensures |e| == |blocks|
    ensures forall i :: 0 <= i < |blocks| ==> e[i] == (i != 0 && OutlineCandidate(blocks[i]))
  {
    seq(|blocks|, i requires 0 <= i < |blocks| => i != 0 && OutlineCandidate(blocks[i]))
  }

  /** `ToOutline`: the blocks picked when the generator's stream is read from `start`. */
  function ToOutline(blocks: seq<OBlock>, stream: Stream, start: nat, p: nat): (r: seq<nat>)
    ensures Increasing(r) && forall m :: 0 <= m < |r| ==> r[m] < |blocks|
  {
    PickedIncreasing(CandidateFlags(blocks), |blocks|, stream, start, p);
    Picked(CandidateFlags(blocks), |blocks|, stream, start, p)
  }

  /** The draws `process` spends on a function: one per candidate block other than the entry. */
  function OutlineDraws(blocks: seq<OBlock>): nat
  {
    DrawsFor(CandidateFlags(blocks), |blocks|)
  }

  /**
   * The entry block is never picked; any other block is picked exactly
   * when it is a candidate and its draw modulo 100 is below the probability.
   */
  lemma ToOutlineSelects(blocks: seq<OBlock>, stream: Stream, start: nat, p: nat)
    ensures forall i :: i in ToOutline(blocks, stream, start, p) <==>
      0 < i < |blocks| && OutlineCandidate(blocks[i]) && Keep(stream(start + DrawsFor(CandidateFlags(blocks), i)), p)
    ensures 0 !in ToOutline(blocks, stream, start, p)
  {
    PickedMembers(CandidateFlags(blocks), |blocks|, stream, start, p);
  }

  /** LLVM's opcode number for `br`. */
  const BR_OPCODE: nat := 2

  /**
   * The block left in place of an outlined one: a call to the `k`-th new
   * function, then a branch on to where the block went.
   */
  function CallSite(k: nat): OBlock
  {
    OBlock([Call(OutlinedCall(k), false), OtherTerminator(BR_OPCODE)], false, false, false, false, [], false)
  }

  /**
   * A call site is a well-formed block that is never a candidate itself,
   * and it holds no lifetime marker to erase.
   */
  lemma CallSiteShape()
    ensures forall k :: WellFormed(CallSite(k)) && !OutlineCandidate(CallSite(k))
    ensures forall k :: CallSite(k).(insts := Unmarked(CallSite(k).insts)) == CallSite(k)
  {
    forall k
      ensures Unmarked(CallSite(k).insts) == CallSite(k).insts
    {
      UnmarkedNone(CallSite(k).insts);
    }
  }

  /** The function's blocks after the extraction loop, and the bodies of the functions it created. */
  datatype Outlining = Outlining(blocks: seq<OBlock>, fns: seq<seq<OInst>>)

  /**
   * The picked blocks handed to the extractor in order: a block the
   * extractor accepts becomes a call site of the next new function, the
   * `base + m`-th of the module, whose body is the block without its
   * lifetime markers.
   */
  function OutlineAll(blocks: seq<OBlock>, picked: seq<nat>, base: nat): (o: Outlining)
    requires forall m :: 0 <= m < |picked| ==> picked[m] < |blocks|
    ensures |o.blocks| == |blocks| && |o.fns| <= |picked|
  {
    if |picked| == 0 then Outlining(blocks, [])
    else
      var o := OutlineAll(blocks, picked[..|picked| - 1], base);
      var b := picked[|picked| - 1];
      if Extractable(blocks[b]) then Outlining(o.blocks[b := CallSite(base + |o.fns|)], o.fns + [Unmarked(blocks[b].insts)])
      else o
  }

  /** The picked blocks the extractor accepts, in order. */
  function Extracted(blocks: seq<OBlock>, picked: seq<nat>): (r: seq<nat>)
    requires forall m :: 0 <= m < |picked| ==> picked[m] < |blocks|
    ensures forall m :: 0 <= m < |r| ==> r[m] < |blocks|
  {
    if |picked| == 0 then []
    else
      var prior := Extracted(blocks, picked[..|picked| - 1]);
      var b := picked[|picked| - 1];
      if Extractable(blocks[b]) then prior + [b] else prior
  }

  /** A picked block is outlined exactly when the extractor accepts it. */
  lemma {:induction false} ExtractedMembers(blocks: seq<OBlock>, picked: seq<nat>)
    requires forall m :: 0 <= m < |picked| ==> picked[m] < |blocks|
    ensures forall b :: b in Extracted(blocks, picked) <==> b in picked && Extractable(blocks[b])
  {
    if |picked| > 0 {
      var k := |picked| - 1;
      ExtractedMembers(blocks, picked[..k]);
      assert picked == picked[..k] + [picked[k]];
    }
  }

  /** The `m`-th outlined block became the call site of the `base + m`-th new function, whose body it supplied. */
  ghost predicate OutlinedAs(blocks: seq<OBlock>, ext: seq<nat>, base: nat, o: Outlining)
  {
    |o.blocks| == |blocks| && |o.fns| == |ext|
    && (forall m :: 0 <= m < |ext| ==> ext[m] < |blocks|)
    && (forall m :: 0 <= m < |ext| ==> o.fns[m] == Unmarked(blocks[ext[m]].insts))
    && (forall m :: 0 <= m < |ext| ==> o.blocks[ext[m]] == CallSite(base + m))
    && (forall i :: 0 <= i < |blocks| && i !in ext ==> o.blocks[i] == blocks[i])
  }

  lemma OutlinedStep(blocks: seq<OBlock>, ext: seq<nat>, base: nat, o: Outlining, b: nat)
    requires OutlinedAs(blocks, ext, base, o) && b < |blocks| && b !in ext
    ensures OutlinedAs(blocks, ext + [b], base,
      Outlining(o.blocks[b := CallSite(base + |o.fns|)], o.fns + [Unmarked(blocks[b].insts)]))
  {
    var ext' := ext + [b];
    forall m | 0 <= m < |ext|
      ensures ext'[m] == ext[m] && ext[m] != b
    {
    }
  }

  /** The extraction loop, described block by block. */
  lemma {:induction false} OutlineAllShape(blocks: seq<OBlock>, picked: seq<nat>, base: nat)
    requires forall m :: 0 <= m < |picked| ==> picked[m] < |blocks|
    requires Increasing(picked)
    ensures OutlinedAs(blocks, Extracted(blocks, picked), base, OutlineAll(blocks, picked, base))
  {
    if |picked| > 0 {
      var k := |picked| - 1;
      var prior := picked[..k];
      var b := picked[k];
      IncreasingPrefix(picked);
      OutlineAllShape(blocks, prior, base);
      var o := OutlineAll(blocks, prior, base);
      var ext := Extracted(blocks, prior);
      if Extractable(blocks[b]) {
        ExtractedMembers(blocks, prior);
        OutlinedStep(blocks, ext, base, o, b);
        assert OutlineAll(blocks, picked, base)
          == Outlining(o.blocks[b := CallSite(base + |o.fns|)], o.fns + [Unmarked(blocks[b].insts)]);
        assert Extracted(blocks, picked) == ext + [b];
      } else {
        assert OutlineAll(blocks, picked, base) == o;
        assert Extracted(blocks, picked) == ext;
      }
    }
  }

  /** Handing one more picked block to the extractor extends the loop so far. */
  lemma OutlineAllSnoc(blocks: seq<OBlock>, picked: seq<nat>, base: nat, j: nat)
    requires forall m :: 0 <= m < |picked| ==> picked[m] < |blocks|
    requires j < |picked|
    ensures var o := OutlineAll(blocks, picked[..j], base); var b := picked[j];
      OutlineAll(blocks, picked[..j + 1], base)
      == if Extractable(blocks[b]) then Outlining(o.blocks[b := CallSite(base + |o.fns|)], o.fns + [Unmarked(blocks[b].insts)]) else o
  {
    assert picked[..j + 1][..j] == picked[..j];
  }

  /**
   * What `process` makes of a function whose blocks are drawn for from
   * `start`, its new functions numbered from `base`: when nothing was
   * outlined the function is left as it is, otherwise its lifetime markers
   * are erased too.
   */
  function Processed(blocks: seq<OBlock>, stream: Stream, start: nat, p: nat, base: nat): Outlining
  {
    var o := OutlineAll(blocks, ToOutline(blocks, stream, start, p), base);
    if |o.fns| == 0 then o else Outlining(UnmarkedBlocks(o.blocks), o.fns)
  }

  /**
   * `process` creates one function per accepted picked block, in order,
   * each holding that block without its lifetime markers.
   */
  lemma ProcessedFunctions(blocks: seq<OBlock>, stream: Stream, start: nat, p: nat, base: nat)
    ensures var ext := Extracted(blocks, ToOutline(blocks, stream, start, p)); var r := Processed(blocks, stream, start, p, base);
      |r.blocks| == |blocks| && |r.fns| == |ext|
      && (forall b :: b in ext <==> b in ToOutline(blocks, stream, start, p) && Extractable(blocks[b]))
      && (forall m :: 0 <= m < |ext| ==> r.fns[m] == Unmarked(blocks[ext[m]].insts))
  {
    var picked := ToOutline(blocks, stream, start, p);
    OutlineAllShape(blocks, picked, base);
    ExtractedMembers(blocks, picked);
  }

  /**
   * Each accepted block becomes a call to its new function; when something
   * was outlined every other block only loses its lifetime markers.
   */
  lemma ProcessedBlocks(blocks: seq<OBlock>, stream: Stream, start: nat, p: nat, base: nat)
    ensures var ext := Extracted(blocks, ToOutline(blocks, stream, start, p)); var r := Processed(blocks, stream, start, p, base);
      |r.blocks| == |blocks|
      && (forall m :: 0 <= m < |ext| ==> r.blocks[ext[m]] == CallSite(base + m))
      && (|ext| > 0 ==> forall i :: 0 <= i < |blocks| && i !in ext ==> r.blocks[i] == blocks[i].(insts := Unmarked(blocks[i].insts)))
  {
    var picked := ToOutline(blocks, stream, start, p);
    OutlineAllShape(blocks, picked, base);
    CallSiteShape();
  }

  /** When no picked block is accepted, `process` leaves the function as it was and creates nothing. */
  lemma ProcessedUnchanged(blocks: seq<OBlock>, stream: Stream, start: nat, p: nat, base: nat)
    requires |Extracted(blocks, ToOutline(blocks, stream, start, p))| == 0
    ensures Processed(blocks, stream, start, p, base) == Outlining(blocks, [])
  {
    var picked := ToOutline(blocks, stream, start, p);
    OutlineAllShape(blocks, picked, base);
    var o := OutlineAll(blocks, picked, base);
    assert o.blocks == blocks;
  }

  /** No function created by outlining calls a lifetime marker. */
  lemma NewBodiesUnmarked(blocks: seq<OBlock>, stream: Stream, start: nat, p: nat, base: nat)
    ensures forall m :: 0 <= m < |Processed(blocks, stream, start, p, base).fns| ==> NoMarkers(Processed(blocks, stream, start, p, base).fns[m])
  {
    var picked := ToOutline(blocks, stream, start, p);
    OutlineAllShape(blocks, picked, base);
    var ext := Extracted(blocks, picked);
    var r := Processed(blocks, stream, start, p, base);
    forall m | 0 <= m < |r.fns|
      ensures NoMarkers(r.fns[m])
    {
      UnmarkedMembers(blocks[ext[m]].insts);
      assert forall k :: 0 <= k < |r.fns[m]| ==> r.fns[m][k] in Unmarked(blocks[ext[m]].insts);
    }
  }

  /** The extraction loop of `process`: `Outlined` counts the new functions. */
  method OutlineEach(blocks: seq<OBlock>, picked: seq<nat>, base: nat) returns (g: seq<OBlock>, fns: seq<seq<OInst>>, outlined: nat)
    requires forall m :: 0 <= m < |picked| ==> picked[m] < |blocks|
    ensures Outlining(g, fns) == OutlineAll(blocks, picked, base)
    ensures outlined == |fns|
  {
    g, fns, outlined := blocks, [], 0;
    var j := 0;
    while j < |picked|
      invariant j <= |picked| && Outlining(g, fns) == OutlineAll(blocks, picked[..j], base)
      invariant outlined == |fns|
    {
      OutlineAllSnoc(blocks, picked, base, j);
      var b := picked[j];
      j := j + 1;
      if !blocks[b].extractorEligible {
        continue;
      }
      if HasSwiftErrorOrSwiftSelf(blocks[b].inputs) {
        continue;
      }
      if blocks[b].extractSucceeds {
        var body := EraseMarkers(blocks[b].insts);
        fns := fns + [body];
        g := g[b := CallSite(base + outlined)];
        outlined := outlined + 1;
      }
    }
    assert picked[..j] == picked;
  }

  // ---------------------------------------------------------------------
  // The pass over a module

  /**
   * A function of the module: what the filters read, the intrinsic it is
   * (meaningful only when `info.isIntrinsic`) and its blocks.
   */
  datatype ModuleFn = ModuleFn(info: IR.Function, intrinsicId: Intrinsic, blocks: seq<OBlock>)

  /** `run`'s filter: the option gives a probability and the function is neither excluded, a declaration, an intrinsic, one of the plugin's own helpers nor a coroutine. */
  predicate Selected(opt: OutlineOpt, f: IR.Function)
  {
    opt.WithProbability? && !f.globallyExcluded && !f.isDeclaration && !f.isIntrinsic
    && !IR.HasOmvllPrefix(f.name) && !f.isCoroutine
  }

  /** An entry of `ToVisit`: a function's position in the module and its probability. */
  datatype Pending = Pending(index: nat, probability: nat)

  /** `ToVisit` after the first `n` functions. */
  function ToVisit(fs: seq<ModuleFn>, opts: seq<OutlineOpt>, n: nat): (v: seq<Pending>)
    requires |opts| == |fs| && n <= |fs|
    ensures forall m :: 0 <= m < |v| ==> v[m].index < n
  {
    if n == 0 then []
    else
      ToVisit(fs, opts, n - 1)
      + (if Selected(opts[n - 1], fs[n - 1].info) then [Pending(n - 1, opts[n - 1].probability)] else [])
  }

  /** `e` names a selected function of the module with the probability its option gives. */
  predicate VisitsSelected(fs: seq<ModuleFn>, opts: seq<OutlineOpt>, e: Pending)
    requires |opts| == |fs|
  {
    e.index < |fs| && Selected(opts[e.index], fs[e.index].info) && e.probability == opts[e.index].probability
  }

  /** Every visited function is selected, and visited with its own probability. */
  lemma {:induction false} ToVisitSelected(fs: seq<ModuleFn>, opts: seq<OutlineOpt>, n: nat)
    requires |opts| == |fs| && n <= |fs|
    ensures forall m :: 0 <= m < |ToVisit(fs, opts, n)| ==> VisitsSelected(fs, opts, ToVisit(fs, opts, n)[m])
  {
    if n > 0 {
      ToVisitSelected(fs, opts, n - 1);
      var prior := ToVisit(fs, opts, n - 1);
      var last := if Selected(opts[n - 1], fs[n - 1].info) then [Pending(n - 1, opts[n - 1].probability)] else [];
      var v := ToVisit(fs, opts, n);
      assert v == prior + last;
      forall m | 0 <= m < |v|
        ensures VisitsSelected(fs, opts, v[m])
      {
        if m < |prior| {
          assert v[m] == prior[m];
        } else {
          assert v[m] == last[0];
        }
      }
    }
  }

  /** Some entry of `visit` names the function at position `i`. */
  predicate Visited(visit: seq<Pending>, i: nat)
  {
    exists m :: 0 <= m < |visit| && visit[m].index == i
  }

  /** Every selected function is visited. */
  lemma {:induction false} ToVisitComplete(fs: seq<ModuleFn>, opts: seq<OutlineOpt>, n: nat)
    requires |opts| == |fs| && n <= |fs|
    ensures forall i :: 0 <= i < n && Selected(opts[i], fs[i].info) ==> Visited(ToVisit(fs, opts, n), i)
  {
    if n > 0 {
      ToVisitComplete(fs, opts, n - 1);
      var prior := ToVisit(fs, opts, n - 1);
      var last := if Selected(opts[n - 1], fs[n - 1].info) then [Pending(n - 1, opts[n - 1].probability)] else [];
      var v := ToVisit(fs, opts, n);
      assert v == prior + last;
      forall i | 0 <= i < n && Selected(opts[i], fs[i].info)
        ensures Visited(v, i)
      {
        if i == n - 1 {
          assert v[|prior|].index == i;
        } else {
          var m :| 0 <= m < |prior| && prior[m].index == i;
          assert v[m] == prior[m];
        }
      }
    }
  }

  /** Functions are visited in module order, each once. */
  lemma {:induction false} ToVisitOrdered(fs: seq<ModuleFn>, opts: seq<OutlineOpt>, n: nat)
    requires |opts| == |fs| && n <= |fs|
    ensures forall a, b :: 0 <= a < b < |ToVisit(fs, opts, n)| ==> ToVisit(fs, opts, n)[a].index < ToVisit(fs, opts, n)[b].index
  {
    if n > 0 {
      ToVisitOrdered(fs, opts, n - 1);
      var prior := ToVisit(fs, opts, n - 1);
      var last := if Selected(opts[n - 1], fs[n - 1].info) then [Pending(n - 1, opts[n - 1].probability)] else [];
      var v := ToVisit(fs, opts, n);
      assert v == prior + last;
      forall a, b | 0 <= a < b < |v|
        ensures v[a].index < v[b].index
      {
        assert v[a] == prior[a];
        if b < |prior| {
          assert v[b] == prior[b];
        } else {
          assert v[b] == last[0];
        }
      }
    }
  }

  /** The first loop of `run`. */
  method CollectToVisit(fs: seq<ModuleFn>, opts: seq<OutlineOpt>) returns (toVisit: seq<Pending>)
    requires |opts| == |fs|
    ensures toVisit == ToVisit(fs, opts, |fs|)
  {
    toVisit := [];
    for i := 0 to |fs|
      invariant toVisit == ToVisit(fs, opts, i)
    {
      if Selected(opts[i], fs[i].info) {
        toVisit := toVisit + [Pending(i, opts[i].probability)];
      }
    }
  }

  /** The module's functions, the functions created so far, the draws spent and whether `process` reported a change. */
  datatype Progress = Progress(fs: seq<ModuleFn>, outlined: seq<seq<OInst>>, drawn: nat, changed: bool)

  /** The second loop of `run` after `j` visits: each visited function processed in turn. */
  function ProcessAll(stream: Stream, fs0: seq<ModuleFn>, visit: seq<Pending>, j: nat): (pr: Progress)
    requires j <= |visit| && forall m :: 0 <= m < |visit| ==> visit[m].index < |fs0|
    ensures |pr.fs| == |fs0|
  {
    if j == 0 then Progress(fs0, [], 0, false)
    else Visit(stream, ProcessAll(stream, fs0, visit, j - 1), visit[j - 1])
  }

  /** One visit: the function processed, its blocks replaced and its new functions appended. */
  function Visit(stream: Stream, pr: Progress, v: Pending): (next: Progress)
    requires v.index < |pr.fs|
    ensures |next.fs| == |pr.fs|
  {
    var f := pr.fs[v.index];
    var r := Processed(f.blocks, stream, pr.drawn, v.probability, |pr.outlined|);
    Progress(pr.fs[v.index := f.(blocks := r.blocks)], pr.outlined + r.fns, pr.drawn + OutlineDraws(f.blocks), pr.changed || |r.fns| > 0)
  }

  /** `run` reports a change exactly when some block was outlined. */
  lemma {:induction false} ProcessAllChanged(stream: Stream, fs0: seq<ModuleFn>, visit: seq<Pending>, j: nat)
    requires j <= |visit| && forall m :: 0 <= m < |visit| ==> visit[m].index < |fs0|
    ensures ProcessAll(stream, fs0, visit, j).changed <==> |ProcessAll(stream, fs0, visit, j).outlined| > 0
  {
    if j > 0 {
      ProcessAllChanged(stream, fs0, visit, j - 1);
    }
  }

  /** When nothing was outlined, no function of the module changed. */
  lemma {:induction false} ProcessAllUnchanged(stream: Stream, fs0: seq<ModuleFn>, visit: seq<Pending>, j: nat)
    requires j <= |visit| && forall m :: 0 <= m < |visit| ==> visit[m].index < |fs0|
    requires !ProcessAll(stream, fs0, visit, j).changed
    ensures ProcessAll(stream, fs0, visit, j).fs == fs0
  {
    if j > 0 {
      ProcessAllUnchanged(stream, fs0, visit, j - 1);
      var pr := ProcessAll(stream, fs0, visit, j - 1);
      var v := visit[j - 1];
      var f := pr.fs[v.index];
      ProcessedFunctions(f.blocks, stream, pr.drawn, v.probability, |pr.outlined|);
      ProcessedUnchanged(f.blocks, stream, pr.drawn, v.probability, |pr.outlined|);
      assert pr.fs[v.index := f.(blocks := f.blocks)] == pr.fs;
    }
  }

  /** A function the loop does not visit is left as it was. */
  lemma {:induction false} ProcessAllUnvisited(stream: Stream, fs0: seq<ModuleFn>, visit: seq<Pending>, j: nat, i: nat)
    requires j <= |visit| && forall m :: 0 <= m < |visit| ==> visit[m].index < |fs0|
    requires i < |fs0| && forall m :: 0 <= m < j ==> visit[m].index != i
    ensures ProcessAll(stream, fs0, visit, j).fs[i] == fs0[i]
  {
    if j > 0 {
      ProcessAllUnvisited(stream, fs0, visit, j - 1, i);
    }
  }

  /** No function created by the loop calls a lifetime marker. */
  lemma {:induction false} ProcessAllUnmarked(stream: Stream, fs0: seq<ModuleFn>, visit: seq<Pending>, j: nat)
    requires j <= |visit| && forall m :: 0 <= m < |visit| ==> visit[m].index < |fs0|
    ensures forall m :: 0 <= m < |ProcessAll(stream, fs0, visit, j).outlined| ==> NoMarkers(ProcessAll(stream, fs0, visit, j).outlined[m])
  {
    if j > 0 {
      ProcessAllUnmarked(stream, fs0, visit, j - 1);
      var pr := ProcessAll(stream, fs0, visit, j - 1);
      var v := visit[j - 1];
      var f := pr.fs[v.index];
      NewBodiesUnmarked(f.blocks, stream, pr.drawn, v.probability, |pr.outlined|);
      var fns := Processed(f.blocks, stream, pr.drawn, v.probability, |pr.outlined|).fns;
      var o := pr.outlined + fns;
      forall m | 0 <= m < |o|
        ensures NoMarkers(o[m])
      {
        if m < |pr.outlined| {
          assert o[m] == pr.outlined[m];
        } else {
          assert o[m] == fns[m - |pr.outlined|];
        }
      }
    }
  }

  // ---------------------------------------------------------------------
  // Removing the unused lifetime declarations

  /** A call of the function named `name`. */
  predicate CallsName(x: OInst, name: string)
  {
    IsCallBase(x) && (x.callee.IntrinsicFn? || x.callee.Direct?) && x.callee.name == name
  }

  predicate BodyUses(insts: seq<OInst>, name: string)
  {
    exists k :: 0 <= k < |insts| && CallsName(insts[k], name)
  }

  predicate FnUses(f: ModuleFn, name: string)
  {
    exists b :: 0 <= b < |f.blocks| && BodyUses(f.blocks[b].insts, name)
  }

  /** The function named `name` has a use: a call in some function of the module, an outlined one included. */
  predicate Used(fs: seq<ModuleFn>, outlined: seq<seq<OInst>>, name: string)
  {
    (exists i :: 0 <= i < |fs| && FnUses(fs[i], name))
    || (exists m :: 0 <= m < |outlined| && BodyUses(outlined[m], name))
  }

  /** A declaration of `llvm.lifetime.start` or `llvm.lifetime.end` that nothing uses. */
  predicate Removable(f: ModuleFn, fs: seq<ModuleFn>, outlined: seq<seq<OInst>>)
  {
    f.info.isIntrinsic && (f.intrinsicId == LifetimeStart || f.intrinsicId == LifetimeEnd) && !Used(fs, outlined, f.info.name)
  }

  /** `ToRemove` after the first `n` functions. */
  function Removals(fs: seq<ModuleFn>, outlined: seq<seq<OInst>>, n: nat): seq<nat>
    requires n <= |fs|
  {
    if n == 0 then []
    else Removals(fs, outlined, n - 1) + (if Removable(fs[n - 1], fs, outlined) then [n - 1] else [])
  }

  /** The first `n` functions, those listed in `toRemove` erased. */
  function Without(fs: seq<ModuleFn>, toRemove: seq<nat>, n: nat): seq<ModuleFn>
    requires n <= |fs|
  {
    if n == 0 then []
    else Without(fs, toRemove, n - 1) + (if n - 1 in toRemove then [] else [fs[n - 1]])
  }

  /** The module's functions once the unused lifetime declarations are erased. */
  function Pruned(fs: seq<ModuleFn>, outlined: seq<seq<OInst>>): seq<ModuleFn>
  {
    Without(fs, Removals(fs, outlined, |fs|), |fs|)
  }

  lemma {:induction false} RemovalsMembers(fs: seq<ModuleFn>, outlined: seq<seq<OInst>>, n: nat)
    requires n <= |fs|
    ensures forall i :: i in Removals(fs, outlined, n) <==> 0 <= i < n && Removable(fs[i], fs, outlined)
  {
    if n > 0 {
      RemovalsMembers(fs, outlined, n - 1);
    }
  }

  lemma {:induction false} WithoutMembers(fs: seq<ModuleFn>, toRemove: seq<nat>, n: nat)
    requires n <= |fs|
    ensures forall x :: x in Without(fs, toRemove, n) <==> exists i :: 0 <= i < n && i !in toRemove && fs[i] == x
  {
    if n > 0 {
      WithoutMembers(fs, toRemove, n - 1);
    }
  }

  /**
   * Erasing removes exactly the unused lifetime declarations: every other
   * function stays, and nothing is added.
   */
  lemma PrunedKeeps(fs: seq<ModuleFn>, outlined: seq<seq<OInst>>)
    ensures forall i :: 0 <= i < |fs| ==> (fs[i] in Pruned(fs, outlined) <==> !Removable(fs[i], fs, outlined))
    ensures forall x :: x in Pruned(fs, outlined) ==> x in fs
  {
    RemovalsMembers(fs, outlined, |fs|);
    WithoutMembers(fs, Removals(fs, outlined, |fs|), |fs|);
  }

  /** The erasing loops at the end of `run`: the declarations are collected first, then erased. */
  method RemoveUnusedLifetime(fs: seq<ModuleFn>, outlined: seq<seq<OInst>>) returns (out: seq<ModuleFn>)
    ensures out == Pruned(fs, outlined)
  {
    var toRemove := [];
    for i := 0 to |fs|
      invariant toRemove == Removals(fs, outlined, i)
    {
      if fs[i].info.isIntrinsic {
        var id := fs[i].intrinsicId;
        if id == LifetimeStart || id == LifetimeEnd {
          if !Used(fs, outlined, fs[i].info.name) {
            toRemove := toRemove + [i];
          }
        }
      }
    }
    out := [];
    for i := 0 to |fs|
      invariant out == Without(fs, toRemove, i)
    {
      if i !in toRemove {
        out := out + [fs[i]];
      }
    }
  }

  /** The module after `run` once its selected functions are visited: erased declarations only after a change. */
  function AfterRun(stream: Stream, fs: seq<ModuleFn>, opts: seq<OutlineOpt>): (r: Progress)
    requires |opts| == |fs|
  {
    var v := ToVisit(fs, opts, |fs|);
    var pr := ProcessAll(stream, fs, v, |v|);
    if pr.changed then pr.(fs := Pruned(pr.fs, pr.outlined)) else pr
  }

  /**
   * `run` changes the module exactly when it outlined a block; when it
   * did not, every function is as it was and no declaration is erased.
   */
  lemma AfterRunChanged(stream: Stream, fs: seq<ModuleFn>, opts: seq<OutlineOpt>)
    requires |opts| == |fs|
    ensures AfterRun(stream, fs, opts).changed <==> |AfterRun(stream, fs, opts).outlined| > 0
    ensures !AfterRun(stream, fs, opts).changed ==> AfterRun(stream, fs, opts).fs == fs
  {
    var v := ToVisit(fs, opts, |fs|);
    ProcessAllChanged(stream, fs, v, |v|);
    if !ProcessAll(stream, fs, v, |v|).changed {
      ProcessAllUnchanged(stream, fs, v, |v|);
    }
  }

  /** The pass object: the module's generator, created by `run`. */
  class FunctionOutlinePass {
    var rng: Generator?

    constructor()
      ensures rng == null
    {
      rng := null;
    }

    /** The first loop of `process`: one draw per candidate block other than the entry, in layout order. */
    method CollectToOutline(blocks: seq<OBlock>, p: nat) returns (toOutline: seq<nat>)
      requires rng != null
      modifies rng
      ensures rng.drawn == old(rng.drawn) + OutlineDraws(blocks)
      ensures toOutline == ToOutline(blocks, rng.stream, old(rng.drawn), p)
    {
      ghost var e := CandidateFlags(blocks);
      toOutline := [];
      for i := 0 to |blocks|
        invariant rng.drawn == old(rng.drawn) + DrawsFor(e, i)
        invariant toOutline == Picked(e, i, rng.stream, old(rng.drawn), p)
      {
        if i == 0 {
          continue;
        }
        if !OutlineCandidate(blocks[i]) {
          continue;
        }
        var x := rng.Draw();
        if Keep(x, p) {
          toOutline := toOutline + [i];
        }
      }
    }

    /**
     * `process`: picks the blocks, outlines those the extractor accepts and,
     * when at least one was outlined, erases the function's lifetime markers.
     */
    method Process(blocks: seq<OBlock>, p: nat, base: nat) returns (changed: bool, g: seq<OBlock>, fns: seq<seq<OInst>>)
      requires rng != null
      modifies rng
      ensures rng.drawn == old(rng.drawn) + OutlineDraws(blocks)
      ensures Outlining(g, fns) == Processed(blocks, rng.stream, old(rng.drawn), p, base)
      ensures changed <==> |fns| > 0
    {
      var toOutline := CollectToOutline(blocks, p);
      if |toOutline| == 0 {
        return false, blocks, [];
      }
      var outlined;
      g, fns, outlined := OutlineEach(blocks, toOutline, base);
      if outlined == 0 {
        return false, g, fns;
      }
      g := EraseLifetimeMarkers(g);
      changed := true;
    }

    /**
     * `run`: an excluded module, or one with no function to visit, is left
     * alone and no generator is created. Otherwise each visited function is
     * processed in turn and, after a change, the unused lifetime
     * declarations are erased.
     */
    method Run(moduleExcluded: bool, stream: Stream, fs: seq<ModuleFn>, opts: seq<OutlineOpt>)
      returns (changed: bool, out: seq<ModuleFn>, outlined: seq<seq<OInst>>)
      requires |opts| == |fs|
      modifies this
      ensures moduleExcluded || |ToVisit(fs, opts, |fs|)| == 0 ==> !changed && out == fs && outlined == [] && rng == old(rng)
      ensures !moduleExcluded && |ToVisit(fs, opts, |fs|)| > 0 ==>
        rng != null && fresh(rng) && rng.stream == stream
        && Progress(out, outlined, rng.drawn, changed) == AfterRun(stream, fs, opts)
    {
      if moduleExcluded {
        return false, fs, [];
      }
      var toVisit := CollectToVisit(fs, opts);
      if |toVisit| == 0 {
        return false, fs, [];
      }
      rng := new Generator(stream);
      changed, out, outlined := VisitAll(fs, toVisit);
      if changed {
        out := RemoveUnusedLifetime(out, outlined);
      }
    }

    /** The second loop of `run`: the functions to visit processed in turn with a fresh generator. */
    method VisitAll(fs: seq<ModuleFn>, toVisit: seq<Pending>) returns (changed: bool, out: seq<ModuleFn>, outlined: seq<seq<OInst>>)
      requires rng != null && rng.drawn == 0
      requires forall m :: 0 <= m < |toVisit| ==> toVisit[m].index < |fs|
      modifies rng
      ensures Progress(out, outlined, rng.drawn, changed) == ProcessAll(rng.stream, fs, toVisit, |toVisit|)
    {
      var gen := rng;
      changed := false;
      out, outlined := fs, [];
      for j := 0 to |toVisit|
        invariant rng == gen
        invariant Progress(out, outlined, gen.drawn, changed) == ProcessAll(gen.stream, fs, toVisit, j)
      {
        changed, out, outlined := VisitOne(changed, out, outlined, toVisit[j]);
      }
    }

    /** One turn of the second loop of `run`. */
    method VisitOne(changed: bool, fs: seq<ModuleFn>, outlined: seq<seq<OInst>>, v: Pending)
      returns (changed': bool, fs': seq<ModuleFn>, outlined': seq<seq<OInst>>)
      requires rng != null && v.index < |fs|
      modifies rng
      ensures Progress(fs', outlined', rng.drawn, changed') == Visit(rng.stream, Progress(fs, outlined, old(rng.drawn), changed), v)
    {
      var f := fs[v.index];
      var c, g, fns := Process(f.blocks, v.probability, |outlined|);
      fs' := fs[v.index := f.(blocks := g)];
      outlined' := outlined + fns;
      changed' := changed || c;
    }
  }
}

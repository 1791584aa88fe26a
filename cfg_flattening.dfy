/**
 * The current control-flow flattening pass
 * (src/passes/cfg-flattening/ControlFlowFlattening.cpp).
 *
 * Every flattened block gets a random 32-bit ID. A dispatcher loop switches
 * on a state variable whose case for a block is `Encode(ID, X, Y)`, and every
 * branch is replaced by a transition that stores the encoded ID of its target
 * into the state variable and jumps back to the dispatcher. Blocks are
 * indices into the function's block list, with the entry block at index 0.
 */
module CfgFlattening {
  import opened Wrappers

  /** `Encode`: the dispatcher case of a block with raw ID `id`, in 32-bit arithmetic. */
  function Encode(id: bv32, x: bv32, y: bv32): bv32
  {
    (id ^ x) + y
  }

  lemma EncodeUnfold(id: bv32, x: bv32, y: bv32)
    ensures Encode(id, x, y) == (id ^ x) + y
  {
  }

  /** Equality of two words, kept behind a name so the solver cancels both sides together. */
  predicate SameWord(u: bv32, v: bv32)
  {
    u == v
  }

  lemma SubAdd(p: bv32, y: bv32)
    ensures (p + y) - y == p
  {
  }

  lemma AddCancel(p: bv32, q: bv32, y: bv32)
    requires p + y == q + y
    ensures p == q
  {
    SubAdd(p, y);
    SubAdd(q, y);
  }

  lemma XorCancel(p: bv32, q: bv32, x: bv32)
    requires p ^ x == q ^ x
    ensures p == q
  {
  }

  lemma XorAddCancel(a: bv32, b: bv32, x: bv32, y: bv32)
    requires SameWord((a ^ x) + y, (b ^ x) + y)
    ensures a == b
  {
    AddCancel(a ^ x, b ^ x, y);
    XorCancel(a, b, x);
  }

  /** Different raw IDs never share a dispatcher case: `Encode` is injective in the ID. */
  lemma EncodeInjective(a: bv32, b: bv32, x: bv32, y: bv32)
    requires Encode(a, x, y) == Encode(b, x, y)
    ensures a == b
  {
    EncodeUnfold(a, x, y);
    EncodeUnfold(b, x, y);
    XorAddCancel(a, b, x, y);
  }

  /** A branch condition: the result of an instruction, or another value (an argument, a constant). */
  datatype Cond = InstCond(n: nat) | OtherCond(n: nat)

  datatype SwitchCase = SwitchCase(value: int, target: nat)

  /** A block terminator, with successors as block indices. */
  datatype Terminator =
    | Ret
    | Unreachable
    | Resume
    | Invoke(normal: nat, unwind: nat)
    | Br(target: nat)
    | CondBr(cond: Cond, ifTrue: nat, ifFalse: nat)
    | Switch(selector: nat, default: nat, cases: seq<SwitchCase>)
    | OtherTerm

  datatype Block = Block(isLandingPad: bool, term: Terminator)

  /** A function as its list of blocks; a function without instructions has none. */
  datatype CfgFunction = CfgFunction(blocks: seq<Block>)

  /** The random draws of one `runOnFunction`: X and Y from `Dist8`, then the IDs from `Dist`. */
  datatype FunctionDraws = FunctionDraws(x: bv32, y: bv32, ids: seq<bv32>)

  /** `Dist8(10, 254)` for X and Y, and `Dist(10)`, that is `[10, 2^32 - 1]`, for the IDs. */
  predicate ValidDraws(d: FunctionDraws)
  {
    10 <= d.x <= 254 && 10 <= d.y <= 254 && forall k :: 0 <= k < |d.ids| ==> d.ids[k] >= 10
  }

  // ---------------------------------------------------------------- semantics

  /**
   * What the program does at run time at a terminator: the values of the
   * branch conditions and switch selectors, and whether an invoke unwinds.
   */
  datatype Env = Env(conds: Cond -> bool, values: nat -> int, unwinds: bool)

  /** Where control goes next: a block, out of the function, or into the dispatcher's default trap. */
  datatype Next = Goto(block: nat) | Leave | Trap

  /** The target of the first switch case whose value is `v`. */
  function CaseFor(cases: seq<SwitchCase>, v: int): (r: Option<nat>)
    ensures r.Some? ==> exists k :: 0 <= k < |cases| && cases[k].value == v && cases[k].target == r.value
  {
    if |cases| == 0 then None
    else if cases[0].value == v then Some(cases[0].target)
    else CaseFor(cases[1..], v)
  }

  /** The successor the original terminator `t` picks in `env`. */
  function NextOrig(t: Terminator, env: Env): Next
  {
    match t
    case Ret => Leave
    case Unreachable => Leave
    case Resume => Leave
    case OtherTerm => Leave
    case Invoke(normal, unwind) => Goto(if env.unwinds then unwind else normal)
    case Br(target) => Goto(target)
    case CondBr(c, ifTrue, ifFalse) => Goto(if env.conds(c) then ifTrue else ifFalse)
    case Switch(sel, default, cases) =>
      match CaseFor(cases, env.values(sel))
      case Some(target) => Goto(target)
      case None => Goto(default)
  }

  /** One case of the dispatcher switch: a state value and the block it leads to. */
  datatype DispatchCase = DispatchCase(value: bv32, block: nat)

  /** The dispatcher: the block of the first case equal to the state, or none (the default trap). */
  function Dispatch(table: seq<DispatchCase>, v: bv32): (r: Option<nat>)
    ensures r.Some? ==> exists k :: 0 <= k < |table| && table[k].value == v && table[k].block == r.value
    ensures r.None? ==> forall k :: 0 <= k < |table| ==> table[k].value != v
  {
    if |table| == 0 then None
    else if table[0].value == v then Some(table[0].block)
    else
      var r := Dispatch(table[1..], v);
      assert forall k :: 1 <= k < |table| ==> table[k] == table[1..][k - 1];
      r
  }

  function DispatchNext(table: seq<DispatchCase>, v: bv32): Next
  {
    match Dispatch(table, v)
    case Some(b) => Goto(b)
    case None => Trap
  }

  /** A rewritten switch case: the original case value and the raw ID of its target. */
  datatype FlatCase = FlatCase(value: int, encId: bv32)

  /**
   * A terminator after flattening: kept as it was, a single-target transition
   * (first `EmitTransition`), a two-target transition (second
   * `EmitTransition`), or a switch whose cases now lead to dispatch blocks
   * that each emit a single-target transition.
   */
  datatype FlatTerm =
    | Kept(term: Terminator)
    | Jump(encId: bv32)
    | SelectJump(cond: Cond, trueId: bv32, falseId: bv32)
    | SwitchJumps(selector: nat, default: nat, cases: seq<FlatCase>)

  /** The raw ID carried by the first rewritten case whose value is `v`. */
  function FlatCaseFor(cases: seq<FlatCase>, v: int): Option<bv32>
  {
    if |cases| == 0 then None
    else if cases[0].value == v then Some(cases[0].encId)
    else FlatCaseFor(cases[1..], v)
  }

  /**
   * The state value the single-target transition leaves in `SwitchVar`: it
   * stores the raw ID, loads it back and stores `(v ^ X) + Y`.
   */
  function JumpState(encId: bv32, x: bv32, y: bv32): bv32
  {
    var stored := encId;
    var loaded := stored;
    Encode(loaded, x, y)
  }

  /**
   * The state value the two-target transition leaves in `SwitchVar`: both
   * raw IDs go through `TmpTrue`/`TmpFalse`, are encoded, and the original
   * condition selects one of them.
   */
  function SelectState(c: bool, trueId: bv32, falseId: bv32, x: bv32, y: bv32): bv32
  {
    var encTrue := Encode(trueId, x, y);
    var encFalse := Encode(falseId, x, y);
    if c then encTrue else encFalse
  }

  /** Where a flattened terminator sends control in `env`, through the dispatcher `table`. */
  function NextFlat(ft: FlatTerm, table: seq<DispatchCase>, env: Env, x: bv32, y: bv32): Next
  {
    match ft
    case Kept(t) => NextOrig(t, env)
    case Jump(encId) => DispatchNext(table, JumpState(encId, x, y))
    case SelectJump(c, trueId, falseId) => DispatchNext(table, SelectState(env.conds(c), trueId, falseId, x, y))
    case SwitchJumps(sel, default, cases) =>
      match FlatCaseFor(cases, env.values(sel))
      case Some(encId) => DispatchNext(table, JumpState(encId, x, y))
      case None => Goto(default)
  }

  // ------------------------------------------------------------------ the pass

  /** The blocks after the entry, in layout order (the loop over `F` that fills `FlattedBBs`). */
  function NonEntryBlocks(n: nat): (r: seq<nat>)
    requires n >= 1
    ensures |r| == n - 1 && forall i :: 0 <= i < n - 1 ==> r[i] == i + 1
  {
    seq(n - 1, i => i + 1)
  }

  /** `BlockSize`: how many of `order` are not landing pads. */
  function CountFlattenable(blocks: seq<Block>, order: seq<nat>): (c: nat)
    requires forall j :: 0 <= j < |order| ==> order[j] < |blocks|
    ensures c <= |order|
  {
    if |order| == 0 then 0
    else CountFlattenable(blocks, order[..|order| - 1]) + (if blocks[order[|order| - 1]].isLandingPad then 0 else 1)
  }

  /** `IsFromInvoke`: some block ending in an invoke has `b` as a successor. */
  predicate FromInvoke(blocks: seq<Block>, b: nat)
  {
    exists p :: 0 <= p < |blocks| && blocks[p].term.Invoke? && (blocks[p].term.normal == b || blocks[p].term.unwind == b)
  }

  /** Membership in `NormalDest2Split`: a block that is not a landing pad and is reached from an invoke. */
  predicate NeedsTrampoline(blocks: seq<Block>, b: nat)
  {
    b < |blocks| && !blocks[b].isLandingPad && FromInvoke(blocks, b)
  }

  /**
   * How many `.normal_split` trampolines are created for the first `n`
   * blocks: one per block in `NormalDest2Split`.
   */
  function CountTrampolines(blocks: seq<Block>, n: nat): (c: nat)
    requires n <= |blocks|
    ensures c <= n
  {
    if n == 0 then 0
    else CountTrampolines(blocks, n - 1) + (if NeedsTrampoline(blocks, n - 1) then 1 else 0)
  }

  /** No trampoline is created exactly when no block is reached from an invoke. */
  lemma {:induction false} CountTrampolinesZero(blocks: seq<Block>, n: nat)
    requires n <= |blocks|
    ensures CountTrampolines(blocks, n) == 0 <==> forall b: nat :: b < n ==> !NeedsTrampoline(blocks, b)
  {
    if n > 0 {
      CountTrampolinesZero(blocks, n - 1);
    }
  }

  /**
   * `BlockSize`: the trampolines are created before `FlattedBBs` is
   * collected, so the non-entry blocks that are not landing pads and the
   * trampolines (never landing pads) are all counted.
   */
  function BlockSize(f: CfgFunction): nat
    requires |f.blocks| >= 1
  {
    CountFlattenable(f.blocks, NonEntryBlocks(|f.blocks|)) + CountTrampolines(f.blocks, |f.blocks|)
  }

  /**
   * An entry ending in an invoke to block 1, which unwinds to the landing
   * pad at block 2, has a single flattenable non-entry block, but with the
   * trampoline for block 1 the block size is 2, so the function is flattened.
   */
  lemma InvokeTrampolineCounts()
    ensures var f := CfgFunction([Block(false, Invoke(1, 2)), Block(false, Ret), Block(true, Resume)]);
      && CountFlattenable(f.blocks, NonEntryBlocks(3)) == 1
      && BlockSize(f) == 2
  {
    var f := CfgFunction([Block(false, Invoke(1, 2)), Block(false, Ret), Block(true, Resume)]);
    assert NonEntryBlocks(3) == [1, 2];
    assert NonEntryBlocks(3)[..1] == [1];
    assert FromInvoke(f.blocks, 1) by { assert f.blocks[0].term.normal == 1; }
    assert !NeedsTrampoline(f.blocks, 0) by {
      forall p | 0 <= p < 3 ensures !(f.blocks[p].term.Invoke? && (f.blocks[p].term.normal == 0 || f.blocks[p].term.unwind == 0)) {
      }
    }
  }

  /** `runOnFunction` goes past the block-size test. */
  predicate Flattenable(f: CfgFunction)
  {
    |f.blocks| >= 1 && BlockSize(f) > 1
  }

  /**
   * Whether the entry block is split so that its terminator becomes the first
   * flattened block, as written: only for a conditional branch on an
   * instruction, a switch or an invoke. Any other entry terminator is erased.
   */
  predicate EntrySplitAsWritten(t: Terminator)
  {
    (t.CondBr? && t.cond.InstCond?) || t.Switch? || t.Invoke?
  }

  /** `FlattedBBs` as written. */
  function FlattenedOrderAsWritten(f: CfgFunction): (order: seq<nat>)
    requires |f.blocks| >= 1
  {
    var rest := NonEntryBlocks(|f.blocks|);
    if EntrySplitAsWritten(f.blocks[0].term) then [0] + rest else rest
  }

  /**
   * `FlattedBBs` with the entry always split before its terminator, so the
   * dispatcher's first block runs the entry's own terminator.
   */
  function FlattenedOrder(f: CfgFunction): (order: seq<nat>)
    requires |f.blocks| >= 1
    ensures |order| == |f.blocks| && order[0] == 0
    ensures forall j :: 0 <= j < |order| ==> order[j] == j
  {
    [0] + NonEntryBlocks(|f.blocks|)
  }

  /** The IDs cover exactly the flattened blocks that are not landing pads. */
  ghost predicate IdsFor(blocks: seq<Block>, order: seq<nat>, ids: map<nat, bv32>)
  {
    forall b :: b in ids <==> (b in order && b < |blocks| && !blocks[b].isLandingPad)
  }

  /** Values and their images under `enc` are pairwise distinct across keys. */
  ghost predicate Distinct<V>(ids: map<nat, V>, enc: V -> V)
  {
    forall a, b :: a in ids && b in ids && a != b ==>
      ids[a] != ids[b] && ids[a] != enc(ids[b]) && enc(ids[a]) != enc(ids[b])
  }

  /** A value that is not among the used ones, nor its image, keeps the map distinct. */
  lemma DistinctExtend<V>(ids: map<nat, V>, b: nat, rnd: V, used: set<V>, enc: V -> V)
    requires Distinct(ids, enc)
    requires forall c :: c in ids ==> ids[c] in used && enc(ids[c]) in used
    requires rnd !in used && enc(rnd) !in used
    ensures Distinct(ids[b := rnd], enc)
  {
  }

  /** Every ID in `ids` and its image are among the `used` values. */
  ghost predicate Recorded<V>(ids: map<nat, V>, used: set<V>, enc: V -> V)
  {
    forall c :: c in ids ==> ids[c] in used && enc(ids[c]) in used
  }

  lemma RecordedExtend<V>(ids: map<nat, V>, b: nat, rnd: V, used: set<V>, enc: V -> V)
    requires Recorded(ids, used, enc)
    ensures Recorded(ids[b := rnd], used + {rnd, enc(rnd)}, enc)
  {
  }

  function EncodeWith(x: bv32, y: bv32): bv32 -> bv32
  {
    id => Encode(id, x, y)
  }

  /** Raw IDs and their encodings are pairwise distinct across blocks (the `SwitchRnd` check). */
  ghost predicate DistinctIds(ids: map<nat, bv32>, x: bv32, y: bv32)
  {
    Distinct(ids, EncodeWith(x, y))
  }

  /**
   * Draws that never collide: no draw equals an earlier draw or its image,
   * and no image equals an earlier one. With such draws every ID is
   * accepted at the first try.
   */
  ghost predicate FreshDraws<V>(draws: seq<V>, enc: V -> V)
  {
    forall k, k' :: 0 <= k' < k < |draws| ==>
      draws[k] != draws[k'] && draws[k] != enc(draws[k']) && enc(draws[k]) != draws[k'] && enc(draws[k]) != enc(draws[k'])
  }

  /** With distinct IDs, two blocks with the same encoded ID are the same block. */
  lemma EncodedIdsDistinct(ids: map<nat, bv32>, x: bv32, y: bv32, a: nat, b: nat)
    requires DistinctIds(ids, x, y) && a in ids && b in ids
    ensures Encode(ids[a], x, y) == Encode(ids[b], x, y) ==> a == b
  {
  }

  /** Every value in `SwitchRnd` is one of the first `used` draws or its encoding. */
  ghost predicate DrawnSoFar(switchRnd: set<bv32>, draws: seq<bv32>, used: nat, x: bv32, y: bv32)
  {
    used <= |draws| && forall v :: v in switchRnd ==> exists k :: 0 <= k < used && (v == draws[k] || v == EncodeWith(x, y)(draws[k]))
  }

  /** With draws that never collide, the next draw and its encoding are not yet in `SwitchRnd`. */
  lemma FreshDrawAccepted(switchRnd: set<bv32>, draws: seq<bv32>, used: nat, x: bv32, y: bv32)
    requires FreshDraws(draws, EncodeWith(x, y)) && DrawnSoFar(switchRnd, draws, used, x, y) && used < |draws|
    ensures draws[used] !in switchRnd && Encode(draws[used], x, y) !in switchRnd
  {
    var enc := EncodeWith(x, y);
    assert enc(draws[used]) == Encode(draws[used], x, y);
    forall v | v in switchRnd
      ensures v != draws[used] && v != enc(draws[used])
    {
      var k :| 0 <= k < used && (v == draws[k] || v == enc(draws[k]));
      assert draws[used] != draws[k] && draws[used] != enc(draws[k]);
      assert enc(draws[used]) != draws[k] && enc(draws[used]) != enc(draws[k]);
    }
  }

  /** Adding the accepted draw and its encoding keeps `SwitchRnd` among the drawn values. */
  lemma DrawnSoFarExtend(switchRnd: set<bv32>, draws: seq<bv32>, used: nat, x: bv32, y: bv32)
    requires DrawnSoFar(switchRnd, draws, used, x, y) && used < |draws|
    ensures DrawnSoFar(switchRnd + {draws[used], Encode(draws[used], x, y)}, draws, used + 1, x, y)
  {
    assert EncodeWith(x, y)(draws[used]) == Encode(draws[used], x, y);
  }

  /**
   * The retry loop of one block: draw until neither the ID nor its encoding
   * is in `SwitchRnd`; running out of draws returns None. With draws that
   * never collide the first draw is taken.
   */
  method DrawId(switchRnd: set<bv32>, draws: seq<bv32>, used: nat, x: bv32, y: bv32)
    returns (r: Option<bv32>, used': nat)
    requires used <= |draws|
    requires forall k :: 0 <= k < |draws| ==> draws[k] >= 10
    ensures used <= used' <= |draws|
    ensures r.None? ==> used' == |draws|
    ensures r.Some? ==> r.value !in switchRnd && Encode(r.value, x, y) !in switchRnd && r.value >= 10
    ensures FreshDraws(draws, EncodeWith(x, y)) && DrawnSoFar(switchRnd, draws, used, x, y) && used < |draws| ==>
      r == Some(draws[used]) && used' == used + 1
      && DrawnSoFar(switchRnd + {draws[used], Encode(draws[used], x, y)}, draws, used', x, y)
  {
    ghost var noClash := FreshDraws(draws, EncodeWith(x, y)) && DrawnSoFar(switchRnd, draws, used, x, y);
    used' := used;
    while true
      invariant used <= used' <= |draws|
      invariant noClash ==> used' == used
      decreases |draws| - used'
    {
      if used' == |draws| {
        return None, used';
      }
      var rnd := draws[used'];
      used' := used' + 1;
      var enc := Encode(rnd, x, y);
      if noClash {
        FreshDrawAccepted(switchRnd, draws, used, x, y);
        DrawnSoFarExtend(switchRnd, draws, used, x, y);
      }
      if rnd !in switchRnd && enc !in switchRnd {
        return Some(rnd), used';
      }
    }
  }

  /**
   * The ID loop: for every flattened block that is not a landing pad, draw
   * IDs until neither the ID nor its encoding is in `SwitchRnd`, then add
   * both. The draws are a finite input, so running out returns None.
   */
  /** Records an accepted ID for `b`: the map takes it, `SwitchRnd` takes it and its image. */
  method RecordId(ids: map<nat, bv32>, switchRnd: set<bv32>, b: nat, rnd: bv32, x: bv32, y: bv32)
    returns (ids': map<nat, bv32>, switchRnd': set<bv32>)
    requires Recorded(ids, switchRnd, EncodeWith(x, y)) && DistinctIds(ids, x, y)
    requires forall c :: c in ids ==> ids[c] >= 10
    requires rnd !in switchRnd && Encode(rnd, x, y) !in switchRnd && rnd >= 10
    ensures ids' == ids[b := rnd] && switchRnd' == switchRnd + {rnd, Encode(rnd, x, y)}
    ensures Recorded(ids', switchRnd', EncodeWith(x, y)) && DistinctIds(ids', x, y)
    ensures forall c :: c in ids' ==> ids'[c] >= 10
  {
    DistinctExtend(ids, b, rnd, switchRnd, EncodeWith(x, y));
    RecordedExtend(ids, b, rnd, switchRnd, EncodeWith(x, y));
    ids', switchRnd' := ids[b := rnd], switchRnd + {rnd, Encode(rnd, x, y)};
  }

  method AssignIds(blocks: seq<Block>, order: seq<nat>, x: bv32, y: bv32, draws: seq<bv32>)
    returns (r: Option<map<nat, bv32>>, used: nat)
    requires forall j :: 0 <= j < |order| ==> order[j] < |blocks|
    requires forall k :: 0 <= k < |draws| ==> draws[k] >= 10
    ensures used <= |draws|
    ensures r.None? ==> used == |draws|
    ensures r.Some? ==> IdsFor(blocks, order, r.value) && DistinctIds(r.value, x, y)
    ensures r.Some? ==> forall b :: b in r.value ==> r.value[b] >= 10
    ensures FreshDraws(draws, EncodeWith(x, y)) && |draws| >= |order| ==> r.Some?
  {
    ghost var noClash := FreshDraws(draws, EncodeWith(x, y)) && |draws| >= |order|;
    var ids: map<nat, bv32> := map[];
    var switchRnd: set<bv32> := {};
    used := 0;
    var i := 0;
    while i < |order|
      invariant 0 <= i <= |order| && used <= |draws|
      invariant IdsFor(blocks, order[..i], ids)
      invariant Recorded(ids, switchRnd, EncodeWith(x, y))
      invariant forall b :: b in ids ==> ids[b] >= 10
      invariant DistinctIds(ids, x, y)
      invariant noClash ==> used <= i && DrawnSoFar(switchRnd, draws, used, x, y)
    {
      var b := order[i];
      assert order[..i + 1] == order[..i] + [b];
      if blocks[b].isLandingPad {
        i := i + 1;
        continue;
      }
      var next;
      next, used := DrawId(switchRnd, draws, used, x, y);
      if next.None? {
        return None, used;
      }
      ids, switchRnd := RecordId(ids, switchRnd, b, next.value, x, y);
      i := i + 1;
    }
    assert order[..|order|] == order;
    return Some(ids), used;
  }

  /** The raw ID of `b` as `SwitchEnc[b]` reads it: a block without one gets 0. */
  function IdOf(ids: map<nat, bv32>, b: nat): bv32
  {
    if b in ids then ids[b] else 0
  }

  /** The dispatcher's cases: one per flattened block that is not a landing pad, in order. */
  function DispatchTable(blocks: seq<Block>, order: seq<nat>, ids: map<nat, bv32>, x: bv32, y: bv32)
    : (t: seq<DispatchCase>)
    requires forall j :: 0 <= j < |order| ==> order[j] < |blocks|
    requires forall j :: 0 <= j < |order| && !blocks[order[j]].isLandingPad ==> order[j] in ids
    ensures forall k :: 0 <= k < |t| ==>
      t[k].block in order && t[k].block < |blocks| && !blocks[t[k].block].isLandingPad
      && t[k].block in ids && t[k].value == Encode(ids[t[k].block], x, y)
    ensures forall j :: 0 <= j < |order| && !blocks[order[j]].isLandingPad ==>
      exists k :: 0 <= k < |t| && t[k].block == order[j]
  {
    if |order| == 0 then []
    else
      var prefix := order[..|order| - 1];
      var prev := DispatchTable(blocks, prefix, ids, x, y);
      var b := order[|order| - 1];
      assert forall j :: 0 <= j < |order| - 1 ==> order[j] == prefix[j];
      if blocks[b].isLandingPad then prev
      else
        var t := prev + [DispatchCase(Encode(ids[b], x, y), b)];
        assert t[|prev|].block == b;
        assert forall k :: 0 <= k < |prev| ==> t[k] == prev[k];
        t
  }

  /**
   * The loop that adds the dispatcher's cases: landing pads get none, every
   * other flattened block gets `Encode` of its ID.
   */
  method BuildDispatchTable(blocks: seq<Block>, order: seq<nat>, ids: map<nat, bv32>, x: bv32, y: bv32)
    returns (table: seq<DispatchCase>)
    requires forall j :: 0 <= j < |order| ==> order[j] < |blocks|
    requires forall j :: 0 <= j < |order| && !blocks[order[j]].isLandingPad ==> order[j] in ids
    ensures table == DispatchTable(blocks, order, ids, x, y)
  {
    table := [];
    var i := 0;
    while i < |order|
      invariant 0 <= i <= |order|
      invariant table == DispatchTable(blocks, order[..i], ids, x, y)
    {
      var b := order[i];
      assert order[..i + 1][..i] == order[..i];
      if !blocks[b].isLandingPad {
        table := table + [DispatchCase(Encode(ids[b], x, y), b)];
      }
      i := i + 1;
    }
    assert order[..|order|] == order;
  }

  /** With distinct IDs, the dispatcher sends the encoded ID of every numbered block to that block. */
  lemma DispatchTableFinds(blocks: seq<Block>, order: seq<nat>, ids: map<nat, bv32>, x: bv32, y: bv32, b: nat)
    requires IdsFor(blocks, order, ids) && DistinctIds(ids, x, y)
    requires forall j :: 0 <= j < |order| ==> order[j] < |blocks|
    requires b in ids
    ensures Dispatch(DispatchTable(blocks, order, ids, x, y), Encode(ids[b], x, y)) == Some(b)
  {
    var t := DispatchTable(blocks, order, ids, x, y);
    var j :| 0 <= j < |order| && order[j] == b;
    var r := Dispatch(t, Encode(ids[b], x, y));
    var k :| 0 <= k < |t| && t[k].block == order[j];
    assert r.Some?;
    var k' :| 0 <= k' < |t| && t[k'].value == Encode(ids[b], x, y) && t[k'].block == r.value;
    EncodedIdsDistinct(ids, x, y, r.value, b);
  }

  /** With distinct IDs, the dispatcher is correct for every numbered block. */
  lemma DispatchTableCorrect(blocks: seq<Block>, order: seq<nat>, ids: map<nat, bv32>, x: bv32, y: bv32)
    requires IdsFor(blocks, order, ids) && DistinctIds(ids, x, y)
    requires forall j :: 0 <= j < |order| ==> order[j] < |blocks|
    ensures TableCorrect(DispatchTable(blocks, order, ids, x, y), ids, x, y)
  {
    forall b | b in ids ensures Dispatch(DispatchTable(blocks, order, ids, x, y), Encode(ids[b], x, y)) == Some(b) {
      DispatchTableFinds(blocks, order, ids, x, y, b);
    }
  }

  /** The messages of the fatal errors the rewrite reports. */
  const NO_ID: string := "Unable to find the encoded id for the basic block"
  const NO_TRUE_ID: string := "Unable to find the encoded id for the (true) basic block"
  const NO_FALSE_ID: string := "Unable to find the encoded id for the (false) basic block"
  const NOT_A_BRANCH: string := "Weird terminator is not a branch"

  /** The raw IDs of a switch's case targets; a target without an ID is a fatal error. */
  function TransitionCases(cases: seq<SwitchCase>, ids: map<nat, bv32>): (r: Result<seq<FlatCase>>)
    ensures r.Fatal? <==> exists k :: 0 <= k < |cases| && cases[k].target !in ids
    ensures r.Ok? ==> |r.value| == |cases| && forall k :: 0 <= k < |cases| ==>
      cases[k].target in ids && r.value[k] == FlatCase(cases[k].value, ids[cases[k].target])
  {
    if |cases| == 0 then Ok([])
    else if cases[0].target !in ids then Fatal(NO_ID)
    else
      match TransitionCases(cases[1..], ids)
      case Fatal(m) =>
        assert exists k :: 1 <= k < |cases| && cases[k].target !in ids by {
          var k :| 0 <= k < |cases[1..]| && cases[1..][k].target !in ids;
          assert cases[k + 1] == cases[1..][k];
        }
        Fatal(m)
      case Ok(rest) =>
        assert forall k :: 1 <= k < |cases| ==> cases[k] == cases[1..][k - 1];
        Ok([FlatCase(cases[0].value, ids[cases[0].target])] + rest)
  }

  /**
   * The rewrite of one flattened block's terminator: returns, unreachables,
   * resumes and invokes are kept, branches and switches become transitions,
   * and a target without an ID or any other terminator is a fatal error.
   */
  function Transition(t: Terminator, ids: map<nat, bv32>): (r: Result<FlatTerm>)
    ensures r.Ok? && r.value.Kept? <==> t.Ret? || t.Unreachable? || t.Resume? || t.Invoke?
    ensures t.OtherTerm? ==> r.Fatal?
    ensures t.Br? ==> (r.Fatal? <==> t.target !in ids)
    ensures t.CondBr? ==> (r.Fatal? <==> t.ifTrue !in ids || t.ifFalse !in ids)
    ensures t.Switch? ==> (r.Fatal? <==> exists k :: 0 <= k < |t.cases| && t.cases[k].target !in ids)
  {
    match t
    case Ret => Ok(Kept(t))
    case Unreachable => Ok(Kept(t))
    case Resume => Ok(Kept(t))
    case Invoke(_, _) => Ok(Kept(t))
    case Switch(sel, default, cases) =>
      (match TransitionCases(cases, ids)
       case Ok(fcs) => Ok(SwitchJumps(sel, default, fcs))
       case Fatal(m) => Fatal(m))
    case Br(target) =>
      if target !in ids then Fatal(NO_ID)
      else Ok(Jump(ids[target]))
    case CondBr(c, ifTrue, ifFalse) =>
      if ifTrue !in ids then Fatal(NO_TRUE_ID)
      else if ifFalse !in ids then Fatal(NO_FALSE_ID)
      else Ok(SelectJump(c, ids[ifTrue], ids[ifFalse]))
    case OtherTerm => Fatal(NOT_A_BRANCH)
  }

  /** The dispatcher sends every block's encoded ID to that block. */
  ghost predicate TableCorrect(table: seq<DispatchCase>, ids: map<nat, bv32>, x: bv32, y: bv32)
  {
    forall b :: b in ids ==> Dispatch(table, Encode(ids[b], x, y)) == Some(b)
  }

  /** A rewritten switch picks the same case as the original, carrying its target's ID. */
  lemma {:induction false} FlatCaseForAgrees(cases: seq<SwitchCase>, ids: map<nat, bv32>, v: int)
    requires TransitionCases(cases, ids).Ok?
    ensures var fc := FlatCaseFor(TransitionCases(cases, ids).value, v);
      && (CaseFor(cases, v).None? <==> fc.None?)
      && (CaseFor(cases, v).Some? ==> CaseFor(cases, v).value in ids && fc.value == ids[CaseFor(cases, v).value])
  {
    if |cases| > 0 {
      var fcs := TransitionCases(cases, ids).value;
      assert fcs[0] == FlatCase(cases[0].value, ids[cases[0].target]);
      if cases[0].value != v {
        FlatCaseForAgrees(cases[1..], ids, v);
        assert TransitionCases(cases[1..], ids).value == fcs[1..];
      }
    }
  }

  /**
   * Every emitted transition computes exactly the dispatcher case of the
   * original successor: the flattened terminator leads where the original did.
   */
  lemma TransitionCorrect(t: Terminator, ids: map<nat, bv32>, table: seq<DispatchCase>,
                          env: Env, x: bv32, y: bv32)
    requires Transition(t, ids).Ok? && TableCorrect(table, ids, x, y)
    ensures NextFlat(Transition(t, ids).value, table, env, x, y) == NextOrig(t, env)
  {
    match t
    case Switch(sel, default, cases) =>
      FlatCaseForAgrees(cases, ids, env.values(sel));
    case _ =>
  }

  /**
   * The loop over `FlattedBBs` that rewrites every terminator; the first
   * terminator that cannot be rewritten makes the pass fail.
   */
  method RewriteTerminators(blocks: seq<Block>, order: seq<nat>, ids: map<nat, bv32>)
    returns (r: Result<map<nat, FlatTerm>>)
    requires forall j :: 0 <= j < |order| ==> order[j] < |blocks|
    ensures r.Fatal? <==> exists j :: 0 <= j < |order| && Transition(blocks[order[j]].term, ids).Fatal?
    ensures r.Ok? ==> forall j :: 0 <= j < |order| ==>
      order[j] in r.value && Transition(blocks[order[j]].term, ids) == Ok(r.value[order[j]])
  {
    var terms: map<nat, FlatTerm> := map[];
    var i := 0;
    while i < |order|
      invariant 0 <= i <= |order|
      invariant forall j :: 0 <= j < i ==>
        order[j] in terms && Transition(blocks[order[j]].term, ids) == Ok(terms[order[j]])
    {
      var b := order[i];
      var t := Transition(blocks[b].term, ids);
      if t.Fatal? {
        return Fatal(t.message);
      }
      terms := terms[b := t.value];
      i := i + 1;
    }
    return Ok(terms);
  }

  /** The branch targets the rewrite needs an ID for (a switch's default stays a direct edge). */
  function Successors(t: Terminator): seq<nat>
  {
    match t
    case Br(target) => [target]
    case CondBr(_, ifTrue, ifFalse) => [ifTrue, ifFalse]
    case Switch(_, _, cases) => seq(|cases|, k requires 0 <= k < |cases| => cases[k].target)
    case _ => []
  }

  /** A terminator the pass cannot flatten: not a branch, or a target that gets no ID. */
  predicate Unrewritable(blocks: seq<Block>, t: Terminator)
  {
    || t.OtherTerm?
    || exists k :: 0 <= k < |Successors(t)| && !(Successors(t)[k] < |blocks| && !blocks[Successors(t)[k]].isLandingPad)
  }

  /** A block of the function that is not a landing pad. */
  predicate Numbered(blocks: seq<Block>, b: nat)
  {
    b < |blocks| && !blocks[b].isLandingPad
  }

  /** Every block that is not a landing pad has an ID, and only those. */
  ghost predicate NumbersAllBlocks(blocks: seq<Block>, ids: map<nat, bv32>)
  {
    forall b: nat :: b in ids <==> Numbered(blocks, b)
  }

  /** Since every block is flattened, IDs for the flattened blocks are IDs for all blocks. */
  lemma IdsForAllBlocks(f: CfgFunction, ids: map<nat, bv32>)
    requires |f.blocks| >= 1 && IdsFor(f.blocks, FlattenedOrder(f), ids)
    ensures NumbersAllBlocks(f.blocks, ids)
  {
    var order := FlattenedOrder(f);
    forall b: nat ensures b in ids <==> Numbered(f.blocks, b) {
      if b < |f.blocks| {
        assert order[b] == b;
      }
    }
  }

  /** With the IDs of all blocks, the rewrite fails exactly on the unflattenable terminators. */
  lemma TransitionFatalExactly(blocks: seq<Block>, ids: map<nat, bv32>, t: Terminator)
    requires NumbersAllBlocks(blocks, ids)
    ensures Transition(t, ids).Fatal? <==> Unrewritable(blocks, t)
  {
    var succ := Successors(t);
    if t.Br? {
      assert succ == [t.target];
    } else if t.CondBr? {
      assert succ == [t.ifTrue, t.ifFalse];
    } else if t.Switch? {
      assert |succ| == |t.cases|;
      if Transition(t, ids).Fatal? {
        var k :| 0 <= k < |t.cases| && t.cases[k].target !in ids;
        assert succ[k] == t.cases[k].target;
        assert !Numbered(blocks, succ[k]);
      }
      if Unrewritable(blocks, t) {
        var k :| 0 <= k < |succ| && !(succ[k] < |blocks| && !blocks[succ[k]].isLandingPad);
        assert succ[k] == t.cases[k].target;
        assert !Numbered(blocks, succ[k]);
      }
    }
  }

  /** The flattened function: its order, X and Y, IDs, dispatcher, initial state and new terminators. */
  datatype Flattened = Flattened(
    order: seq<nat>,
    x: bv32,
    y: bv32,
    ids: map<nat, bv32>,
    table: seq<DispatchCase>,
    initial: bv32,
    terms: map<nat, FlatTerm>)

  /** What `runOnFunction` does to one function; `OutOfDraws` means the finite draws ran out. */
  datatype Outcome = Unchanged | Changed(flat: Flattened) | OutOfDraws

  /** What a flattening of `f` with draws `d` consists of. */
  ghost predicate FlattenedFrom(f: CfgFunction, d: FunctionDraws, flat: Flattened)
  {
    && |f.blocks| >= 1
    && flat.order == FlattenedOrder(f) && flat.x == d.x && flat.y == d.y
    && IdsFor(f.blocks, flat.order, flat.ids) && DistinctIds(flat.ids, flat.x, flat.y)
    && (forall b :: b in flat.ids ==> flat.ids[b] >= 10)
    && flat.table == DispatchTable(f.blocks, flat.order, flat.ids, flat.x, flat.y)
    && flat.initial == Encode(IdOf(flat.ids, flat.order[0]), flat.x, flat.y)
    && (forall j :: 0 <= j < |flat.order| ==>
          flat.order[j] in flat.terms
          && Transition(f.blocks[flat.order[j]].term, flat.ids) == Ok(flat.terms[flat.order[j]]))
  }

  /** Some block ends in a terminator the pass cannot rewrite. */
  predicate HasUnrewritable(f: CfgFunction)
  {
    exists j :: 0 <= j < |f.blocks| && Unrewritable(f.blocks, f.blocks[j].term)
  }

  /**
   * The finite draws stand for the source's unbounded retry loop: they
   * suffice when they never clash and there is one per block.
   */
  ghost predicate EnoughDraws(f: CfgFunction, d: FunctionDraws)
  {
    FreshDraws(d.ids, EncodeWith(d.x, d.y)) && |d.ids| >= |f.blocks|
  }

  /**
   * `runOnFunction`: a function without instructions, or whose block size
   * (trampolines included) is at most one, is unchanged; otherwise the
   * entry is split, IDs are drawn, the dispatcher is built, the initial state
   * is stored and every terminator is rewritten, and the first terminator
   * that cannot be rewritten is fatal.
   */
  method RunOnFunction(f: CfgFunction, d: FunctionDraws) returns (r: Result<Outcome>)
    requires ValidDraws(d)
    ensures |f.blocks| == 0 ==> r == Ok(Unchanged)
    ensures r == Ok(Unchanged) <==> !Flattenable(f)
    ensures r.Ok? && r.value.Changed? ==> Flattenable(f) && FlattenedFrom(f, d, r.value.flat)
    ensures r.Fatal? ==> Flattenable(f) && HasUnrewritable(f)
    ensures r == Ok(OutOfDraws) ==> Flattenable(f) && !EnoughDraws(f, d)
    ensures EnoughDraws(f, d) ==> (r.Fatal? <==> Flattenable(f) && HasUnrewritable(f))
    ensures Flattenable(f) && EnoughDraws(f, d) && !HasUnrewritable(f) ==> r.Ok? && r.value.Changed?
  {
    if |f.blocks| == 0 {
      return Ok(Unchanged);
    }
    var x, y := d.x, d.y;
    if BlockSize(f) <= 1 {
      return Ok(Unchanged);
    }
    var order := FlattenedOrder(f);
    var idsOpt, _ := AssignIds(f.blocks, order, x, y, d.ids);
    if idsOpt.None? {
      return Ok(OutOfDraws);
    }
    var ids := idsOpt.value;
    IdsForAllBlocks(f, ids);
    var table := BuildDispatchTable(f.blocks, order, ids, x, y);
    var initial := Encode(IdOf(ids, order[0]), x, y);
    var terms := RewriteTerminators(f.blocks, order, ids);
    if terms.Fatal? {
      var j :| 0 <= j < |order| && Transition(f.blocks[order[j]].term, ids).Fatal?;
      TransitionFatalExactly(f.blocks, ids, f.blocks[order[j]].term);
      return Fatal(terms.message);
    }
    forall j | 0 <= j < |f.blocks| ensures !Unrewritable(f.blocks, f.blocks[j].term) {
      assert order[j] == j && Transition(f.blocks[j].term, ids).Ok?;
      TransitionFatalExactly(f.blocks, ids, f.blocks[j].term);
    }
    return Ok(Changed(Flattened(order, x, y, ids, table, initial, terms.value)));
  }

  /** A function that was flattened had no terminator the pass cannot rewrite. */
  lemma FlattenedRewritesAll(f: CfgFunction, d: FunctionDraws, flat: Flattened)
    requires FlattenedFrom(f, d, flat)
    ensures forall j :: 0 <= j < |f.blocks| ==> !Unrewritable(f.blocks, f.blocks[j].term)
  {
    IdsForAllBlocks(f, flat.ids);
    forall j | 0 <= j < |f.blocks| ensures !Unrewritable(f.blocks, f.blocks[j].term) {
      assert flat.order[j] == j;
      TransitionFatalExactly(f.blocks, flat.ids, f.blocks[j].term);
    }
  }

  /**
   * The flattened function behaves like the original at every branch: the
   * initial state dispatches to the entry's own terminator, landing pads
   * have no dispatcher case, and every rewritten terminator leads where the
   * original one did.
   */
  lemma FlattenedPreservesSuccessors(f: CfgFunction, d: FunctionDraws, flat: Flattened, env: Env)
    requires FlattenedFrom(f, d, flat) && !f.blocks[0].isLandingPad
    ensures DispatchNext(flat.table, flat.initial) == Goto(0)
    ensures forall k :: 0 <= k < |flat.table| ==> !f.blocks[flat.table[k].block].isLandingPad
    ensures forall b :: 0 <= b < |f.blocks| ==>
      b in flat.terms && NextFlat(flat.terms[b], flat.table, env, flat.x, flat.y) == NextOrig(f.blocks[b].term, env)
  {
    DispatchTableCorrect(f.blocks, flat.order, flat.ids, flat.x, flat.y);
    assert 0 in flat.ids && flat.initial == Encode(flat.ids[0], flat.x, flat.y);
    forall b | 0 <= b < |f.blocks|
      ensures b in flat.terms && NextFlat(flat.terms[b], flat.table, env, flat.x, flat.y) == NextOrig(f.blocks[b].term, env)
    {
      FlattenedBlockAgrees(f, d, flat, env, b);
    }
  }

  /** The rewritten terminator of block `b` leads where the original one did. */
  lemma FlattenedBlockAgrees(f: CfgFunction, d: FunctionDraws, flat: Flattened, env: Env, b: nat)
    requires FlattenedFrom(f, d, flat) && b < |f.blocks|
    requires TableCorrect(flat.table, flat.ids, flat.x, flat.y)
    ensures b in flat.terms && NextFlat(flat.terms[b], flat.table, env, flat.x, flat.y) == NextOrig(f.blocks[b].term, env)
  {
    assert flat.order[b] == b;
    assert Transition(f.blocks[b].term, flat.ids) == Ok(flat.terms[b]);
    TransitionCorrect(f.blocks[b].term, flat.ids, flat.table, env, flat.x, flat.y);
  }

  /**
   * As written, an entry ending in an unconditional branch, or in a
   * conditional branch whose condition is not an instruction, is not split:
   * its terminator is erased and the dispatcher starts at the first non-entry
   * block in layout. In both functions below the entry goes to block 2
   * (unconditionally, or on a true argument), yet the as-written order puts
   * block 1 first, and the initial state dispatches to block 1.
   */
  lemma EntryNotSplitAsWritten(env: Env, ids: map<nat, bv32>, x: bv32, y: bv32)
    requires env.conds(OtherCond(0))
    ensures var f := CfgFunction([Block(false, Br(2)), Block(false, Ret), Block(false, Ret)]);
      && FlattenedOrderAsWritten(f) == [1, 2]
      && NextOrig(f.blocks[0].term, env) == Goto(2)
      && (IdsFor(f.blocks, [1, 2], ids) && DistinctIds(ids, x, y) ==>
            DispatchNext(DispatchTable(f.blocks, [1, 2], ids, x, y), Encode(IdOf(ids, 1), x, y)) == Goto(1))
    ensures var g := CfgFunction([Block(false, CondBr(OtherCond(0), 2, 1)), Block(false, Ret), Block(false, Ret)]);
      && FlattenedOrderAsWritten(g) == [1, 2]
      && NextOrig(g.blocks[0].term, env) == Goto(2)
  {
    var f := CfgFunction([Block(false, Br(2)), Block(false, Ret), Block(false, Ret)]);
    assert NonEntryBlocks(3) == [1, 2];
    if IdsFor(f.blocks, [1, 2], ids) && DistinctIds(ids, x, y) {
      assert 1 in ids;
      DispatchTableFinds(f.blocks, [1, 2], ids, x, y, 1);
    }
  }

  /** Whether any function changed. */
  function AnyChanged(outcomes: seq<Outcome>): (b: bool)
    ensures b <==> exists i :: 0 <= i < |outcomes| && outcomes[i].Changed?
  {
    if |outcomes| == 0 then false
    else
      var prefix := outcomes[..|outcomes| - 1];
      assert forall i :: 0 <= i < |prefix| ==> prefix[i] == outcomes[i];
      AnyChanged(prefix) || outcomes[|outcomes| - 1].Changed?
  }

  /**
   * What the loop of `run` records for one function that did not fail: the
   * outcome `RunOnFunction` gives, or `Unchanged` when the hook declines.
   */
  ghost predicate OutcomeFor(f: CfgFunction, selected: bool, d: FunctionDraws, o: Outcome)
  {
    && (o == Unchanged <==> !selected || !Flattenable(f))
    && (o.Changed? ==> selected && Flattenable(f) && FlattenedFrom(f, d, o.flat))
    && (o == OutOfDraws ==> selected && Flattenable(f) && !EnoughDraws(f, d))
    && (EnoughDraws(f, d) ==> !(selected && Flattenable(f) && HasUnrewritable(f)))
    && (selected && Flattenable(f) && EnoughDraws(f, d) && !HasUnrewritable(f) ==> o.Changed?)
  }

  /** `runOnFunction` stops the pass on this function: it is selected, large enough and not rewritable. */
  predicate FailsOn(f: CfgFunction, selected: bool)
  {
    selected && Flattenable(f) && HasUnrewritable(f)
  }

  /** The body of the loop of `run`: a function the hook selects goes through `runOnFunction`. */
  method RunSelected(f: CfgFunction, selected: bool, d: FunctionDraws) returns (r: Result<Outcome>)
    requires ValidDraws(d)
    ensures !selected ==> r == Ok(Unchanged)
    ensures r.Ok? && r.value.Changed? ==> selected && FlattenedFrom(f, d, r.value.flat)
    ensures r.Ok? ==> OutcomeFor(f, selected, d, r.value)
    ensures r.Fatal? ==> FailsOn(f, selected)
    ensures EnoughDraws(f, d) ==> (r.Fatal? <==> FailsOn(f, selected))
  {
    if !selected {
      return Ok(Unchanged);
    }
    r := RunOnFunction(f, d);
  }

  /**
   * `run`: only functions the user's hook selects are flattened; the result
   * tells whether any function changed. Each function gets its own draws.
   * The pass stops at the first function `runOnFunction` fails on, with the
   * outcomes of the functions before it; with enough draws, it fails exactly
   * when some selected, large enough function has a terminator it cannot rewrite.
   */
  method Run(fs: seq<CfgFunction>, hook: seq<bool>, draws: seq<FunctionDraws>)
    returns (r: Result<bool>, outcomes: seq<Outcome>)
    requires |hook| == |fs| && |draws| == |fs|
    requires forall i :: 0 <= i < |draws| ==> ValidDraws(draws[i])
    ensures r.Ok? ==> |outcomes| == |fs|
    ensures |outcomes| <= |fs|
    ensures forall i :: 0 <= i < |outcomes| && !hook[i] ==> outcomes[i] == Unchanged
    ensures forall i :: 0 <= i < |outcomes| && outcomes[i].Changed? ==> hook[i]
    ensures forall i :: 0 <= i < |outcomes| ==> OutcomeFor(fs[i], hook[i], draws[i], outcomes[i])
    ensures r.Fatal? ==> |outcomes| < |fs| && FailsOn(fs[|outcomes|], hook[|outcomes|])
    ensures (forall i :: 0 <= i < |fs| ==> EnoughDraws(fs[i], draws[i])) ==>
      (r.Fatal? <==> exists i :: 0 <= i < |fs| && FailsOn(fs[i], hook[i]))
    ensures r.Ok? ==> r.value == AnyChanged(outcomes)
  {
    var changed := false;
    outcomes := [];
    var i := 0;
    while i < |fs|
      invariant 0 <= i <= |fs| && |outcomes| == i
      invariant forall k :: 0 <= k < i ==> OutcomeFor(fs[k], hook[k], draws[k], outcomes[k])
      invariant changed == AnyChanged(outcomes)
    {
      var res := RunSelected(fs[i], hook[i], draws[i]);
      if res.Fatal? {
        return Fatal(res.message), outcomes;
      }
      var outcome := res.value;
      ghost var before := outcomes;
      outcomes := outcomes + [outcome];
      assert outcomes[..i] == before && outcomes[i] == outcome;
      changed := changed || outcome.Changed?;
      i := i + 1;
    }
    return Ok(changed), outcomes;
  }
}

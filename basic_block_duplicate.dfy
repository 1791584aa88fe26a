/**
 * Basic block duplication. Every block except the entry, exception-handling
 * blocks and blocks holding a `swifterror` alloca is picked with the user's
 * probability. A picked block is split after its phi nodes; the tail is
 * cloned, and the head now calls `__omvll_coinflip` and branches to the
 * clone when the coin says so and to the original tail otherwise. Either
 * way the same instructions run and control reaches the same successors.
 */
module BasicBlockDuplicate {
  import opened Wrappers
  import IR
  import Words
  import opened BlockSelection

  /** `BasicBlockDuplicateOpt`: skip, or duplicate with a probability in percent. */
  datatype DuplicateOpt = Skip | WithProbability(probability: nat)

  const CoinflipFunctionName: string := "__omvll_coinflip"
  const LRand48FunctionName: string := "lrand48"
  /** What calling the coinflip routine before it was emitted amounts to: a call through a null callee. */
  const NULL_COINFLIP: string := "call through a null coinflip callee"

  // ---------------------------------------------------------------------
  // The coinflip routine

  /** `__omvll_coinflip` for one value of `lrand48()`: `(x & 1) != 0`. */
  function Coinflip(x: nat): bool
  {
    Words.BitAnd(64, x, 1) != 0
  }

  /** The coin is the parity of the draw, so consecutive draws land on opposite sides. */
  lemma CoinflipIsLowBit(x: nat)
    ensures Coinflip(x) <==> x % 2 == 1
    ensures Coinflip(x + 1) == !Coinflip(x)
  {
    Words.AndOne(64, x);
    Words.AndOne(64, x + 1);
  }

  // ---------------------------------------------------------------------
  // Blocks

  /** What an instruction does: the coinflip call, or anything else. */
  datatype Op = CoinflipCall | Opaque(opcode: nat)

  /** An instruction: the value it defines, what it does and the values it reads. */
  datatype Inst = Inst(id: nat, op: Op, operands: seq<nat>)

  /** A phi node: the value it defines and its (predecessor block, value) entries. */
  datatype Phi = Phi(id: nat, incoming: seq<(nat, nat)>)

  /** A terminator: one of the function's own, or the branch on the coin. */
  datatype Term =
    | Exit(opcode: nat, operands: seq<nat>, succs: seq<nat>)
    | CoinBr(cond: nat, ifClone: nat, ifOriginal: nat)

  function Succs(t: Term): seq<nat>
  {
    match t
    case Exit(_, _, succs) => succs
    case CoinBr(_, ifClone, ifOriginal) => [ifClone, ifOriginal]
  }

  /**
   * A basic block: its leading phi nodes, the instructions up to the
   * terminator, the terminator, whether it is an exception-handling block
   * and whether it holds a `swifterror` alloca.
   */
  datatype Block = Block(phis: seq<Phi>, body: seq<Inst>, term: Term, isEH: bool, swiftErrorAlloca: bool)

  /** A function body: its blocks, block 0 being the entry, and the next unused value number. */
  datatype DupFunction = DupFunction(blocks: seq<Block>, nextId: nat)

  predicate DistinctIds(body: seq<Inst>)
  {
    forall i, j :: 0 <= i < j < |body| ==> body[i].id != body[j].id
  }

  /** Two blocks that differ at most in their phi nodes. */
  predicate SameButPhis(x: Block, y: Block)
  {
    x.body == y.body && x.term == y.term && x.isEH == y.isEH && x.swiftErrorAlloca == y.swiftErrorAlloca
  }

  // ---------------------------------------------------------------------
  // Selection

  /** The blocks `process` may pick: neither the entry, nor an EH block, nor one with a `swifterror` alloca. */
  predicate Eligible(blocks: seq<Block>, i: nat)
    requires i < |blocks|
  {
    i != 0 && !blocks[i].isEH && !blocks[i].swiftErrorAlloca
  }

  function EligibleFlags(blocks: seq<Block>): (e: seq<bool>)
    ensures |e| == |blocks|
    ensures forall i :: 0 <= i < |blocks| ==> e[i] == Eligible(blocks, i)
  {
    seq(|blocks|, i requires 0 <= i < |blocks| => Eligible(blocks, i))
  }

  /** `ToDup`: the blocks picked when the generator's stream is read from `start`. */
  function ToDup(blocks: seq<Block>, stream: Stream, start: nat, p: nat): seq<nat>
  {
    Picked(EligibleFlags(blocks), |blocks|, stream, start, p)
  }

  /**
   * The entry, EH and `swifterror` blocks are never picked; any other block
   * is picked exactly when its draw modulo 100 is below the probability.
   */
  lemma ToDupSelects(blocks: seq<Block>, stream: Stream, start: nat, p: nat)
    ensures forall i :: i in ToDup(blocks, stream, start, p) <==>
      0 <= i < |blocks| && Eligible(blocks, i) && Keep(stream(start + DrawsFor(EligibleFlags(blocks), i)), p)
    ensures 0 !in ToDup(blocks, stream, start, p)
  {
    PickedMembers(EligibleFlags(blocks), |blocks|, stream, start, p);
  }

  // ---------------------------------------------------------------------
  // Cloning

  /** `VMap.lookup`: the copy of `v` when `body` defines it, `v` itself otherwise. */
  function Remap(body: seq<Inst>, first: nat, v: nat): nat
  {
    if |body| == 0 then v
    else if body[0].id == v then first
    else Remap(body[1..], first + 1, v)
  }

  function RemapAll(body: seq<Inst>, first: nat, vs: seq<nat>): seq<nat>
  {
    seq(|vs|, j requires 0 <= j < |vs| => Remap(body, first, vs[j]))
  }

  /** `CloneBasicBlock` then `remapInstructionsInBlocks`: copies numbered from `first`, reading each other. */
  function Clone(body: seq<Inst>, first: nat): seq<Inst>
  {
    seq(|body|, k requires 0 <= k < |body| => Inst(first + k, body[k].op, RemapAll(body, first, body[k].operands)))
  }

  function CloneTerm(t: Term, body: seq<Inst>, first: nat): Term
  {
    match t
    case Exit(opcode, operands, succs) => Exit(opcode, RemapAll(body, first, operands), succs)
    case CoinBr(cond, ifClone, ifOriginal) => CoinBr(Remap(body, first, cond), ifClone, ifOriginal)
  }

  lemma {:induction false} RemapDefined(body: seq<Inst>, first: nat, k: nat)
    requires DistinctIds(body) && k < |body|
    ensures Remap(body, first, body[k].id) == first + k
  {
    if k > 0 {
      assert body[0].id != body[k].id;
      assert body[1..][k - 1] == body[k];
      RemapDefined(body[1..], first + 1, k - 1);
    }
  }

  lemma {:induction false} RemapOutside(body: seq<Inst>, first: nat, v: nat)
    requires forall k :: 0 <= k < |body| ==> body[k].id != v
    ensures Remap(body, first, v) == v
  {
    if |body| > 0 {
      assert forall k :: 0 <= k < |body[1..]| ==> body[1..][k] == body[k + 1];
      RemapOutside(body[1..], first + 1, v);
    }
  }

  /**
   * `copy` does what `body` does, step for step: the same operations, reading
   * the copy of a value `body` defines and the very value otherwise.
   */
  predicate RenamedCopy(body: seq<Inst>, copy: seq<Inst>)
  {
    |copy| == |body|
    && (forall k :: 0 <= k < |body| ==> copy[k].op == body[k].op && |copy[k].operands| == |body[k].operands|)
    && (forall k, j, m :: 0 <= k < |body| && 0 <= j < |body[k].operands| && 0 <= m < |body| && body[k].operands[j] == body[m].id ==>
          copy[k].operands[j] == copy[m].id)
    && (forall k, j :: 0 <= k < |body| && 0 <= j < |body[k].operands| && !Defined(body, body[k].operands[j]) ==>
          copy[k].operands[j] == body[k].operands[j])
  }

  predicate Defined(body: seq<Inst>, v: nat)
  {
    exists m :: 0 <= m < |body| && body[m].id == v
  }

  /** No value `copy` defines is one `body` defines. */
  predicate NewValues(body: seq<Inst>, copy: seq<Inst>)
  {
    forall k :: 0 <= k < |copy| ==> !Defined(body, copy[k].id)
  }

  /** The clone is a renamed copy whose values are new and pairwise distinct. */
  lemma CloneIsRenamedCopy(body: seq<Inst>, first: nat)
    requires DistinctIds(body)
    requires forall k :: 0 <= k < |body| ==> body[k].id < first
    ensures RenamedCopy(body, Clone(body, first))
    ensures DistinctIds(Clone(body, first))
    ensures forall k, m :: 0 <= k < |body| && 0 <= m < |body| ==> Clone(body, first)[k].id != body[m].id
  {
    var copy := Clone(body, first);
    forall k, j, m | 0 <= k < |body| && 0 <= j < |body[k].operands| && 0 <= m < |body| && body[k].operands[j] == body[m].id
      ensures copy[k].operands[j] == copy[m].id
    {
      RemapDefined(body, first, m);
    }
    forall k, j | 0 <= k < |body| && 0 <= j < |body[k].operands| && !Defined(body, body[k].operands[j])
      ensures copy[k].operands[j] == body[k].operands[j]
    {
      RemapOutside(body, first, body[k].operands[j]);
    }
  }

  // ---------------------------------------------------------------------
  // Phi nodes of the successors

  /** The first entry of a phi for block `q`: `getIncomingValueForBlock`. */
  function IncomingFor(incoming: seq<(nat, nat)>, q: nat): Option<nat>
  {
    if |incoming| == 0 then None
    else if incoming[0].0 == q then Some(incoming[0].1)
    else IncomingFor(incoming[1..], q)
  }

  /** `replaceIncomingBlockWith(from, to)`. */
  function Rename(incoming: seq<(nat, nat)>, from: nat, to: nat): seq<(nat, nat)>
  {
    if |incoming| == 0 then []
    else [if incoming[0].0 == from then (to, incoming[0].1) else incoming[0]] + Rename(incoming[1..], from, to)
  }

  function Repeat<T>(x: T, k: nat): seq<T>
  {
    if k == 0 then [] else [x] + Repeat(x, k - 1)
  }

  function Count(s: seq<nat>, x: nat): nat
  {
    if |s| == 0 then 0 else (if s[0] == x then 1 else 0) + Count(s[1..], x)
  }

  /**
   * One phi of a successor: the split makes the tail `oldBB` the predecessor
   * in place of `b`, then the clone `oldBB + 1` is added once per edge, with
   * the copy of the tail's value.
   */
  function FixPhi(phi: Phi, edges: nat, b: nat, oldBB: nat, body: seq<Inst>, first: nat): Phi
  {
    var renamed := Rename(phi.incoming, b, oldBB);
    match IncomingFor(renamed, oldBB)
    case None => Phi(phi.id, renamed)
    case Some(v) =>
      var entry: (nat, nat) := (oldBB + 1, Remap(body, first, v));
      Phi(phi.id, renamed + Repeat(entry, edges))
  }

  function FixPhis(blk: Block, edges: nat, b: nat, oldBB: nat, body: seq<Inst>, first: nat): Block
  {
    blk.(phis := seq(|blk.phis|, j requires 0 <= j < |blk.phis| => FixPhi(blk.phis[j], edges, b, oldBB, body, first)))
  }

  lemma {:induction false} IncomingForRename(incoming: seq<(nat, nat)>, from: nat, to: nat, q: nat)
    requires from != to && IncomingFor(incoming, to).None?
    ensures IncomingFor(Rename(incoming, from, to), to) == IncomingFor(incoming, from)
    ensures IncomingFor(Rename(incoming, from, to), from).None?
    ensures q != from && q != to ==> IncomingFor(Rename(incoming, from, to), q) == IncomingFor(incoming, q)
  {
    if |incoming| > 0 {
      IncomingForRename(incoming[1..], from, to, q);
    }
  }

  lemma {:induction false} IncomingForAppend(a: seq<(nat, nat)>, b: seq<(nat, nat)>, q: nat)
    ensures IncomingFor(a + b, q) == if IncomingFor(a, q).Some? then IncomingFor(a, q) else IncomingFor(b, q)
  {
    if |a| > 0 {
      assert (a + b)[0] == a[0];
      assert (a + b)[1..] == a[1..] + b;
      IncomingForAppend(a[1..], b, q);
    } else {
      assert a + b == b;
    }
  }

  lemma IncomingForRepeat(e: (nat, nat), k: nat, q: nat)
    ensures IncomingFor(Repeat(e, k), q) == if k > 0 && q == e.0 then Some(e.1) else None
  {
    if k > 0 {
      assert Repeat(e, k)[1..] == Repeat(e, k - 1);
    }
  }

  /**
   * After the rewrite a phi of a successor takes from the tail what it took
   * from `b`, takes the copy of that value from the clone, no longer names
   * `b`, and keeps every other predecessor's value.
   */
  lemma FixPhiEntries(phi: Phi, edges: nat, b: nat, oldBB: nat, body: seq<Inst>, first: nat)
    requires edges >= 1 && b < oldBB
    requires IncomingFor(phi.incoming, oldBB).None? && IncomingFor(phi.incoming, oldBB + 1).None?
    ensures FixPhi(phi, edges, b, oldBB, body, first).id == phi.id
    ensures IncomingFor(FixPhi(phi, edges, b, oldBB, body, first).incoming, b).None?
    ensures IncomingFor(FixPhi(phi, edges, b, oldBB, body, first).incoming, oldBB) == IncomingFor(phi.incoming, b)
    ensures IncomingFor(FixPhi(phi, edges, b, oldBB, body, first).incoming, oldBB + 1) ==
      if IncomingFor(phi.incoming, b).Some? then Some(Remap(body, first, IncomingFor(phi.incoming, b).value)) else None
    ensures forall q :: q != b && q != oldBB && q != oldBB + 1 ==>
      IncomingFor(FixPhi(phi, edges, b, oldBB, body, first).incoming, q) == IncomingFor(phi.incoming, q)
  {
    var renamed := Rename(phi.incoming, b, oldBB);
    forall q | true
      ensures IncomingFor(renamed, oldBB) == IncomingFor(phi.incoming, b)
      ensures IncomingFor(renamed, b).None?
      ensures q != b && q != oldBB ==> IncomingFor(renamed, q) == IncomingFor(phi.incoming, q)
    {
      IncomingForRename(phi.incoming, b, oldBB, q);
    }
    match IncomingFor(renamed, oldBB)
    case None =>
    case Some(v) =>
      var entry: (nat, nat) := (oldBB + 1, Remap(body, first, v));
      var added := Repeat(entry, edges);
      forall q | true
        ensures IncomingFor(renamed + added, q) == if IncomingFor(renamed, q).Some? then IncomingFor(renamed, q) else IncomingFor(added, q)
        ensures IncomingFor(added, q) == if q == oldBB + 1 then Some(Remap(body, first, v)) else None
      {
        IncomingForAppend(renamed, added, q);
        IncomingForRepeat(entry, edges, q);
      }
  }

  // ---------------------------------------------------------------------
  // Duplicating one block

  /** The successors' phi nodes fixed up, every other block left as it was. */
  function FixSuccessors(laid: seq<Block>, succs: seq<nat>, b: nat, oldBB: nat, body: seq<Inst>, first: nat): (r: seq<Block>)
    ensures |r| == |laid|
  {
    if |laid| == 0 then []
    else
      var k := |laid| - 1;
      FixSuccessors(laid[..k], succs, b, oldBB, body, first)
      + [if k in succs then FixPhis(laid[k], Count(succs, k), b, oldBB, body, first) else laid[k]]
  }

  /** Only the successors' phis change: every other block, and every body and terminator, stays. */
  lemma {:induction false} FixSuccessorsShape(laid: seq<Block>, succs: seq<nat>, b: nat, oldBB: nat, body: seq<Inst>, first: nat)
    ensures var r := FixSuccessors(laid, succs, b, oldBB, body, first);
      && (forall i :: 0 <= i < |laid| ==> SameButPhis(r[i], laid[i]) && |r[i].phis| == |laid[i].phis|)
      && (forall i :: 0 <= i < |laid| && i !in succs ==> r[i] == laid[i])
      && (forall i :: 0 <= i < |laid| && i in succs ==> r[i] == FixPhis(laid[i], Count(succs, i), b, oldBB, body, first))
  {
    if |laid| > 0 {
      var k := |laid| - 1;
      FixSuccessorsShape(laid[..k], succs, b, oldBB, body, first);
    }
  }

  /** The blocks after the split and the clone, before the phi fix-up: `b` becomes the coin head. */
  function Laid(f: DupFunction, b: nat): (laid: seq<Block>)
    requires b < |f.blocks|
    ensures |laid| == |f.blocks| + 2
  {
    var n := |f.blocks|;
    var blk := f.blocks[b];
    var cond := f.nextId;
    var head := Block(blk.phis, [Inst(cond, CoinflipCall, [])], CoinBr(cond, n + 1, n), false, false);
    var tail := Block([], blk.body, blk.term, blk.isEH, blk.swiftErrorAlloca);
    var clone := Block([], Clone(blk.body, cond + 1), CloneTerm(blk.term, blk.body, cond + 1), blk.isEH, blk.swiftErrorAlloca);
    f.blocks[b := head] + [tail, clone]
  }

  /** `b` becomes the coin head, the tail and the clone are appended, every other block stays. */
  lemma LaidShape(f: DupFunction, b: nat)
    requires b < |f.blocks|
    ensures var laid := Laid(f, b);
      && laid[b].body == [Inst(f.nextId, CoinflipCall, [])]
      && laid[b].term == CoinBr(f.nextId, |f.blocks| + 1, |f.blocks|)
      && laid[b].phis == f.blocks[b].phis
      && SameButPhis(laid[|f.blocks|], f.blocks[b].(phis := []))
      && laid[|f.blocks| + 1].body == Clone(f.blocks[b].body, f.nextId + 1)
      && Succs(laid[|f.blocks| + 1].term) == Succs(f.blocks[b].term)
      && forall i :: 0 <= i < |f.blocks| && i != b ==> laid[i] == f.blocks[i]
  {
  }

  /** What rewriting block `b` does to every block, from the two stages above. */
  lemma DuplicateBlockShape(f: DupFunction, b: nat)
    requires b < |f.blocks|
    ensures var laid := Laid(f, b); var r := DuplicateBlock(f, b); var succs := Succs(f.blocks[b].term);
      && r.blocks == FixSuccessors(laid, succs, b, |f.blocks|, f.blocks[b].body, f.nextId + 1)
      && (forall i :: 0 <= i < |laid| ==> SameButPhis(r.blocks[i], laid[i]) && |r.blocks[i].phis| == |laid[i].phis|)
      && (forall i :: 0 <= i < |laid| && i !in succs ==> r.blocks[i] == laid[i])
      && (forall i :: 0 <= i < |laid| && i in succs ==> r.blocks[i] == FixPhis(laid[i], Count(succs, i), b, |f.blocks|, f.blocks[b].body, f.nextId + 1))
  {
    LaidShape(f, b);
    FixSuccessorsShape(Laid(f, b), Succs(f.blocks[b].term), b, |f.blocks|, f.blocks[b].body, f.nextId + 1);
  }

  /**
   * The rewrite of block `b`: the tail (all but the phis) moves to a new
   * block `n`, its clone is block `n + 1`, and `b` keeps its phis, calls the
   * coinflip routine (value `nextId`) and branches on it. The successors'
   * phi nodes are fixed up as `FixPhi` says. Where the IR places the new
   * blocks is not modelled: they are appended.
   */
  function DuplicateBlock(f: DupFunction, b: nat): (r: DupFunction)
    requires b < |f.blocks|
    ensures |r.blocks| == |f.blocks| + 2
  {
    var blk := f.blocks[b];
    DupFunction(FixSuccessors(Laid(f, b), Succs(blk.term), b, |f.blocks|, blk.body, f.nextId + 1), f.nextId + 1 + |blk.body|)
  }

  /** Every phi entry of `f` names one of its blocks. */
  predicate PredsInRange(f: DupFunction)
  {
    forall i, j, e :: 0 <= i < |f.blocks| && 0 <= j < |f.blocks[i].phis| && 0 <= e < |f.blocks[i].phis[j].incoming| ==>
      f.blocks[i].phis[j].incoming[e].0 < |f.blocks|
  }

  /** The values block `b` defines are distinct and numbered below `nextId`. */
  predicate Numbered(f: DupFunction, b: nat)
    requires b < |f.blocks|
  {
    DistinctIds(f.blocks[b].body) && forall k :: 0 <= k < |f.blocks[b].body| ==> f.blocks[b].body[k].id < f.nextId
  }

  lemma {:induction false} CountPositive(s: seq<nat>, x: nat)
    requires x in s
    ensures Count(s, x) >= 1
  {
    if s[0] != x {
      CountPositive(s[1..], x);
    }
  }

  lemma {:induction false} InRangeNone(incoming: seq<(nat, nat)>, n: nat, q: nat)
    requires forall e :: 0 <= e < |incoming| ==> incoming[e].0 < n
    requires q >= n
    ensures IncomingFor(incoming, q).None?
  {
    if |incoming| > 0 {
      InRangeNone(incoming[1..], n, q);
    }
  }

  /**
   * The rewritten block branches on the coin, and when it lands on the
   * original side the very instructions and terminator of `b` run.
   */
  lemma OriginalArmRunsBlock(f: DupFunction, b: nat)
    requires b < |f.blocks|
    ensures var r := DuplicateBlock(f, b); var n := |f.blocks|;
      r.blocks[b].term == CoinBr(f.nextId, n + 1, n)
      && r.blocks[b].body == [Inst(f.nextId, CoinflipCall, [])]
      && r.blocks[n].body == f.blocks[b].body
      && r.blocks[n].term == f.blocks[b].term
  {
    LaidShape(f, b);
    DuplicateBlockShape(f, b);
  }

  /**
   * When the coin lands on the clone's side, a renamed copy of `b`'s
   * instructions runs, with values of its own, and control continues to
   * `b`'s successors.
   */
  lemma CloneArmRunsCopy(f: DupFunction, b: nat)
    requires b < |f.blocks| && Numbered(f, b)
    ensures var r := DuplicateBlock(f, b); var n := |f.blocks|;
      RenamedCopy(f.blocks[b].body, r.blocks[n + 1].body)
      && DistinctIds(r.blocks[n + 1].body)
      && NewValues(f.blocks[b].body, r.blocks[n + 1].body)
      && Succs(r.blocks[n + 1].term) == Succs(f.blocks[b].term)
  {
    var r := DuplicateBlock(f, b);
    var n := |f.blocks|;
    LaidShape(f, b);
    DuplicateBlockShape(f, b);
    CloneIsRenamedCopy(f.blocks[b].body, f.nextId + 1);
    assert r.blocks[n + 1].body == Clone(f.blocks[b].body, f.nextId + 1);
  }

  /**
   * In every successor of `b`, each phi takes from the tail the value it
   * took from `b`, from the clone that value's copy, and from every other
   * predecessor what it took before.
   */
  lemma DuplicatePhis(f: DupFunction, b: nat, s: nat, j: nat)
    requires b < |f.blocks| && PredsInRange(f)
    requires s < |f.blocks| && s in Succs(f.blocks[b].term) && j < |f.blocks[s].phis|
    ensures var r := DuplicateBlock(f, b); var n := |f.blocks|;
      var before := f.blocks[s].phis[j].incoming;
      |r.blocks[s].phis| == |f.blocks[s].phis|
      && r.blocks[s].phis[j].id == f.blocks[s].phis[j].id
      && IncomingFor(r.blocks[s].phis[j].incoming, b).None?
      && IncomingFor(r.blocks[s].phis[j].incoming, n) == IncomingFor(before, b)
      && (IncomingFor(before, b).Some? ==>
            IncomingFor(r.blocks[s].phis[j].incoming, n + 1) == Some(Remap(f.blocks[b].body, f.nextId + 1, IncomingFor(before, b).value)))
      && forall q :: q != b && q != n && q != n + 1 ==> IncomingFor(r.blocks[s].phis[j].incoming, q) == IncomingFor(before, q)
  {
    var n := |f.blocks|;
    var phi := f.blocks[s].phis[j];
    var succs := Succs(f.blocks[b].term);
    LaidShape(f, b);
    DuplicateBlockShape(f, b);
    CountPositive(succs, s);
    InRangeNone(phi.incoming, n, n);
    InRangeNone(phi.incoming, n, n + 1);
    FixPhiEntries(phi, Count(succs, s), b, n, f.blocks[b].body, f.nextId + 1);
  }

  // ---------------------------------------------------------------------
  // Duplicating the picked blocks

  /** The first `n` picked blocks rewritten one after the other, in order. */
  function DuplicateFirst(f: DupFunction, picked: seq<nat>, n: nat): (r: DupFunction)
    requires n <= |picked| && forall m :: 0 <= m < |picked| ==> picked[m] < |f.blocks|
    ensures |r.blocks| == |f.blocks| + 2 * n
  {
    if n == 0 then f
    else DuplicateBlock(DuplicateFirst(f, picked, n - 1), picked[n - 1])
  }

  /** All the picked blocks rewritten, in order. */
  function DuplicateAll(f: DupFunction, picked: seq<nat>): (r: DupFunction)
    requires forall m :: 0 <= m < |picked| ==> picked[m] < |f.blocks|
    ensures |r.blocks| == |f.blocks| + 2 * |picked|
  {
    DuplicateFirst(f, picked, |picked|)
  }

  /** A block that calls the coinflip routine and branches on it to `oldBB + 1` or `oldBB`. */
  predicate IsCoinHead(blk: Block, oldBB: nat)
  {
    blk.term.CoinBr? && blk.term.ifOriginal == oldBB && blk.term.ifClone == oldBB + 1
    && blk.body == [Inst(blk.term.cond, CoinflipCall, [])]
  }

  /**
   * `f` is `f0` with the blocks `picked` duplicated: the `m`-th picked block
   * branches on the coin to blocks `n + 2m` and `n + 2m + 1`, the first of
   * which runs its original instructions and terminator and the second
   * continues to its original successors; every block not picked differs
   * from before at most in its phi nodes.
   */
  ghost predicate DuplicatedAs(f0: DupFunction, picked: seq<nat>, f: DupFunction)
  {
    |f.blocks| == |f0.blocks| + 2 * |picked|
    && (forall m :: 0 <= m < |picked| ==> picked[m] < |f0.blocks|)
    && HeadsAt(f0, picked, f) && TailsAt(f0, picked, f) && ClonesAt(f0, picked, f) && OthersKept(f0, picked, f)
  }

  ghost predicate HeadsAt(f0: DupFunction, picked: seq<nat>, f: DupFunction)
  {
    forall m :: 0 <= m < |picked| && picked[m] < |f.blocks| ==> IsCoinHead(f.blocks[picked[m]], |f0.blocks| + 2 * m)
  }

  ghost predicate TailsAt(f0: DupFunction, picked: seq<nat>, f: DupFunction)
  {
    forall m :: 0 <= m < |picked| ==> TailAt(f0, f, m, picked[m])
  }

  /** Block `n + 2m` holds the instructions and terminator of the `m`-th picked block `b`. */
  ghost predicate TailAt(f0: DupFunction, f: DupFunction, m: nat, b: nat)
  {
    b < |f0.blocks| && |f0.blocks| + 2 * m < |f.blocks| ==>
      SameButPhis(f.blocks[|f0.blocks| + 2 * m], f0.blocks[b].(phis := []))
  }

  ghost predicate ClonesAt(f0: DupFunction, picked: seq<nat>, f: DupFunction)
  {
    forall m :: 0 <= m < |picked| ==> CloneAt(f0, f, m, picked[m])
  }

  /** Block `n + 2m + 1` continues to the successors of the `m`-th picked block `b`. */
  ghost predicate CloneAt(f0: DupFunction, f: DupFunction, m: nat, b: nat)
  {
    b < |f0.blocks| && |f0.blocks| + 2 * m + 1 < |f.blocks| ==>
      Succs(f.blocks[|f0.blocks| + 2 * m + 1].term) == Succs(f0.blocks[b].term)
  }

  ghost predicate OthersKept(f0: DupFunction, picked: seq<nat>, f: DupFunction)
  {
    forall i :: 0 <= i < |f0.blocks| && i < |f.blocks| && i !in picked ==> SameButPhis(f.blocks[i], f0.blocks[i])
  }

  /** What one rewrite does to the blocks, as `DuplicateAllShape` needs it. */
  ghost predicate StepShape(g: DupFunction, b: nat, r: DupFunction)
    requires b < |g.blocks|
  {
    |r.blocks| == |g.blocks| + 2
    && IsCoinHead(r.blocks[b], |g.blocks|)
    && SameButPhis(r.blocks[|g.blocks|], g.blocks[b].(phis := []))
    && Succs(r.blocks[|g.blocks| + 1].term) == Succs(g.blocks[b].term)
    && forall i :: 0 <= i < |g.blocks| && i != b ==> SameButPhis(r.blocks[i], g.blocks[i])
  }

  lemma DuplicateBlockStep(g: DupFunction, b: nat)
    requires b < |g.blocks|
    ensures StepShape(g, b, DuplicateBlock(g, b))
  {
    LaidShape(g, b);
    DuplicateBlockShape(g, b);
  }

  lemma HeadsStep(f0: DupFunction, picked: seq<nat>, prior: seq<nat>, b: nat, g: DupFunction, r: DupFunction)
    requires |picked| > 0 && prior == picked[..|picked| - 1] && b == picked[|picked| - 1]
    requires DuplicatedAs(f0, prior, g) && b < |f0.blocks| && b !in prior && StepShape(g, b, r)
    ensures HeadsAt(f0, picked, r)
  {
    forall m | 0 <= m < |prior|
      ensures IsCoinHead(r.blocks[picked[m]], |f0.blocks| + 2 * m)
    {
      assert picked[m] == prior[m] && prior[m] != b;
    }
  }

  lemma TailsStep(f0: DupFunction, picked: seq<nat>, prior: seq<nat>, b: nat, g: DupFunction, r: DupFunction)
    requires |picked| > 0 && prior == picked[..|picked| - 1] && b == picked[|picked| - 1]
    requires |g.blocks| == |f0.blocks| + 2 * |prior| && b < |f0.blocks|
    requires TailsAt(f0, prior, g) && SameButPhis(g.blocks[b], f0.blocks[b]) && StepShape(g, b, r)
    ensures TailsAt(f0, picked, r)
  {
    var n0 := |f0.blocks|;
    forall m | 0 <= m < |picked|
      ensures TailAt(f0, r, m, picked[m])
    {
      if m < |prior| {
        assert picked[m] == prior[m];
        assert TailAt(f0, g, m, prior[m]);
        assert SameButPhis(r.blocks[n0 + 2 * m], g.blocks[n0 + 2 * m]);
      } else {
        assert n0 + 2 * m == |g.blocks|;
      }
    }
  }

  lemma ClonesStep(f0: DupFunction, picked: seq<nat>, prior: seq<nat>, b: nat, g: DupFunction, r: DupFunction)
    requires |picked| > 0 && prior == picked[..|picked| - 1] && b == picked[|picked| - 1]
    requires |g.blocks| == |f0.blocks| + 2 * |prior| && b < |f0.blocks|
    requires ClonesAt(f0, prior, g) && SameButPhis(g.blocks[b], f0.blocks[b]) && StepShape(g, b, r)
    ensures ClonesAt(f0, picked, r)
  {
    var n0 := |f0.blocks|;
    forall m | 0 <= m < |picked|
      ensures CloneAt(f0, r, m, picked[m])
    {
      if m < |prior| {
        assert picked[m] == prior[m];
        assert CloneAt(f0, g, m, prior[m]);
        assert SameButPhis(r.blocks[n0 + 2 * m + 1], g.blocks[n0 + 2 * m + 1]);
      } else {
        assert n0 + 2 * m + 1 == |g.blocks| + 1;
      }
    }
  }

  lemma OthersStep(f0: DupFunction, picked: seq<nat>, prior: seq<nat>, b: nat, g: DupFunction, r: DupFunction)
    requires |picked| > 0 && prior == picked[..|picked| - 1] && b == picked[|picked| - 1]
    requires DuplicatedAs(f0, prior, g) && b < |f0.blocks| && b !in prior && StepShape(g, b, r)
    ensures OthersKept(f0, picked, r)
  {
    forall i | 0 <= i < |f0.blocks| && i !in picked
      ensures SameButPhis(r.blocks[i], f0.blocks[i])
    {
      assert i !in prior && i != b;
    }
  }

  /** Rewriting the picked blocks gives a function duplicated as `DuplicatedAs` says. */
  lemma DuplicateAllShape(f0: DupFunction, picked: seq<nat>)
    requires forall m :: 0 <= m < |picked| ==> picked[m] < |f0.blocks|
    requires Increasing(picked)
    ensures DuplicatedAs(f0, picked, DuplicateAll(f0, picked))
  {
    DuplicateFirstShape(f0, picked, |picked|);
    assert picked[..|picked|] == picked;
  }

  lemma {:induction false} DuplicateFirstShape(f0: DupFunction, picked: seq<nat>, n: nat)
    requires n <= |picked| && forall m :: 0 <= m < |picked| ==> picked[m] < |f0.blocks|
    requires Increasing(picked)
    ensures DuplicatedAs(f0, picked[..n], DuplicateFirst(f0, picked, n))
  {
    if n > 0 {
      var done := picked[..n];
      var prior := picked[..n - 1];
      var b := picked[n - 1];
      assert done[..n - 1] == prior && done[n - 1] == b;
      DuplicateFirstShape(f0, picked, n - 1);
      var g := DuplicateFirst(f0, picked, n - 1);
      DuplicateBlockStep(g, b);
      assert b !in prior by {
        forall m | 0 <= m < n - 1
          ensures prior[m] != b
        {
          assert prior[m] == picked[m];
        }
      }
      var r := DuplicateBlock(g, b);
      assert SameButPhis(g.blocks[b], f0.blocks[b]);
      HeadsStep(f0, done, prior, b, g, r);
      TailsStep(f0, done, prior, b, g, r);
      ClonesStep(f0, done, prior, b, g, r);
      OthersStep(f0, done, prior, b, g, r);
    }
  }

  /** The second loop of `process`: each picked block rewritten in turn. */
  method DuplicateEach(f: DupFunction, toDup: seq<nat>) returns (g: DupFunction)
    requires forall m :: 0 <= m < |toDup| ==> toDup[m] < |f.blocks|
    ensures g == DuplicateAll(f, toDup)
  {
    g := f;
    var j := 0;
    while j < |toDup|
      invariant j <= |toDup| && g == DuplicateFirst(f, toDup, j)
    {
      g := DuplicateBlock(g, toDup[j]);
      j := j + 1;
    }
  }

  // ---------------------------------------------------------------------
  // The pass

  /** A function of the module: what the filters read and its body. */
  datatype ModuleFunction = ModuleFunction(info: IR.Function, body: DupFunction)

  /** `run`'s filter: the option asks for duplication and the function is neither a coroutine nor excluded, a declaration, an intrinsic or one of the plugin's own helpers. */
  predicate Selected(opt: DuplicateOpt, f: IR.Function)
  {
    opt.WithProbability? && !f.isCoroutine && !f.globallyExcluded && !f.isDeclaration && !f.isIntrinsic
    && !IR.HasOmvllPrefix(f.name)
  }

  /** The draws `process` spends on a function: one per eligible block. */
  function BlockDraws(f: DupFunction): nat
  {
    DrawsFor(EligibleFlags(f.blocks), |f.blocks|)
  }

  /** The draws spent on the first `i` functions of the module. */
  function DrawsBefore(fs: seq<ModuleFunction>, opts: seq<DuplicateOpt>, i: nat): nat
    requires |opts| == |fs| && i <= |fs|
  {
    if i == 0 then 0
    else DrawsBefore(fs, opts, i - 1) + (if Selected(opts[i - 1], fs[i - 1].info) then BlockDraws(fs[i - 1].body) else 0)
  }

  /** What `process` makes of a function whose blocks are drawn for from `start`. */
  function Processed(f: DupFunction, stream: Stream, start: nat, p: nat): DupFunction
  {
    PickedIncreasing(EligibleFlags(f.blocks), |f.blocks|, stream, start, p);
    DuplicateAll(f, ToDup(f.blocks, stream, start, p))
  }

  /** One function after `run`: processed when selected, untouched otherwise. */
  function Outcome(stream: Stream, start: nat, opt: DuplicateOpt, f: ModuleFunction): ModuleFunction
  {
    if Selected(opt, f.info) then ModuleFunction(f.info, Processed(f.body, stream, start, opt.probability)) else f
  }

  /** `process` reports a change for this function: it is selected and some block is picked. */
  predicate Changes(stream: Stream, start: nat, opt: DuplicateOpt, f: ModuleFunction)
  {
    Selected(opt, f.info) && |ToDup(f.body.blocks, stream, start, opt.probability)| > 0
  }

  /** The first `n` functions after `run`. */
  function Outcomes(stream: Stream, fs: seq<ModuleFunction>, opts: seq<DuplicateOpt>, n: nat): (r: seq<ModuleFunction>)
    requires |opts| == |fs| && n <= |fs|
    ensures |r| == n
  {
    if n == 0 then [] else Outcomes(stream, fs, opts, n - 1) + [Outcome(stream, DrawsBefore(fs, opts, n - 1), opts[n - 1], fs[n - 1])]
  }

  /** Whether `process` reported a change for one of the first `n` functions. */
  predicate AnyChange(stream: Stream, fs: seq<ModuleFunction>, opts: seq<DuplicateOpt>, n: nat)
    requires |opts| == |fs| && n <= |fs|
  {
    n > 0 && (AnyChange(stream, fs, opts, n - 1) || Changes(stream, DrawsBefore(fs, opts, n - 1), opts[n - 1], fs[n - 1]))
  }

  /** The `i`-th function after `run` is its own outcome, drawn for after the selected functions before it. */
  lemma {:induction false} OutcomeAt(stream: Stream, fs: seq<ModuleFunction>, opts: seq<DuplicateOpt>, n: nat, i: nat)
    requires |opts| == |fs| && i < n <= |fs|
    ensures Outcomes(stream, fs, opts, n)[i] == Outcome(stream, DrawsBefore(fs, opts, i), opts[i], fs[i])
  {
    if i < n - 1 {
      OutcomeAt(stream, fs, opts, n - 1, i);
    }
  }

  /** The module changed exactly when `process` changed some function. */
  lemma {:induction false} AnyChangeSome(stream: Stream, fs: seq<ModuleFunction>, opts: seq<DuplicateOpt>, n: nat)
    requires |opts| == |fs| && n <= |fs|
    ensures AnyChange(stream, fs, opts, n) ==> exists i :: 0 <= i < n && Changes(stream, DrawsBefore(fs, opts, i), opts[i], fs[i])
    ensures (exists i :: 0 <= i < n && Changes(stream, DrawsBefore(fs, opts, i), opts[i], fs[i])) ==> AnyChange(stream, fs, opts, n)
  {
    if n > 0 {
      AnyChangeSome(stream, fs, opts, n - 1);
    }
  }

  /** Once a function has changed, the module has changed whatever follows. */
  lemma {:induction false} AnyChangeGrows(stream: Stream, fs: seq<ModuleFunction>, opts: seq<DuplicateOpt>, m: nat, n: nat)
    requires |opts| == |fs| && m <= n <= |fs|
    requires AnyChange(stream, fs, opts, m)
    ensures AnyChange(stream, fs, opts, n)
  {
    if m < n {
      AnyChangeGrows(stream, fs, opts, m, n - 1);
    }
  }

  /**
   * After `run` every function is its own outcome, the `i`-th drawn for
   * after the draws of the selected functions before it, and the module
   * changed exactly when some function did.
   */
  lemma OutcomesEach(stream: Stream, fs: seq<ModuleFunction>, opts: seq<DuplicateOpt>, n: nat)
    requires |opts| == |fs| && n <= |fs|
    ensures forall i :: 0 <= i < n ==> Outcomes(stream, fs, opts, n)[i] == Outcome(stream, DrawsBefore(fs, opts, i), opts[i], fs[i])
    ensures AnyChange(stream, fs, opts, n) <==> exists i :: 0 <= i < n && Changes(stream, DrawsBefore(fs, opts, i), opts[i], fs[i])
  {
    forall i | 0 <= i < n
      ensures Outcomes(stream, fs, opts, n)[i] == Outcome(stream, DrawsBefore(fs, opts, i), opts[i], fs[i])
    {
      OutcomeAt(stream, fs, opts, n, i);
    }
    AnyChangeSome(stream, fs, opts, n);
  }

  /**
   * What `process` leaves is the function with exactly the picked blocks
   * duplicated, and it reports a change exactly when one was picked.
   */
  lemma ProcessedShape(f: DupFunction, stream: Stream, start: nat, p: nat)
    ensures DuplicatedAs(f, ToDup(f.blocks, stream, start, p), Processed(f, stream, start, p))
    ensures |ToDup(f.blocks, stream, start, p)| == 0 ==> Processed(f, stream, start, p) == f
  {
    PickedIncreasing(EligibleFlags(f.blocks), |f.blocks|, stream, start, p);
    DuplicateAllShape(f, ToDup(f.blocks, stream, start, p));
  }

  /** The pass object: the module generator and whether the coinflip routine has been emitted. */
  class BasicBlockDuplicatePass {
    var rng: Generator?
    var coinflipCreated: bool

    constructor()
      ensures rng == null && !coinflipCreated
    {
      rng := null;
      coinflipCreated := false;
    }

    /** The first loop of `process`: one draw per eligible block, in layout order. */
    method CollectToDup(blocks: seq<Block>, p: nat) returns (toDup: seq<nat>)
      requires rng != null
      modifies rng
      ensures rng.drawn == old(rng.drawn) + DrawsFor(EligibleFlags(blocks), |blocks|)
      ensures toDup == ToDup(blocks, rng.stream, old(rng.drawn), p)
    {
      ghost var e := EligibleFlags(blocks);
      toDup := [];
      for i := 0 to |blocks|
        invariant rng.drawn == old(rng.drawn) + DrawsFor(e, i)
        invariant toDup == Picked(e, i, rng.stream, old(rng.drawn), p)
      {
        if i == 0 || blocks[i].isEH || blocks[i].swiftErrorAlloca {
          continue;
        }
        var x := rng.Draw();
        if Keep(x, p) {
          toDup := toDup + [i];
        }
      }
    }

    /**
     * `process`: picks the blocks, answers false when there is none, and
     * otherwise duplicates each picked block in turn. The branch of the first
     * duplicated block calls the coinflip routine; when this pass object never
     * emitted it the callee is null, and that call is a fatal error here.
     */
    method Process(f: DupFunction, p: nat) returns (r: Result<bool>, g: DupFunction)
      requires rng != null
      modifies rng
      ensures rng.drawn == old(rng.drawn) + BlockDraws(f)
      ensures r.Fatal? <==> |ToDup(f.blocks, rng.stream, old(rng.drawn), p)| > 0 && !coinflipCreated
      ensures r.Ok? ==> (r.value <==> |ToDup(f.blocks, rng.stream, old(rng.drawn), p)| > 0)
      ensures r.Ok? ==> g == Processed(f, rng.stream, old(rng.drawn), p)
    {
      var toDup := CollectToDup(f.blocks, p);
      PickedIncreasing(EligibleFlags(f.blocks), |f.blocks|, rng.stream, old(rng.drawn), p);
      if |toDup| == 0 {
        return Ok(false), f;
      }
      if !coinflipCreated {
        return Fatal(NULL_COINFLIP), f;
      }
      g := DuplicateEach(f, toDup);
      r := Ok(true);
    }

    /**
     * `run`: an excluded module is left alone. Otherwise the generator is
     * created, the coinflip routine is emitted when the module-wide option
     * asks for duplication, and every selected function is processed. Without
     * the routine, the first function that duplicates a block stops the run.
     */
    method Run(moduleExcluded: bool, moduleOpt: DuplicateOpt, stream: Stream, fs: seq<ModuleFunction>, opts: seq<DuplicateOpt>)
      returns (r: Result<bool>, out: seq<ModuleFunction>)
      requires |opts| == |fs|
      modifies this
      ensures moduleExcluded ==> r == Ok(false) && out == fs && rng == old(rng) && coinflipCreated == old(coinflipCreated)
      ensures !moduleExcluded ==> rng != null && fresh(rng) && rng.stream == stream
      ensures !moduleExcluded ==> coinflipCreated == (moduleOpt.WithProbability? || old(coinflipCreated))
      ensures r.Fatal? <==> !moduleExcluded && !coinflipCreated && AnyChange(stream, fs, opts, |fs|)
      ensures r.Ok? ==> |out| == |fs|
      ensures r.Ok? && !moduleExcluded ==> out == Outcomes(stream, fs, opts, |fs|) && rng.drawn == DrawsBefore(fs, opts, |fs|)
      ensures r.Ok? ==> (r.value <==> !moduleExcluded && AnyChange(stream, fs, opts, |fs|))
      ensures r.Fatal? ==> |out| < |fs| && out == Outcomes(stream, fs, opts, |out|)
      ensures r.Fatal? ==> !AnyChange(stream, fs, opts, |out|) && AnyChange(stream, fs, opts, |out| + 1)
    {
      if moduleExcluded {
        return Ok(false), fs;
      }
      var gen := new Generator(stream);
      rng := gen;
      if moduleOpt.WithProbability? {
        coinflipCreated := true;
      }
      var changed := false;
      out := [];
      for i := 0 to |fs|
        invariant rng == gen && gen.stream == stream && gen.drawn == DrawsBefore(fs, opts, i)
        invariant coinflipCreated == (moduleOpt.WithProbability? || old(coinflipCreated))
        invariant |out| == i
        invariant out == Outcomes(stream, fs, opts, i)
        invariant changed <==> AnyChange(stream, fs, opts, i)
        invariant !coinflipCreated ==> !changed
      {
        var f := fs[i];
        ghost var start := gen.drawn;
        var g := f;
        var c := false;
        if Selected(opts[i], f.info) {
          var res, body := Process(f.body, opts[i].probability);
          if res.Fatal? {
            assert Changes(stream, start, opts[i], f);
            AnyChangeGrows(stream, fs, opts, i + 1, |fs|);
            return Fatal(res.message), out;
          }
          c := res.value;
          g := ModuleFunction(f.info, body);
        }
        assert gen.drawn == start + (if Selected(opts[i], f.info) then BlockDraws(f.body) else 0);
        assert g == Outcome(stream, start, opts[i], f);
        assert c <==> Changes(stream, start, opts[i], f);
        assert DrawsBefore(fs, opts, i + 1) == start + (if Selected(opts[i], f.info) then BlockDraws(f.body) else 0);
        changed := changed || c;
        out := out + [g];
      }
      r := Ok(changed);
    }
  }
}

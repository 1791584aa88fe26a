/**
 * The indirect branch pass. The successors of a function's branches and
 * switches are put, shuffled, in a constant jump table; each branch or
 * switch is then replaced by an `indirectbr` through the table slot that
 * a chain of `select`s picks from its condition. The model gives every
 * terminator the block it jumps to for given condition values and shows
 * that the replacement jumps to the same block.
 */
module IndirectBranch {
  import opened Wrappers
  import opened Random
  import IR

  /** The slot a rewritten terminator loads: a constant index or a `select` between two slots. */
  datatype SlotExpr =
    | Slot(index: nat)
    /** `select(cond, a, b)` on the branch's own `i1` condition. */
    | SelectIf(cond: nat, ifTrue: SlotExpr, ifFalse: SlotExpr)
    /** `select(icmp eq cond, caseValue, a, b)` for one case of a switch. */
    | SelectEq(cond: nat, caseValue: nat, ifEqual: SlotExpr, otherwise: SlotExpr)

  datatype Case = Case(value: nat, dest: nat)

  /** Block terminators, successors given as block indices, conditions as value ids. */
  datatype Terminator =
    | Br(dest: nat)
    | CondBr(cond: nat, ifTrue: nat, ifFalse: nat)
    | Switch(cond: nat, default: nat, cases: seq<Case>)
    | IndirectBr(address: SlotExpr, dests: seq<nat>)
    | OtherTerm(succs: seq<nat>)

  /** A block: how many instructions it has, its terminator included, and the terminator. */
  datatype Block = Block(size: nat, term: Terminator)

  function CaseDests(cases: seq<Case>): (ds: seq<nat>)
    ensures |ds| == |cases|
  {
    seq(|cases|, i requires 0 <= i < |cases| => cases[i].dest)
  }

  /** `successors(BB)`, in LLVM's order: a switch lists its default first, then its cases. */
  function Successors(t: Terminator): seq<nat>
  {
    match t
    case Br(d) => [d]
    case CondBr(_, a, b) => [a, b]
    case Switch(_, d, cases) => [d] + CaseDests(cases)
    case IndirectBr(_, dests) => dests
    case OtherTerm(succs) => succs
  }

  predicate IsBranchOrSwitch(t: Terminator)
  {
    t.Br? || t.CondBr? || t.Switch?
  }

  /** The case values of a switch are pairwise different, as the IR verifier demands. */
  predicate DistinctCases(cases: seq<Case>)
  {
    forall i, j :: 0 <= i < j < |cases| ==> cases[i].value != cases[j].value
  }

  predicate BlockWellFormed(b: Block)
  {
    b.size >= 1 && (b.term.Switch? ==> DistinctCases(b.term.cases))
  }

  /** The run-time value of every condition. */
  type Env = nat -> nat

  /** The case a switch on `v` takes, or its default. */
  function SwitchTarget(cases: seq<Case>, v: nat, default: nat): (d: nat)
    ensures d == default || exists i :: 0 <= i < |cases| && cases[i].dest == d
    ensures (forall i :: 0 <= i < |cases| ==> cases[i].value != v) ==> d == default
  {
    if |cases| == 0 then default
    else if cases[0].value == v then cases[0].dest
    else SwitchTarget(cases[1..], v, default)
  }

  /** The block a branch or switch jumps to. */
  function BranchTarget(t: Terminator, env: Env): (d: nat)
    requires IsBranchOrSwitch(t)
    ensures d in Successors(t)
  {
    match t
    case Br(d) => d
    case CondBr(c, a, b) => if env(c) != 0 then a else b
    case Switch(c, d, cases) =>
      assert forall i :: 0 <= i < |cases| ==> Successors(t)[i + 1] == cases[i].dest;
      SwitchTarget(cases, env(c), d)
  }

  /** The slot a slot expression selects. */
  function EvalSlot(e: SlotExpr, env: Env): nat
  {
    match e
    case Slot(i) => i
    case SelectIf(c, a, b) => if env(c) != 0 then EvalSlot(a, env) else EvalSlot(b, env)
    case SelectEq(c, v, a, b) => if env(c) == v then EvalSlot(a, env) else EvalSlot(b, env)
  }

  /** The block any terminator jumps to, an `indirectbr` through the jump table. */
  function Target(t: Terminator, env: Env, table: seq<nat>): Option<nat>
  {
    if IsBranchOrSwitch(t) then Some(BranchTarget(t, env))
    else if t.IndirectBr? then
      var i := EvalSlot(t.address, env);
      if i < |table| then Some(table[i]) else None
    else None
  }

  // ---------------------------------------------------------------------
  // The jump table

  predicate Distinct(s: seq<nat>)
  {
    forall i, j :: 0 <= i < j < |s| ==> s[i] != s[j]
  }

  /** `SuccBlocks`: every successor of a branch or switch of the blocks. */
  function SuccessorSet(blocks: seq<Block>): set<nat>
  {
    if |blocks| == 0 then {}
    else
      var last := blocks[|blocks| - 1];
      SuccessorSet(blocks[..|blocks| - 1])
        + (if IsBranchOrSwitch(last.term) then set d | d in Successors(last.term) else {})
  }

  /** Every successor of a branch or switch is in `SuccBlocks`. */
  lemma {:induction false} SuccessorSetHas(blocks: seq<Block>, k: nat, d: nat)
    requires k < |blocks| && IsBranchOrSwitch(blocks[k].term) && d in Successors(blocks[k].term)
    ensures d in SuccessorSet(blocks)
  {
    if k < |blocks| - 1 {
      assert blocks[..|blocks| - 1][k] == blocks[k];
      SuccessorSetHas(blocks[..|blocks| - 1], k, d);
    }
  }

  /** Iterating over the set: each element once, in an order the model leaves open. */
  method Enumerate(s: set<nat>) returns (r: seq<nat>)
    ensures Distinct(r)
    ensures forall x :: x in r <==> x in s
  {
    r := [];
    var rest := s;
    while rest != {}
      invariant rest <= s
      invariant forall x :: x in r <==> x in s && x !in rest
      invariant Distinct(r)
      decreases |rest|
    {
      var b :| b in rest;
      r := r + [b];
      rest := rest - {b};
    }
  }

  /**
   * `std::shuffle`: from the front, each position is swapped with one drawn
   * at or before it; the draws come from the engine re-seeded for every
   * function.
   */
  method Shuffle(a: seq<nat>, engine: Rng) returns (r: seq<nat>)
    requires Uniform(engine)
    ensures multiset(r) == multiset(a)
    ensures Distinct(a) ==> Distinct(r)
  {
    r := a;
    var i := 1;
    while i < |r|
      invariant 1 <= i && |r| == |a|
      invariant multiset(r) == multiset(a)
      invariant Distinct(a) ==> Distinct(r)
    {
      var j := engine(i - 1, 0, i);
      r := Swap(r, i, j);
      i := i + 1;
    }
  }

  function Swap(s: seq<nat>, i: nat, j: nat): (r: seq<nat>)
    requires i < |s| && j < |s|
    ensures |r| == |s| && multiset(r) == multiset(s)
    ensures Distinct(s) ==> Distinct(r)
  {
    var r := s[i := s[j]][j := s[i]];
    assert forall k :: 0 <= k < |s| ==> r[k] == (if k == j then s[i] else if k == i then s[j] else s[k]);
    r
  }

  /** `BlockToIdx`: each block of the table mapped to its slot. */
  method IndexBlocks(table: seq<nat>) returns (idx: map<nat, nat>)
    requires Distinct(table)
    ensures forall b :: b in idx <==> b in table
    ensures forall j :: 0 <= j < |table| ==> idx[table[j]] == j
    ensures forall b :: b in idx ==> idx[b] < |table| && table[idx[b]] == b
  {
    idx := map[];
    for k := 0 to |table|
      invariant forall b :: b in idx <==> b in table[..k]
      invariant forall j :: 0 <= j < k ==> idx[table[j]] == j
    {
      idx := idx[table[k] := k];
    }
    assert table[..|table|] == table;
  }

  // ---------------------------------------------------------------------
  // Lowering one terminator

  /** The fold of the cases, in order, over the default's slot: later cases are selected over earlier ones. */
  function FoldCases(cond: nat, cases: seq<Case>, idx: map<nat, nat>, init: SlotExpr): SlotExpr
    requires forall i :: 0 <= i < |cases| ==> cases[i].dest in idx
  {
    if |cases| == 0 then init
    else
      var last := cases[|cases| - 1];
      SelectEq(cond, last.value, Slot(idx[last.dest]), FoldCases(cond, cases[..|cases| - 1], idx, init))
  }

  /** The first matching case of `pre + [last]`: one of `pre` if any matches, else `last` if it does. */
  lemma {:induction false} SwitchTargetSnoc(pre: seq<Case>, last: Case, v: nat, default: nat)
    ensures SwitchTarget(pre + [last], v, default) ==
            if exists i :: 0 <= i < |pre| && pre[i].value == v then SwitchTarget(pre, v, default)
            else if last.value == v then last.dest else default
  {
    if |pre| > 0 {
      assert (pre + [last])[1..] == pre[1..] + [last];
      SwitchTargetSnoc(pre[1..], last, v, default);
      if exists i :: 0 <= i < |pre[1..]| && pre[1..][i].value == v {
        var i :| 0 <= i < |pre[1..]| && pre[1..][i].value == v;
        assert pre[i + 1].value == v;
      }
      if exists i :: 0 <= i < |pre| && pre[i].value == v {
        var i :| 0 <= i < |pre| && pre[i].value == v;
        if i > 0 {
          assert pre[1..][i - 1].value == v;
        }
      }
    }
  }

  /** With distinct case values, the select chain picks the slot of the case the switch takes. */
  lemma {:induction false} FoldCasesSelects(cond: nat, cases: seq<Case>, idx: map<nat, nat>, default: nat, env: Env)
    requires DistinctCases(cases) && default in idx
    requires forall i :: 0 <= i < |cases| ==> cases[i].dest in idx
    ensures SwitchTarget(cases, env(cond), default) in idx
    ensures EvalSlot(FoldCases(cond, cases, idx, Slot(idx[default])), env) == idx[SwitchTarget(cases, env(cond), default)]
  {
    if |cases| > 0 {
      var n := |cases| - 1;
      var pre, last := cases[..n], cases[n];
      assert cases == pre + [last];
      FoldCasesSelects(cond, pre, idx, default, env);
      SwitchTargetSnoc(pre, last, env(cond), default);
      assert FoldCases(cond, cases, idx, Slot(idx[default]))
          == SelectEq(cond, last.value, Slot(idx[last.dest]), FoldCases(cond, pre, idx, Slot(idx[default])));
      if last.value == env(cond) {
        assert !exists i :: 0 <= i < |pre| && pre[i].value == env(cond) by {
          forall i | 0 <= i < |pre|
            ensures pre[i].value != env(cond)
          {
            assert cases[i] == pre[i];
          }
        }
      }
    }
  }

  /** A terminator's successors are all in `BlockToIdx`. */
  predicate Indexed(t: Terminator, idx: map<nat, nat>)
  {
    forall d :: d in Successors(t) ==> d in idx
  }

  /** The loop over a switch's cases: each one wraps the slot chosen so far in a `select`. */
  method LowerSwitch(cond: nat, default: nat, cases: seq<Case>, idx: map<nat, nat>) returns (loadFrom: SlotExpr)
    requires default in idx && forall i :: 0 <= i < |cases| ==> cases[i].dest in idx
    ensures loadFrom == FoldCases(cond, cases, idx, Slot(idx[default]))
  {
    loadFrom := Slot(idx[default]);
    for m := 0 to |cases|
      invariant loadFrom == FoldCases(cond, cases[..m], idx, Slot(idx[default]))
    {
      assert cases[..m + 1][..m] == cases[..m];
      loadFrom := SelectEq(cond, cases[m].value, Slot(idx[cases[m].dest]), loadFrom);
    }
    assert cases[..|cases|] == cases;
  }

  /**
   * The replacement of one branch or switch: an `indirectbr` through the
   * slot its `select` chain picks, with the original successors as
   * destinations.
   */
  method LowerTerminator(t: Terminator, idx: map<nat, nat>) returns (r: Terminator)
    requires IsBranchOrSwitch(t) && Indexed(t, idx)
    requires t.Switch? ==> DistinctCases(t.cases)
    ensures r.IndirectBr? && r.dests == Successors(t)
    ensures forall env: Env :: BranchTarget(t, env) in idx && EvalSlot(r.address, env) == idx[BranchTarget(t, env)]
  {
    match t
    case Br(d) =>
      r := IndirectBr(Slot(idx[d]), Successors(t));
    case CondBr(c, a, b) =>
      r := IndirectBr(SelectIf(c, Slot(idx[a]), Slot(idx[b])), Successors(t));
    case Switch(c, d, cases) =>
      assert forall i :: 0 <= i < |cases| ==> cases[i].dest == Successors(t)[i + 1];
      var loadFrom := LowerSwitch(c, d, cases, idx);
      r := IndirectBr(loadFrom, Successors(t));
      forall env: Env
        ensures BranchTarget(t, env) in idx && EvalSlot(r.address, env) == idx[BranchTarget(t, env)]
      {
        FoldCasesSelects(c, cases, idx, d, env);
      }
  }

  // ---------------------------------------------------------------------
  // The pass

  /** A terminator the replacement loop rewrites: a branch or switch that is not alone in its block. */
  predicate Replaceable(b: Block)
  {
    IsBranchOrSwitch(b.term) && b.size != 1
  }

  /** A rewritten block: same size, an `indirectbr` with the same successors that jumps where the original jumped. */
  ghost predicate LoweredFrom(b: Block, b': Block, table: seq<nat>)
  {
    b'.size == b.size && b'.term.IndirectBr? && Successors(b'.term) == Successors(b.term)
    && forall env: Env :: Target(b'.term, env, table) == Target(b.term, env, table)
  }

  /** The positions of the branches and switches: `TerminatorsToReplace`. */
  function Gathered(blocks: seq<Block>): (ps: seq<nat>)
    ensures forall j :: 0 <= j < |ps| ==> ps[j] < |blocks| && IsBranchOrSwitch(blocks[ps[j]].term)
    ensures forall j, m :: 0 <= j < m < |ps| ==> ps[j] < ps[m]
    ensures forall k :: 0 <= k < |blocks| && IsBranchOrSwitch(blocks[k].term) ==> k in ps
  {
    if |blocks| == 0 then []
    else
      var n := |blocks| - 1;
      var rest := Gathered(blocks[..n]);
      assert forall k :: 0 <= k < n ==> blocks[..n][k] == blocks[k];
      rest + (if IsBranchOrSwitch(blocks[n].term) then [n] else [])
  }

  /** `ps` lists, in increasing order, exactly the positions of the branches and switches. */
  predicate GatheredFrom(blocks: seq<Block>, ps: seq<nat>)
  {
    (forall j :: 0 <= j < |ps| ==> ps[j] < |blocks| && IsBranchOrSwitch(blocks[ps[j]].term))
    && (forall j, m :: 0 <= j < m < |ps| ==> ps[j] < ps[m])
    && (forall k :: 0 <= k < |blocks| && IsBranchOrSwitch(blocks[k].term) ==> k in ps)
  }

  /** What `process` leaves: the table, the rewritten blocks and the result. */
  ghost predicate ProcessedAs(blocks: seq<Block>, changed: bool, out: seq<Block>, table: Option<seq<nat>>)
  {
    |out| == |blocks|
    && (table.Some? <==> |Gathered(blocks)| > 0)
    && (table.Some? ==> Distinct(table.value) && forall b :: b in table.value <==> b in SuccessorSet(blocks))
    && (forall k :: 0 <= k < |blocks| && !Replaceable(blocks[k]) ==> out[k] == blocks[k])
    && (forall k :: 0 <= k < |blocks| && Replaceable(blocks[k]) ==> table.Some? && LoweredFrom(blocks[k], out[k], table.value))
    && (changed <==> exists k :: 0 <= k < |blocks| && Replaceable(blocks[k]))
  }

  /**
   * The loop over `TerminatorsToReplace`: a terminator alone in its block
   * is skipped, every other one is lowered, and `Replaced` counts them.
   */
  method ReplaceTerminators(blocks: seq<Block>, toReplace: seq<nat>, table: seq<nat>, idx: map<nat, nat>)
    returns (replaced: nat, out: seq<Block>)
    requires GatheredFrom(blocks, toReplace)
    requires forall k :: 0 <= k < |blocks| ==> BlockWellFormed(blocks[k])
    requires forall b :: b in SuccessorSet(blocks) ==> b in idx
    requires forall b :: b in idx ==> idx[b] < |table| && table[idx[b]] == b
    ensures |out| == |blocks|
    ensures forall k :: 0 <= k < |blocks| && !Replaceable(blocks[k]) ==> out[k] == blocks[k]
    ensures forall k :: 0 <= k < |blocks| && Replaceable(blocks[k]) ==> LoweredFrom(blocks[k], out[k], table)
    ensures replaced > 0 <==> exists k :: 0 <= k < |blocks| && Replaceable(blocks[k])
  {
    replaced := 0;
    out := blocks;
    for j := 0 to |toReplace|
      invariant |out| == |blocks|
      invariant forall k :: 0 <= k < |blocks| ==> Done(blocks, toReplace, table, j, k, out[k])
      invariant replaced > 0 <==> exists m :: 0 <= m < j && Replaceable(blocks[toReplace[m]])
    {
      var k := toReplace[j];
      if blocks[k].size != 1 {
        GatheredIndexed(blocks, k, idx);
        var t := LowerTerminator(blocks[k].term, idx);
        var b := Block(blocks[k].size, t);
        LoweredJumpsAlike(blocks[k], b, table, idx);
        var _, _ := DoneStep(blocks, toReplace, table, j, out, b);
        out := out[k := b];
        replaced := replaced + 1;
      } else {
        var _, _ := DoneStep(blocks, toReplace, table, j, out, out[k]);
      }
    }
    AllDone(blocks, toReplace, table, out);
  }

  /** Once every gathered terminator is done, each replaceable block is lowered and every other one untouched. */
  lemma AllDone(blocks: seq<Block>, toReplace: seq<nat>, table: seq<nat>, out: seq<Block>)
    requires GatheredFrom(blocks, toReplace) && |out| == |blocks|
    requires forall k :: 0 <= k < |blocks| ==> Done(blocks, toReplace, table, |toReplace|, k, out[k])
    ensures forall k :: 0 <= k < |blocks| && !Replaceable(blocks[k]) ==> out[k] == blocks[k]
    ensures forall k :: 0 <= k < |blocks| && Replaceable(blocks[k]) ==> LoweredFrom(blocks[k], out[k], table)
    ensures (exists m :: 0 <= m < |toReplace| && Replaceable(blocks[toReplace[m]]))
        <==> exists k :: 0 <= k < |blocks| && Replaceable(blocks[k])
  {
    assert toReplace[..|toReplace|] == toReplace;
    forall k | 0 <= k < |blocks| && Replaceable(blocks[k])
      ensures LoweredFrom(blocks[k], out[k], table)
    {
      assert Done(blocks, toReplace, table, |toReplace|, k, out[k]);
    }
    forall k | 0 <= k < |blocks| && !Replaceable(blocks[k])
      ensures out[k] == blocks[k]
    {
      assert Done(blocks, toReplace, table, |toReplace|, k, out[k]);
    }
    if exists k :: 0 <= k < |blocks| && Replaceable(blocks[k]) {
      var k :| 0 <= k < |blocks| && Replaceable(blocks[k]);
      var m :| 0 <= m < |toReplace| && toReplace[m] == k;
    }
  }

  /** The successors of a gathered terminator all have a slot. */
  lemma GatheredIndexed(blocks: seq<Block>, k: nat, idx: map<nat, nat>)
    requires k < |blocks| && IsBranchOrSwitch(blocks[k].term)
    requires forall b :: b in SuccessorSet(blocks) ==> b in idx
    ensures Indexed(blocks[k].term, idx)
  {
    forall d | d in Successors(blocks[k].term)
      ensures d in idx
    {
      SuccessorSetHas(blocks, k, d);
    }
  }

  /** An `indirectbr` whose slot is `BlockToIdx` of the original target jumps to that target. */
  lemma LoweredJumpsAlike(b: Block, b': Block, table: seq<nat>, idx: map<nat, nat>)
    requires IsBranchOrSwitch(b.term) && b'.size == b.size
    requires b'.term.IndirectBr? && b'.term.dests == Successors(b.term)
    requires forall env: Env :: BranchTarget(b.term, env) in idx && EvalSlot(b'.term.address, env) == idx[BranchTarget(b.term, env)]
    requires forall d :: d in idx ==> idx[d] < |table| && table[idx[d]] == d
    ensures LoweredFrom(b, b', table)
  {
    forall env: Env
      ensures Target(b'.term, env, table) == Target(b.term, env, table)
    {
      var d := BranchTarget(b.term, env);
      assert EvalSlot(b'.term.address, env) == idx[d];
    }
  }

  /** One more gathered terminator done: block `toReplace[j]` becomes `b`, the others keep their state. */
  lemma DoneStep(blocks: seq<Block>, toReplace: seq<nat>, table: seq<nat>, j: nat, out: seq<Block>, b: Block)
    returns (next: nat, out': seq<Block>)
    requires GatheredFrom(blocks, toReplace) && j < |toReplace| && |out| == |blocks|
    requires forall k :: 0 <= k < |blocks| ==> Done(blocks, toReplace, table, j, k, out[k])
    requires Replaceable(blocks[toReplace[j]]) ==> LoweredFrom(blocks[toReplace[j]], b, table)
    requires !Replaceable(blocks[toReplace[j]]) ==> b == out[toReplace[j]]
    ensures next == j + 1 && out' == out[toReplace[j] := b]
    ensures forall k :: 0 <= k < |blocks| ==> Done(blocks, toReplace, table, next, k, out'[k])
  {
    var kj := toReplace[j];
    next, out' := j + 1, out[kj := b];
    assert toReplace[..j + 1] == toReplace[..j] + [kj];
    assert kj !in toReplace[..j];
    forall k | 0 <= k < |blocks|
      ensures Done(blocks, toReplace, table, next, k, out'[k])
    {
      if k != kj {
        assert (k in toReplace[..j + 1]) == (k in toReplace[..j]);
      }
    }
  }

  /** Block `k` after the first `j` gathered terminators: lowered if among them and replaceable, else untouched. */
  ghost predicate Done(blocks: seq<Block>, toReplace: seq<nat>, table: seq<nat>, j: nat, k: nat, b: Block)
    requires k < |blocks| && j <= |toReplace|
  {
    if Replaceable(blocks[k]) && k in toReplace[..j] then LoweredFrom(blocks[k], b, table) else b == blocks[k]
  }

  /**
   * A branch alone in its block still gives the function a jump table, yet
   * `process` reports no change, since nothing was replaced.
   */
  lemma LoneBranchBuildsTable(changed: bool, out: seq<Block>, table: Option<seq<nat>>)
    requires ProcessedAs([Block(1, Br(0))], changed, out, table)
    ensures table.Some? && (forall b :: b in table.value <==> b == 0) && !changed && out == [Block(1, Br(0))]
  {
    var blocks := [Block(1, Br(0))];
    assert 0 in Gathered(blocks);
    assert blocks[..0] == [];
    assert SuccessorSet(blocks) == {0};
  }

  /** The user's answer for a function and the filters `run` applies. */
  predicate Selected(opt: Option<bool>, f: IR.Function)
  {
    opt == Some(true) && !f.isCoroutine && !f.globallyExcluded && !f.alwaysInline
    && !f.isDeclaration && !f.isIntrinsic && !IR.HasOmvllPrefix(f.name)
  }

  datatype BranchFunction = BranchFunction(info: IR.Function, blocks: seq<Block>)

  predicate FunctionWellFormed(f: BranchFunction)
  {
    forall k :: 0 <= k < |f.blocks| ==> BlockWellFormed(f.blocks[k])
  }

  /** The pass object: the engine seeded once per module with `Seed`. */
  class IndirectBranchPass {
    var engine: Rng

    constructor(engine: Rng)
      ensures this.engine == engine
    {
      this.engine := engine;
    }

    /**
     * `process`: gathers the branches and switches and their successors,
     * builds the shuffled jump table and the inverse index, then replaces
     * every gathered terminator that is not alone in its block.
     */
    method Process(blocks: seq<Block>) returns (changed: bool, out: seq<Block>, table: Option<seq<nat>>)
      requires Uniform(engine)
      requires forall k :: 0 <= k < |blocks| ==> BlockWellFormed(blocks[k])
      ensures ProcessedAs(blocks, changed, out, table)
    {
      var toReplace := Gathered(blocks);
      if |toReplace| == 0 {
        return false, blocks, None;
      }
      var shuffled, idx := BuildTable(blocks);
      var replaced;
      replaced, out := ReplaceTerminators(blocks, toReplace, shuffled, idx);
      changed := replaced > 0;
      table := Some(shuffled);
    }

    /** The jump table: `SuccBlocks` in set order, shuffled, and `BlockToIdx`. */
    method BuildTable(blocks: seq<Block>) returns (table: seq<nat>, idx: map<nat, nat>)
      requires Uniform(engine)
      ensures Distinct(table) && forall b :: b in table <==> b in SuccessorSet(blocks)
      ensures forall b :: b in idx <==> b in table
      ensures forall b :: b in idx ==> idx[b] < |table| && table[idx[b]] == b
    {
      var addrs := Enumerate(SuccessorSet(blocks));
      table := Shuffle(addrs, engine);
      assert forall b :: b in table <==> b in multiset(table);
      assert forall b :: b in addrs <==> b in multiset(addrs);
      idx := IndexBlocks(table);
    }

    /**
     * `run`: an excluded module is left alone; otherwise every selected
     * function is processed.
     */
    method Run(moduleExcluded: bool, engine: Rng, fs: seq<BranchFunction>, hooks: seq<Option<bool>>)
      returns (changed: bool, out: seq<BranchFunction>, tables: seq<Option<seq<nat>>>)
      requires |hooks| == |fs| && Uniform(engine)
      requires forall i :: 0 <= i < |fs| ==> FunctionWellFormed(fs[i])
      modifies this
      ensures moduleExcluded ==> !changed && out == fs
      ensures |out| == |fs| && |tables| == |fs|
      ensures forall i :: 0 <= i < |fs| ==> FunctionResult(moduleExcluded, hooks[i], fs[i], out[i], tables[i])
      ensures changed <==> exists i :: 0 <= i < |fs| && FunctionChanged(moduleExcluded, hooks[i], fs[i])
    {
      if moduleExcluded {
        return false, fs, seq(|fs|, i => None);
      }
      this.engine := engine;
      changed := false;
      out := [];
      tables := [];
      for i := 0 to |fs|
        invariant this.engine == engine
        invariant |out| == i && |tables| == i
        invariant forall m :: 0 <= m < i ==> FunctionResult(false, hooks[m], fs[m], out[m], tables[m])
        invariant changed <==> exists m :: 0 <= m < i && FunctionChanged(false, hooks[m], fs[m])
      {
        var g, tb, c := ProcessFunction(hooks[i], fs[i]);
        out := out + [g];
        tables := tables + [tb];
        changed := changed || c;
      }
    }

    /** One function of the `run` loop: processed when selected, left alone otherwise. */
    method ProcessFunction(hook: Option<bool>, f: BranchFunction) returns (g: BranchFunction, table: Option<seq<nat>>, changed: bool)
      requires Uniform(engine) && FunctionWellFormed(f)
      ensures FunctionResult(false, hook, f, g, table)
      ensures changed <==> FunctionChanged(false, hook, f)
    {
      if !Selected(hook, f.info) {
        return f, None, false;
      }
      var blocks;
      changed, blocks, table := Process(f.blocks);
      g := BranchFunction(f.info, blocks);
    }
  }

  /** `process` reports a change for a selected function with a replaceable terminator. */
  predicate FunctionChanged(moduleExcluded: bool, hook: Option<bool>, f: BranchFunction)
  {
    !moduleExcluded && Selected(hook, f.info) && exists k :: 0 <= k < |f.blocks| && Replaceable(f.blocks[k])
  }

  /** One function after `run`: unchanged unless selected, processed otherwise. */
  ghost predicate FunctionResult(moduleExcluded: bool, hook: Option<bool>, f: BranchFunction, g: BranchFunction, table: Option<seq<nat>>)
  {
    g.info == f.info
    && (moduleExcluded || !Selected(hook, f.info) ==> g == f && table.None?)
    && (!moduleExcluded && Selected(hook, f.info) ==>
          ProcessedAs(f.blocks, FunctionChanged(moduleExcluded, hook, f), g.blocks, table))
  }
}

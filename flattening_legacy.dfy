/**
 * The older control-flow flattening pass
 * (src/passes/flattening/ControlFlowFlattening.cpp). It shares the state
 * encoding, the terminator rewrite and the dispatcher of `CfgFlattening`
 * but numbers every non-entry block, landing pads included, consults the
 * user's hook itself, and refuses functions whose entry ends in an invoke.
 */
module FlatteningLegacy {
  import opened Wrappers
  import opened CfgFlattening

  /** The IDs cover exactly the flattened blocks. */
  ghost predicate LegacyIdsFor(order: seq<nat>, ids: map<nat, bv32>)
  {
    forall b :: b in ids <==> b in order
  }

  /**
   * The ID loop: every flattened block draws IDs until neither the ID nor
   * its encoding is in `SwitchRnd`; running out of draws returns None.
   */
  method LegacyAssignIds(order: seq<nat>, x: bv32, y: bv32, draws: seq<bv32>)
    returns (r: Option<map<nat, bv32>>, used: nat)
    requires forall k :: 0 <= k < |draws| ==> draws[k] >= 10
    ensures used <= |draws|
    ensures r.None? ==> used == |draws|
    ensures r.Some? ==> LegacyIdsFor(order, r.value) && DistinctIds(r.value, x, y)
    ensures r.Some? ==> forall b :: b in r.value ==> r.value[b] >= 10
    ensures FreshDraws(draws, EncodeWith(x, y)) && |draws| >= |order| ==> r.Some?
  {
    ghost var noClash := FreshDraws(draws, EncodeWith(x, y)) && |draws| >= |order|;
    var ids: map<nat, bv32> := map[];
    var switchRnd: set<bv32> := {};
    used := 0;
    var i := 0;
    while i < |order|
      invariant 0 <= i <= |order| && used <= |draws|
      invariant LegacyIdsFor(order[..i], ids)
      invariant Recorded(ids, switchRnd, EncodeWith(x, y))
      invariant forall b :: b in ids ==> ids[b] >= 10
      invariant DistinctIds(ids, x, y)
      invariant noClash ==> used == i && DrawnSoFar(switchRnd, draws, used, x, y)
    {
      var b := order[i];
      assert order[..i + 1] == order[..i] + [b];
      var next;
      next, used := DrawId(switchRnd, draws, used, x, y);
      if next.None? {
        return None, used;
      }
      ids, switchRnd := RecordId(ids, switchRnd, b, next.value, x, y);
      i := i + 1;
    }
    assert order[..|order|] == order;
    return Some(ids), used;
  }

  /** The dispatcher's cases: one per flattened block, in order. */
  function LegacyDispatchTable(order: seq<nat>, ids: map<nat, bv32>, x: bv32, y: bv32): (t: seq<DispatchCase>)
    requires forall j :: 0 <= j < |order| ==> order[j] in ids
    ensures |t| == |order|
    ensures forall k :: 0 <= k < |t| ==> t[k].block == order[k] && t[k].value == Encode(ids[order[k]], x, y)
  {
    seq(|order|, k requires 0 <= k < |order| => DispatchCase(Encode(ids[order[k]], x, y), order[k]))
  }

  /** The loop that adds one dispatcher case per flattened block. */
  method BuildLegacyDispatchTable(order: seq<nat>, ids: map<nat, bv32>, x: bv32, y: bv32)
    returns (table: seq<DispatchCase>)
    requires forall j :: 0 <= j < |order| ==> order[j] in ids
    ensures table == LegacyDispatchTable(order, ids, x, y)
  {
    table := [];
    var i := 0;
    while i < |order|
      invariant 0 <= i <= |order| && |table| == i
      invariant forall k :: 0 <= k < i ==> table[k] == DispatchCase(Encode(ids[order[k]], x, y), order[k])
    {
      var switchId := Encode(ids[order[i]], x, y);
      table := table + [DispatchCase(switchId, order[i])];
      i := i + 1;
    }
  }

  /** With distinct IDs, the dispatcher sends every block's encoded ID to that block. */
  lemma LegacyDispatchTableFinds(order: seq<nat>, ids: map<nat, bv32>, x: bv32, y: bv32, b: nat)
    requires LegacyIdsFor(order, ids) && DistinctIds(ids, x, y)
    requires b in ids
    ensures Dispatch(LegacyDispatchTable(order, ids, x, y), Encode(ids[b], x, y)) == Some(b)
  {
    var t := LegacyDispatchTable(order, ids, x, y);
    var j :| 0 <= j < |order| && order[j] == b;
    assert t[j].value == Encode(ids[b], x, y);
    var r := Dispatch(t, Encode(ids[b], x, y));
    assert r.Some?;
    var k :| 0 <= k < |t| && t[k].value == Encode(ids[b], x, y) && t[k].block == r.value;
    assert t[k] == DispatchCase(Encode(ids[order[k]], x, y), order[k]);
    assert r.value in ids;
    EncodedIdsDistinct(ids, x, y, r.value, b);
  }

  /**
   * Whether the entry is split, as written: only before the condition of a
   * conditional branch on an instruction, or before a switch.
   */
  predicate LegacyEntrySplitAsWritten(t: Terminator)
  {
    (t.CondBr? && t.cond.InstCond?) || t.Switch?
  }

  /** `flattedBB` as written. */
  function LegacyOrderAsWritten(f: CfgFunction): seq<nat>
    requires |f.blocks| >= 1
  {
    var rest := NonEntryBlocks(|f.blocks|);
    if LegacyEntrySplitAsWritten(f.blocks[0].term) then [0] + rest else rest
  }

  /** `flattedBB` with the entry always split before its terminator. */
  function LegacyOrder(f: CfgFunction): (order: seq<nat>)
    requires |f.blocks| >= 1
    ensures |order| == |f.blocks| && forall j :: 0 <= j < |order| ==> order[j] == j
  {
    FlattenedOrder(f)
  }

  /** A terminator the older pass cannot flatten: not a branch, or a target outside the function. */
  predicate LegacyUnrewritable(blocks: seq<Block>, t: Terminator)
  {
    || t.OtherTerm?
    || exists k :: 0 <= k < |Successors(t)| && Successors(t)[k] >= |blocks|
  }

  /** With IDs for all blocks, the rewrite fails exactly on the unflattenable terminators. */
  lemma LegacyTransitionFatalExactly(blocks: seq<Block>, ids: map<nat, bv32>, t: Terminator)
    requires forall b: nat :: b in ids <==> b < |blocks|
    ensures Transition(t, ids).Fatal? <==> LegacyUnrewritable(blocks, t)
  {
    var succ := Successors(t);
    if t.Br? {
      assert succ == [t.target];
    } else if t.CondBr? {
      assert succ == [t.ifTrue, t.ifFalse];
      if t.ifTrue >= |blocks| {
        assert succ[0] >= |blocks|;
      } else if t.ifFalse >= |blocks| {
        assert succ[1] >= |blocks|;
      }
    } else if t.Switch? {
      assert forall k :: 0 <= k < |t.cases| ==> succ[k] == t.cases[k].target;
      if Transition(t, ids).Fatal? {
        var k :| 0 <= k < |t.cases| && t.cases[k].target !in ids;
        assert succ[k] >= |blocks|;
      }
      if LegacyUnrewritable(blocks, t) {
        var k :| 0 <= k < |succ| && succ[k] >= |blocks|;
        assert t.cases[k].target !in ids;
      }
    }
  }

  lemma LegacyIdsForAllBlocks(f: CfgFunction, ids: map<nat, bv32>)
    requires |f.blocks| >= 1 && LegacyIdsFor(LegacyOrder(f), ids)
    ensures forall b: nat :: b in ids <==> b < |f.blocks|
  {
    var order := LegacyOrder(f);
    forall b: nat ensures b in ids <==> b < |f.blocks| {
      if b < |f.blocks| {
        assert order[b] == b;
      }
    }
  }

  /** What a flattening of `f` by the older pass with draws `d` consists of. */
  ghost predicate LegacyFlattenedFrom(f: CfgFunction, d: FunctionDraws, flat: Flattened)
  {
    && |f.blocks| >= 1
    && flat.order == LegacyOrder(f) && flat.x == d.x && flat.y == d.y
    && LegacyIdsFor(flat.order, flat.ids) && DistinctIds(flat.ids, flat.x, flat.y)
    && (forall b :: b in flat.ids ==> flat.ids[b] >= 10)
    && flat.table == LegacyDispatchTable(flat.order, flat.ids, flat.x, flat.y)
    && flat.initial == Encode(flat.ids[flat.order[0]], flat.x, flat.y)
    && (forall j :: 0 <= j < |flat.order| ==>
          flat.order[j] in flat.terms
          && Transition(f.blocks[flat.order[j]].term, flat.ids) == Ok(flat.terms[flat.order[j]]))
  }

  /** The older `runOnFunction` goes past its early returns: selected, more than two blocks, no invoke at the entry. */
  predicate LegacyFlattenable(f: CfgFunction, hook: bool)
  {
    hook && |f.blocks| > 2 && !f.blocks[0].term.Invoke?
  }

  /** Some block ends in a terminator the older pass cannot rewrite. */
  predicate LegacyHasUnrewritable(f: CfgFunction)
  {
    exists j :: 0 <= j < |f.blocks| && LegacyUnrewritable(f.blocks, f.blocks[j].term)
  }

  /**
   * `runOnFunction` of the older pass: a function without instructions, one
   * the hook declines, one with at most one non-entry block, or one whose
   * entry ends in an invoke is unchanged; otherwise every non-entry block
   * (and the split entry) is flattened, and the first terminator that cannot
   * be rewritten is fatal.
   */
  method LegacyRunOnFunction(f: CfgFunction, hook: bool, d: FunctionDraws) returns (r: Result<Outcome>)
    requires ValidDraws(d)
    ensures |f.blocks| == 0 || !hook || |f.blocks| <= 2 ==> r == Ok(Unchanged)
    ensures |f.blocks| >= 1 && f.blocks[0].term.Invoke? ==> r == Ok(Unchanged)
    ensures r == Ok(Unchanged) <==> !LegacyFlattenable(f, hook)
    ensures r.Ok? && r.value.Changed? ==> LegacyFlattenable(f, hook) && LegacyFlattenedFrom(f, d, r.value.flat)
    ensures r.Fatal? ==> LegacyFlattenable(f, hook) && LegacyHasUnrewritable(f)
    ensures r == Ok(OutOfDraws) ==> LegacyFlattenable(f, hook) && !EnoughDraws(f, d)
    ensures EnoughDraws(f, d) ==> (r.Fatal? <==> LegacyFlattenable(f, hook) && LegacyHasUnrewritable(f))
    ensures LegacyFlattenable(f, hook) && EnoughDraws(f, d) && !LegacyHasUnrewritable(f)
      ==> r.Ok? && r.value.Changed?
    ensures r.Ok? ==> LegacyOutcomeFor(f, hook, d, r.value)
    ensures r.Fatal? ==> LegacyFailsOn(f, hook)
  {
    if |f.blocks| == 0 {
      return Ok(Unchanged);
    }
    if !hook {
      return Ok(Unchanged);
    }
    var x, y := d.x, d.y;
    var rest := NonEntryBlocks(|f.blocks|);
    if |rest| <= 1 {
      return Ok(Unchanged);
    }
    if f.blocks[0].term.Invoke? {
      return Ok(Unchanged);
    }
    var order := LegacyOrder(f);
    var idsOpt, _ := LegacyAssignIds(order, x, y, d.ids);
    if idsOpt.None? {
      return Ok(OutOfDraws);
    }
    var ids := idsOpt.value;
    assert forall j :: 0 <= j < |order| ==> order[j] in ids;
    LegacyIdsForAllBlocks(f, ids);
    var table := BuildLegacyDispatchTable(order, ids, x, y);
    var initial := Encode(ids[order[0]], x, y);
    var terms := RewriteTerminators(f.blocks, order, ids);
    if terms.Fatal? {
      var j :| 0 <= j < |order| && Transition(f.blocks[order[j]].term, ids).Fatal?;
      LegacyTransitionFatalExactly(f.blocks, ids, f.blocks[order[j]].term);
      return Fatal(terms.message);
    }
    forall j | 0 <= j < |f.blocks| ensures !LegacyUnrewritable(f.blocks, f.blocks[j].term) {
      assert order[j] == j && Transition(f.blocks[j].term, ids).Ok?;
      LegacyTransitionFatalExactly(f.blocks, ids, f.blocks[j].term);
    }
    return Ok(Changed(Flattened(order, x, y, ids, table, initial, terms.value)));
  }

  /**
   * The older pass's flattened function behaves like the original at every
   * branch: the initial state dispatches to the entry's own terminator and
   * every rewritten terminator leads where the original one did.
   */
  lemma LegacyFlattenedPreservesSuccessors(f: CfgFunction, d: FunctionDraws, flat: Flattened, env: Env)
    requires LegacyFlattenedFrom(f, d, flat)
    ensures DispatchNext(flat.table, flat.initial) == Goto(0)
    ensures forall b :: 0 <= b < |f.blocks| ==>
      b in flat.terms && NextFlat(flat.terms[b], flat.table, env, flat.x, flat.y) == NextOrig(f.blocks[b].term, env)
  {
    forall b | b in flat.ids ensures Dispatch(flat.table, Encode(flat.ids[b], flat.x, flat.y)) == Some(b) {
      LegacyDispatchTableFinds(flat.order, flat.ids, flat.x, flat.y, b);
    }
    forall b | 0 <= b < |f.blocks|
      ensures b in flat.terms && NextFlat(flat.terms[b], flat.table, env, flat.x, flat.y) == NextOrig(f.blocks[b].term, env)
    {
      assert flat.order[b] == b;
      TransitionCorrect(f.blocks[b].term, flat.ids, flat.table, env, flat.x, flat.y);
    }
  }

  /**
   * As written, an entry ending in an unconditional branch is not split:
   * the branch is erased and the dispatcher starts at the first non-entry
   * block in layout, here block 1, although the entry branches to block 2.
   */
  lemma LegacyEntryNotSplitAsWritten(env: Env, ids: map<nat, bv32>, x: bv32, y: bv32)
    ensures var f := CfgFunction([Block(false, Br(2)), Block(false, Ret), Block(false, Ret)]);
      && LegacyOrderAsWritten(f) == [1, 2]
      && NextOrig(f.blocks[0].term, env) == Goto(2)
      && (LegacyIdsFor([1, 2], ids) && DistinctIds(ids, x, y) ==>
            DispatchNext(LegacyDispatchTable([1, 2], ids, x, y), Encode(ids[1], x, y)) == Goto(1))
  {
    assert NonEntryBlocks(3) == [1, 2];
    if LegacyIdsFor([1, 2], ids) && DistinctIds(ids, x, y) {
      assert 1 in ids;
      LegacyDispatchTableFinds([1, 2], ids, x, y, 1);
    }
  }

  /** What the loop of the older `run` records for one function that did not fail. */
  ghost predicate LegacyOutcomeFor(f: CfgFunction, hook: bool, d: FunctionDraws, o: Outcome)
  {
    && (o == Unchanged <==> !LegacyFlattenable(f, hook))
    && (o.Changed? ==> LegacyFlattenable(f, hook) && LegacyFlattenedFrom(f, d, o.flat))
    && (o == OutOfDraws ==> LegacyFlattenable(f, hook) && !EnoughDraws(f, d))
    && (EnoughDraws(f, d) ==> !(LegacyFlattenable(f, hook) && LegacyHasUnrewritable(f)))
    && (LegacyFlattenable(f, hook) && EnoughDraws(f, d) && !LegacyHasUnrewritable(f) ==> o.Changed?)
  }

  /** The older `runOnFunction` stops the pass on this function. */
  predicate LegacyFailsOn(f: CfgFunction, hook: bool)
  {
    LegacyFlattenable(f, hook) && LegacyHasUnrewritable(f)
  }

  /** The body of the loop of the older `run`: one `runOnFunction` call, stated by its outcome. */
  method LegacyRunStep(f: CfgFunction, hook: bool, d: FunctionDraws) returns (r: Result<Outcome>)
    requires ValidDraws(d)
    ensures r.Ok? ==> LegacyOutcomeFor(f, hook, d, r.value)
    ensures r.Fatal? ==> LegacyFailsOn(f, hook)
    ensures EnoughDraws(f, d) ==> (r.Fatal? <==> LegacyFailsOn(f, hook))
  {
    r := LegacyRunOnFunction(f, hook, d);
  }

  /**
   * `run`: every function goes through `runOnFunction`; the result tells
   * whether any changed. The pass stops at the first function that fails,
   * with the outcomes of the functions before it; with enough draws, it
   * fails exactly when some flattenable function cannot be rewritten.
   */
  method LegacyRun(fs: seq<CfgFunction>, hook: seq<bool>, draws: seq<FunctionDraws>)
    returns (r: Result<bool>, outcomes: seq<Outcome>)
    requires |hook| == |fs| && |draws| == |fs|
    requires forall i :: 0 <= i < |draws| ==> ValidDraws(draws[i])
    ensures r.Ok? ==> |outcomes| == |fs|
    ensures |outcomes| <= |fs|
    ensures forall i :: 0 <= i < |outcomes| && outcomes[i].Changed? ==> hook[i]
    ensures forall i :: 0 <= i < |outcomes| ==> LegacyOutcomeFor(fs[i], hook[i], draws[i], outcomes[i])
    ensures r.Fatal? ==> |outcomes| < |fs| && LegacyFailsOn(fs[|outcomes|], hook[|outcomes|])
    ensures (forall i :: 0 <= i < |fs| ==> EnoughDraws(fs[i], draws[i])) ==>
      (r.Fatal? <==> exists i :: 0 <= i < |fs| && LegacyFailsOn(fs[i], hook[i]))
    ensures r.Ok? ==> r.value == AnyChanged(outcomes)
  {
    var changed := false;
    outcomes := [];
    var i := 0;
    while i < |fs|
      invariant 0 <= i <= |fs| && |outcomes| == i
      invariant forall k :: 0 <= k < i ==> LegacyOutcomeFor(fs[k], hook[k], draws[k], outcomes[k])
      invariant changed == AnyChanged(outcomes)
    {
      var res := LegacyRunStep(fs[i], hook[i], draws[i]);
      if res.Fatal? {
        return Fatal(res.message), outcomes;
      }
      ghost var before := outcomes;
      outcomes := outcomes + [res.value];
      assert outcomes[..i] == before && outcomes[i] == res.value;
      changed := changed || res.value.Changed?;
      i := i + 1;
    }
    return Ok(changed), outcomes;
  }
}

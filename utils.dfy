/**
 * Helpers shared by the passes: the names of LLVM type ids and the
 * function-order shuffle. A fatal error never returns; the model follows
 * every fatal path with a `Fatal` result that ends the computation.
 */
module Utils {
  import opened Wrappers

  /** `Type::TypeID`. */
  datatype TypeID =
    | HalfTyID | BFloatTyID | FloatTyID | DoubleTyID | X86_FP80TyID | FP128TyID | PPC_FP128TyID
    | VoidTyID | LabelTyID | MetadataTyID | X86_MMXTyID | X86_AMXTyID | TokenTyID
    | IntegerTyID | FunctionTyID | PointerTyID | StructTyID | ArrayTyID
    | FixedVectorTyID | ScalableVectorTyID

  /** `TypeIDStr`: the enumerator's own name. */
  function TypeIDStr(t: TypeID): (name: string)
    ensures |name| > 4 && name[|name| - 4..] == "TyID"
  {
    match t
    case HalfTyID => "HalfTyID"
    case BFloatTyID => "BFloatTyID"
    case FloatTyID => "FloatTyID"
    case DoubleTyID => "DoubleTyID"
    case X86_FP80TyID => "X86_FP80TyID"
    case FP128TyID => "FP128TyID"
    case PPC_FP128TyID => "PPC_FP128TyID"
    case VoidTyID => "VoidTyID"
    case LabelTyID => "LabelTyID"
    case MetadataTyID => "MetadataTyID"
    case X86_MMXTyID => "X86_MMXTyID"
    case X86_AMXTyID => "X86_AMXTyID"
    case TokenTyID => "TokenTyID"
    case IntegerTyID => "IntegerTyID"
    case FunctionTyID => "FunctionTyID"
    case PointerTyID => "PointerTyID"
    case StructTyID => "StructTyID"
    case ArrayTyID => "ArrayTyID"
    case FixedVectorTyID => "FixedVectorTyID"
    case ScalableVectorTyID => "ScalableVectorTyID"
  }

  /** The type id a name stands for, if any. */
  function TypeIDOf(name: string): Option<TypeID>
  {
    if name == "HalfTyID" then Some(HalfTyID)
    else if name == "BFloatTyID" then Some(BFloatTyID)
    else if name == "FloatTyID" then Some(FloatTyID)
    else if name == "DoubleTyID" then Some(DoubleTyID)
    else if name == "X86_FP80TyID" then Some(X86_FP80TyID)
    else if name == "FP128TyID" then Some(FP128TyID)
    else if name == "PPC_FP128TyID" then Some(PPC_FP128TyID)
    else if name == "VoidTyID" then Some(VoidTyID)
    else if name == "LabelTyID" then Some(LabelTyID)
    else if name == "MetadataTyID" then Some(MetadataTyID)
    else if name == "X86_MMXTyID" then Some(X86_MMXTyID)
    else if name == "X86_AMXTyID" then Some(X86_AMXTyID)
    else if name == "TokenTyID" then Some(TokenTyID)
    else if name == "IntegerTyID" then Some(IntegerTyID)
    else if name == "FunctionTyID" then Some(FunctionTyID)
    else if name == "PointerTyID" then Some(PointerTyID)
    else if name == "StructTyID" then Some(StructTyID)
    else if name == "ArrayTyID" then Some(ArrayTyID)
    else if name == "FixedVectorTyID" then Some(FixedVectorTyID)
    else if name == "ScalableVectorTyID" then Some(ScalableVectorTyID)
    else None
  }

  /** Every type id has a name, and the name gives the id back: no two ids share a name. */
  lemma TypeIDStrRoundTrip(t: TypeID)
    ensures TypeIDOf(TypeIDStr(t)) == Some(t)
  {
    if t.HalfTyID? || t.BFloatTyID? || t.FloatTyID? || t.DoubleTyID? || t.X86_FP80TyID? || t.FP128TyID? {
      RoundTrip0(t);
    } else if t.PPC_FP128TyID? || t.VoidTyID? || t.LabelTyID? || t.MetadataTyID? {
      RoundTrip1(t);
    } else if t.X86_MMXTyID? || t.X86_AMXTyID? {
      RoundTrip2(t);
    } else if t.TokenTyID? || t.IntegerTyID? {
      RoundTrip3(t);
    } else if t.FunctionTyID? || t.PointerTyID? {
      RoundTrip4(t);
    } else if t.StructTyID? || t.ArrayTyID? {
      RoundTrip5(t);
    } else if t.FixedVectorTyID? {
      RoundTrip6(t);
    } else {
      RoundTrip7(t);
    }
  }

  /** The round trip for a few type ids at a time; later names are compared against more earlier ones. */
  lemma RoundTrip0(t: TypeID)
    requires t.HalfTyID? || t.BFloatTyID? || t.FloatTyID? || t.DoubleTyID? || t.X86_FP80TyID? || t.FP128TyID?
    ensures TypeIDOf(TypeIDStr(t)) == Some(t)
  {
  }

  lemma RoundTrip1(t: TypeID)
    requires t.PPC_FP128TyID? || t.VoidTyID? || t.LabelTyID? || t.MetadataTyID?
    ensures TypeIDOf(TypeIDStr(t)) == Some(t)
  {
  }

  lemma RoundTrip2(t: TypeID)
    requires t.X86_MMXTyID? || t.X86_AMXTyID?
    ensures TypeIDOf(TypeIDStr(t)) == Some(t)
  {
  }

  lemma RoundTrip3(t: TypeID)
    requires t.TokenTyID? || t.IntegerTyID?
    ensures TypeIDOf(TypeIDStr(t)) == Some(t)
  {
  }

  lemma RoundTrip4(t: TypeID)
    requires t.FunctionTyID? || t.PointerTyID?
    ensures TypeIDOf(TypeIDStr(t)) == Some(t)
  {
  }

  lemma RoundTrip5(t: TypeID)
    requires t.StructTyID? || t.ArrayTyID?
    ensures TypeIDOf(TypeIDStr(t)) == Some(t)
  {
  }

  lemma RoundTrip6(t: TypeID)
    requires t.FixedVectorTyID?
    ensures TypeIDOf(TypeIDStr(t)) == Some(t)
  {
  }

  lemma RoundTrip7(t: TypeID)
    requires t.ScalableVectorTyID?
    ensures TypeIDOf(TypeIDStr(t)) == Some(t)
  {
  }

  // ---------------------------------------------------------------------
  // shuffleFunctions

  /** The draws are taken from `[0, UINT32_MAX - 1]`. */
  const UINT32_MAX: nat := 0xFFFF_FFFF

  predicate Distinct(s: seq<nat>)
  {
    forall i, j :: 0 <= i < j < |s| ==> s[i] != s[j]
  }

  /** `Taken`: the ids handed out so far. */
  function IdSet(ids: seq<nat>): set<nat>
  {
    set x | x in ids
  }

  /** The first draw at or after `pos` that is not taken, and the position after it. */
  function NextFresh(stream: seq<nat>, pos: nat, taken: set<nat>): (r: Option<(nat, nat)>)
    decreases |stream| - pos
    ensures r.Some? ==> pos < r.value.1 <= |stream| && r.value.0 == stream[r.value.1 - 1] && r.value.0 !in taken
  {
    if pos >= |stream| then None
    else if stream[pos] !in taken then Some((stream[pos], pos + 1))
    else NextFresh(stream, pos + 1, taken)
  }

  /**
   * The ids the first `n` functions get, each the first draw no earlier
   * function holds, and how many draws that takes; `None` when the stream
   * runs out first.
   */
  function AssignIds(stream: seq<nat>, n: nat): (r: Option<(seq<nat>, nat)>)
    ensures r.Some? ==> |r.value.0| == n && r.value.1 <= |stream|
  {
    if n == 0 then Some(([], 0))
    else
      match AssignIds(stream, n - 1)
      case None => None
      case Some((ids, pos)) =>
        match NextFresh(stream, pos, IdSet(ids))
        case None => None
        case Some((id, next)) => Some((ids + [id], next))
  }

  /** The ids are pairwise distinct and each is a draw of the stream. */
  lemma {:induction false} AssignIdsDistinct(stream: seq<nat>, n: nat)
    requires AssignIds(stream, n).Some?
    ensures Distinct(AssignIds(stream, n).value.0)
    ensures forall i :: 0 <= i < n ==> AssignIds(stream, n).value.0[i] in stream
  {
    if n > 0 {
      AssignIdsDistinct(stream, n - 1);
    }
  }

  /** Every id lies in `[0, UINT32_MAX - 1]` when the draws do. */
  lemma AssignIdsInRange(stream: seq<nat>, n: nat)
    requires AssignIds(stream, n).Some?
    requires forall k :: 0 <= k < |stream| ==> stream[k] <= UINT32_MAX - 1
    ensures forall i :: 0 <= i < n ==> AssignIds(stream, n).value.0[i] <= UINT32_MAX - 1
  {
    AssignIdsDistinct(stream, n);
  }

  /**
   * The generator is default-seeded, so the id of a function depends only
   * on how many functions come before it, not on how many follow.
   */
  lemma {:induction false} AssignIdsPrefix(stream: seq<nat>, n: nat, k: nat)
    requires k <= n && AssignIds(stream, n).Some?
    ensures AssignIds(stream, k).Some? && AssignIds(stream, k).value.0 == AssignIds(stream, n).value.0[..k]
  {
    if k < n {
      AssignIdsPrefix(stream, n - 1, k);
      var ids := AssignIds(stream, n - 1).value.0;
      assert AssignIds(stream, n).value.0[..n - 1] == ids;
      assert AssignIds(stream, n).value.0[..k] == ids[..k];
    } else {
      assert AssignIds(stream, n).value.0[..k] == AssignIds(stream, n).value.0;
    }
  }

  /** The first loop of `shuffleFunctions`: one fresh id per function, in module order. */
  method DrawIds(n: nat, stream: seq<nat>) returns (r: Option<seq<nat>>)
    ensures r.Some? <==> AssignIds(stream, n).Some?
    ensures r.Some? ==> r.value == AssignIds(stream, n).value.0
  {
    var ids: seq<nat> := [];
    var taken: set<nat> := {};
    var pos: nat := 0;
    for i := 0 to n
      invariant AssignIds(stream, i) == Some((ids, pos))
      invariant taken == IdSet(ids)
    {
      var start := pos;
      if pos >= |stream| {
        assert AssignIds(stream, i + 1).None?;
        AssignIdsNone(stream, i + 1, n);
        return None;
      }
      var id := stream[pos];
      pos := pos + 1;
      while id in taken
        invariant start < pos <= |stream| && id == stream[pos - 1]
        invariant NextFresh(stream, start, taken) == NextFresh(stream, pos - 1, taken)
        decreases |stream| - pos
      {
        if pos >= |stream| {
          assert NextFresh(stream, pos - 1, taken) == NextFresh(stream, pos, taken) == None;
          assert AssignIds(stream, i + 1).None?;
          AssignIdsNone(stream, i + 1, n);
          return None;
        }
        id := stream[pos];
        pos := pos + 1;
      }
      assert NextFresh(stream, start, taken) == Some((id, pos));
      assert AssignIds(stream, i + 1) == Some((ids + [id], pos));
      assert IdSet(ids + [id]) == taken + {id};
      taken := taken + {id};
      ids := ids + [id];
    }
    r := Some(ids);
  }

  /** Once the stream runs out, it stays out for more functions. */
  lemma {:induction false} AssignIdsNone(stream: seq<nat>, k: nat, n: nat)
    requires k <= n && AssignIds(stream, k).None?
    ensures AssignIds(stream, n).None?
  {
    if k < n {
      AssignIdsNone(stream, k, n - 1);
    }
  }

  /** `order` with function `i` put before the first function whose id is larger. */
  function Insert(order: seq<nat>, i: nat, ids: seq<nat>): (r: seq<nat>)
    requires i < |ids| && forall j :: 0 <= j < |order| ==> order[j] < |ids|
    ensures |r| == |order| + 1
    ensures forall x :: x in r <==> x == i || x in order
    ensures forall j :: 0 <= j < |r| ==> r[j] < |ids|
  {
    if |order| == 0 then [i]
    else if ids[i] < ids[order[0]] then [i] + order
    else [order[0]] + Insert(order[1..], i, ids)
  }

  /** Function positions in strictly increasing id order. */
  predicate IncreasingIds(order: seq<nat>, ids: seq<nat>)
    requires forall j :: 0 <= j < |order| ==> order[j] < |ids|
  {
    forall j, m :: 0 <= j < m < |order| ==> ids[order[j]] < ids[order[m]]
  }

  /** Inserting a function whose id no other holds keeps the order increasing and duplicate-free. */
  lemma {:induction false} InsertIncreasing(order: seq<nat>, i: nat, ids: seq<nat>)
    requires i < |ids| && forall j :: 0 <= j < |order| ==> order[j] < |ids|
    requires IncreasingIds(order, ids) && Distinct(order) && i !in order
    requires forall j :: 0 <= j < |order| ==> ids[order[j]] != ids[i]
    ensures IncreasingIds(Insert(order, i, ids), ids) && Distinct(Insert(order, i, ids))
  {
    if |order| > 0 && ids[i] >= ids[order[0]] {
      var rest := order[1..];
      assert forall j :: 0 <= j < |rest| ==> rest[j] == order[j + 1];
      InsertIncreasing(rest, i, ids);
      var r := Insert(order, i, ids);
      assert r == [order[0]] + Insert(rest, i, ids);
      forall m | 0 < m < |r|
        ensures ids[order[0]] < ids[r[m]] && order[0] != r[m]
      {
        assert r[m] in Insert(rest, i, ids);
        if r[m] != i {
          var q :| 0 <= q < |rest| && rest[q] == r[m];
          assert order[q + 1] == r[m];
        }
      }
    }
  }

  /** `List.sort` by id: the function positions `0 .. n-1` ordered by their ids. */
  function SortByIds(ids: seq<nat>, n: nat): (order: seq<nat>)
    requires n <= |ids|
    ensures |order| == n
    ensures forall x: nat :: x in order <==> x < n
    ensures forall j :: 0 <= j < |order| ==> order[j] < |ids|
  {
    if n == 0 then [] else Insert(SortByIds(ids, n - 1), n - 1, ids)
  }

  /** With distinct ids, sorting lists every function once, in strictly increasing id order. */
  lemma {:induction false} SortByIdsSorted(ids: seq<nat>, n: nat)
    requires n <= |ids| && Distinct(ids)
    ensures Distinct(SortByIds(ids, n)) && IncreasingIds(SortByIds(ids, n), ids)
  {
    if n > 0 {
      var order := SortByIds(ids, n - 1);
      SortByIdsSorted(ids, n - 1);
      forall j | 0 <= j < |order|
        ensures ids[order[j]] != ids[n - 1]
      {
        assert order[j] in order;
      }
      InsertIncreasing(order, n - 1, ids);
    }
  }

  /** The module's functions after `shuffleFunctions`, or `None` when the draws run out. */
  function Shuffled<F>(fs: seq<F>, stream: seq<nat>): Option<seq<F>>
  {
    match AssignIds(stream, |fs|)
    case None => None
    case Some((ids, _)) =>
      var order := SortByIds(ids, |fs|);
      Some(Reordered(fs, order))
  }

  /** The functions in the order `order` gives their positions. */
  function Reordered<F>(fs: seq<F>, order: seq<nat>): (out: seq<F>)
    requires |order| == |fs| && forall j :: 0 <= j < |order| ==> order[j] < |fs|
    ensures |out| == |fs| && forall j :: 0 <= j < |fs| ==> out[j] == fs[order[j]]
  {
    seq(|fs|, j requires 0 <= j < |fs| => fs[order[j]])
  }

  /**
   * `shuffleFunctions` is a permutation: the `j`-th function afterwards is
   * the function at a position `order[j]`, every position is used exactly
   * once, and the ids along the new order strictly increase.
   */
  lemma ShuffledIsPermutation<F>(fs: seq<F>, stream: seq<nat>)
    requires AssignIds(stream, |fs|).Some?
    ensures var ids := AssignIds(stream, |fs|).value.0;
      var order := SortByIds(ids, |fs|);
      Shuffled(fs, stream) == Some(Reordered(fs, order))
      && Distinct(order) && (forall x: nat :: x in order <==> x < |fs|)
      && IncreasingIds(order, ids)
  {
    var ids := AssignIds(stream, |fs|).value.0;
    AssignIdsDistinct(stream, |fs|);
    SortByIdsSorted(ids, |fs|);
  }

  /** `shuffleFunctions`: draws the ids, then sorts the function list by them. */
  method ShuffleFunctions<F>(fs: seq<F>, stream: seq<nat>) returns (r: Option<seq<F>>)
    ensures r == Shuffled(fs, stream)
  {
    var ids := DrawIds(|fs|, stream);
    if ids.None? {
      return None;
    }
    var order := SortByIds(ids.value, |fs|);
    r := Some(Reordered(fs, order));
    assert AssignIds(stream, |fs|).value.0 == ids.value;
  }
}

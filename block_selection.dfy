/**
 * The module random number generator (`Module::createRNG`) and the coin the
 * block-level passes toss for every block they may transform: the next raw
 * draw modulo 100 against the user's probability.
 */
module BlockSelection {
  /** The raw 64-bit draws of a generator, in order. */
  type Stream = nat -> nat

  /** `llvm::RandomNumberGenerator`: its stream and how many draws it has handed out. */
  class Generator {
    const stream: Stream
    var drawn: nat

    constructor(stream: Stream)
      ensures this.stream == stream && drawn == 0
    {
      this.stream := stream;
      drawn := 0;
    }

    /** `operator()`: the next draw. */
    method Draw() returns (x: nat)
      modifies this
      ensures x == stream(old(drawn)) && drawn == old(drawn) + 1
    {
      x := stream(drawn);
      drawn := drawn + 1;
    }
  }

  /** The coin for one block: `draw % 100U < Probability`. */
  predicate Keep(x: nat, p: nat)
  {
    x % 100 < p
  }

  /** The draws spent on the first `n` blocks: one per block the pass may transform. */
  function DrawsFor(eligible: seq<bool>, n: nat): (d: nat)
    requires n <= |eligible|
    ensures d <= n
  {
    if n == 0 then 0 else DrawsFor(eligible, n - 1) + (if eligible[n - 1] then 1 else 0)
  }

  /** The blocks picked among the first `n`, in block order, when the stream is read from `start`. */
  function Picked(eligible: seq<bool>, n: nat, stream: Stream, start: nat, p: nat): seq<nat>
    requires n <= |eligible|
  {
    if n == 0 then []
    else
      Picked(eligible, n - 1, stream, start, p)
      + (if eligible[n - 1] && Keep(stream(start + DrawsFor(eligible, n - 1)), p) then [n - 1] else [])
  }

  /** Strictly increasing, hence free of repeats. */
  predicate Increasing(s: seq<nat>)
  {
    forall i, j :: 0 <= i < j < |s| ==> s[i] < s[j]
  }

  /**
   * A block is picked exactly when it may be transformed and the draw made
   * for it, the one after the draws of the eligible blocks before it, keeps it.
   */
  lemma {:induction false} PickedMembers(eligible: seq<bool>, n: nat, stream: Stream, start: nat, p: nat)
    requires n <= |eligible|
    ensures forall i :: i in Picked(eligible, n, stream, start, p) <==>
      0 <= i < n && eligible[i] && Keep(stream(start + DrawsFor(eligible, i)), p)
  {
    if n > 0 {
      PickedMembers(eligible, n - 1, stream, start, p);
    }
  }

  /** Blocks are picked in their layout order, each at most once. */
  lemma {:induction false} PickedIncreasing(eligible: seq<bool>, n: nat, stream: Stream, start: nat, p: nat)
    requires n <= |eligible|
    ensures Increasing(Picked(eligible, n, stream, start, p))
    ensures forall i :: 0 <= i < |Picked(eligible, n, stream, start, p)| ==> Picked(eligible, n, stream, start, p)[i] < n
  {
    if n > 0 {
      PickedIncreasing(eligible, n - 1, stream, start, p);
      PickedMembers(eligible, n - 1, stream, start, p);
      var prior := Picked(eligible, n - 1, stream, start, p);
      assert forall i :: 0 <= i < |prior| ==> prior[i] in prior;
    }
  }

  /** Dropping the last entry of an increasing sequence leaves one that does not hold it. */
  lemma IncreasingPrefix(s: seq<nat>)
    requires |s| > 0 && Increasing(s)
    ensures Increasing(s[..|s| - 1]) && s[|s| - 1] !in s[..|s| - 1]
  {
    var prior := s[..|s| - 1];
    forall i | 0 <= i < |prior|
      ensures prior[i] != s[|s| - 1]
    {
      assert prior[i] == s[i];
    }
  }

  /** With a probability of 100 or more every eligible block is picked, with 0 none is. */
  lemma PickedExtremes(eligible: seq<bool>, stream: Stream, start: nat, p: nat)
    ensures p >= 100 ==> forall i :: i in Picked(eligible, |eligible|, stream, start, p) <==> 0 <= i < |eligible| && eligible[i]
    ensures p == 0 ==> Picked(eligible, |eligible|, stream, start, p) == []
  {
    PickedMembers(eligible, |eligible|, stream, start, p);
    var picked := Picked(eligible, |eligible|, stream, start, p);
    assert |picked| > 0 ==> picked[0] in picked;
  }
}

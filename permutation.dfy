// `apply_permutation`: reorders a slice in place so that slot `i` receives
// the element at `indices[i]`, following each cycle of the permutation once
// and marking visited entries by replacing `x` with `-1 - x`.
module Permutation {
  /** The indices name every position `0..n` exactly once. */
  predicate IsPermutation(p: seq<int>) {
    (forall k :: 0 <= k < |p| ==> 0 <= p[k] < |p|) &&
    (forall j, k :: 0 <= j < |p| && 0 <= k < |p| && p[j] == p[k] ==> j == k)
  }

  /** Slot `k` holds the element at `p[k]`. */
  function Permuted<T>(a: seq<T>, p: seq<int>): seq<T>
    requires |a| == |p| && forall k :: 0 <= k < |p| ==> 0 <= p[k] < |p|
  {
    seq(|a|, k requires 0 <= k < |a| => a[p[k]])
  }

  /** Every index `x` replaced by `-1 - x`. */
  function Marked(p: seq<int>): seq<int> {
    seq(|p|, k requires 0 <= k < |p| => -1 - p[k])
  }

  /** The entries not yet marked. */
  function Unmarked(ix: seq<int>): nat {
    if ix == [] then 0 else Unmarked(ix[..|ix| - 1]) + (if ix[|ix| - 1] >= 0 then 1 else 0)
  }

  /** Marking one unmarked entry lowers the count by one. */
  lemma {:induction false} UnmarkedMark(ix: seq<int>, j: int, v: int)
    requires 0 <= j < |ix| && ix[j] >= 0 && v < 0
    ensures Unmarked(ix[j := v]) + 1 == Unmarked(ix)
    decreases |ix|
  {
    var ix' := ix[j := v];
    var n := |ix|;
    if j < n - 1 {
      assert ix'[..n - 1] == ix[..n - 1][j := v];
      UnmarkedMark(ix[..n - 1], j, v);
    } else {
      assert ix'[..n - 1] == ix[..n - 1];
    }
  }

  /** The items with slots `x` and `y` exchanged (`items.swap(x, y)`). */
  function Swap<T>(it: seq<T>, x: int, y: int): seq<T>
    requires 0 <= x < |it| && 0 <= y < |it|
  {
    it[x := it[y]][y := it[x]]
  }

  lemma SwapMultiset<T>(it: seq<T>, x: int, y: int)
    requires 0 <= x < |it| && 0 <= y < |it|
    ensures multiset(Swap(it, x, y)) == multiset(it)
  {
    var s := it[x := it[y]];
    assert multiset(s) == multiset(it) - multiset{it[x]} + multiset{it[y]};
  }

  predicate Shape<T>(it: seq<T>, ix: seq<int>, a: seq<T>, p: seq<int>) {
    |it| == |ix| == |a| == |p| && IsPermutation(p)
  }

  /**
   * A marked entry holds `-1 -` its original index and its final item; an
   * unmarked one its original index and item.
   */
  ghost predicate Slot<T>(it: seq<T>, ix: seq<int>, a: seq<T>, p: seq<int>, k: int)
    requires Shape(it, ix, a, p) && 0 <= k < |ix|
  {
    if ix[k] < 0 then ix[k] == -1 - p[k] && it[k] == a[p[k]] else ix[k] == p[k] && it[k] == a[k]
  }

  /**
   * The state between cycles: every slot as above, and marked entries closed
   * under predecessors, so a cycle is marked entirely or not at all.
   */
  ghost predicate Between<T>(it: seq<T>, ix: seq<int>, a: seq<T>, p: seq<int>) {
    Shape(it, ix, a, p) &&
    (forall k :: 0 <= k < |ix| ==> Slot(it, ix, a, p, k)) &&
    (forall q {:trigger ix[p[q]]} :: 0 <= q < |ix| && ix[p[q]] < 0 ==> ix[q] < 0)
  }

  /**
   * The state inside the cycle of `i`, at `pos`: `pos` is unmarked and holds
   * the item that started at `i`; the entries from `i` up to `pos` are
   * marked, so only the predecessor of `i` may lack a marked predecessor.
   */
  ghost predicate InCycle<T>(it: seq<T>, ix: seq<int>, a: seq<T>, p: seq<int>, i: int, pos: int) {
    Shape(it, ix, a, p) && 0 <= i < |ix| && 0 <= pos < |ix| &&
    ix[pos] == p[pos] && it[pos] == a[i] &&
    (forall k :: 0 <= k < |ix| && k != pos ==> Slot(it, ix, a, p, k)) &&
    (forall q {:trigger ix[p[q]]} :: 0 <= q < |ix| && ix[p[q]] < 0 && p[q] != i ==> ix[q] < 0) &&
    (pos == i || forall q :: 0 <= q < |ix| && p[q] == pos ==> ix[q] < 0) &&
    (pos == i || ix[i] < 0)
  }

  /** Marks only accumulate. */
  predicate Grows(ix0: seq<int>, ix: seq<int>) {
    |ix0| == |ix| && forall k :: 0 <= k < |ix| && ix0[k] < 0 ==> ix[k] < 0
  }

  lemma StartCycle<T>(it: seq<T>, ix: seq<int>, a: seq<T>, p: seq<int>, i: int)
    requires Between(it, ix, a, p) && 0 <= i < |ix| && ix[i] >= 0
    ensures InCycle(it, ix, a, p, i, i)
  {
    assert Slot(it, ix, a, p, i);
  }

  /** One turn of the inner loop keeps the cycle state, one entry further on. */
  lemma StepCycle<T>(it: seq<T>, ix: seq<int>, a: seq<T>, p: seq<int>, i: int, pos: int)
    requires InCycle(it, ix, a, p, i, pos) && ix[pos] != i
    ensures var t := ix[pos];
      0 <= t < |ix| && t != pos && ix[t] >= 0 &&
      InCycle(Swap(it, pos, t), ix[pos := -1 - ix[pos]], a, p, i, t)
  {
    var n := |ix|;
    var t := ix[pos];
    assert Slot(it, ix, a, p, t);
    var it' := Swap(it, pos, t);
    var ix' := ix[pos := -1 - ix[pos]];
    assert Slot(it', ix', a, p, pos);
    forall k | 0 <= k < n && k != t
      ensures Slot(it', ix', a, p, k)
    {
      if k != pos {
        assert Slot(it, ix, a, p, k);
      }
    }
    forall q | 0 <= q < n && p[q] == t
      ensures ix'[q] < 0
    {
      assert p[q] == p[pos];
    }
  }

  /** The last turn: marking the predecessor of `i` completes its cycle. */
  lemma CloseCycle<T>(it: seq<T>, ix: seq<int>, a: seq<T>, p: seq<int>, i: int, pos: int)
    requires InCycle(it, ix, a, p, i, pos) && ix[pos] == i
    ensures Between(it, ix[pos := -1 - ix[pos]], a, p) && ix[pos := -1 - ix[pos]][i] < 0
  {
    var n := |ix|;
    var ix' := ix[pos := -1 - ix[pos]];
    forall q | 0 <= q < n && p[q] == i
      ensures q == pos
    {
      assert p[q] == p[pos];
    }
    forall k | 0 <= k < n
      ensures Slot(it, ix', a, p, k)
    {
      if k != pos {
        assert Slot(it, ix, a, p, k);
      }
    }
  }

  /** What one turn of the inner `while` does to the two sequences. */
  lemma SwapStep<T>(it: seq<T>, ix: seq<int>, a: seq<T>, p: seq<int>, i: int, pos: int)
    requires InCycle(it, ix, a, p, i, pos) && ix[pos] != i
    ensures var t := ix[pos]; var it', ix' := Swap(it, pos, t), ix[pos := -1 - ix[pos]];
      0 <= t < |ix| && InCycle(it', ix', a, p, i, t) &&
      Grows(ix, ix') && Unmarked(ix') < Unmarked(ix) && multiset(it') == multiset(it)
  {
    StepCycle(it, ix, a, p, i, pos);
    SwapMultiset(it, pos, ix[pos]);
    UnmarkedMark(ix, pos, -1 - ix[pos]);
  }

  /** One turn of the inner `while`: swap `pos` with its target, mark `pos`, move on to the target. */
  method SwapAlong<T>(items: array<T>, indices: array<int>, i: int, pos: int, ghost a: seq<T>, ghost p: seq<int>)
    returns (target: int)
    requires items as object != indices as object
    requires InCycle(items[..], indices[..], a, p, i, pos) && indices[pos] != i
    modifies items, indices
    ensures 0 <= target < indices.Length
    ensures InCycle(items[..], indices[..], a, p, i, target)
    ensures Grows(old(indices[..]), indices[..]) && Unmarked(indices[..]) < Unmarked(old(indices[..]))
    ensures multiset(items[..]) == multiset(old(items[..]))
  {
    ghost var it := items[..];
    ghost var ix := indices[..];
    target := indices[pos];
    SwapStep(it, ix, a, p, i, pos);
    var tmp := items[pos];
    items[pos] := items[target];
    items[target] := tmp;
    assert items[..] == Swap(it, pos, target);
    indices[pos] := -1 - indices[pos];
    assert items[..] == Swap(it, pos, target);
    assert indices[..] == ix[pos := -1 - ix[pos]];
  }

  /**
   * The inner `while` of `apply_permutation`: from an unmarked `i`, swap the
   * item along the cycle of `i` until the entry pointing back at `i`, marking
   * each entry on the way, then mark that last one.
   */
  method FollowCycle<T>(items: array<T>, indices: array<int>, i: int, ghost a: seq<T>, ghost p: seq<int>)
    requires items as object != indices as object
    requires Between(items[..], indices[..], a, p)
    requires 0 <= i < indices.Length && indices[i] >= 0
    modifies items, indices
    ensures Between(items[..], indices[..], a, p)
    ensures indices[i] < 0 && Grows(old(indices[..]), indices[..])
    ensures multiset(items[..]) == multiset(old(items[..]))
  {
    var pos := i;
    StartCycle(items[..], indices[..], a, p, i);
    while indices[pos] != i
      invariant 0 <= pos < indices.Length
      invariant InCycle(items[..], indices[..], a, p, i, pos)
      invariant Grows(old(indices[..]), indices[..])
      invariant multiset(items[..]) == multiset(old(items[..]))
      decreases Unmarked(indices[..])
    {
      pos := SwapAlong(items, indices, i, pos, a, p);
    }
    ghost var it := items[..];
    ghost var ix := indices[..];
    CloseCycle(it, ix, a, p, i, pos);
    indices[pos] := -1 - indices[pos];
    assert items[..] == it;
    assert indices[..] == ix[pos := -1 - ix[pos]];
  }

  /** Before the first cycle nothing is marked. */
  lemma Initially<T>(a: seq<T>, p: seq<int>)
    requires Shape(a, p, a, p) && forall k :: 0 <= k < |p| ==> p[k] >= 0
    ensures Between(a, p, a, p)
  {
    forall k | 0 <= k < |p|
      ensures Slot(a, p, a, p, k)
    {
    }
  }

  /** With every entry marked, the items are in their final places. */
  lemma AllPlaced<T>(it: seq<T>, ix: seq<int>, a: seq<T>, p: seq<int>)
    requires Between(it, ix, a, p) && forall k :: 0 <= k < |ix| ==> ix[k] < 0
    ensures it == Permuted(a, p) && ix == Marked(p)
  {
    forall k | 0 <= k < |ix|
      ensures it[k] == a[p[k]] && ix[k] == -1 - p[k]
    {
      assert Slot(it, ix, a, p, k);
    }
  }

  /**
   * `apply_permutation(items, indices)`: afterwards `items[i]` is the
   * original `items[indices[i]]`, the items are the same multiset, and every
   * index entry has been marked exactly once.
   */
  method ApplyPermutation<T>(items: array<T>, indices: array<int>)
    requires items as object != indices as object
    requires items.Length == indices.Length
    requires IsPermutation(indices[..])
    modifies items, indices
    ensures items[..] == Permuted(old(items[..]), old(indices[..]))
    ensures indices[..] == Marked(old(indices[..]))
    ensures multiset(items[..]) == multiset(old(items[..]))
  {
    ghost var a := items[..];
    ghost var p := indices[..];
    var n := items.Length;
    Initially(a, p);
    for i := 0 to n
      invariant Between(items[..], indices[..], a, p)
      invariant forall k :: 0 <= k < i ==> indices[k] < 0
      invariant multiset(items[..]) == multiset(a)
    {
      if indices[i] >= 0 {
        FollowCycle(items, indices, i, a, p);
      }
    }
    AllPlaced(items[..], indices[..], a, p);
  }

  /** The example in the source's tests: `[2, 3, 0, 1, 4]` applied to `a..e`. */
  lemma PermutationExample()
    ensures Permuted(["a", "b", "c", "d", "e"], [2, 3, 0, 1, 4]) == ["c", "d", "a", "b", "e"]
  {
  }
}

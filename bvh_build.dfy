// `BVH::recursive_build`: splits the primitives at the middle of the widest
// centroid extent (falling back to two equal halves), records the leaf order
// of the primitives, and builds the tree of boxes.
module BvhBuild {
  import opened Geom
  import opened Bounds

  /** `BVHPrimInfo` */
  datatype PrimInfo = PrimInfo(primId: nat, bounds: Bounds3, centroid: Vec3)

  /** `BVHPrimInfo::new`: the centroid is the centre of the box. */
  function NewPrimInfo(primId: nat, b: Bounds3): (r: PrimInfo)
    ensures r.primId == primId && r.bounds == b
    ensures r.centroid.Sub(b.min) == b.max.Sub(r.centroid)
  {
    PrimInfo(primId, b, Centroid(b))
  }

  /** `BVHBuildNode`; `bounds()` is the field both variants share. */
  datatype BuildNode =
    | Leaf(bounds: Bounds3, firstPrimIdx: nat, nPrims: nat)
    | Interior(bounds: Bounds3, left: BuildNode, right: BuildNode, splitAxis: nat)

  /** `BVHBuildNode::new_interior`: the box is the least one around both children's. */
  function NewInterior(c0: BuildNode, c1: BuildNode, axis: nat): (r: BuildNode)
    ensures r.Interior? && r.left == c0 && r.right == c1 && r.splitAxis == axis
    ensures Within(c0.bounds, r.bounds) && Within(c1.bounds, r.bounds)
    ensures forall c :: Within(c0.bounds, c) && Within(c1.bounds, c) ==> Within(r.bounds, c)
  {
    Interior(Join(c0.bounds, c1.bounds), c0, c1, axis)
  }

  /** The ids of the primitives, in order. */
  function IdsOf(s: seq<PrimInfo>): (ids: seq<int>)
    ensures |ids| == |s| && forall k :: 0 <= k < |s| ==> ids[k] == s[k].primId
  {
    seq(|s|, k requires 0 <= k < |s| => s[k].primId)
  }

  /** Taking out the primitive at `j` takes out one copy of it. */
  lemma RemoveMultiset(b: seq<PrimInfo>, j: nat)
    requires j < |b|
    ensures multiset(b[..j] + b[j + 1..]) == multiset(b) - multiset{b[j]}
  {
    assert b == b[..j] + [b[j]] + b[j + 1..];
  }

  /** Taking out the primitive at `j` takes out one copy of its id. */
  lemma IdsOfRemove(b: seq<PrimInfo>, j: nat)
    requires j < |b|
    ensures multiset(IdsOf(b)) == multiset(IdsOf(b[..j] + b[j + 1..])) + multiset{b[j].primId}
  {
    var l, x, r := b[..j], b[j], b[j + 1..];
    assert b == l + [x] + r;
    IdsOfAppend(l + [x], r);
    IdsOfAppend(l, [x]);
    IdsOfAppend(l, r);
    var il, ir := IdsOf(l), IdsOf(r);
    assert multiset(il + [x.primId] + ir) == multiset(il) + multiset{x.primId} + multiset(ir);
  }

  /** Rearranging the primitives rearranges their ids the same way. */
  lemma {:induction false} IdsOfMultiset(a: seq<PrimInfo>, b: seq<PrimInfo>)
    requires multiset(a) == multiset(b)
    ensures multiset(IdsOf(a)) == multiset(IdsOf(b))
    decreases |a|
  {
    if a == [] {
      assert |b| == |multiset(b)| == 0;
    } else {
      var x := a[0];
      assert x in multiset(b);
      var j :| 0 <= j < |b| && b[j] == x;
      RemoveMultiset(b, j);
      var rest, others := a[1..], b[..j] + b[j + 1..];
      assert a == [x] + rest;
      assert multiset(rest) == multiset(others);
      IdsOfAppend([x], rest);
      assert IdsOf([x]) == [x.primId];
      IdsOfMultiset(rest, others);
      IdsOfRemove(b, j);
      var ir := IdsOf(rest);
      assert multiset([x.primId] + ir) == multiset{x.primId} + multiset(ir);
    }
  }

  /** Splitting the primitives into two parts splits their ids alike. */
  lemma IdsOfParts(a: seq<PrimInfo>, b: seq<PrimInfo>, s: seq<PrimInfo>)
    requires multiset(a) + multiset(b) == multiset(s)
    ensures multiset(IdsOf(a)) + multiset(IdsOf(b)) == multiset(IdsOf(s))
  {
    IdsOfMultiset(a + b, s);
    IdsOfAppend(a, b);
  }

  lemma IdsOfAppend(a: seq<PrimInfo>, b: seq<PrimInfo>)
    ensures IdsOf(a + b) == IdsOf(a) + IdsOf(b)
  {
    assert forall k :: 0 <= k < |a + b| ==> IdsOf(a + b)[k] == (IdsOf(a) + IdsOf(b))[k];
  }

  /** The fold at the top of `recursive_build`: the box around all boxes and the box around all centroids. */
  function FoldBounds(s: seq<PrimInfo>): (Bounds3, Bounds3) {
    if s == [] then (Empty3(), Empty3())
    else
      var prev := FoldBounds(s[..|s| - 1]);
      (Join(prev.0, s[|s| - 1].bounds), JoinPoint(prev.1, s[|s| - 1].centroid))
  }

  /** Every primitive's box lies in the first box of the fold and every centroid in the second. */
  lemma {:induction false} FoldBoundsCovers(s: seq<PrimInfo>)
    ensures forall k :: 0 <= k < |s| ==> Within(s[k].bounds, FoldBounds(s).0) && Contains(FoldBounds(s).1, s[k].centroid)
  {
    if s != [] {
      var init := s[..|s| - 1];
      FoldBoundsCovers(init);
      assert forall k :: 0 <= k < |s| - 1 ==> init[k] == s[k];
    }
  }

  /** Finite centroids that are all `c` have the one-point box at `c` around them. */
  lemma {:induction false} SameCentroidsPoint(s: seq<PrimInfo>, c: Vec3)
    requires |s| >= 1 && FinitePoint(c)
    requires forall k :: 0 <= k < |s| ==> s[k].centroid == c
    ensures FoldBounds(s).1 == Bounds3(c, c)
  {
    if |s| == 1 {
      assert s[..0] == [];
      JoinPointEmpty(c);
    } else {
      SameCentroidsPoint(s[..|s| - 1], c);
    }
  }

  /**
   * The leaf condition `centroid_bounds.is_point()` holds exactly when all
   * (finite) centroids coincide.
   */
  lemma CentroidBoundsPoint(s: seq<PrimInfo>)
    requires |s| >= 1 && forall k :: 0 <= k < |s| ==> FinitePoint(s[k].centroid)
    ensures IsPoint(FoldBounds(s).1) <==> forall k :: 0 <= k < |s| ==> s[k].centroid == s[0].centroid
  {
    var cb := FoldBounds(s).1;
    FoldBoundsCovers(s);
    if forall k :: 0 <= k < |s| ==> s[k].centroid == s[0].centroid {
      SameCentroidsPoint(s, s[0].centroid);
    }
    if IsPoint(cb) {
      forall k | 0 <= k < |s|
        ensures s[k].centroid == s[0].centroid
      {
        assert Contains(cb, s[k].centroid) && Contains(cb, s[0].centroid);
      }
    }
  }

  /** The coordinate the split compares, `centroid[ax]`. */
  function Key(p: PrimInfo, ax: nat): real
    requires ax < 3
  {
    p.centroid.At(ax)
  }

  /** The primitives whose `centroid[ax]` lies below the midpoint, in order. */
  function Below(s: seq<PrimInfo>, ax: nat, midpoint: real): seq<PrimInfo>
    requires ax < 3
  {
    if s == [] then []
    else if Key(s[0], ax) < midpoint then [s[0]] + Below(s[1..], ax, midpoint)
    else Below(s[1..], ax, midpoint)
  }

  /** The other primitives, in order. */
  function NotBelow(s: seq<PrimInfo>, ax: nat, midpoint: real): seq<PrimInfo>
    requires ax < 3
  {
    if s == [] then []
    else if Key(s[0], ax) < midpoint then NotBelow(s[1..], ax, midpoint)
    else [s[0]] + NotBelow(s[1..], ax, midpoint)
  }

  /** Every key on the first side of the partition is below the midpoint, every key on the second is not. */
  lemma {:induction false} PartitionKeys(s: seq<PrimInfo>, ax: nat, midpoint: real)
    requires ax < 3
    ensures forall k :: 0 <= k < |Below(s, ax, midpoint)| ==> Key(Below(s, ax, midpoint)[k], ax) < midpoint
    ensures forall k :: 0 <= k < |NotBelow(s, ax, midpoint)| ==> Key(NotBelow(s, ax, midpoint)[k], ax) >= midpoint
  {
    if s != [] {
      PartitionKeys(s[1..], ax, midpoint);
    }
  }

  /** The two sides of the partition together are the primitives, rearranged. */
  lemma {:induction false} PartitionRearranges(s: seq<PrimInfo>, ax: nat, midpoint: real)
    requires ax < 3
    ensures multiset(Below(s, ax, midpoint)) + multiset(NotBelow(s, ax, midpoint)) == multiset(s)
    ensures |Below(s, ax, midpoint)| + |NotBelow(s, ax, midpoint)| == |s|
  {
    if s != [] {
      PartitionRearranges(s[1..], ax, midpoint);
      assert s == [s[0]] + s[1..];
    }
  }

  /** `partition(prim_info, |prim| prim.centroid[ax] < midpoint)`: the primitives below the midpoint, then the others. */
  function PartitionBy(s: seq<PrimInfo>, ax: nat, midpoint: real): (r: (seq<PrimInfo>, seq<PrimInfo>))
    requires ax < 3
    ensures |r.0| + |r.1| == |s|
  {
    PartitionRearranges(s, ax, midpoint);
    (Below(s, ax, midpoint), NotBelow(s, ax, midpoint))
  }

  /** Ordered by `centroid[ax]`. */
  ghost predicate SortedBy(s: seq<PrimInfo>, ax: nat)
    requires ax < 3
  {
    forall j, k :: 0 <= j < k < |s| ==> Key(s[j], ax) <= Key(s[k], ax)
  }

  ghost predicate AtLeast(s: seq<PrimInfo>, ax: nat, v: real)
    requires ax < 3
  {
    forall k :: 0 <= k < |s| ==> Key(s[k], ax) >= v
  }

  function Insert(x: PrimInfo, s: seq<PrimInfo>, ax: nat): (r: seq<PrimInfo>)
    requires ax < 3
    ensures |r| == |s| + 1
  {
    if s == [] then [x]
    else if Key(x, ax) <= Key(s[0], ax) then [x] + s
    else [s[0]] + Insert(x, s[1..], ax)
  }

  lemma {:induction false} InsertMultiset(x: PrimInfo, s: seq<PrimInfo>, ax: nat)
    requires ax < 3
    ensures multiset(Insert(x, s, ax)) == multiset(s) + multiset{x}
  {
    if s != [] && Key(x, ax) > Key(s[0], ax) {
      InsertMultiset(x, s[1..], ax);
      assert s == [s[0]] + s[1..];
    }
  }

  lemma {:induction false} InsertAtLeast(x: PrimInfo, s: seq<PrimInfo>, ax: nat, v: real)
    requires ax < 3 && AtLeast(s, ax, v) && Key(x, ax) >= v
    ensures AtLeast(Insert(x, s, ax), ax, v)
  {
    if s != [] && Key(x, ax) > Key(s[0], ax) {
      InsertAtLeast(x, s[1..], ax, v);
    }
  }

  lemma {:induction false} InsertSorted(x: PrimInfo, s: seq<PrimInfo>, ax: nat)
    requires ax < 3 && SortedBy(s, ax)
    ensures SortedBy(Insert(x, s, ax), ax)
  {
    if s != [] && Key(x, ax) > Key(s[0], ax) {
      InsertSorted(x, s[1..], ax);
      InsertAtLeast(x, s[1..], ax, Key(s[0], ax));
    }
  }

  /** An ordering by `centroid[ax]` (insertion sort). */
  function SortBy(s: seq<PrimInfo>, ax: nat): (r: seq<PrimInfo>)
    requires ax < 3
    ensures |r| == |s|
  {
    if s == [] then [] else Insert(s[0], SortBy(s[1..], ax), ax)
  }

  /** The ordering is sorted and a rearrangement of the primitives. */
  lemma {:induction false} SortByOrders(s: seq<PrimInfo>, ax: nat)
    requires ax < 3
    ensures multiset(SortBy(s, ax)) == multiset(s)
    ensures SortedBy(SortBy(s, ax), ax)
  {
    if s != [] {
      var t := SortBy(s[1..], ax);
      SortByOrders(s[1..], ax);
      InsertMultiset(s[0], t, ax);
      InsertSorted(s[0], t, ax);
      assert s == [s[0]] + s[1..];
    }
  }

  /** `partition_equal_counts`: the first `len / 2` primitives in key order, then the rest. */
  function PartitionEqualCounts(s: seq<PrimInfo>, ax: nat): (r: (seq<PrimInfo>, seq<PrimInfo>))
    requires ax < 3
    ensures |r.0| == |s| / 2 && |r.0| + |r.1| == |s|
  {
    var t := SortBy(s, ax);
    (t[..|s| / 2], t[|s| / 2..])
  }

  /**
   * No centroid coordinate in the first half lies above any in the second,
   * and the halves together are the primitives, rearranged.
   */
  lemma EqualCountsOrdered(s: seq<PrimInfo>, ax: nat)
    requires ax < 3
    ensures var r := PartitionEqualCounts(s, ax);
      (forall j, k :: 0 <= j < |r.0| && 0 <= k < |r.1| ==> Key(r.0[j], ax) <= Key(r.1[k], ax)) &&
      multiset(r.0) + multiset(r.1) == multiset(s)
  {
    var t := SortBy(s, ax);
    var mid := |s| / 2;
    SortByOrders(s, ax);
    assert t == t[..mid] + t[mid..];
    forall j, k | 0 <= j < mid && 0 <= k < |t| - mid
      ensures Key(t[..mid][j], ax) <= Key(t[mid..][k], ax)
    {
      assert t[..mid][j] == t[j] && t[mid..][k] == t[mid + k];
    }
  }

  /**
   * The `SplitMethod::Middle` split: at the midpoint of the centroid box on
   * `ax`, or, when one side would be empty, into equal counts. Both parts are
   * non-empty whenever there are at least two primitives.
   */
  function SplitMiddle(s: seq<PrimInfo>, ax: nat, cb: Bounds3): (r: (seq<PrimInfo>, seq<PrimInfo>))
    requires |s| >= 2 && ax < 3
    ensures |r.0| >= 1 && |r.1| >= 1 && |r.0| + |r.1| == |s|
  {
    var midpoint := (cb.min.At(ax) + cb.max.At(ax)) / 2.0;
    var parts := PartitionBy(s, ax, midpoint);
    if |parts.0| == 0 || |parts.1| == 0 then PartitionEqualCounts(s, ax) else parts
  }

  /**
   * Whichever way it splits, no key on the first side lies above a key on
   * the second, and the sides together are the primitives, rearranged.
   */
  lemma SplitMiddleOrdered(s: seq<PrimInfo>, ax: nat, cb: Bounds3)
    requires |s| >= 2 && ax < 3
    ensures var r := SplitMiddle(s, ax, cb);
      (forall j, k :: 0 <= j < |r.0| && 0 <= k < |r.1| ==> Key(r.0[j], ax) <= Key(r.1[k], ax)) &&
      multiset(r.0) + multiset(r.1) == multiset(s)
  {
    var midpoint := (cb.min.At(ax) + cb.max.At(ax)) / 2.0;
    PartitionKeys(s, ax, midpoint);
    PartitionRearranges(s, ax, midpoint);
    EqualCountsOrdered(s, ax);
  }

  /**
   * What one call of `recursive_build` decides for its primitives: stop with
   * a leaf, or split on an axis into two sides.
   */
  datatype Plan = Stop | Split(axis: nat, left: seq<PrimInfo>, right: seq<PrimInfo>)

  /** A split names a coordinate axis and two non-empty sides of the primitives `s`. */
  ghost predicate SoundAt(p: Plan, s: seq<PrimInfo>) {
    p.Split? ==> p.axis < 3 && |p.left| >= 1 && |p.right| >= 1 && |p.left| + |p.right| == |s|
  }

  /** The two sides of a split are the primitives `s`, rearranged. */
  ghost predicate RearrangingAt(p: Plan, s: seq<PrimInfo>) {
    p.Split? ==> multiset(p.left) + multiset(p.right) == multiset(s)
  }

  /** Every split the plan makes is sound. */
  ghost predicate Sound(plan: seq<PrimInfo> -> Plan) {
    forall s {:trigger SoundAt(plan(s), s)} :: SoundAt(plan(s), s)
  }

  /** Every split the plan makes rearranges the primitives. */
  ghost predicate Rearranging(plan: seq<PrimInfo> -> Plan) {
    forall s {:trigger RearrangingAt(plan(s), s)} :: RearrangingAt(plan(s), s)
  }

  /**
   * `SplitMethod::Middle`: a leaf for one primitive or when all centroids lie
   * at one point, and otherwise a split on the widest extent of the centroid
   * box.
   */
  function Middle(info: seq<PrimInfo>): Plan {
    var cb := FoldBounds(info).1;
    if |info| <= 1 || IsPoint(cb) then Stop
    else
      var ax := MaximumExtent(cb);
      var parts := SplitMiddle(info, ax, cb);
      Split(ax, parts.0, parts.1)
  }

  /** The middle split is sound and rearranges the primitives. */
  lemma MiddleSound()
    ensures Sound(Middle) && Rearranging(Middle)
  {
    forall s
      ensures SoundAt(Middle(s), s) && RearrangingAt(Middle(s), s)
    {
      if Middle(s).Split? {
        var cb := FoldBounds(s).1;
        SplitMiddleOrdered(s, MaximumExtent(cb), cb);
      }
    }
  }

  /**
   * `recursive_build` for a given plan, with `first` ids already pushed: the
   * node and the ids it pushes, in order.
   */
  function BuildBy(plan: seq<PrimInfo> -> Plan, info: seq<PrimInfo>, first: nat): (BuildNode, seq<int>)
    requires Sound(plan) && |info| >= 1
    decreases |info|
  {
    assert SoundAt(plan(info), info);
    match plan(info)
    case Stop => (Leaf(FoldBounds(info).0, first, |info|), IdsOf(info))
    case Split(ax, l, r) =>
      var b1 := BuildBy(plan, l, first);
      var b2 := BuildBy(plan, r, first + |b1.1|);
      (NewInterior(b1.0, b2.0, ax), b1.1 + b2.1)
  }

  /** What `recursive_build` with `SplitMethod::Middle` returns: the node and the ids it pushes. */
  function Build(info: seq<PrimInfo>, first: nat): (BuildNode, seq<int>)
    requires |info| >= 1
  {
    MiddleSound();
    BuildBy(Middle, info, first)
  }

  /** The number of primitives under a node. */
  function PrimCount(t: BuildNode): nat {
    match t
    case Leaf(_, _, n) => n
    case Interior(_, l, r, _) => PrimCount(l) + PrimCount(r)
  }

  /** The depth of a node: a leaf has depth 0. */
  function Depth(t: BuildNode): nat {
    match t
    case Leaf(_, _, _) => 0
    case Interior(_, l, r, _) => 1 + if Depth(l) < Depth(r) then Depth(r) else Depth(l)
  }

  /**
   * The leaves cover `[lo, lo + PrimCount(t))` from left to right, each with
   * at least one primitive, and every split axis is a coordinate axis.
   */
  ghost predicate Contiguous(t: BuildNode, lo: nat) {
    match t
    case Leaf(_, f, n) => f == lo && n >= 1
    case Interior(_, l, r, ax) => ax < 3 && Contiguous(l, lo) && Contiguous(r, lo + PrimCount(l))
  }

  /**
   * With `placed[k]` the box of the primitive at position `k` of the final
   * ordering: every leaf's box holds the boxes of its primitives, and every
   * interior box is the join of its children's.
   */
  ghost predicate Fits(t: BuildNode, placed: seq<Bounds3>) {
    match t
    case Leaf(b, f, n) => f + n <= |placed| && forall k :: f <= k < f + n ==> Within(placed[k], b)
    case Interior(b, l, r, _) => b == Join(l.bounds, r.bounds) && Fits(l, placed) && Fits(r, placed)
  }

  /** For any sound plan: the tree counts the primitives, and one id is pushed per primitive. */
  lemma {:induction false} BuildByCount(plan: seq<PrimInfo> -> Plan, info: seq<PrimInfo>, first: nat)
    requires Sound(plan) && |info| >= 1
    ensures PrimCount(BuildBy(plan, info, first).0) == |info| == |BuildBy(plan, info, first).1|
    decreases |info|
  {
    match plan(info)
    case Stop =>
    case Split(ax, l, r) =>
      assert SoundAt(plan(info), info);
      var b1 := BuildBy(plan, l, first);
      BuildByCount(plan, l, first);
      BuildByCount(plan, r, first + |b1.1|);
  }

  /** For any sound plan, the leaves cover the positions the ids were pushed at, from left to right. */
  lemma {:induction false} BuildByContiguous(plan: seq<PrimInfo> -> Plan, info: seq<PrimInfo>, first: nat)
    requires Sound(plan) && |info| >= 1
    ensures Contiguous(BuildBy(plan, info, first).0, first)
    decreases |info|
  {
    match plan(info)
    case Stop =>
    case Split(ax, l, r) =>
      assert SoundAt(plan(info), info);
      var b1 := BuildBy(plan, l, first);
      BuildByCount(plan, l, first);
      BuildByContiguous(plan, l, first);
      BuildByContiguous(plan, r, first + |b1.1|);
      InteriorContiguous(b1.0, BuildBy(plan, r, first + |b1.1|).0, ax, first);
  }

  /** Two contiguous children side by side make a contiguous interior node. */
  lemma InteriorContiguous(t1: BuildNode, t2: BuildNode, ax: nat, lo: nat)
    requires ax < 3 && Contiguous(t1, lo) && Contiguous(t2, lo + PrimCount(t1))
    ensures Contiguous(NewInterior(t1, t2, ax), lo)
  {
  }

  /** For a rearranging plan, the ids pushed are those of the primitives, as often as each occurs. */
  lemma {:induction false} BuildByIds(plan: seq<PrimInfo> -> Plan, info: seq<PrimInfo>, first: nat)
    requires Sound(plan) && Rearranging(plan) && |info| >= 1
    ensures multiset(BuildBy(plan, info, first).1) == multiset(IdsOf(info))
    decreases |info|
  {
    match plan(info)
    case Stop =>
      assert BuildBy(plan, info, first).1 == IdsOf(info);
    case Split(ax, l, r) =>
      assert SoundAt(plan(info), info);
      assert RearrangingAt(plan(info), info);
      var b1 := BuildBy(plan, l, first);
      var b2 := BuildBy(plan, r, first + |b1.1|);
      assert BuildBy(plan, info, first).1 == b1.1 + b2.1;
      BuildByIds(plan, l, first);
      BuildByIds(plan, r, first + |b1.1|);
      assert multiset(l) + multiset(r) == multiset(info);
      IdsOfParts(l, r, info);
      assert multiset(b1.1 + b2.1) == multiset(b1.1) + multiset(b2.1);
      SumOfParts(multiset(b1.1 + b2.1), multiset(b1.1), multiset(b2.1), multiset(IdsOf(l)), multiset(IdsOf(r)), multiset(IdsOf(info)));
  }

  lemma SumOfParts(m: multiset<int>, m1: multiset<int>, m2: multiset<int>, n1: multiset<int>, n2: multiset<int>, n: multiset<int>)
    requires m == m1 + m2 && m1 == n1 && m2 == n2 && n1 + n2 == n
    ensures m == n
  {
  }

  /** Each primitive's id names the box it was made from in `wb`. */
  ghost predicate Consistent(info: seq<PrimInfo>, wb: seq<Bounds3>) {
    forall k :: 0 <= k < |info| ==> info[k].primId < |wb| && wb[info[k].primId] == info[k].bounds
  }

  /** The primitives of a part are primitives of the whole. */
  lemma ConsistentPart(part: seq<PrimInfo>, other: seq<PrimInfo>, info: seq<PrimInfo>, wb: seq<Bounds3>)
    requires Consistent(info, wb) && multiset(part) + multiset(other) == multiset(info)
    ensures Consistent(part, wb)
  {
    forall k | 0 <= k < |part|
      ensures part[k].primId < |wb| && wb[part[k].primId] == part[k].bounds
    {
      assert part[k] in multiset(info);
    }
  }

  /** From position `first` of `placed` on sit the boxes, in `wb`, of the ids `ids`. */
  ghost predicate PlacedAt(placed: seq<Bounds3>, first: nat, ids: seq<int>, wb: seq<Bounds3>) {
    first + |ids| <= |placed| && forall k :: 0 <= k < |ids| ==> 0 <= ids[k] < |wb| && placed[first + k] == wb[ids[k]]
  }

  /** Placing `ids1 + ids2` places `ids1` and, right after it, `ids2`. */
  lemma PlacedSplit(placed: seq<Bounds3>, first: nat, ids1: seq<int>, ids2: seq<int>, wb: seq<Bounds3>)
    requires PlacedAt(placed, first, ids1 + ids2, wb)
    ensures PlacedAt(placed, first, ids1, wb) && PlacedAt(placed, first + |ids1|, ids2, wb)
  {
    forall k | 0 <= k < |ids1|
      ensures 0 <= ids1[k] < |wb| && placed[first + k] == wb[ids1[k]]
    {
      assert (ids1 + ids2)[k] == ids1[k];
    }
    forall k | 0 <= k < |ids2|
      ensures 0 <= ids2[k] < |wb| && placed[first + |ids1| + k] == wb[ids2[k]]
    {
      assert (ids1 + ids2)[|ids1| + k] == ids2[k];
    }
  }

  /** A leaf made of placed primitives holds their boxes. */
  lemma LeafFits(info: seq<PrimInfo>, first: nat, wb: seq<Bounds3>, placed: seq<Bounds3>)
    requires |info| >= 1 && Consistent(info, wb) && PlacedAt(placed, first, IdsOf(info), wb)
    ensures Fits(Leaf(FoldBounds(info).0, first, |info|), placed)
  {
    FoldBoundsCovers(info);
    forall k | first <= k < first + |info|
      ensures Within(placed[k], FoldBounds(info).0)
    {
      assert placed[k] == wb[IdsOf(info)[k - first]];
    }
  }

  /** Two fitting children make a fitting interior node. */
  lemma InteriorFits(t1: BuildNode, t2: BuildNode, ax: nat, placed: seq<Bounds3>)
    requires Fits(t1, placed) && Fits(t2, placed)
    ensures Fits(NewInterior(t1, t2, ax), placed)
  {
  }

  /**
   * Once the box of every pushed id sits at its position in `placed`, every
   * leaf box holds the boxes of its primitives and every interior box is the
   * join of its children's.
   */
  lemma {:induction false} BuildByFits(plan: seq<PrimInfo> -> Plan, info: seq<PrimInfo>, first: nat, wb: seq<Bounds3>, placed: seq<Bounds3>)
    requires Sound(plan) && Rearranging(plan) && |info| >= 1 && Consistent(info, wb)
    requires PlacedAt(placed, first, BuildBy(plan, info, first).1, wb)
    ensures Fits(BuildBy(plan, info, first).0, placed)
    decreases |info|
  {
    match plan(info)
    case Stop =>
      LeafFits(info, first, wb, placed);
    case Split(ax, l, r) =>
      assert SoundAt(plan(info), info);
      assert RearrangingAt(plan(info), info);
      var b1 := BuildBy(plan, l, first);
      var b2 := BuildBy(plan, r, first + |b1.1|);
      assert BuildBy(plan, info, first) == (NewInterior(b1.0, b2.0, ax), b1.1 + b2.1);
      ConsistentPart(l, r, info, wb);
      ConsistentPart(r, l, info, wb);
      PlacedSplit(placed, first, b1.1, b2.1, wb);
      BuildByFits(plan, l, first, wb, placed);
      BuildByFits(plan, r, first + |b1.1|, wb, placed);
      InteriorFits(b1.0, b2.0, ax, placed);
  }

  /**
   * `recursive_build` counts its primitives, covers the positions of the
   * ids it pushes with its leaves from left to right (each leaf holding at
   * least one primitive), and pushes each primitive's id as often as the
   * primitive occurs.
   */
  lemma BuildShape(info: seq<PrimInfo>, first: nat)
    requires |info| >= 1
    ensures PrimCount(Build(info, first).0) == |info| == |Build(info, first).1|
    ensures Contiguous(Build(info, first).0, first)
    ensures multiset(Build(info, first).1) == multiset(IdsOf(info))
  {
    MiddleSound();
    BuildByCount(Middle, info, first);
    BuildByContiguous(Middle, info, first);
    BuildByIds(Middle, info, first);
  }

  /** The tree built by `recursive_build` bounds its primitives once they are placed in its order. */
  lemma BuildFits(info: seq<PrimInfo>, first: nat, wb: seq<Bounds3>, placed: seq<Bounds3>)
    requires |info| >= 1 && Consistent(info, wb) && PlacedAt(placed, first, Build(info, first).1, wb)
    ensures Fits(Build(info, first).0, placed)
  {
    MiddleSound();
    BuildByFits(Middle, info, first, wb, placed);
  }

  /**
   * `recursive_build` makes a leaf exactly when there is one primitive or
   * all (finite) centroids coincide.
   */
  lemma BuildLeafIff(info: seq<PrimInfo>, first: nat)
    requires |info| >= 1 && forall k :: 0 <= k < |info| ==> FinitePoint(info[k].centroid)
    ensures Build(info, first).0.Leaf? <==> |info| == 1 || forall k :: 0 <= k < |info| ==> info[k].centroid == info[0].centroid
  {
    CentroidBoundsPoint(info);
    MiddleSound();
  }

  /** Pushing `ids1` and then `ids2` pushes `ids1 + ids2`. */
  lemma AppendStep(o: seq<int>, ids1: seq<int>, mid: seq<int>, ids2: seq<int>, after: seq<int>)
    requires mid == o + ids1 && after == mid + ids2
    ensures after == o + (ids1 + ids2) && |mid| == |o| + |ids1|
  {
  }

  /** `build`'s own state for the recursion: the `prim_ordering` vector. */
  class Builder {
    var primOrdering: seq<int>

    constructor ()
      ensures primOrdering == []
    {
      primOrdering := [];
    }

    /** The leaf case's `for prim in prim_info { prim_ordering.push(prim.prim_id) }`. */
    method PushIds(info: seq<PrimInfo>)
      modifies this
      ensures primOrdering == old(primOrdering) + IdsOf(info)
    {
      for k := 0 to |info|
        invariant primOrdering == old(primOrdering) + IdsOf(info[..k])
      {
        IdsOfAppend(info[..k], [info[k]]);
        assert info[..k + 1] == info[..k] + [info[k]];
        assert IdsOf([info[k]]) == [info[k].primId];
        primOrdering := primOrdering + [info[k].primId];
      }
      assert info[..|info|] == info;
    }

    /** `recursive_build`: returns the node and pushes the ids of its primitives, in leaf order. */
    method RecursiveBuild(info: seq<PrimInfo>) returns (node: BuildNode)
      requires |info| >= 1
      modifies this
      ensures node == Build(info, |old(primOrdering)|).0
      ensures primOrdering == old(primOrdering) + Build(info, |old(primOrdering)|).1
      decreases |info|, 1
    {
      MiddleSound();
      var fold := FoldBounds(info);
      var nPrims := |info|;
      if nPrims == 1 || IsPoint(fold.1) {
        var firstPrimIdx := |primOrdering|;
        PushIds(info);
        node := Leaf(fold.0, firstPrimIdx, nPrims);
      } else {
        var ax := MaximumExtent(fold.1);
        var parts := SplitMiddle(info, ax, fold.1);
        node := BuildChildren(info, ax, parts.0, parts.1);
      }
    }

    /** The interior case: both sides built in turn, first side first. */
    method BuildChildren(info: seq<PrimInfo>, ax: nat, part1: seq<PrimInfo>, part2: seq<PrimInfo>) returns (node: BuildNode)
      requires |info| >= 1 && Middle(info) == Split(ax, part1, part2)
      modifies this
      ensures node == Build(info, |old(primOrdering)|).0
      ensures primOrdering == old(primOrdering) + Build(info, |old(primOrdering)|).1
      decreases |info|, 0
    {
      MiddleSound();
      ghost var o := primOrdering;
      var child1 := RecursiveBuild(part1);
      ghost var mid := primOrdering;
      ghost var ids1 := Build(part1, |o|).1;
      var child2 := RecursiveBuild(part2);
      AppendStep(o, ids1, mid, Build(part2, |mid|).1, primOrdering);
      node := NewInterior(child1, child2, ax);
    }
  }
}

// `BVH`: a bounding volume hierarchy over primitives. `build` makes the build
// tree, reorders the primitives into its leaf order and flattens the tree;
// `intersect` and `intersect_test` walk the flat nodes with an explicit stack,
// skipping every subtree whose box the ray misses.
//
// A primitive is abstract: `worldBound(p)` is its box and `dist(p, o, d)` the
// distance of its nearest hit along the ray from `o` in direction `d`. The
// box test `boxHit` is a parameter too; the traversal relies only on its
// being conservative.
module Bvh {
  import opened Wrappers
  import opened Geom
  import opened Bounds
  import opened BvhBuild
  import opened BvhFlatten
  import opened Permutation

  /** `Ray`: origin, direction and the end `t_max` of the searched segment. */
  datatype Ray = Ray(o: Vec3, d: Vec3, tMax: real)

  /** `SurfaceInteraction`, reduced to the primitive hit and the distance of the hit. */
  datatype Hit<P> = Hit(prim: P, t: real)

  /** `BVH`: the primitives in leaf order, the root's box and the flat nodes. */
  datatype Bvh<P> = Bvh(prims: seq<P>, bounds: Bounds3, nodes: seq<LinearNode>)

  /** The primitive hits the ray closer than `t`. */
  predicate HitsBelow<P>(dist: (P, Vec3, Vec3) -> Option<real>, p: P, r: Ray, t: real) {
    dist(p, r.o, r.d).Some? && dist(p, r.o, r.d).value < t
  }

  /**
   * `Primitive::intersect`: a hit closer than `t_max` is reported and becomes
   * the ray's new `t_max`; otherwise nothing changes.
   */
  function PrimIntersect<P>(dist: (P, Vec3, Vec3) -> Option<real>, p: P, r: Ray): (res: (Option<Hit<P>>, Ray))
    ensures res.0.Some? <==> HitsBelow(dist, p, r, r.tMax)
    ensures res.1.o == r.o && res.1.d == r.d && res.1.tMax <= r.tMax
    ensures res.0.Some? ==> res.0.value.prim == p && res.0.value.t == res.1.tMax < r.tMax
                            && dist(p, r.o, r.d) == Some(res.1.tMax)
    ensures res.0.None? ==> res.1 == r
  {
    if HitsBelow(dist, p, r, r.tMax) then
      var t := dist(p, r.o, r.d).value;
      (Some(Hit(p, t)), r.(tMax := t))
    else (None, r)
  }

  /** `Option::or` */
  function Or<T>(a: Option<T>, b: Option<T>): (r: Option<T>)
    ensures r.Some? <==> a.Some? || b.Some?
    ensures a.Some? ==> r == a
    ensures r.Some? && a.None? ==> r == b
  {
    if a.Some? then a else b
  }

  /**
   * The box test never misses a box that holds a primitive the ray hits
   * closer than its `t_max`.
   */
  ghost predicate Conservative<P(!new)>(worldBound: P -> Bounds3, dist: (P, Vec3, Vec3) -> Option<real>, boxHit: (Bounds3, Ray) -> bool) {
    forall p: P, b: Bounds3, r: Ray :: Within(worldBound(p), b) && HitsBelow(dist, p, r, r.tMax) ==> boxHit(b, r)
  }

  /** No primitive of `ps` hits the ray closer than `t`. */
  ghost predicate Cleared<P>(ps: seq<P>, dist: (P, Vec3, Vec3) -> Option<real>, r: Ray, t: real) {
    forall q :: 0 <= q < |ps| ==> !HitsBelow(dist, ps[q], r, t)
  }

  /**
   * Starting from `r` and the interaction `isect0`, the search ended at `t`:
   * an unchanged `t_max` leaves the interaction as it was, and a smaller one
   * is the distance of the reported hit on a primitive of `ps`.
   */
  ghost predicate Reports<P>(ps: seq<P>, dist: (P, Vec3, Vec3) -> Option<real>, r: Ray, isect0: Option<Hit<P>>, isect: Option<Hit<P>>, t: real) {
    t <= r.tMax &&
    (t == r.tMax ==> isect == isect0) &&
    (t < r.tMax ==> isect.Some? && isect.value.t == t && dist(isect.value.prim, r.o, r.d) == Some(t) && isect.value.prim in ps)
  }

  /** `isect` is a nearest hit of the ray on `ps` (none when nothing is hit before `t_max`), and `t` its distance. */
  ghost predicate Nearest<P>(ps: seq<P>, dist: (P, Vec3, Vec3) -> Option<real>, r: Ray, isect: Option<Hit<P>>, t: real) {
    Cleared(ps, dist, r, t) && Reports(ps, dist, r, None, isect, t)
  }

  /** Some primitive of `ps` hits the ray before its `t_max`. */
  ghost predicate AnyHit<P>(ps: seq<P>, dist: (P, Vec3, Vec3) -> Option<real>, r: Ray) {
    exists q :: 0 <= q < |ps| && HitsBelow(dist, ps[q], r, r.tMax)
  }

  /**
   * The nearest hit does not depend on the order of the primitives: over
   * the same primitives, two nearest hits have the same distance, and one is
   * reported exactly when the other is.
   */
  lemma NearestUnique<P>(ps1: seq<P>, ps2: seq<P>, dist: (P, Vec3, Vec3) -> Option<real>, r: Ray,
                             i1: Option<Hit<P>>, t1: real, i2: Option<Hit<P>>, t2: real)
    requires forall x :: x in ps1 <==> x in ps2
    requires Nearest(ps1, dist, r, i1, t1) && Nearest(ps2, dist, r, i2, t2)
    ensures t1 == t2 && (i1.Some? <==> i2.Some?)
  {
    if t1 < r.tMax {
      var q :| 0 <= q < |ps2| && ps2[q] == i1.value.prim;
      assert !HitsBelow(dist, ps2[q], r, t2);
    }
    if t2 < r.tMax {
      var q :| 0 <= q < |ps1| && ps1[q] == i2.value.prim;
      assert !HitsBelow(dist, ps1[q], r, t1);
    }
  }

  /** A nearest hit is reported exactly when some primitive is hit before `t_max`. */
  lemma NearestReportsAnyHit<P>(ps: seq<P>, dist: (P, Vec3, Vec3) -> Option<real>, r: Ray, isect: Option<Hit<P>>, t: real)
    requires Nearest(ps, dist, r, isect, t)
    ensures isect.Some? <==> AnyHit(ps, dist, r)
  {
    if isect.Some? {
      var q :| 0 <= q < |ps| && ps[q] == isect.value.prim;
      assert HitsBelow(dist, ps[q], r, r.tMax);
    }
  }

  /**
   * The loop `for prim in ps { isect = prim.intersect(ray).or(isect) }`,
   * shared by a leaf of the traversal and by the brute-force list search.
   */
  method IntersectEach<P>(ps: seq<P>, dist: (P, Vec3, Vec3) -> Option<real>, ray: Ray, isect0: Option<Hit<P>>)
    returns (isect: Option<Hit<P>>, ray': Ray)
    ensures ray'.o == ray.o && ray'.d == ray.d
    ensures Cleared(ps, dist, ray, ray'.tMax) && Reports(ps, dist, ray, isect0, isect, ray'.tMax)
  {
    isect, ray' := isect0, ray;
    for i := 0 to |ps|
      invariant ray'.o == ray.o && ray'.d == ray.d
      invariant Cleared(ps[..i], dist, ray, ray'.tMax) && Reports(ps[..i], dist, ray, isect0, isect, ray'.tMax)
    {
      var res := PrimIntersect(dist, ps[i], ray');
      isect := Or(res.0, isect);
      ray' := res.1;
      assert ps[..i + 1] == ps[..i] + [ps[i]];
    }
    assert ps[..|ps|] == ps;
  }

  /** The source's `intersect_list`: every primitive in turn. */
  method IntersectList<P>(ps: seq<P>, dist: (P, Vec3, Vec3) -> Option<real>, ray: Ray) returns (isect: Option<Hit<P>>, ray': Ray)
    ensures ray'.o == ray.o && ray'.d == ray.d
    ensures Nearest(ps, dist, ray, isect, ray'.tMax)
  {
    isect, ray' := IntersectEach(ps, dist, ray, None);
  }

  /** `ps.iter().any(|prim| prim.intersect_test(ray))`, the source's `intersect_test_list` and a leaf's test loop. */
  method AnyHitIn<P>(ps: seq<P>, dist: (P, Vec3, Vec3) -> Option<real>, ray: Ray) returns (hit: bool)
    ensures hit <==> AnyHit(ps, dist, ray)
  {
    for i := 0 to |ps|
      invariant forall q :: 0 <= q < i ==> !HitsBelow(dist, ps[q], ray, ray.tMax)
    {
      if HitsBelow(dist, ps[i], ray, ray.tMax) {
        return true;
      }
    }
    return false;
  }

  // ---------------------------------------------------------------- the tree as the traversal sees it

  /** The boxes of the primitives, in order. */
  function Boxes<P>(worldBound: P -> Bounds3, ps: seq<P>): (bs: seq<Bounds3>)
    ensures |bs| == |ps| && forall k :: 0 <= k < |ps| ==> bs[k] == worldBound(ps[k])
  {
    seq(|ps|, k requires 0 <= k < |ps| => worldBound(ps[k]))
  }

  /** Position `k` of the primitive ordering lies under `t`. */
  predicate InTree(k: int, t: BuildNode) {
    match t
    case Leaf(_, f, n) => f <= k < f + n
    case Interior(_, l, r, _) => InTree(k, l) || InTree(k, r)
  }

  /** Position `k` lies under one of the subtrees `ts`. */
  predicate InAny(k: int, ts: seq<BuildNode>) {
    |ts| > 0 && (InTree(k, ts[|ts| - 1]) || InAny(k, ts[..|ts| - 1]))
  }

  /** Every split axis is a coordinate axis. */
  predicate AxesValid(t: BuildNode) {
    match t
    case Leaf(_, _, _) => true
    case Interior(_, l, r, ax) => ax < 3 && AxesValid(l) && AxesValid(r)
  }

  /** The nodes left in a list of subtrees. */
  function TotalSize(ts: seq<BuildNode>): nat {
    if ts == [] then 0 else TotalSize(ts[..|ts| - 1]) + Size(ts[|ts| - 1])
  }

  /** A contiguous tree covers exactly its range of positions, and its axes are valid. */
  lemma {:induction false} ContiguousInTree(t: BuildNode, lo: nat, k: int)
    requires Contiguous(t, lo)
    ensures InTree(k, t) <==> lo <= k < lo + PrimCount(t)
    ensures AxesValid(t)
    decreases t
  {
    match t
    case Leaf(_, _, _) =>
    case Interior(_, l, r, _) =>
      ContiguousInTree(l, lo, k);
      ContiguousInTree(r, lo + PrimCount(l), k);
  }

  /** Under a fitting tree, every position is placed and its box lies within the tree's box. */
  lemma {:induction false} FitsWithin(t: BuildNode, placed: seq<Bounds3>, k: int)
    requires Fits(t, placed) && InTree(k, t)
    ensures 0 <= k < |placed| && Within(placed[k], t.bounds)
    decreases t
  {
    match t
    case Leaf(_, _, _) =>
    case Interior(b, l, r, _) =>
      if InTree(k, l) {
        FitsWithin(l, placed, k);
        WithinTrans(placed[k], l.bounds, b);
      } else {
        FitsWithin(r, placed, k);
        WithinTrans(placed[k], r.bounds, b);
      }
  }

  lemma WithinTrans(a: Bounds3, b: Bounds3, c: Bounds3)
    requires Within(a, b) && Within(b, c)
    ensures Within(a, c)
  {
  }

  /** Pushing a subtree adds its positions to the pending ones. */
  lemma InAnyPush(k: int, ts: seq<BuildNode>, t: BuildNode)
    ensures InAny(k, ts + [t]) <==> InAny(k, ts) || InTree(k, t)
  {
    assert (ts + [t])[..|ts|] == ts;
  }

  lemma TotalSizePush(ts: seq<BuildNode>, t: BuildNode)
    ensures TotalSize(ts + [t]) == TotalSize(ts) + Size(t)
  {
    assert (ts + [t])[..|ts|] == ts;
  }

  /**
   * The traversal's bookkeeping: the current index and every stacked index
   * hold the layout of their (ghost) subtrees, all of which fit the placed
   * boxes and have valid axes; the stack stays within the depth of the tree.
   */
  ghost predicate Frames(nodes: seq<LinearNode>, placed: seq<Bounds3>, depth: nat,
                         stack: seq<nat>, pending: seq<BuildNode>, i: nat, cur: BuildNode) {
    Encodes(nodes, i, cur) && Fits(cur, placed) && AxesValid(cur) &&
    |stack| == |pending| &&
    (forall j :: 0 <= j < |stack| ==> Encodes(nodes, stack[j], pending[j])) &&
    (forall j :: 0 <= j < |pending| ==> Fits(pending[j], placed) && AxesValid(pending[j])) &&
    |stack| + Depth(cur) <= depth &&
    (forall j :: 0 <= j < |pending| ==> j + 1 + Depth(pending[j]) <= depth)
  }

  /** Popping the top of the stack keeps the bookkeeping. */
  lemma FramesPop(nodes: seq<LinearNode>, placed: seq<Bounds3>, depth: nat, stack: seq<nat>, pending: seq<BuildNode>, i: nat, cur: BuildNode)
    requires Frames(nodes, placed, depth, stack, pending, i, cur) && |stack| > 0
    ensures Frames(nodes, placed, depth, stack[..|stack| - 1], pending[..|pending| - 1], stack[|stack| - 1], pending[|pending| - 1])
  {
  }

  /** Descending into one child of an interior node and stacking the other keeps the bookkeeping. */
  lemma FramesPush(nodes: seq<LinearNode>, placed: seq<Bounds3>, depth: nat, stack: seq<nat>, pending: seq<BuildNode>,
                   i: nat, cur: BuildNode, iNext: nat, next: BuildNode, iOther: nat, other: BuildNode)
    requires Frames(nodes, placed, depth, stack, pending, i, cur) && cur.Interior?
    requires (next, other) == (cur.left, cur.right) || (next, other) == (cur.right, cur.left)
    requires Encodes(nodes, iNext, next) && Encodes(nodes, iOther, other)
    ensures Frames(nodes, placed, depth, stack + [iOther], pending + [other], iNext, next)
  {
    var stack', pending' := stack + [iOther], pending + [other];
    forall j | 0 <= j < |stack'|
      ensures Encodes(nodes, stack'[j], pending'[j])
    {
      if j < |stack| {
        assert stack'[j] == stack[j] && pending'[j] == pending[j];
      }
    }
  }

  /** Every position is under the current subtree, under a stacked one, or already cleared. */
  ghost predicate Rest<P>(ps: seq<P>, dist: (P, Vec3, Vec3) -> Option<real>, r: Ray, t: real, cur: BuildNode, pending: seq<BuildNode>) {
    forall k :: 0 <= k < |ps| ==> InTree(k, cur) || InAny(k, pending) || !HitsBelow(dist, ps[k], r, t)
  }

  /** No position under `cur` hits the ray closer than `t`. */
  ghost predicate TreeCleared<P>(ps: seq<P>, dist: (P, Vec3, Vec3) -> Option<real>, r: Ray, t: real, cur: BuildNode) {
    forall k :: 0 <= k < |ps| && InTree(k, cur) ==> !HitsBelow(dist, ps[k], r, t)
  }

  /** Once the current subtree is cleared, the top of the stack takes its place. */
  lemma RestPop<P>(ps: seq<P>, dist: (P, Vec3, Vec3) -> Option<real>, r: Ray, t: real, cur: BuildNode, pending: seq<BuildNode>)
    requires Rest(ps, dist, r, t, cur, pending) && TreeCleared(ps, dist, r, t, cur) && |pending| > 0
    ensures Rest(ps, dist, r, t, pending[|pending| - 1], pending[..|pending| - 1])
  {
  }

  /** Once the current subtree is cleared and nothing is stacked, every primitive is cleared. */
  lemma RestDone<P>(ps: seq<P>, dist: (P, Vec3, Vec3) -> Option<real>, r: Ray, t: real, cur: BuildNode)
    requires Rest(ps, dist, r, t, cur, []) && TreeCleared(ps, dist, r, t, cur)
    ensures Cleared(ps, dist, r, t)
  {
  }

  /** The positions of an interior node are those of its two children. */
  lemma RestPush<P>(ps: seq<P>, dist: (P, Vec3, Vec3) -> Option<real>, r: Ray, t: real, cur: BuildNode, pending: seq<BuildNode>,
                    next: BuildNode, other: BuildNode)
    requires Rest(ps, dist, r, t, cur, pending) && cur.Interior?
    requires (next, other) == (cur.left, cur.right) || (next, other) == (cur.right, cur.left)
    ensures Rest(ps, dist, r, t, next, pending + [other])
  {
    forall k | 0 <= k < |ps|
      ensures InTree(k, next) || InAny(k, pending + [other]) || !HitsBelow(dist, ps[k], r, t)
    {
      InAnyPush(k, pending, other);
    }
  }

  /** A closer `t_max` keeps every cleared position cleared. */
  lemma RestShrink<P>(ps: seq<P>, dist: (P, Vec3, Vec3) -> Option<real>, r: Ray, t: real, t': real, cur: BuildNode, pending: seq<BuildNode>)
    requires Rest(ps, dist, r, t, cur, pending) && t' <= t
    ensures Rest(ps, dist, r, t', cur, pending)
  {
  }

  /** A subtree whose box the ray misses holds no primitive the ray hits before its `t_max`. */
  lemma PrunedCleared<P(!new)>(ps: seq<P>, worldBound: P -> Bounds3, dist: (P, Vec3, Vec3) -> Option<real>, boxHit: (Bounds3, Ray) -> bool,
                         r: Ray, r0: Ray, cur: BuildNode)
    requires Conservative(worldBound, dist, boxHit) && Fits(cur, Boxes(worldBound, ps)) && !boxHit(cur.bounds, r)
    requires r.o == r0.o && r.d == r0.d
    ensures TreeCleared(ps, dist, r0, r.tMax, cur)
  {
    forall k | 0 <= k < |ps| && InTree(k, cur)
      ensures !HitsBelow(dist, ps[k], r, r.tMax)
    {
      FitsWithin(cur, Boxes(worldBound, ps), k);
      assert !HitsBelow(dist, ps[k], r, r.tMax);
    }
  }

  /** A leaf whose primitives are cleared is cleared. */
  lemma LeafCleared<P>(ps: seq<P>, dist: (P, Vec3, Vec3) -> Option<real>, r: Ray, t: real, b: Bounds3, f: nat, n: nat)
    requires f + n <= |ps| && Cleared(ps[f..f + n], dist, r, t)
    ensures TreeCleared(ps, dist, r, t, Leaf(b, f, n))
  {
    forall k | 0 <= k < |ps| && InTree(k, Leaf(b, f, n))
      ensures !HitsBelow(dist, ps[k], r, t)
    {
      assert ps[f..f + n][k - f] == ps[k];
    }
  }

  /** A hit reported from a leaf's primitives is a hit on one of all the primitives. */
  lemma ReportsWiden<P>(ps: seq<P>, dist: (P, Vec3, Vec3) -> Option<real>, r0: Ray, r: Ray, isect: Option<Hit<P>>,
                            leafIsect: Option<Hit<P>>, t: real, f: nat, n: nat)
    requires f + n <= |ps| && r.o == r0.o && r.d == r0.d && r.tMax <= r0.tMax
    requires Reports(ps, dist, r0, None, isect, r.tMax) && Reports(ps[f..f + n], dist, r, isect, leafIsect, t)
    ensures Reports(ps, dist, r0, None, leafIsect, t)
  {
    if t < r.tMax {
      var x := leafIsect.value.prim;
      var q :| 0 <= q < n && ps[f..f + n][q] == x;
      assert ps[f + q] == x;
    }
  }

  // ---------------------------------------------------------------- build

  /** The structure a built, non-empty BVH has, with `root` the tree it was flattened from. */
  ghost predicate ValidWith<P>(bvh: Bvh<P>, worldBound: P -> Bounds3, root: BuildNode) {
    (|bvh.prims| == 0 && bvh.nodes == []) ||
    (|bvh.prims| > 0 && Encodes(bvh.nodes, 0, root) && Contiguous(root, 0) && PrimCount(root) == |bvh.prims| &&
     Fits(root, Boxes(worldBound, bvh.prims)) && bvh.bounds == root.bounds)
  }

  /** `prims.iter().enumerate().map(|(i, p)| BVHPrimInfo::new(i, p.world_bound()))` */
  function Infos<P>(worldBound: P -> Bounds3, ps: seq<P>): (info: seq<PrimInfo>)
    ensures |info| == |ps| && forall k :: 0 <= k < |ps| ==> info[k] == NewPrimInfo(k, worldBound(ps[k]))
  {
    seq(|ps|, k requires 0 <= k < |ps| => NewPrimInfo(k, worldBound(ps[k])))
  }

  /** The ids of the enumerated primitives are their positions. */
  lemma InfosIds<P>(worldBound: P -> Bounds3, ps: seq<P>)
    ensures forall k :: 0 <= k < |ps| ==> IdsOf(Infos(worldBound, ps))[k] == k
    ensures Consistent(Infos(worldBound, ps), Boxes(worldBound, ps))
  {
  }

  /** A sequence holding `0..n` once each, in any order, is a permutation. */
  lemma PermutationOfIds(p: seq<int>, ids: seq<int>)
    requires forall k :: 0 <= k < |ids| ==> ids[k] == k
    requires multiset(p) == multiset(ids)
    ensures IsPermutation(p)
  {
    assert |p| == |multiset(p)| == |multiset(ids)| == |ids|;
    forall k | 0 <= k < |p|
      ensures 0 <= p[k] < |p|
    {
      assert p[k] in multiset(ids);
    }
    forall j, k | 0 <= j < |p| && 0 <= k < |p| && p[j] == p[k]
      ensures j == k
    {
      if j != k {
        var lo, hi := if j < k then j else k, if j < k then k else j;
        TwoCopies(p, lo, hi);
        IdentityOnce(ids, p[j]);
      }
    }
  }

  /** Two equal entries make two copies in the multiset. */
  lemma TwoCopies(p: seq<int>, j: int, k: int)
    requires 0 <= j < k < |p| && p[j] == p[k]
    ensures multiset(p)[p[j]] >= 2
  {
    var v := p[j];
    assert p == p[..j] + [v] + p[j + 1..k] + [v] + p[k + 1..];
    assert multiset(p) == multiset(p[..j]) + multiset{v} + multiset(p[j + 1..k]) + multiset{v} + multiset(p[k + 1..]);
  }

  /** `0..n` holds each value at most once. */
  lemma {:induction false} IdentityOnce(ids: seq<int>, v: int)
    requires forall k :: 0 <= k < |ids| ==> ids[k] == k
    ensures multiset(ids)[v] <= 1
    decreases |ids|
  {
    if ids != [] {
      var n := |ids|;
      var front := ids[..n - 1];
      assert ids == front + [n - 1];
      IdentityOnce(front, v);
      if v == n - 1 {
        assert v !in front;
      }
    }
  }

  /** The leaf boxes hold the placed primitives once the primitives are reordered by the build's ordering. */
  lemma PlacedAfterPermutation<P>(worldBound: P -> Bounds3, ps: seq<P>, ordering: seq<int>)
    requires |ordering| == |ps| && IsPermutation(ordering)
    ensures PlacedAt(Boxes(worldBound, Permuted(ps, ordering)), 0, ordering, Boxes(worldBound, ps))
  {
  }

  /**
   * What the build promises about the enumerated primitives: the ordering it
   * pushes is a permutation of their positions, its tree counts them with
   * contiguous leaves, and once the primitives are reordered by the ordering
   * every leaf box holds the boxes of its primitives.
   */
  lemma BuiltTreeFacts<P>(worldBound: P -> Bounds3, prims: seq<P>)
    requires |prims| > 0
    ensures var built := BvhBuild.Build(Infos(worldBound, prims), 0);
      |built.1| == |prims| && IsPermutation(built.1) &&
      Contiguous(built.0, 0) && PrimCount(built.0) == |prims| &&
      Fits(built.0, Boxes(worldBound, Permuted(prims, built.1)))
  {
    var info := Infos(worldBound, prims);
    var built := BvhBuild.Build(info, 0);
    BuildShape(info, 0);
    InfosIds(worldBound, prims);
    PermutationOfIds(built.1, IdsOf(info));
    PlacedAfterPermutation(worldBound, prims, built.1);
    BuildFits(info, 0, Boxes(worldBound, prims), Boxes(worldBound, Permuted(prims, built.1)));
  }

  /**
   * `BVH::build`: no nodes for no primitives; otherwise the tree of
   * `recursive_build` with the middle split, the primitives reordered into its
   * leaf order by `apply_permutation`, the root's box, and the flattened nodes.
   */
  method Build<P>(prims: seq<P>, worldBound: P -> Bounds3) returns (bvh: Bvh<P>, ghost root: BuildNode)
    requires |prims| <= 0xFFFF
    ensures |prims| == 0 ==> bvh == Bvh([], Empty3(), [])
    ensures |prims| > 0 ==> var built := BvhBuild.Build(Infos(worldBound, prims), 0);
      root == built.0 && |built.1| == |prims| && IsPermutation(built.1) &&
      bvh.prims == Permuted(prims, built.1) && bvh.bounds == root.bounds && bvh.nodes == Flatten(root, 0)
    ensures multiset(bvh.prims) == multiset(prims)
    ensures ValidWith(bvh, worldBound, root)
  {
    if |prims| == 0 {
      return Bvh([], Empty3(), []), Leaf(Empty3(), 0, 0);
    }
    var n := |prims|;
    var primInfo := Infos(worldBound, prims);
    var builder := new Builder();
    var node := builder.RecursiveBuild(primInfo);
    root := node;
    var ordering := builder.primOrdering;
    BuiltTreeFacts(worldBound, prims);
    var worldBox := node.bounds;
    var ordered := Reorder(prims, ordering);
    var flatNodes := FlattenRoot(node);
    bvh := Bvh(ordered, worldBox, flatNodes);
  }

  /** `build`'s call of `apply_permutation` on copies of the primitives and of the ordering. */
  method Reorder<P>(prims: seq<P>, ordering: seq<int>) returns (ordered: seq<P>)
    requires |ordering| == |prims| && IsPermutation(ordering)
    ensures ordered == Permuted(prims, ordering) && multiset(ordered) == multiset(prims)
  {
    var n := |prims|;
    var items := new P[n](k requires 0 <= k < n => prims[k]);
    var indices := new int[n](k requires 0 <= k < n => ordering[k]);
    assert items[..] == prims && indices[..] == ordering;
    ApplyPermutation(items, indices);
    ordered := items[..];
  }

  /** The BVH's box holds the box of every primitive. */
  lemma BoundsHoldPrims<P>(bvh: Bvh<P>, worldBound: P -> Bounds3, root: BuildNode, k: int)
    requires ValidWith(bvh, worldBound, root) && 0 <= k < |bvh.prims|
    ensures Within(worldBound(bvh.prims[k]), bvh.bounds)
  {
    ContiguousInTree(root, 0, k);
    FitsWithin(root, Boxes(worldBound, bvh.prims), k);
  }

  // ---------------------------------------------------------------- traversal

  /**
   * What the traversal keeps from one visit to the next, for the ray `ray0`
   * it was given and the ray `ray` as it stands: the interaction found so far,
   * the bookkeeping of the stack, and every position either still to visit or
   * cleared.
   */
  ghost predicate Walk<P>(prims: seq<P>, nodes: seq<LinearNode>, placed: seq<Bounds3>, depth: nat, dist: (P, Vec3, Vec3) -> Option<real>,
                          ray0: Ray, isect: Option<Hit<P>>, ray: Ray, stack: seq<nat>, pending: seq<BuildNode>, i: nat, cur: BuildNode) {
    ray.o == ray0.o && ray.d == ray0.d && Reports(prims, dist, ray0, None, isect, ray.tMax) &&
    Frames(nodes, placed, depth, stack, pending, i, cur) && Rest(prims, dist, ray0, ray.tMax, cur, pending)
  }

  /** The walk starts at the root with an empty stack. */
  lemma WalkStart<P>(bvh: Bvh<P>, root: BuildNode, worldBound: P -> Bounds3, dist: (P, Vec3, Vec3) -> Option<real>, ray: Ray)
    requires ValidWith(bvh, worldBound, root) && |bvh.prims| > 0
    ensures Walk(bvh.prims, bvh.nodes, Boxes(worldBound, bvh.prims), Depth(root), dist, ray, None, ray, [], [], 0, root)
  {
    forall k | 0 <= k < |bvh.prims|
      ensures InTree(k, root)
    {
      ContiguousInTree(root, 0, k);
    }
    ContiguousInTree(root, 0, 0);
  }

  /** Going down an interior node: the other child's index goes on the stack. */
  lemma WalkPush<P>(prims: seq<P>, nodes: seq<LinearNode>, placed: seq<Bounds3>, depth: nat, dist: (P, Vec3, Vec3) -> Option<real>,
                    ray0: Ray, isect: Option<Hit<P>>, ray: Ray, stack: seq<nat>, pending: seq<BuildNode>, i: nat, cur: BuildNode,
                    iNext: nat, next: BuildNode, iOther: nat, other: BuildNode)
    requires Walk(prims, nodes, placed, depth, dist, ray0, isect, ray, stack, pending, i, cur) && nodes[i].LinInterior?
    requires var second := nodes[i].secondChildIdx;
      (iNext, next, iOther, other) == (i + 1, cur.left, second, cur.right) || (iNext, next, iOther, other) == (second, cur.right, i + 1, cur.left)
    ensures Walk(prims, nodes, placed, depth, dist, ray0, isect, ray, stack + [iOther], pending + [other], iNext, next)
    ensures TotalSize(pending + [other]) + Size(next) < TotalSize(pending) + Size(cur)
  {
    FramesPush(nodes, placed, depth, stack, pending, i, cur, iNext, next, iOther, other);
    RestPush(prims, dist, ray0, ray.tMax, cur, pending, next, other);
    TotalSizePush(pending, other);
  }

  /** Once the current subtree is cleared, the walk goes on with the top of the stack. */
  lemma WalkPop<P>(prims: seq<P>, nodes: seq<LinearNode>, placed: seq<Bounds3>, depth: nat, dist: (P, Vec3, Vec3) -> Option<real>,
                   ray0: Ray, isect: Option<Hit<P>>, ray: Ray, stack: seq<nat>, pending: seq<BuildNode>, i: nat, cur: BuildNode)
    requires Walk(prims, nodes, placed, depth, dist, ray0, isect, ray, stack, pending, i, cur)
    requires TreeCleared(prims, dist, ray0, ray.tMax, cur) && |stack| > 0
    ensures Walk(prims, nodes, placed, depth, dist, ray0, isect, ray, stack[..|stack| - 1], pending[..|pending| - 1],
                 stack[|stack| - 1], pending[|pending| - 1])
    ensures TotalSize(pending[..|pending| - 1]) + Size(pending[|pending| - 1]) < TotalSize(pending) + Size(cur)
  {
    FramesPop(nodes, placed, depth, stack, pending, i, cur);
    RestPop(prims, dist, ray0, ray.tMax, cur, pending);
  }

  /** Once the current subtree is cleared and the stack is empty, the interaction found is the nearest. */
  lemma WalkDone<P>(prims: seq<P>, nodes: seq<LinearNode>, placed: seq<Bounds3>, depth: nat, dist: (P, Vec3, Vec3) -> Option<real>,
                    ray0: Ray, isect: Option<Hit<P>>, ray: Ray, stack: seq<nat>, pending: seq<BuildNode>, i: nat, cur: BuildNode)
    requires Walk(prims, nodes, placed, depth, dist, ray0, isect, ray, stack, pending, i, cur)
    requires TreeCleared(prims, dist, ray0, ray.tMax, cur) && |stack| == 0
    ensures Nearest(prims, dist, ray0, isect, ray.tMax)
  {
    RestDone(prims, dist, ray0, ray.tMax, cur);
  }

  /** The node at the current index is the current subtree's root, with its range inside the primitives. */
  lemma WalkNode<P>(prims: seq<P>, nodes: seq<LinearNode>, placed: seq<Bounds3>, depth: nat, dist: (P, Vec3, Vec3) -> Option<real>,
                    ray0: Ray, isect: Option<Hit<P>>, ray: Ray, stack: seq<nat>, pending: seq<BuildNode>, i: nat, cur: BuildNode)
    requires Walk(prims, nodes, placed, depth, dist, ray0, isect, ray, stack, pending, i, cur) && |placed| == |prims|
    ensures i < |nodes| && nodes[i].bounds == cur.bounds
    ensures nodes[i].LinLeaf? <==> cur.Leaf?
    ensures nodes[i].LinLeaf? ==>
      cur == Leaf(cur.bounds, nodes[i].firstPrimIdx, nodes[i].nPrims) && nodes[i].firstPrimIdx + nodes[i].nPrims <= |prims|
    ensures nodes[i].LinInterior? ==> nodes[i].splitAxis < 3 && |stack| < depth
  {
  }

  /** The leaf case of `intersect`: every primitive of the leaf in turn. */
  method VisitLeaf<P>(prims: seq<P>, dist: (P, Vec3, Vec3) -> Option<real>, ray0: Ray, isect: Option<Hit<P>>, ray: Ray,
                      ghost cur: BuildNode, ghost pending: seq<BuildNode>, firstPrimIdx: nat, nPrims: nat)
    returns (isect': Option<Hit<P>>, ray': Ray)
    requires cur == Leaf(cur.bounds, firstPrimIdx, nPrims) && firstPrimIdx + nPrims <= |prims|
    requires ray.o == ray0.o && ray.d == ray0.d && Reports(prims, dist, ray0, None, isect, ray.tMax)
    requires Rest(prims, dist, ray0, ray.tMax, cur, pending)
    ensures ray'.o == ray0.o && ray'.d == ray0.d && Reports(prims, dist, ray0, None, isect', ray'.tMax)
    ensures Rest(prims, dist, ray0, ray'.tMax, cur, pending) && TreeCleared(prims, dist, ray0, ray'.tMax, cur)
  {
    isect', ray' := IntersectEach(prims[firstPrimIdx..firstPrimIdx + nPrims], dist, ray, isect);
    ReportsWiden(prims, dist, ray0, ray, isect, isect', ray'.tMax, firstPrimIdx, nPrims);
    RestShrink(prims, dist, ray0, ray.tMax, ray'.tMax, cur, pending);
    LeafCleared(prims, dist, ray, ray'.tMax, cur.bounds, firstPrimIdx, nPrims);
  }

  /**
   * `BVH::intersect`: the nearest hit over all primitives, with the ray's
   * `t_max` lowered to its distance. Subtrees whose box the ray misses are
   * skipped; the 64-entry stack suffices for trees at most 64 deep.
   */
  method Intersect<P(!new)>(bvh: Bvh<P>, ghost root: BuildNode, worldBound: P -> Bounds3, dist: (P, Vec3, Vec3) -> Option<real>,
                            boxHit: (Bounds3, Ray) -> bool, ray: Ray) returns (isect: Option<Hit<P>>, ray': Ray)
    requires ValidWith(bvh, worldBound, root) && Conservative(worldBound, dist, boxHit)
    requires |bvh.prims| > 0 ==> Depth(root) <= 64
    ensures ray'.o == ray.o && ray'.d == ray.d
    ensures Nearest(bvh.prims, dist, ray, isect, ray'.tMax)
  {
    var prims, nodes := bvh.prims, bvh.nodes;
    isect, ray' := None, ray;
    if |nodes| == 0 {
      return;
    }
    ghost var placed := Boxes(worldBound, prims);
    var dirIsNeg := [ray.d.x < 0.0, ray.d.y < 0.0, ray.d.z < 0.0];
    var nodesToVisit: seq<nat> := [];
    ghost var pending: seq<BuildNode> := [];
    var currentNodeIndex: nat := 0;
    ghost var cur := root;
    WalkStart(bvh, root, worldBound, dist, ray);
    while true
      invariant Walk(prims, nodes, placed, Depth(root), dist, ray, isect, ray', nodesToVisit, pending, currentNodeIndex, cur)
      decreases TotalSize(pending) + Size(cur)
    {
      WalkNode(prims, nodes, placed, Depth(root), dist, ray, isect, ray', nodesToVisit, pending, currentNodeIndex, cur);
      var node := nodes[currentNodeIndex];
      if boxHit(node.bounds, ray') {
        match node
        case LinLeaf(_, firstPrimIdx, nPrims) =>
          isect, ray' := VisitLeaf(prims, dist, ray, isect, ray', cur, pending, firstPrimIdx, nPrims);
          if |nodesToVisit| > 0 {
            WalkPop(prims, nodes, placed, Depth(root), dist, ray, isect, ray', nodesToVisit, pending, currentNodeIndex, cur);
            currentNodeIndex, cur := nodesToVisit[|nodesToVisit| - 1], pending[|pending| - 1];
            nodesToVisit, pending := nodesToVisit[..|nodesToVisit| - 1], pending[..|pending| - 1];
          } else {
            WalkDone(prims, nodes, placed, Depth(root), dist, ray, isect, ray', nodesToVisit, pending, currentNodeIndex, cur);
            break;
          }
        case LinInterior(_, secondChildIdx, splitAxis) =>
          assert |nodesToVisit| < 64;
          if dirIsNeg[splitAxis] {
            WalkPush(prims, nodes, placed, Depth(root), dist, ray, isect, ray', nodesToVisit, pending, currentNodeIndex, cur,
                     secondChildIdx, cur.right, currentNodeIndex + 1, cur.left);
            nodesToVisit, pending := nodesToVisit + [currentNodeIndex + 1], pending + [cur.left];
            currentNodeIndex, cur := secondChildIdx, cur.right;
          } else {
            WalkPush(prims, nodes, placed, Depth(root), dist, ray, isect, ray', nodesToVisit, pending, currentNodeIndex, cur,
                     currentNodeIndex + 1, cur.left, secondChildIdx, cur.right);
            nodesToVisit, pending := nodesToVisit + [secondChildIdx], pending + [cur.right];
            currentNodeIndex, cur := currentNodeIndex + 1, cur.left;
          }
      } else {
        PrunedCleared(prims, worldBound, dist, boxHit, ray', ray, cur);
        if |nodesToVisit| > 0 {
          WalkPop(prims, nodes, placed, Depth(root), dist, ray, isect, ray', nodesToVisit, pending, currentNodeIndex, cur);
          currentNodeIndex, cur := nodesToVisit[|nodesToVisit| - 1], pending[|pending| - 1];
          nodesToVisit, pending := nodesToVisit[..|nodesToVisit| - 1], pending[..|pending| - 1];
        } else {
          WalkDone(prims, nodes, placed, Depth(root), dist, ray, isect, ray', nodesToVisit, pending, currentNodeIndex, cur);
          break;
        }
      }
    }
  }

  /** What a leaf's test loop finds on a slice of the primitives is a hit on one of them. */
  lemma SliceHit<P>(ps: seq<P>, dist: (P, Vec3, Vec3) -> Option<real>, r: Ray, f: nat, n: nat)
    requires f + n <= |ps| && AnyHit(ps[f..f + n], dist, r)
    ensures AnyHit(ps, dist, r)
  {
    var q :| 0 <= q < n && HitsBelow(dist, ps[f..f + n][q], r, r.tMax);
    assert ps[f..f + n][q] == ps[f + q];
  }

  /** A slice with no hit is cleared up to the ray's `t_max`. */
  lemma SliceMiss<P>(ps: seq<P>, dist: (P, Vec3, Vec3) -> Option<real>, r: Ray, f: nat, n: nat)
    requires f + n <= |ps| && !AnyHit(ps[f..f + n], dist, r)
    ensures Cleared(ps[f..f + n], dist, r, r.tMax)
  {
  }

  /**
   * `BVH::intersect_test`: whether any primitive is hit before the ray's
   * `t_max`, answered on the first hit found; the ray is not changed.
   */
  method IntersectTest<P(!new)>(bvh: Bvh<P>, ghost root: BuildNode, worldBound: P -> Bounds3, dist: (P, Vec3, Vec3) -> Option<real>,
                                boxHit: (Bounds3, Ray) -> bool, ray: Ray) returns (hit: bool)
    requires ValidWith(bvh, worldBound, root) && Conservative(worldBound, dist, boxHit)
    requires |bvh.prims| > 0 ==> Depth(root) <= 64
    ensures hit <==> AnyHit(bvh.prims, dist, ray)
  {
    var prims, nodes := bvh.prims, bvh.nodes;
    if |nodes| == 0 {
      return false;
    }
    ghost var placed := Boxes(worldBound, prims);
    var dirIsNeg := [ray.d.x < 0.0, ray.d.y < 0.0, ray.d.z < 0.0];
    var nodesToVisit: seq<nat> := [];
    ghost var pending: seq<BuildNode> := [];
    var currentNodeIndex: nat := 0;
    ghost var cur := root;
    WalkStart(bvh, root, worldBound, dist, ray);
    while true
      invariant Walk(prims, nodes, placed, Depth(root), dist, ray, None, ray, nodesToVisit, pending, currentNodeIndex, cur)
      decreases TotalSize(pending) + Size(cur)
    {
      WalkNode(prims, nodes, placed, Depth(root), dist, ray, None, ray, nodesToVisit, pending, currentNodeIndex, cur);
      var node := nodes[currentNodeIndex];
      if boxHit(node.bounds, ray) {
        match node
        case LinLeaf(_, firstPrimIdx, nPrims) =>
          var leafHit := AnyHitIn(prims[firstPrimIdx..firstPrimIdx + nPrims], dist, ray);
          if leafHit {
            SliceHit(prims, dist, ray, firstPrimIdx, nPrims);
            return true;
          }
          SliceMiss(prims, dist, ray, firstPrimIdx, nPrims);
          LeafCleared(prims, dist, ray, ray.tMax, cur.bounds, firstPrimIdx, nPrims);
          if |nodesToVisit| > 0 {
            WalkPop(prims, nodes, placed, Depth(root), dist, ray, None, ray, nodesToVisit, pending, currentNodeIndex, cur);
            currentNodeIndex, cur := nodesToVisit[|nodesToVisit| - 1], pending[|pending| - 1];
            nodesToVisit, pending := nodesToVisit[..|nodesToVisit| - 1], pending[..|pending| - 1];
          } else {
            WalkDone(prims, nodes, placed, Depth(root), dist, ray, None, ray, nodesToVisit, pending, currentNodeIndex, cur);
            break;
          }
        case LinInterior(_, secondChildIdx, splitAxis) =>
          assert |nodesToVisit| < 64;
          if dirIsNeg[splitAxis] {
            WalkPush(prims, nodes, placed, Depth(root), dist, ray, None, ray, nodesToVisit, pending, currentNodeIndex, cur,
                     secondChildIdx, cur.right, currentNodeIndex + 1, cur.left);
            nodesToVisit, pending := nodesToVisit + [currentNodeIndex + 1], pending + [cur.left];
            currentNodeIndex, cur := secondChildIdx, cur.right;
          } else {
            WalkPush(prims, nodes, placed, Depth(root), dist, ray, None, ray, nodesToVisit, pending, currentNodeIndex, cur,
                     currentNodeIndex + 1, cur.left, secondChildIdx, cur.right);
            nodesToVisit, pending := nodesToVisit + [secondChildIdx], pending + [cur.right];
            currentNodeIndex, cur := currentNodeIndex + 1, cur.left;
          }
      } else {
        PrunedCleared(prims, worldBound, dist, boxHit, ray, ray, cur);
        if |nodesToVisit| > 0 {
          WalkPop(prims, nodes, placed, Depth(root), dist, ray, None, ray, nodesToVisit, pending, currentNodeIndex, cur);
          currentNodeIndex, cur := nodesToVisit[|nodesToVisit| - 1], pending[|pending| - 1];
          nodesToVisit, pending := nodesToVisit[..|nodesToVisit| - 1], pending[..|pending| - 1];
        } else {
          WalkDone(prims, nodes, placed, Depth(root), dist, ray, None, ray, nodesToVisit, pending, currentNodeIndex, cur);
          break;
        }
      }
    }
    NearestReportsAnyHit(prims, dist, ray, None, ray.tMax);
    return false;
  }

  // ---------------------------------------------------------------- the BVH against the plain list

  /**
   * What the many-node comparison checks for every ray: the plain list's test
   * agrees with its search, the BVH's test agrees with its search, both tests
   * agree, and both searches end at the same distance.
   */
  method CompareWithList<P(!new)>(prims: seq<P>, worldBound: P -> Bounds3, dist: (P, Vec3, Vec3) -> Option<real>,
                                  boxHit: (Bounds3, Ray) -> bool, ray: Ray)
    returns (bvhTest: bool, bvhIsect: Option<Hit<P>>, listTest: bool, listIsect: Option<Hit<P>>)
    requires |prims| <= 0xFFFF && Conservative(worldBound, dist, boxHit)
    requires |prims| > 0 ==> Depth(BvhBuild.Build(Infos(worldBound, prims), 0).0) <= 64
    ensures listTest == listIsect.Some? && bvhTest == bvhIsect.Some? && bvhTest == listTest
    ensures bvhIsect.Some? ==> bvhIsect.value.t == listIsect.value.t
  {
    var bvh, root := Build(prims, worldBound);
    bvhTest := IntersectTest(bvh, root, worldBound, dist, boxHit, ray);
    var bvhRay;
    bvhIsect, bvhRay := Intersect(bvh, root, worldBound, dist, boxHit, ray);
    listTest := AnyHitIn(prims, dist, ray);
    var listRay;
    listIsect, listRay := IntersectList(prims, dist, ray);
    forall x
      ensures x in bvh.prims <==> x in prims
    {
      assert x in bvh.prims <==> x in multiset(bvh.prims);
      assert x in prims <==> x in multiset(prims);
    }
    NearestUnique(bvh.prims, prims, dist, ray, bvhIsect, bvhRay.tMax, listIsect, listRay.tMax);
    NearestReportsAnyHit(bvh.prims, dist, ray, bvhIsect, bvhRay.tMax);
    NearestReportsAnyHit(prims, dist, ray, listIsect, listRay.tMax);
    AnyHitSame(bvh.prims, prims, dist, ray);
  }

  /** Whether some primitive is hit depends only on which primitives there are. */
  lemma AnyHitSame<P>(ps1: seq<P>, ps2: seq<P>, dist: (P, Vec3, Vec3) -> Option<real>, r: Ray)
    requires forall x :: x in ps1 <==> x in ps2
    ensures AnyHit(ps1, dist, r) <==> AnyHit(ps2, dist, r)
  {
    if AnyHit(ps1, dist, r) {
      var q :| 0 <= q < |ps1| && HitsBelow(dist, ps1[q], r, r.tMax);
      assert ps1[q] in ps1;
      var q2 :| 0 <= q2 < |ps2| && ps2[q2] == ps1[q];
    }
    if AnyHit(ps2, dist, r) {
      var q :| 0 <= q < |ps2| && HitsBelow(dist, ps2[q], r, r.tMax);
      assert ps2[q] in ps2;
      var q2 :| 0 <= q2 < |ps1| && ps1[q2] == ps2[q];
    }
  }

  /** The box of a box-shaped primitive is the box itself. */
  function BoxOf(b: Bounds3): Bounds3 { b }

  /** The boxes of the two-primitive example. */
  function UpperBox(): Bounds3 { Bounds3(Vec3(1.0, 1.0, 1.0), Vec3(2.0, 2.0, 2.0)) }
  function LowerBox(): Bounds3 { Bounds3(Vec3(1.0, -1.0, 1.0), Vec3(2.0, -2.0, 2.0)) }

  /** The enumerated infos of two box-shaped primitives. */
  lemma TwoInfos(b1: Bounds3, b2: Bounds3)
    ensures Infos(BoxOf, [b1, b2]) == [NewPrimInfo(0, b1), NewPrimInfo(1, b2)]
  {
  }

  /**
   * Two centroids that differ only in y: the middle split is on y, with the
   * lower centroid on the first side.
   */
  lemma TwoPlan(i1: PrimInfo, i2: PrimInfo)
    requires FinitePoint(i1.centroid) && FinitePoint(i2.centroid)
    requires i1.centroid.x == i2.centroid.x && i1.centroid.z == i2.centroid.z && i2.centroid.y < i1.centroid.y
    ensures Middle([i1, i2]) == Split(1, [i2], [i1])
  {
    OneFold(i1);
    assert [i1, i2][..1] == [i1];
    assert FoldBounds([i1, i2]).1 == JoinPoint(FoldBounds([i1]).1, i2.centroid);
    var cb := FoldBounds([i1, i2]).1;
    assert cb == Bounds3(Vec3(i1.centroid.x, i2.centroid.y, i1.centroid.z), i1.centroid);
    assert MaximumExtent(cb) == 1 && !IsPoint(cb);
    var mid := (cb.min.At(1) + cb.max.At(1)) / 2.0;
    assert Key(i2, 1) < mid <= Key(i1, 1);
    PartitionPair(i1, i2, 1, mid);
    assert SplitMiddle([i1, i2], 1, cb) == ([i2], [i1]);
  }

  /** The partition of two primitives on either side of the midpoint. */
  lemma PartitionPair(a: PrimInfo, b: PrimInfo, ax: nat, mid: real)
    requires ax < 3 && Key(b, ax) < mid <= Key(a, ax)
    ensures Below([a, b], ax, mid) == [b] && NotBelow([a, b], ax, mid) == [a]
  {
    assert [a, b][1..] == [b];
    assert [b][1..] == [];
    assert Below([b], ax, mid) == [b] + Below([], ax, mid);
    assert NotBelow([a, b], ax, mid) == [a] + NotBelow([b], ax, mid);
    assert NotBelow([b], ax, mid) == NotBelow([], ax, mid);
  }

  /** The fold of a single primitive. */
  lemma OneFold(i: PrimInfo)
    ensures FoldBounds([i]) == (Join(Empty3(), i.bounds), JoinPoint(Empty3(), i.centroid))
  {
    assert [i][..0] == [];
    assert FoldBounds([i][..0]) == (Empty3(), Empty3());
  }

  /** A single finite primitive becomes a leaf with its own box. */
  lemma OneLeaf(i: PrimInfo, first: nat)
    requires Finite(i.bounds)
    ensures BuildBy(Middle, [i], first) == (Leaf(i.bounds, first, 1), [i.primId])
  {
    MiddleSound();
    OneFold(i);
    assert Middle([i]) == Stop;
    assert IdsOf([i]) == [i.primId];
  }

  /**
   * Two finite boxes whose centroids differ only in y, the second one lower:
   * the second box is ordered first, and the flat tree is the interior node
   * over both boxes split on y with its second child at index 2, then the
   * leaf of the second box, then the leaf of the first.
   */
  lemma TwoBoxes(b1: Bounds3, b2: Bounds3)
    requires Finite(b1) && Finite(b2)
    requires Centroid(b1).x == Centroid(b2).x && Centroid(b1).z == Centroid(b2).z && Centroid(b2).y < Centroid(b1).y
    ensures BvhBuild.Build(Infos(BoxOf, [b1, b2]), 0).1 == [1, 0]
    ensures Flatten(BvhBuild.Build(Infos(BoxOf, [b1, b2]), 0).0, 0) == [LinInterior(Join(b1, b2), 2, 1), LinLeaf(b2, 0, 1), LinLeaf(b1, 1, 1)]
  {
    var i1, i2 := NewPrimInfo(0, b1), NewPrimInfo(1, b2);
    TwoInfos(b1, b2);
    TwoPlan(i1, i2);
    MiddleSound();
    OneLeaf(i2, 0);
    OneLeaf(i1, 1);
    var l, r := Leaf(b2, 0, 1), Leaf(b1, 1, 1);
    assert [1] + [0] == [1, 0];
    assert BuildBy(Middle, [i1, i2], 0) == (NewInterior(l, r, 1), [1, 0]);
    assert Join(b2, b1) == Join(b1, b2);
  }

  /**
   * The two-primitive build: a unit cube above the plane y = 0 and one below
   * it, given with its corners in decreasing y.
   */
  lemma TwoBoxExample()
    ensures BvhBuild.Build(Infos(BoxOf, [UpperBox(), LowerBox()]), 0).1 == [1, 0]
    ensures Flatten(BvhBuild.Build(Infos(BoxOf, [UpperBox(), LowerBox()]), 0).0, 0)
         == [LinInterior(Join(UpperBox(), LowerBox()), 2, 1), LinLeaf(LowerBox(), 0, 1), LinLeaf(UpperBox(), 1, 1)]
  {
    TwoBoxes(UpperBox(), LowerBox());
  }
}

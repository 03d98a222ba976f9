// `flatten_tree`: the build tree laid out in preorder in one vector of
// `LinearBVHNode`s. An interior node is followed by its first subtree, and
// records where its second subtree starts; a leaf keeps its primitive range.
module BvhFlatten {
  import opened Bounds
  import opened BvhBuild

  /** `LinearBVHNode` with its `LinearNodeKind`. */
  datatype LinearNode =
    | LinLeaf(bounds: Bounds3, firstPrimIdx: nat, nPrims: nat)
    | LinInterior(bounds: Bounds3, secondChildIdx: nat, splitAxis: nat)

  /** The number of nodes in a build tree. */
  function Size(t: BuildNode): nat {
    match t
    case Leaf(_, _, _) => 1
    case Interior(_, l, r, _) => 1 + Size(l) + Size(r)
  }

  /** The preorder layout of `t` when its root lands at index `base`. */
  function Flatten(t: BuildNode, base: nat): (r: seq<LinearNode>)
    ensures |r| == Size(t)
  {
    match t
    case Leaf(b, f, n) => [LinLeaf(b, f, n)]
    case Interior(b, l, rt, ax) =>
      [LinInterior(b, base + 1 + Size(l), ax)] + Flatten(l, base + 1) + Flatten(rt, base + 1 + Size(l))
  }

  /**
   * `nodes[i..]` starts with the layout of `t`: a leaf's node holds its box
   * and range, an interior node its box, its axis and the index of its
   * second child; the first child follows it directly.
   */
  ghost predicate Encodes(nodes: seq<LinearNode>, i: nat, t: BuildNode)
    decreases t
  {
    i < |nodes| &&
    match t
    case Leaf(b, f, n) => nodes[i] == LinLeaf(b, f, n)
    case Interior(b, l, r, ax) =>
      nodes[i] == LinInterior(b, i + 1 + Size(l), ax) && Encodes(nodes, i + 1, l) && Encodes(nodes, i + 1 + Size(l), r)
  }

  /** Appending nodes after an encoded subtree keeps it encoded. */
  lemma {:induction false} EncodesExtend(nodes: seq<LinearNode>, more: seq<LinearNode>, i: nat, t: BuildNode)
    requires Encodes(nodes, i, t)
    ensures Encodes(nodes + more, i, t)
    decreases t
  {
    match t
    case Leaf(_, _, _) =>
    case Interior(_, l, r, _) =>
      EncodesExtend(nodes, more, i + 1, l);
      EncodesExtend(nodes, more, i + 1 + Size(l), r);
  }

  /** An encoded subtree lies inside the vector. */
  lemma {:induction false} EncodesFits(nodes: seq<LinearNode>, i: nat, t: BuildNode)
    requires Encodes(nodes, i, t)
    ensures i + Size(t) <= |nodes|
    decreases t
  {
    match t
    case Leaf(_, _, _) =>
    case Interior(_, l, r, _) =>
      EncodesFits(nodes, i + 1 + Size(l), r);
  }

  /** The preorder layout placed at `|pre|` encodes the tree there, whatever comes before or after. */
  lemma {:induction false} FlattenEncodes(pre: seq<LinearNode>, t: BuildNode, post: seq<LinearNode>)
    ensures Encodes(pre + Flatten(t, |pre|) + post, |pre|, t)
    decreases t
  {
    match t
    case Leaf(b, f, n) =>
    case Interior(b, l, r, ax) =>
      var hd := [LinInterior(b, |pre| + 1 + Size(l), ax)];
      var fl := Flatten(l, |pre| + 1);
      var fr := Flatten(r, |pre| + 1 + Size(l));
      var all := pre + Flatten(t, |pre|) + post;
      assert all == (pre + hd) + fl + (fr + post);
      FlattenEncodes(pre + hd, l, fr + post);
      assert all == (pre + hd + fl) + fr + post;
      FlattenEncodes(pre + hd + fl, r, post);
  }

  /** The flattened vector determines the tree: two trees encoded at the same place are equal. */
  lemma {:induction false} EncodesUnique(nodes: seq<LinearNode>, i: nat, t1: BuildNode, t2: BuildNode)
    requires Encodes(nodes, i, t1) && Encodes(nodes, i, t2)
    ensures t1 == t2
    decreases t1
  {
    match t1
    case Leaf(_, _, _) =>
    case Interior(_, l1, r1, _) =>
      var l2, r2 := t2.left, t2.right;
      EncodesUnique(nodes, i + 1, l1, l2);
      EncodesUnique(nodes, i + 1 + Size(l1), r1, r2);
  }

  /** A tree whose leaves each hold a primitive has fewer nodes than twice its primitives. */
  lemma {:induction false} SizeBound(t: BuildNode, lo: nat)
    requires Contiguous(t, lo)
    ensures Size(t) + 1 <= 2 * PrimCount(t)
    decreases t
  {
    match t
    case Leaf(_, _, _) =>
    case Interior(_, l, r, _) =>
      SizeBound(l, lo);
      SizeBound(r, lo + PrimCount(l));
  }

  /** Overwriting the entry right after `a` replaces that entry and nothing else. */
  lemma PatchAt(a: seq<LinearNode>, x: LinearNode, b: seq<LinearNode>, y: LinearNode)
    ensures (a + [x] + b)[|a| := y] == a + [y] + b
  {
  }

  /** The vector `flatten_tree` pushes onto. */
  class NodeList {
    var nodes: seq<LinearNode>

    constructor ()
      ensures nodes == []
    {
      nodes := [];
    }

    /**
     * `flatten_tree`: pushes the subtree in preorder, patching each interior
     * node's second-child index once its first subtree is in place, and
     * returns the number of nodes pushed.
     */
    method FlattenTree(node: BuildNode) returns (len: nat)
      modifies this
      ensures nodes == old(nodes) + Flatten(node, |old(nodes)|)
      ensures len == Size(node)
      decreases node
    {
      match node
      case Leaf(b, f, n) =>
        nodes := nodes + [LinLeaf(b, f, n)];
        len := 1;
      case Interior(b, l, r, ax) =>
        ghost var o := nodes;
        nodes := nodes + [LinInterior(b, 0, ax)];
        var myIdx := |nodes| - 1;
        var firstSubtreeLen := FlattenTree(l);
        var secondIdx := myIdx + firstSubtreeLen + 1;
        PatchAt(o, LinInterior(b, 0, ax), Flatten(l, |o| + 1), LinInterior(b, secondIdx, ax));
        SetSecondChild(myIdx, secondIdx);
        var secondSubtreeLen := FlattenTree(r);
        InteriorLayout(o, node);
        len := firstSubtreeLen + secondSubtreeLen + 1;
    }

    /** The `if let LinearNodeKind::Interior` patch of the placeholder at `i`. */
    method SetSecondChild(i: nat, secondIdx: nat)
      requires i < |nodes| && nodes[i].LinInterior?
      modifies this
      ensures nodes == old(nodes)[i := old(nodes)[i].(secondChildIdx := secondIdx)]
    {
      if nodes[i].LinInterior? {
        nodes := nodes[i := nodes[i].(secondChildIdx := secondIdx)];
      } else {
        assert false;
      }
    }
  }

  /** The placeholder patched, then both subtrees: the preorder layout of the interior node. */
  lemma {:induction false} InteriorLayout(o: seq<LinearNode>, t: BuildNode)
    requires t.Interior?
    ensures o + [LinInterior(t.bounds, |o| + 1 + Size(t.left), t.splitAxis)] + Flatten(t.left, |o| + 1)
              + Flatten(t.right, |o| + 1 + Size(t.left))
         == o + Flatten(t, |o|)
  {
    var hd := [LinInterior(t.bounds, |o| + 1 + Size(t.left), t.splitAxis)];
    var fl, fr := Flatten(t.left, |o| + 1), Flatten(t.right, |o| + 1 + Size(t.left));
    assert Flatten(t, |o|) == hd + fl + fr;
    SeqAssoc(o, hd, fl, fr);
  }

  lemma SeqAssoc(a: seq<LinearNode>, b: seq<LinearNode>, c: seq<LinearNode>, d: seq<LinearNode>)
    ensures a + b + c + d == a + (b + c + d)
  {
  }

  /** `build`'s use: flattening the root into an empty vector encodes the whole tree from index 0. */
  method FlattenRoot(root: BuildNode) returns (flat: seq<LinearNode>)
    ensures flat == Flatten(root, 0)
    ensures Encodes(flat, 0, root) && |flat| == Size(root)
  {
    var list := new NodeList();
    var treeLen := list.FlattenTree(root);
    flat := list.nodes;
    assert flat == [] + Flatten(root, 0) + [];
    FlattenEncodes([], root, []);
  }
}

/**
  The zero-padded binary tree that the members tree, the DML root hashers and the sparse path builder
  all compute by different routes. Nodes are addressed by level and index, so the tree needs no
  stored shape: node (l, i) covers the leaves i * 2^l up to (i + 1) * 2^l, and a leaf past the end of
  the list is the empty leaf. Every fast route is proved equal to `Node`.
 */
module PaddedTree {

  /** 2 ** n. */
  function Pow2(n: nat): (r: nat)
    ensures r > 0
  {
    if n == 0 then 1 else 2 * Pow2(n - 1)
  }

  /** n >> l, one halving at a time: the index at level l above leaf n. */
  function Shift(n: nat, l: nat): nat {
    if l == 0 then n else Shift(n, l - 1) / 2
  }

  /** How many nodes of level l have at least one of the first n leaves beneath them. */
  function Width(n: nat, l: nat): nat {
    if l == 0 then n else (Width(n, l - 1) + 1) / 2
  }

  /** The number of set bits. */
  function PopCount(n: nat): nat {
    if n == 0 then 0 else n % 2 + PopCount(n / 2)
  }

  /** idx ^ 1. */
  function Sibling(i: nat): nat {
    if i % 2 == 0 then i + 1 else i - 1
  }

  /** The root of an all-empty subtree of height l. */
  function ZeroRoot<T>(h: (T, T) -> T, z: T, l: nat): T {
    if l == 0 then z else h(ZeroRoot(h, z, l - 1), ZeroRoot(h, z, l - 1))
  }

  /** Node i of level l in the tree over s, every slot past the end holding z. */
  function Node<T>(h: (T, T) -> T, z: T, s: seq<T>, l: nat, i: nat): T {
    if l == 0 then (if i < |s| then s[i] else z)
    else h(Node(h, z, s, l - 1, 2 * i), Node(h, z, s, l - 1, 2 * i + 1))
  }

  /** The root of the depth-d tree over s. */
  function Root<T>(h: (T, T) -> T, z: T, s: seq<T>, d: nat): T {
    Node(h, z, s, d, 0)
  }

  // ---- index arithmetic --------------------------------------------------------------------------

  lemma {:induction false} WidthBound(n: nat, l: nat)
    ensures Shift(n, l) <= Width(n, l) <= Shift(n, l) + 1
    ensures Width(n + 1, l) == Shift(n, l) + 1
  {
    if l > 0 {
      WidthBound(n, l - 1);
    }
  }

  lemma {:induction false} ShiftStep(n: nat, l: nat)
    ensures Shift(n + 1, l) == Shift(n, l) || Shift(n + 1, l) == Shift(n, l) + 1
  {
    if l > 0 {
      ShiftStep(n, l - 1);
    }
  }

  lemma {:induction false} ShiftAdd(n: nat, k: nat, l: nat)
    ensures Shift(Shift(n, k), l) == Shift(n, k + l)
  {
    if l > 0 {
      ShiftAdd(n, k, l - 1);
    }
  }

  /** The level-d index above leaf n is 0 exactly when n fits in a tree of depth d. */
  lemma {:induction false} ShiftVanishes(n: nat, d: nat)
    ensures Shift(n, d) == 0 <==> n < Pow2(d)
    decreases d
  {
    if d > 0 {
      ShiftAdd(n, 1, d - 1);
      assert Shift(n, 1) == Shift(n, 0) / 2 == n / 2;
      ShiftVanishes(n / 2, d - 1);
    }
  }

  /** 2^d leaves leave exactly one node at level d and an even index at every level below it. */
  lemma {:induction false} ShiftOfPow2(d: nat, l: nat)
    requires l <= d
    ensures Shift(Pow2(d), l) == Pow2(d - l)
  {
    if l > 0 {
      ShiftOfPow2(d, l - 1);
      assert Pow2(d - (l - 1)) == 2 * Pow2(d - l);
    }
  }

  lemma {:induction false} WidthOne(n: nat, d: nat)
    requires 0 < n
    ensures Width(n, d) == 1 <==> n <= Pow2(d)
    ensures Width(n, d) >= 1
  {
    WidthBound(n - 1, d);
    ShiftVanishes(n - 1, d);
  }

  lemma {:induction false} EmptyWidth(l: nat)
    ensures Width(0, l) == 0
  {
    if l > 0 {
      EmptyWidth(l - 1);
    }
  }

  // ---- what a node depends on --------------------------------------------------------------------

  /** A node with no leaf beneath it is the all-empty subtree of its height. */
  lemma {:induction false} EmptyNode<T>(h: (T, T) -> T, z: T, s: seq<T>, l: nat, i: nat)
    requires i >= Width(|s|, l)
    ensures Node(h, z, s, l, i) == ZeroRoot(h, z, l)
  {
    if l > 0 {
      EmptyNode(h, z, s, l - 1, 2 * i);
      EmptyNode(h, z, s, l - 1, 2 * i + 1);
    }
  }

  /** Appending a leaf changes only the nodes above that leaf. */
  lemma {:induction false} AppendFrame<T>(h: (T, T) -> T, z: T, s: seq<T>, x: T, l: nat, i: nat)
    requires i != Shift(|s|, l)
    ensures Node(h, z, s + [x], l, i) == Node(h, z, s, l, i)
  {
    if l > 0 {
      AppendFrame(h, z, s, x, l - 1, 2 * i);
      AppendFrame(h, z, s, x, l - 1, 2 * i + 1);
    }
  }

  /** Padding the list with empty leaves changes no node, so a padded build and an occupied-only
      build describe one tree. */
  lemma {:induction false} PaddingInvisible<T>(h: (T, T) -> T, z: T, s: seq<T>, t: seq<T>, l: nat, i: nat)
    requires |s| <= |t| && s == t[..|s|]
    requires forall k :: |s| <= k < |t| ==> t[k] == z
    ensures Node(h, z, t, l, i) == Node(h, z, s, l, i)
  {
    if l == 0 {
      if i < |s| { assert t[..|s|][i] == t[i]; }
    } else {
      PaddingInvisible(h, z, s, t, l - 1, 2 * i);
      PaddingInvisible(h, z, s, t, l - 1, 2 * i + 1);
    }
  }

  // ---- sibling paths -----------------------------------------------------------------------------

  /** The sibling at every level above leaf i, lowest first. */
  function PathNodes<T>(h: (T, T) -> T, z: T, s: seq<T>, i: nat, d: nat): (p: seq<T>)
    ensures |p| == d
  {
    if d == 0 then []
    else PathNodes(h, z, s, i, d - 1) + [Node(h, z, s, d - 1, Sibling(Shift(i, d - 1)))]
  }

  /** Which side the leaf's own node is on at every level: 0 is the left child, 1 the right. */
  function PathSides(i: nat, d: nat): (p: seq<nat>)
    ensures |p| == d
  {
    if d == 0 then [] else PathSides(i, d - 1) + [Shift(i, d - 1) % 2]
  }

  /** What a verifier computes: hash the leaf up the path. */
  function Fold<T>(h: (T, T) -> T, leaf: T, elems: seq<T>, sides: seq<nat>): T
    requires |elems| == |sides|
    decreases |elems|
  {
    if |elems| == 0 then leaf
    else
      var below := Fold(h, leaf, elems[..|elems| - 1], sides[..|sides| - 1]);
      var e := elems[|elems| - 1];
      if sides[|sides| - 1] == 0 then h(below, e) else h(e, below)
  }

  lemma FoldStep<T>(h: (T, T) -> T, leaf: T, elems: seq<T>, sides: seq<nat>, e: T, side: nat)
    requires |elems| == |sides|
    ensures Fold(h, leaf, elems + [e], sides + [side])
         == var below := Fold(h, leaf, elems, sides); if side == 0 then h(below, e) else h(e, below)
  {
    assert (elems + [e])[..|elems|] == elems && (sides + [side])[..|sides|] == sides;
  }

  /** A node and its sibling hash, in their order, to the parent. */
  lemma ParentOf<T>(h: (T, T) -> T, z: T, s: seq<T>, l: nat, j: nat)
    ensures Node(h, z, s, l + 1, j / 2)
         == if j % 2 == 0 then h(Node(h, z, s, l, j), Node(h, z, s, l, Sibling(j)))
            else h(Node(h, z, s, l, Sibling(j)), Node(h, z, s, l, j))
  {
    assert 2 * (j / 2) == (if j % 2 == 0 then j else Sibling(j));
  }

  /** Folding a leaf up its sibling path reaches the node above it, at every height. */
  lemma {:induction false} PathFolds<T>(h: (T, T) -> T, z: T, s: seq<T>, i: nat, d: nat)
    ensures Fold(h, Node(h, z, s, 0, i), PathNodes(h, z, s, i, d), PathSides(i, d))
         == Node(h, z, s, d, Shift(i, d))
  {
    if d > 0 {
      PathFolds(h, z, s, i, d - 1);
      var j := Shift(i, d - 1);
      FoldStep(h, Node(h, z, s, 0, i), PathNodes(h, z, s, i, d - 1), PathSides(i, d - 1),
               Node(h, z, s, d - 1, Sibling(j)), j % 2);
      ParentOf(h, z, s, d - 1, j);
    }
  }

  /** So the path of any in-range leaf folds to the root. */
  lemma {:induction false} PathFoldsToRoot<T>(h: (T, T) -> T, z: T, s: seq<T>, i: nat, d: nat)
    requires i < Pow2(d)
    ensures Fold(h, Node(h, z, s, 0, i), PathNodes(h, z, s, i, d), PathSides(i, d)) == Root(h, z, s, d)
  {
    PathFolds(h, z, s, i, d);
    ShiftVanishes(i, d);
  }
}

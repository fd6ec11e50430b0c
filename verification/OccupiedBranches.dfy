/**
  Roots and paths built from the occupied branches only (common/merkle_path.js, common/dml_root.js and
  the same loop over SHA-256 in common/dml_sha_root.js): each level holds just the nodes with a real
  leaf beneath them, and a missing right sibling is the all-empty subtree of that height. Proved equal
  to the padded tree's root and to the path its full build gives.
 */
module OccupiedBranches {
  import opened Wrappers
  import opened PaddedTree

  datatype BranchError = NoLeaves | TooManyLeaves(count: nat) | NotALeaf(index: int)

  datatype RootedPath<T> = RootedPath(elements: seq<T>, sides: seq<nat>, root: T)

  /** Level l holds exactly the nodes of that level with a leaf beneath them. */
  ghost predicate IsLevel<T>(h: (T, T) -> T, z: T, s: seq<T>, l: nat, level: seq<T>) {
    && |level| == Width(|s|, l)
    && forall i {:trigger level[i]} :: 0 <= i < |level| ==> level[i] == Node(h, z, s, l, i)
  }

  method ZeroRoots<T>(h: (T, T) -> T, z: T, depth: nat) returns (zeros: seq<T>)
    ensures |zeros| == depth + 1
    ensures forall l {:trigger zeros[l]} :: 0 <= l <= depth ==> zeros[l] == ZeroRoot(h, z, l)
  {
    zeros := [z];
    for l := 0 to depth
      invariant |zeros| == l + 1
      invariant forall k {:trigger zeros[k]} :: 0 <= k <= l ==> zeros[k] == ZeroRoot(h, z, k)
    {
      zeros := zeros + [h(zeros[l], zeros[l])];
    }
  }

  /** One level up: pair the nodes, completing an odd count with the empty subtree. */
  method NextLevel<T>(h: (T, T) -> T, ghost z: T, ghost s: seq<T>, ghost l: nat, level: seq<T>, zero: T)
    returns (next: seq<T>)
    requires IsLevel(h, z, s, l, level) && zero == ZeroRoot(h, z, l)
    ensures IsLevel(h, z, s, l + 1, next)
  {
    next := [];
    var i := 0;
    while i < |level|
      invariant i == 2 * |next| <= |level| + 1
      invariant forall j {:trigger next[j]} :: 0 <= j < |next| ==> next[j] == Node(h, z, s, l + 1, j)
    {
      if i + 1 >= |level| { EmptyNode(h, z, s, l, i + 1); }
      next := next + [h(level[i], if i + 1 < |level| then level[i + 1] else zero)];
      i := i + 2;
    }
  }

  /** The root of the ordered leaves, or a refusal of a list no tree of this depth can hold. */
  method RootFromLeaves<T>(h: (T, T) -> T, z: T, depth: nat, leaves: seq<T>) returns (r: Result<T, BranchError>)
    ensures r == if |leaves| > Pow2(depth) then Err(TooManyLeaves(|leaves|)) else Ok(Root(h, z, leaves, depth))
  {
    var zeros := ZeroRoots(h, z, depth);
    if |leaves| > Pow2(depth) { return Err(TooManyLeaves(|leaves|)); }
    if |leaves| == 0 {
      WidthBound(0, depth);
      ShiftVanishes(0, depth);
      EmptyWidth(depth);
      EmptyNode(h, z, leaves, depth, 0);
      return Ok(zeros[depth]);
    }
    var level := leaves;
    for l := 0 to depth
      invariant IsLevel(h, z, leaves, l, level)
    {
      level := NextLevel(h, z, leaves, l, level, zeros[l]);
    }
    WidthOne(|leaves|, depth);
    r := Ok(level[0]);
  }

  /** One leaf's sibling path and the root, from the leaf list the member already holds. */
  method MerklePathFor<T>(h: (T, T) -> T, z: T, leaves: seq<T>, index: int, depth: nat)
    returns (r: Result<RootedPath<T>, BranchError>)
    ensures |leaves| == 0 ==> r == Err(NoLeaves)
    ensures 0 < |leaves| && |leaves| > Pow2(depth) ==> r == Err(TooManyLeaves(|leaves|))
    ensures 0 < |leaves| <= Pow2(depth) ==>
      r == if 0 <= index < |leaves|
           then Ok(RootedPath(PathNodes(h, z, leaves, index, depth), PathSides(index, depth),
               Root(h, z, leaves, depth)))
           else Err(NotALeaf(index))
  {
    if |leaves| == 0 { return Err(NoLeaves); }
    if |leaves| > Pow2(depth) { return Err(TooManyLeaves(|leaves|)); }
    if index < 0 || index >= |leaves| { return Err(NotALeaf(index)); }
    var zeros := ZeroRoots(h, z, depth);
    var level, idx: nat := leaves, index;
    var elements, sides := [], [];
    for l := 0 to depth
      invariant idx == Shift(index, l)
      invariant IsLevel(h, z, leaves, l, level)
      invariant elements == PathNodes(h, z, leaves, index, l)
      invariant sides == PathSides(index, l)
    {
      var sibling := Sibling(idx);
      if sibling >= |level| { EmptyNode(h, z, leaves, l, sibling); }
      elements := elements + [if sibling < |level| then level[sibling] else zeros[l]];
      sides := sides + [idx % 2];
      level := NextLevel(h, z, leaves, l, level, zeros[l]);
      idx := idx / 2;
    }
    WidthOne(|leaves|, depth);
    r := Ok(RootedPath(elements, sides, level[0]));
  }

  /** The sparse path convinces: hashing the leaf up it reaches the root returned with it, and that
      root is the one a build over the list padded to capacity gives. */
  lemma SparsePathProvesLeaf<T>(h: (T, T) -> T, z: T, leaves: seq<T>, padded: seq<T>, index: nat, depth: nat)
    requires index < |leaves| <= |padded| == Pow2(depth)
    requires leaves == padded[..|leaves|] && forall k :: |leaves| <= k < |padded| ==> padded[k] == z
    ensures Fold(h, leaves[index], PathNodes(h, z, leaves, index, depth), PathSides(index, depth))
         == Root(h, z, padded, depth)
    ensures PathNodes(h, z, leaves, index, depth) == PathNodes(h, z, padded, index, depth)
  {
    PathFoldsToRoot(h, z, leaves, index, depth);
    PaddingInvisible(h, z, leaves, padded, depth, 0);
    SamePath(h, z, leaves, padded, index, depth);
  }

  lemma {:induction false} SamePath<T>(h: (T, T) -> T, z: T, s: seq<T>, t: seq<T>, i: nat, d: nat)
    requires |s| <= |t| && s == t[..|s|]
    requires forall k :: |s| <= k < |t| ==> t[k] == z
    ensures PathNodes(h, z, s, i, d) == PathNodes(h, z, t, i, d)
  {
    if d > 0 {
      SamePath(h, z, s, t, i, d - 1);
      PaddingInvisible(h, z, s, t, d - 1, Sibling(Shift(i, d - 1)));
    }
  }

  // ---- the SHA-256 tree's leaves -----------------------------------------------------------------

  /** n in base 256, most significant byte first, in exactly k bytes; the leaf is refused past that. */
  function BigEndian(n: nat, k: nat): (r: Option<seq<nat>>)
    ensures r.Some? ==> |r.value| == k && forall i :: 0 <= i < k ==> r.value[i] < 256
  {
    if k == 0 then (if n == 0 then Some([]) else None)
    else match BigEndian(n / 256, k - 1)
      case None => None
      case Some(high) => Some(high + [n % 256])
  }

  /** A published leaf as the 20-byte key id it was read from. */
  function LeafToKeyId(leaf: nat): (r: Option<seq<nat>>) {
    BigEndian(leaf, 20)
  }

  /** The number a key id spells. */
  function FromBigEndian(b: seq<nat>): nat {
    if |b| == 0 then 0 else 256 * FromBigEndian(b[..|b| - 1]) + b[|b| - 1]
  }

  lemma {:induction false} BigEndianRoundTrip(n: nat, k: nat)
    ensures BigEndian(n, k).Some? <==> n < Pow2(8 * k)
    ensures BigEndian(n, k).Some? ==> FromBigEndian(BigEndian(n, k).value) == n
  {
    if k > 0 {
      BigEndianRoundTrip(n / 256, k - 1);
      EightBits(8 * (k - 1));
      if BigEndian(n, k).Some? {
        var b := BigEndian(n, k).value;
        assert b[..|b| - 1] == BigEndian(n / 256, k - 1).value;
      }
    }
  }

  lemma EightBits(m: nat)
    ensures Pow2(m + 8) == 256 * Pow2(m)
  {
    assert Pow2(m + 8) == 2 * Pow2(m + 7) == 4 * Pow2(m + 6) == 8 * Pow2(m + 5) == 16 * Pow2(m + 4);
    assert Pow2(m + 4) == 2 * Pow2(m + 3) == 4 * Pow2(m + 2) == 8 * Pow2(m + 1);
  }

  /** Exactly the leaves below 2^160 have a key id, and no two leaves share one, so the SHA-256 and
      Poseidon trees describe one leaf list. */
  lemma KeyIdsNameLeaves(a: nat, b: nat)
    ensures LeafToKeyId(a).Some? <==> a < Pow2(160)
    ensures LeafToKeyId(a).Some? && LeafToKeyId(a) == LeafToKeyId(b) ==> a == b
  {
    BigEndianRoundTrip(a, 20);
    BigEndianRoundTrip(b, 20);
  }

  /** The SHA-256 root: hash each key id into a leaf, then the same occupied-branch build. */
  method RootFromKeyIds<K, T>(leafHash: K -> T, h: (T, T) -> T, emptyKey: K, depth: nat, keyIds: seq<K>)
    returns (r: Result<T, BranchError>)
    ensures |keyIds| > Pow2(depth) ==> r == Err(TooManyLeaves(|keyIds|))
    ensures |keyIds| <= Pow2(depth) ==>
      r == Ok(Root(h, leafHash(emptyKey), seq(|keyIds|, i requires 0 <= i < |keyIds| => leafHash(keyIds[i])), depth))
  {
    r := RootFromLeaves(h, leafHash(emptyKey), depth,
        seq(|keyIds|, i requires 0 <= i < |keyIds| => leafHash(keyIds[i])));
  }
}

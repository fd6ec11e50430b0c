/**
  The block transaction tree (oracle/dml_commitment.js, merkleRootFromLeaves): pair, hash, and pair the
  last node of an odd level with itself. The duplication makes the root ambiguous in general; this
  module proves what it still binds.
 */
module OddMerkle {
  import opened PaddedTree

  /** Node i of level l over the leaves s. */
  function TxNode<T>(h: (T, T) -> T, s: seq<T>, l: nat, i: nat): T
    requires i < Width(|s|, l)
  {
    if l == 0 then s[i]
    else
      var left := TxNode(h, s, l - 1, 2 * i);
      h(left, if 2 * i + 1 < Width(|s|, l - 1) then TxNode(h, s, l - 1, 2 * i + 1) else left)
  }

  /** The least level with a single node. */
  function Height(n: nat): nat {
    if n <= 1 then 0 else 1 + Height((n + 1) / 2)
  }

  lemma {:induction false} WidthAdd(n: nat, k: nat, l: nat)
    ensures Width(Width(n, k), l) == Width(n, k + l)
  {
    if l > 0 {
      WidthAdd(n, k, l - 1);
    }
  }

  lemma {:induction false} HeightIsLeast(n: nat)
    requires 0 < n
    ensures Width(n, Height(n)) == 1
    ensures forall l :: 0 <= l < Height(n) ==> Width(n, l) > 1
  {
    if n > 1 {
      var m := (n + 1) / 2;
      HeightIsLeast(m);
      assert Width(n, 1) == (Width(n, 0) + 1) / 2 == m;
      WidthAdd(n, 1, Height(m));
      forall l | 0 <= l < Height(n) ensures Width(n, l) > 1 {
        if l > 0 { WidthAdd(n, 1, l - 1); }
      }
    }
  }

  lemma HeightUnique(n: nat, l: nat)
    requires 0 < n && Width(n, l) == 1 && forall k :: 0 <= k < l ==> Width(n, k) > 1
    ensures l == Height(n)
  {
    HeightIsLeast(n);
  }

  function TxRoot<T>(h: (T, T) -> T, s: seq<T>): T
    requires |s| > 0
  {
    HeightIsLeast(|s|);
    TxNode(h, s, Height(|s|), 0)
  }

  /** The source's loop; `none` is the all-zero digest an empty list hashes to. */
  method MerkleRootFromLeaves<T>(h: (T, T) -> T, none: T, leaves: seq<T>) returns (root: T)
    ensures root == if |leaves| == 0 then none else TxRoot(h, leaves)
  {
    if |leaves| == 0 { return none; }
    var level := leaves;
    ghost var l := 0;
    while |level| > 1
      invariant |level| == Width(|leaves|, l) > 0
      invariant forall i {:trigger level[i]} :: 0 <= i < |level| ==> level[i] == TxNode(h, leaves, l, i)
      invariant forall k :: 0 <= k < l ==> Width(|leaves|, k) > 1
      decreases |level|
    {
      var next := [];
      var i := 0;
      while i < |level|
        invariant i == 2 * |next| <= |level| + 1
        invariant |next| <= Width(|leaves|, l + 1)
        invariant forall j {:trigger next[j]} :: 0 <= j < |next| ==> next[j] == TxNode(h, leaves, l + 1, j)
      {
        next := next + [h(level[i], if i + 1 < |level| then level[i + 1] else level[i])];
        i := i + 2;
      }
      level := next;
      l := l + 1;
    }
    HeightUnique(|leaves|, l);
    root := level[0];
  }

  // ---- what the root binds -----------------------------------------------------------------------

  /** Every pair hashed on the way to node (l, i). */
  ghost function Hashed<T>(h: (T, T) -> T, s: seq<T>, l: nat, i: nat): set<(T, T)>
    requires i < Width(|s|, l)
  {
    if l == 0 then {}
    else
      var left := TxNode(h, s, l - 1, 2 * i);
      if 2 * i + 1 < Width(|s|, l - 1)
      then {(left, TxNode(h, s, l - 1, 2 * i + 1))} + Hashed(h, s, l - 1, 2 * i) + Hashed(h, s, l - 1, 2 * i + 1)
      else {(left, left)} + Hashed(h, s, l - 1, 2 * i)
  }

  /** No two different pairs of the set collide. */
  ghost predicate CollisionFree<T>(h: (T, T) -> T, pairs: set<(T, T)>) {
    forall p, q :: p in pairs && q in pairs && h(p.0, p.1) == h(q.0, q.1) ==> p == q
  }

  ghost predicate Distinct<T>(s: seq<T>) {
    forall i, j :: 0 <= i < j < |s| ==> s[i] != s[j]
  }

  /** No leaf is the hash of one of the pairs: leaf and inner digests cannot be confused. */
  ghost predicate Separated<T>(h: (T, T) -> T, s: seq<T>, pairs: set<(T, T)>) {
    forall i, p :: 0 <= i < |s| && p in pairs ==> s[i] != h(p.0, p.1)
  }

  /** The leaves beneath node (l, i), each once. */
  ghost function Beneath<T>(s: seq<T>, l: nat, i: nat): seq<T>
    requires i < Width(|s|, l)
  {
    if l == 0 then [s[i]]
    else
      Beneath(s, l - 1, 2 * i) + (if 2 * i + 1 < Width(|s|, l - 1) then Beneath(s, l - 1, 2 * i + 1) else [])
  }

  /** The leaves beneath nodes 0 to k of level l, left to right. */
  ghost function BeneathAll<T>(s: seq<T>, l: nat, k: nat): seq<T>
    requires k <= Width(|s|, l)
  {
    if k == 0 then [] else BeneathAll(s, l, k - 1) + Beneath(s, l, k - 1)
  }

  lemma {:induction false} LeavesInOrder<T>(s: seq<T>, k: nat)
    requires k <= |s|
    ensures BeneathAll(s, 0, k) == s[..k]
  {
    if k > 0 {
      LeavesInOrder(s, k - 1);
    }
  }

  lemma {:induction false} LevelsCoverSameLeaves<T>(s: seq<T>, l: nat, k: nat)
    requires k <= Width(|s|, l + 1)
    ensures BeneathAll(s, l + 1, k) == BeneathAll(s, l, if 2 * k <= Width(|s|, l) then 2 * k else Width(|s|, l))
    decreases k
  {
    if k > 0 {
      LevelsCoverSameLeaves(s, l, k - 1);
      assert 2 * (k - 1) < Width(|s|, l);
    }
  }

  lemma {:induction false} AllLeavesBeneath<T>(s: seq<T>, l: nat)
    ensures BeneathAll(s, l, Width(|s|, l)) == s
  {
    if l == 0 {
      LeavesInOrder(s, |s|);
    } else {
      AllLeavesBeneath(s, l - 1);
      LevelsCoverSameLeaves(s, l - 1, Width(|s|, l));
    }
  }

  lemma RootBeneath<T>(s: seq<T>, l: nat)
    requires Width(|s|, l) == 1
    ensures Beneath(s, l, 0) == s
  {
    AllLeavesBeneath(s, l);
    assert BeneathAll(s, l, 1) == BeneathAll(s, l, 0) + Beneath(s, l, 0);
  }

  /** Two different nodes of one level hash alike only if two leaves are equal. */
  lemma {:induction false} EqualNodesEqualLeaves<T>(h: (T, T) -> T, s: seq<T>, l: nat, i: nat, j: nat,
                                                    pairs: set<(T, T)>)
    requires i < Width(|s|, l) && j < Width(|s|, l) && i != j
    requires Hashed(h, s, l, i) <= pairs && Hashed(h, s, l, j) <= pairs && CollisionFree(h, pairs)
    requires TxNode(h, s, l, i) == TxNode(h, s, l, j)
    ensures !Distinct(s)
  {
    if l == 0 {
      if i < j { assert s[i] == s[j]; } else { assert s[j] == s[i]; }
    } else {
      EqualNodesEqualLeaves(h, s, l - 1, 2 * i, 2 * j, pairs);
    }
  }

  /** Node (l, i) exists on both sides, hashes alike, and everything hashed below it is in the
      collision-free set. */
  ghost predicate Alike<T>(h: (T, T) -> T, a: seq<T>, b: seq<T>, l: nat, i: nat, pairs: set<(T, T)>) {
    && i < Width(|a|, l) && i < Width(|b|, l)
    && Hashed(h, a, l, i) <= pairs && Hashed(h, b, l, i) <= pairs
    && TxNode(h, a, l, i) == TxNode(h, b, l, i)
  }

  /** The right child, a lone last node standing in for its own sibling. */
  function RightOf(n: nat, l: nat, i: nat): nat {
    if 2 * i + 1 < Width(n, l) then 2 * i + 1 else 2 * i
  }

  lemma NodeParts<T>(h: (T, T) -> T, s: seq<T>, l: nat, i: nat)
    requires i < Width(|s|, l + 1)
    ensures 2 * i < Width(|s|, l) && RightOf(|s|, l, i) < Width(|s|, l)
    ensures TxNode(h, s, l + 1, i) == h(TxNode(h, s, l, 2 * i), TxNode(h, s, l, RightOf(|s|, l, i)))
    ensures (TxNode(h, s, l, 2 * i), TxNode(h, s, l, RightOf(|s|, l, i))) in Hashed(h, s, l + 1, i)
    ensures Hashed(h, s, l, 2 * i) <= Hashed(h, s, l + 1, i)
    ensures Hashed(h, s, l, RightOf(|s|, l, i)) <= Hashed(h, s, l + 1, i)
  {
  }

  /** Equal inner nodes have equal children. */
  lemma EqualChildren<T>(h: (T, T) -> T, a: seq<T>, b: seq<T>, l: nat, i: nat, pairs: set<(T, T)>)
    requires CollisionFree(h, pairs) && Alike(h, a, b, l + 1, i, pairs)
    ensures Alike(h, a, b, l, 2 * i, pairs)
    ensures RightOf(|a|, l, i) < Width(|a|, l) && RightOf(|b|, l, i) < Width(|b|, l)
    ensures TxNode(h, a, l, RightOf(|a|, l, i)) == TxNode(h, b, l, RightOf(|b|, l, i))
    ensures Hashed(h, a, l, RightOf(|a|, l, i)) <= pairs && Hashed(h, b, l, RightOf(|b|, l, i)) <= pairs
  {
    NodeParts(h, a, l, i);
    NodeParts(h, b, l, i);
  }

  /** Over distinct leaves, a node is duplicated on one side only if it is on the other: a duplicate
      against a real sibling would make two leaves equal. So the children pair off alike. */
  lemma ChildrenAlike<T>(h: (T, T) -> T, a: seq<T>, b: seq<T>, l: nat, i: nat, pairs: set<(T, T)>)
    requires CollisionFree(h, pairs) && Distinct(a) && Distinct(b)
    requires Alike(h, a, b, l + 1, i, pairs)
    ensures Alike(h, a, b, l, 2 * i, pairs)
    ensures RightOf(|a|, l, i) == RightOf(|b|, l, i) && Alike(h, a, b, l, RightOf(|a|, l, i), pairs)
  {
    EqualChildren(h, a, b, l, i, pairs);
    var x, y := RightOf(|a|, l, i), RightOf(|b|, l, i);
    if x != y {
      if x != 2 * i {
        EqualNodesEqualLeaves(h, a, l, 2 * i, x, pairs);
      } else {
        EqualNodesEqualLeaves(h, b, l, 2 * i, y, pairs);
      }
    }
  }

  /** At one height, equal nodes have equal leaves beneath them. */
  lemma {:induction false} EqualNodesBindLeaves<T>(
      h: (T, T) -> T, a: seq<T>, b: seq<T>, l: nat, i: nat, pairs: set<(T, T)>)
    requires CollisionFree(h, pairs) && Distinct(a) && Distinct(b)
    requires Alike(h, a, b, l, i, pairs)
    ensures Beneath(a, l, i) == Beneath(b, l, i)
    decreases l
  {
    if l > 0 {
      ChildrenAlike(h, a, b, l - 1, i, pairs);
      EqualNodesBindLeaves(h, a, b, l - 1, 2 * i, pairs);
      EqualNodesBindLeaves(h, a, b, l - 1, RightOf(|a|, l - 1, i), pairs);
    }
  }

  /** A node of one tree never equals a taller node of the other: descending left ends with a leaf
      that is also an inner hash. */
  lemma {:induction false} NoHeightConfusion<T>(
      h: (T, T) -> T, a: seq<T>, b: seq<T>, l: nat, m: nat, pairs: set<(T, T)>)
    requires l < m && 0 < Width(|a|, l) && 0 < Width(|b|, m)
    requires Hashed(h, a, l, 0) <= pairs && Hashed(h, b, m, 0) <= pairs && CollisionFree(h, pairs)
    requires Separated(h, a, pairs)
    ensures TxNode(h, a, l, 0) != TxNode(h, b, m, 0)
  {
    if l > 0 {
      NoHeightConfusion(h, a, b, l - 1, m - 1, pairs);
    } else {
      var left := TxNode(h, b, m - 1, 0);
      var right := if 1 < Width(|b|, m - 1) then TxNode(h, b, m - 1, 1) else left;
      assert (left, right) in pairs;
    }
  }

  ghost function RootHashed<T>(h: (T, T) -> T, s: seq<T>): set<(T, T)>
    requires |s| > 0
  {
    HeightIsLeast(|s|);
    Hashed(h, s, Height(|s|), 0)
  }

  /** Binding, across differing lengths and despite odd-node duplication: lists of distinct leaves with
      one root are the same list, if nothing the two computations hashed collides and no leaf is an
      inner digest. */
  lemma RootBindsLeaves<T>(h: (T, T) -> T, a: seq<T>, b: seq<T>)
    requires |a| > 0 && |b| > 0 && Distinct(a) && Distinct(b)
    requires CollisionFree(h, RootHashed(h, a) + RootHashed(h, b))
    requires Separated(h, a, RootHashed(h, b)) && Separated(h, b, RootHashed(h, a))
    requires Separated(h, a, RootHashed(h, a)) && Separated(h, b, RootHashed(h, b))
    requires TxRoot(h, a) == TxRoot(h, b)
    ensures a == b
  {
    var pairs := RootHashed(h, a) + RootHashed(h, b);
    HeightIsLeast(|a|);
    HeightIsLeast(|b|);
    var l, m := Height(|a|), Height(|b|);
    if l < m {
      NoHeightConfusion(h, a, b, l, m, pairs);
    } else if m < l {
      NoHeightConfusion(h, b, a, m, l, pairs);
    } else {
      EqualNodesBindLeaves(h, a, b, l, 0, pairs);
      RootBeneath(a, l);
      RootBeneath(b, l);
    }
  }

  // ---- what a root binds when leaves repeat ---------------------------------------------------------

  /** The leaves beneath node (l, i) with every duplicated node written twice: 2^l of them. */
  function Doubled<T>(s: seq<T>, l: nat, i: nat): (r: seq<T>)
    requires i < Width(|s|, l)
    ensures |r| == Pow2(l)
  {
    if l == 0 then [s[i]]
    else
      assert i < Width(|s|, (l - 1) + 1);
      Doubled(s, l - 1, 2 * i) + Doubled(s, l - 1, RightOf(|s|, l - 1, i))
  }

  /** The list as its root sees it. */
  function WrittenOut<T>(s: seq<T>): seq<T>
    requires |s| > 0
  {
    HeightIsLeast(|s|);
    Doubled(s, Height(|s|), 0)
  }

  lemma LeafNode<T>(h: (T, T) -> T, s: seq<T>, i: nat)
    requires i < Width(|s|, 0)
    ensures i < |s| && Doubled(s, 0, i) == [s[i]] && TxNode(h, s, 0, i) == s[i]
  {
  }

  lemma WrittenParts<T>(s: seq<T>, l: nat, i: nat)
    requires i < Width(|s|, l + 1)
    ensures 2 * i < Width(|s|, l) && RightOf(|s|, l, i) < Width(|s|, l)
    ensures Doubled(s, l + 1, i) == Doubled(s, l, 2 * i) + Doubled(s, l, RightOf(|s|, l, i))
  {
  }

  lemma SamePair<T>(h: (T, T) -> T, a: T, b: T, c: T, d: T, pairs: set<(T, T)>)
    requires CollisionFree(h, pairs) && (a, b) in pairs && (c, d) in pairs && h(a, b) == h(c, d)
    ensures a == c && b == d
  {
    var p, q := (a, b), (c, d);
    assert p in pairs && q in pairs && h(p.0, p.1) == h(q.0, q.1);
  }

  lemma {:induction false} EqualNodesWriteAlike<T>(
      h: (T, T) -> T, a: seq<T>, b: seq<T>, l: nat, i: nat, j: nat, pairs: set<(T, T)>)
    requires i < Width(|a|, l) && j < Width(|b|, l)
    requires Hashed(h, a, l, i) <= pairs && Hashed(h, b, l, j) <= pairs && CollisionFree(h, pairs)
    requires TxNode(h, a, l, i) == TxNode(h, b, l, j)
    ensures Doubled(a, l, i) == Doubled(b, l, j)
    decreases l
  {
    hide TxNode, Hashed, Doubled, Width, RightOf, CollisionFree;
    if l == 0 {
      LeafNode(h, a, i);
      LeafNode(h, b, j);
    } else {
      NodeParts(h, a, l - 1, i);
      NodeParts(h, b, l - 1, j);
      WrittenParts(a, l - 1, i);
      WrittenParts(b, l - 1, j);
      var x, y := RightOf(|a|, l - 1, i), RightOf(|b|, l - 1, j);
      SamePair(h, TxNode(h, a, l - 1, 2 * i), TxNode(h, a, l - 1, x), TxNode(h, b, l - 1, 2 * j),
          TxNode(h, b, l - 1, y), pairs);
      EqualNodesWriteAlike(h, a, b, l - 1, 2 * i, 2 * j, pairs);
      EqualNodesWriteAlike(h, a, b, l - 1, RightOf(|a|, l - 1, i), RightOf(|b|, l - 1, j), pairs);
    }
  }

  lemma HalvesOf<T>(a: seq<T>, b: seq<T>, c: seq<T>, d: seq<T>)
    requires a + b == c + d && |a| == |c|
    ensures a == c && b == d
  {
    assert a == (a + b)[..|a|] && b == (a + b)[|a|..];
    assert c == (c + d)[..|a|] && d == (c + d)[|a|..];
  }

  /** Under every hash, written alike is hashed alike. */
  lemma {:induction false} WrittenAlikeHashesAlike<T>(h: (T, T) -> T, a: seq<T>, b: seq<T>, l: nat, i: nat, j: nat)
    requires i < Width(|a|, l) && j < Width(|b|, l) && Doubled(a, l, i) == Doubled(b, l, j)
    ensures TxNode(h, a, l, i) == TxNode(h, b, l, j)
    decreases l
  {
    hide TxNode, Hashed, Doubled, Width, RightOf;
    if l == 0 {
      LeafNode(h, a, i);
      LeafNode(h, b, j);
      assert [a[i]][0] == [b[j]][0];
    } else {
      NodeParts(h, a, l - 1, i);
      NodeParts(h, b, l - 1, j);
      WrittenParts(a, l - 1, i);
      WrittenParts(b, l - 1, j);
      var x, y := RightOf(|a|, l - 1, i), RightOf(|b|, l - 1, j);
      HalvesOf(Doubled(a, l - 1, 2 * i), Doubled(a, l - 1, x), Doubled(b, l - 1, 2 * j), Doubled(b, l - 1, y));
      WrittenAlikeHashesAlike(h, a, b, l - 1, 2 * i, 2 * j);
      WrittenAlikeHashesAlike(h, a, b, l - 1, x, y);
    }
  }

  /** Exactly what a root binds, repeated leaves or not: two lists share one if and only if their trees are
      of one height and they read alike with every duplicated node written twice. The forward half asks
      that nothing hashed collides and no leaf is an inner digest; the other holds under every hash. */
  lemma RootsAgreeExactlyWhen<T>(h: (T, T) -> T, a: seq<T>, b: seq<T>)
    requires |a| > 0 && |b| > 0
    requires var pairs := RootHashed(h, a) + RootHashed(h, b);
      CollisionFree(h, pairs) && Separated(h, a, pairs) && Separated(h, b, pairs)
    ensures TxRoot(h, a) == TxRoot(h, b) <==> Height(|a|) == Height(|b|) && WrittenOut(a) == WrittenOut(b)
  {
    var pairs := RootHashed(h, a) + RootHashed(h, b);
    HeightIsLeast(|a|);
    HeightIsLeast(|b|);
    var l, m := Height(|a|), Height(|b|);
    if l < m {
      NoHeightConfusion(h, a, b, l, m, pairs);
    } else if m < l {
      NoHeightConfusion(h, b, a, m, l, pairs);
    } else {
      if TxRoot(h, a) == TxRoot(h, b) { EqualNodesWriteAlike(h, a, b, l, 0, 0, pairs); }
      if WrittenOut(a) == WrittenOut(b) { WrittenAlikeHashesAlike(h, a, b, l, 0, 0); }
    }
  }

  /** Repeating the last leaf of an odd list leaves every node above the leaves as it was. */
  lemma {:induction false} RepeatWritesAlike<T>(s: seq<T>, l: nat, i: nat)
    requires |s| % 2 == 1 && l > 0 && i < Width(|s|, l)
    ensures Width(|s| + 1, l) == Width(|s|, l)
    ensures Doubled(s + [s[|s| - 1]], l, i) == Doubled(s, l, i)
    decreases l
  {
    var n, t := |s|, s + [s[|s| - 1]];
    SameWidths(n, l);
    if l == 1 {
      assert Width(n, 1) == (n + 1) / 2 && 2 * i < n;
      var x, y := RightOf(n, 0, i), RightOf(n + 1, 0, i);
      assert Doubled(s, 1, i) == [s[2 * i]] + [s[x]] && Doubled(t, 1, i) == [t[2 * i]] + [t[y]];
    } else {
      SameWidths(n, l - 1);
      assert i < Width(n, (l - 1) + 1);
      RepeatWritesAlike(s, l - 1, 2 * i);
      RepeatWritesAlike(s, l - 1, RightOf(n, l - 1, i));
    }
  }

  lemma {:induction false} SameWidths(n: nat, l: nat)
    requires n % 2 == 1 && l > 0
    ensures Width(n + 1, l) == Width(n, l)
  {
    if l > 1 { SameWidths(n, l - 1); }
  }

  /** Distinctness is what the binding of lists rests on: repeating the last leaf of any odd list longer than
      one changes the list and not the root, under every hash. */
  lemma DuplicationIsInvisible<T>(h: (T, T) -> T, s: seq<T>)
    requires |s| > 1 && |s| % 2 == 1
    ensures TxRoot(h, s) == TxRoot(h, s + [s[|s| - 1]])
  {
    var n, t := |s|, s + [s[|s| - 1]];
    assert (n + 1) / 2 == (n + 2) / 2 && Height(n) == Height(n + 1) > 0;
    HeightIsLeast(n);
    HeightIsLeast(n + 1);
    RepeatWritesAlike(s, Height(n), 0);
    WrittenAlikeHashesAlike(h, s, t, Height(n), 0, 0);
  }
}

/**
  What the transaction count in a partial Merkle tree decides (oracle/dml_commitment.js, partialMerkleTree).
  The count is the sender's claim, and the duplication of odd nodes lets a wrong one reproduce a block's
  root. For every block and every claim: whether some tree with the block's root marks a transaction the
  block does not have there is settled by the two counts alone.
 */
module ClaimedLength {
  import opened Bytes
  import opened OddMerkle
  import opened PaddedTree
  import opened PartialTree
  import opened PartialTreeCodec
  import opened Wrappers

  /** The largest power of two that divides n. */
  function TwoPart(n: nat): (r: nat)
    requires n > 0
    ensures r > 0
  {
    if n % 2 == 1 then 1 else 2 * TwoPart(n / 2)
  }

  /** Over a block of size transactions a claim of n cannot mislead: its tree is taller than the block's, or as
      tall and not longer by more than half the largest power of two in the block's size. */
  predicate Harmless(size: nat, n: nat)
    requires size > 0 && n > 0
  {
    Height(n) > Height(size) || (Height(n) == Height(size) && 2 * (n - size) <= TwoPart(size))
  }

  // ---- widths of two trees ---------------------------------------------------------------------------

  lemma ShorterIsNarrower(a: nat, b: nat, l: nat)
    requires a <= b
    ensures Width(a, l) <= Width(b, l)
  {
    if l > 0 { ShorterIsNarrower(a, b, l - 1); }
  }

  /** One level down, the counts are halved. */
  lemma HalvedWidths(n: nat, l: nat)
    requires l > 0
    ensures Width(n, l) == Width((n + 1) / 2, l - 1)
  {
    WidthAdd(n, 1, l - 1);
    assert Width(n, 1) == (Width(n, 0) + 1) / 2;
  }

  /** Where a harmless claim has a node past the end of an odd level, that node has no sibling beneath it and
      the block's own two are real. */
  lemma {:induction false} PastTheEnd(size: nat, n: nat, l: nat)
    requires 0 < size < n && 2 * (n - size) <= TwoPart(size)
    requires Width(size, l) % 2 == 1 && Width(n, l) > Width(size, l)
    ensures l > 0 && Width(size, l - 1) == 2 * Width(size, l) && Width(n, l - 1) == 2 * Width(size, l) + 1
    decreases l
  {
    var half, more := size / 2, (n + 1) / 2;
    assert size % 2 == 0;
    assert l > 0;
    HalvedWidths(size, l);
    HalvedWidths(n, l);
    if half % 2 == 1 {
      assert n == size + 1 && more == half + 1;
      if l > 1 { SameWidths(half, l - 1); }
    } else {
      PastTheEnd(half, more, l - 1);
      if l > 1 {
        HalvedWidths(size, l - 1);
        HalvedWidths(n, l - 1);
      }
    }
  }

  /** Where the first position past the end of a block has no sibling in the claimed tree and a real one in the
      block's, the claim is harmless. */
  lemma {:induction false} LoneIsHarmless(size: nat, n: nat, l: nat)
    requires 0 < size < n && Shift(size, l) == Width(size, l) && Shift(size, l) % 2 == 0
    requires Width(n, l) == Width(size, l) + 1
    ensures 2 * (n - size) <= TwoPart(size)
    decreases l
  {
    if l == 0 {
      assert TwoPart(size) == 2 * TwoPart(size / 2);
    } else {
      WidthBound(size - 1, l);
      ShiftAdd(size, 1, l - 1);
      ShiftAdd(size - 1, 1, l - 1);
      assert Shift(size, 1) == Shift(size, 0) / 2 && Shift(size - 1, 1) == Shift(size - 1, 0) / 2;
      assert size % 2 == 0;
      HalvedWidths(size, l);
      HalvedWidths(n, l);
      LoneIsHarmless(size / 2, (n + 1) / 2, l - 1);
    }
  }

  lemma {:induction false} ShiftInside(p: nat, n: nat, l: nat)
    requires p < n
    ensures Shift(p, l) < Width(n, l)
  {
    WidthBound(p, l);
    ShorterIsNarrower(p + 1, n, l);
  }

  // ---- harmless claims -------------------------------------------------------------------------------

  /** A taller tree never gets down to a leaf: it would open one of the block's. */
  lemma {:induction false} TallerMarksNothing<T>(h: (T, T) -> T, s: seq<T>, n: nat, l: nat, i: nat, t: Branch<T>,
                                                 m: nat, j: nat, pairs: set<(T, T)>)
    requires l > m && Stands(h, s, n, l, i, t, m, j, pairs) && CollisionFree(h, pairs)
    ensures Matches(t, i) == []
    decreases t
  {
    match t
    case Stop(_, _) =>
    case Lone(only) =>
      LoneStands(h, s, n, l, i, only, m, j, pairs);
      TallerMarksNothing(h, s, n, l - 1, 2 * i, only, m - 1, 2 * j, pairs);
    case Fork(left, right) =>
      ForkStands(h, s, n, l, i, left, right, m, j, pairs);
      TallerMarksNothing(h, s, n, l - 1, 2 * i, left, m - 1, 2 * j, pairs);
      TallerMarksNothing(h, s, n, l - 1, 2 * i + 1, right, m - 1, RightOf(|s|, m - 1, j), pairs);
  }

  /** A lone child stands in for both of the block's, which over distinct leaves are then one. */
  lemma LoneStandsOnLone<T>(h: (T, T) -> T, s: seq<T>, n: nat, l: nat, i: nat, only: Branch<T>, j: nat,
                            pairs: set<(T, T)>)
    requires Stands(h, s, n, l, i, Lone(only), l, j, pairs) && CollisionFree(h, pairs) && Distinct(s)
    ensures l > 0 && RightOf(|s|, l - 1, j) == 2 * j
  {
    hide TxNode, Hashed, Separated, CollisionFree, Tracks, Distinct;
    var r := BranchRoot(h, only);
    NotALeaf(h, s, l, j, r, r, pairs);
    ChildrenAgree(h, s, l - 1, j, r, r, pairs);
    if RightOf(|s|, l - 1, j) != 2 * j { EqualNodesEqualLeaves(h, s, l - 1, 2 * j, 2 * j + 1, pairs); }
  }

  /** A branch past the end of an odd level, under a harmless claim, is not opened, so it marks nothing. */
  lemma PastTheEndIsShut<T>(h: (T, T) -> T, s: seq<T>, n: nat, l: nat, i: nat, t: Branch<T>, j: nat,
                            pairs: set<(T, T)>)
    requires Stands(h, s, n, l, i, t, l, j, pairs) && CollisionFree(h, pairs) && Distinct(s)
    requires l > 0 && 2 * i + 1 >= Width(n, l - 1) && 2 * j + 1 < Width(|s|, l - 1)
    ensures Matches(t, i) == []
  {
    match t
    case Stop(_, _) =>
    case Lone(only) => LoneStandsOnLone(h, s, n, l, i, only, j, pairs);
    case Fork(_, _) =>
  }

  lemma {:induction false} HarmlessMarksTrue<T>(h: (T, T) -> T, s: seq<T>, n: nat, l: nat, i: nat, t: Branch<T>,
                                                pairs: set<(T, T)>)
    requires |s| > 0 && 2 * (n - |s|) <= TwoPart(|s|)
    requires Stands(h, s, n, l, i, t, l, i, pairs) && CollisionFree(h, pairs) && Distinct(s)
    ensures AllTrue(s, Matches(t, i))
    decreases t
  {
    hide Stands, CollisionFree, Distinct, TwoPart;
    match t
    case Stop(_, _) => StopIsTrue(h, s, n, l, i, t, pairs);
    case Lone(only) =>
      LoneStands(h, s, n, l, i, only, l, i, pairs);
      HarmlessMarksTrue(h, s, n, l - 1, 2 * i, only, pairs);
    case Fork(left, right) =>
      ForkStands(h, s, n, l, i, left, right, l, i, pairs);
      HarmlessMarksTrue(h, s, n, l - 1, 2 * i, left, pairs);
      if RightOf(|s|, l - 1, i) == 2 * i + 1 {
        HarmlessMarksTrue(h, s, n, l - 1, 2 * i + 1, right, pairs);
      } else {
        StandsWhere(h, s, n, l, i, t, pairs);
        if n <= |s| { ShorterIsNarrower(n, |s|, l - 1); }
        PastTheEnd(|s|, n, l - 1);
        PastTheEndIsShut(h, s, n, l - 1, 2 * i + 1, right, 2 * i, pairs);
      }
      AllTrueAppend(s, Matches(left, 2 * i), Matches(right, 2 * i + 1));
  }

  lemma StopIsTrue<T>(h: (T, T) -> T, s: seq<T>, n: nat, l: nat, i: nat, t: Branch<T>, pairs: set<(T, T)>)
    requires t.Stop? && Stands(h, s, n, l, i, t, l, i, pairs)
    ensures AllTrue(s, Matches(t, i))
  {
  }

  lemma StandsWhere<T>(h: (T, T) -> T, s: seq<T>, n: nat, l: nat, i: nat, t: Branch<T>, pairs: set<(T, T)>)
    requires t.Fork? && Stands(h, s, n, l, i, t, l, i, pairs)
    ensures l > 0 && 2 * i < Width(|s|, l - 1) && 2 * i + 1 < Width(n, l - 1)
  {
  }

  // ---- misleading claims -----------------------------------------------------------------------------

  /** Down the left edge of a shorter tree, to a mark on an inner digest. */
  ghost function LeftEdge<T>(h: (T, T) -> T, s: seq<T>, l: nat, k: nat): Branch<T>
    requires 0 < Width(|s|, l + k)
  {
    if l == 0 then Stop(TxNode(h, s, k, 0), true)
    else
      NodeParts(h, s, l - 1 + k, 0);
      Fork(LeftEdge(h, s, l - 1, k), Stop(TxNode(h, s, l - 1 + k, RightOf(|s|, l - 1 + k, 0)), false))
  }

  lemma {:induction false} LeftEdgeStands<T>(h: (T, T) -> T, s: seq<T>, n: nat, l: nat, k: nat)
    requires 0 < Width(|s|, l + k) && forall x :: 0 <= x < l ==> Width(n, x) > 1
    ensures var t := LeftEdge(h, s, l, k);
      && Fits(n, l, 0, t) && BranchRoot(h, t) == TxNode(h, s, l + k, 0)
      && BranchHashed(h, t) <= Hashed(h, s, l + k, 0)
      && 0 < Width(|s|, k) && Matches(t, 0) == [(TxNode(h, s, k, 0), 0)]
  {
    hide TxNode, Hashed, Width, RightOf;
    if l > 0 {
      NodeParts(h, s, l - 1 + k, 0);
      LeftEdgeStands(h, s, n, l - 1, k);
      assert Width(n, l - 1) > 1;
    }
  }

  /** Where the path to the first position past the block's end stands in the block's own tree. */
  ghost predicate OnPath(size: nat, n: nat, l: nat, j: nat) {
    0 < size < n && 2 * (n - size) > TwoPart(size) && j < Width(size, l) && Tracks(size, l, Shift(size, l), j)
  }

  /** One level down: to the right child there is one in the claimed tree, and where the left child is lone in the
      claimed tree so it is in the block's. */
  lemma PathGoesDown(size: nat, n: nat, l: nat, j: nat)
    requires l > 0 && OnPath(size, n, l, j)
    ensures var i, i' := Shift(size, l), Shift(size, l - 1);
      && 2 * j < Width(size, l - 1) && RightOf(size, l - 1, j) < Width(size, l - 1) && i' < Width(n, l - 1)
      && (i' == 2 * i || i' == 2 * i + 1)
      && OnPath(size, n, l - 1, if i' == 2 * i then 2 * j else RightOf(size, l - 1, j))
      && (i' == 2 * i && 2 * i + 1 >= Width(n, l - 1) ==> RightOf(size, l - 1, j) == 2 * j)
  {
    hide TwoPart;
    var i, i' := Shift(size, l), Shift(size, l - 1);
    ShiftInside(size, n, l - 1);
    TracksDown(size, l, i, j);
    WidthBound(size, l - 1);
    if i' == 2 * i && 2 * i + 1 >= Width(n, l - 1) {
      ShorterIsNarrower(size, n, l - 1);
      if Width(size, l - 1) == i' { LoneIsHarmless(size, n, l - 1); }
    }
  }

  /** The tree opened along that path, the block's own node on the other side of every fork. */
  ghost function Beyond<T>(h: (T, T) -> T, s: seq<T>, n: nat, l: nat, j: nat): Branch<T>
    requires OnPath(|s|, n, l, j)
  {
    if l == 0 then Stop(TxNode(h, s, 0, j), true)
    else
      PathGoesDown(|s|, n, l, j);
      var i, i' := Shift(|s|, l), Shift(|s|, l - 1);
      if i' == 2 * i + 1 then
        Fork(Stop(TxNode(h, s, l - 1, 2 * j), false), Beyond(h, s, n, l - 1, RightOf(|s|, l - 1, j)))
      else if 2 * i + 1 < Width(n, l - 1) then
        Fork(Beyond(h, s, n, l - 1, 2 * j), Stop(TxNode(h, s, l - 1, RightOf(|s|, l - 1, j)), false))
      else Lone(Beyond(h, s, n, l - 1, 2 * j))
  }

  lemma {:induction false} BeyondStands<T>(h: (T, T) -> T, s: seq<T>, n: nat, l: nat, j: nat) returns (x: T)
    requires OnPath(|s|, n, l, j)
    ensures var t := Beyond(h, s, n, l, j);
      && Fits(n, l, Shift(|s|, l), t) && BranchRoot(h, t) == TxNode(h, s, l, j)
      && BranchHashed(h, t) <= Hashed(h, s, l, j) && Matches(t, Shift(|s|, l)) == [(x, |s|)]
    decreases l
  {
    if l == 0 {
      x := s[j];
    } else {
      PathGoesDown(|s|, n, l, j);
      NodeParts(h, s, l - 1, j);
      var i, i' := Shift(|s|, l), Shift(|s|, l - 1);
      hide TxNode, Hashed, OnPath, Shift;
      x := BeyondStands(h, s, n, l - 1, if i' == 2 * i then 2 * j else RightOf(|s|, l - 1, j));
    }
  }

  // ---- the theorem -----------------------------------------------------------------------------------

  /** t is a tree that claims n transactions and has this block's root, and the hashing done for either neither
      collides nor makes a leaf an inner digest. */
  ghost predicate Claims<T>(h: (T, T) -> T, s: seq<T>, n: nat, t: Branch<T>)
    requires |s| > 0
  {
    && n > 0 && Fits(n, Height(n), 0, t) && BranchRoot(h, t) == TxRoot(h, s)
    && var pairs := RootHashed(h, s) + BranchHashed(h, t);
       CollisionFree(h, pairs) && Separated(h, s, pairs)
  }

  lemma HarmlessClaimsAreTrue<T>(h: (T, T) -> T, s: seq<T>, n: nat, t: Branch<T>)
    requires |s| > 0 && Distinct(s) && Claims(h, s, n, t) && Harmless(|s|, n)
    ensures AllTrue(s, Matches(t, 0))
  {
    hide CollisionFree, Separated, Distinct, Hashed, TxNode, TwoPart;
    var pairs := RootHashed(h, s) + BranchHashed(h, t);
    HeightIsLeast(|s|);
    if Height(n) > Height(|s|) {
      TallerMarksNothing(h, s, n, Height(n), 0, t, Height(|s|), 0, pairs);
    } else {
      HarmlessMarksTrue(h, s, n, Height(n), 0, t, pairs);
    }
  }

  /** Under any other claim there is a tree that misleads, for every block. */
  lemma OtherClaimsMislead<T>(h: (T, T) -> T, s: seq<T>, n: nat) returns (t: Branch<T>)
    requires |s| > 0 && n > 0 && !Harmless(|s|, n)
    requires CollisionFree(h, RootHashed(h, s)) && Separated(h, s, RootHashed(h, s))
    ensures Claims(h, s, n, t) && !AllTrue(s, Matches(t, 0))
  {
    hide CollisionFree, Hashed, TwoPart;
    HeightIsLeast(|s|);
    HeightIsLeast(n);
    if Height(n) < Height(|s|) {
      var k := Height(|s|) - Height(n);
      t := LeftEdge(h, s, Height(n), k);
      LeftEdgeStands(h, s, n, Height(n), k);
      InnerIsNoLeaf(h, s, k);
      NotTrue(s, TxNode(h, s, k, 0), 0);
      assert RootHashed(h, s) + BranchHashed(h, t) == RootHashed(h, s);
    } else {
      ShiftInside(|s|, n, Height(n));
      assert OnPath(|s|, n, Height(n), 0);
      t := Beyond(h, s, n, Height(n), 0);
      var x := BeyondStands(h, s, n, Height(n), 0);
      NotTrue(s, x, |s|);
      assert RootHashed(h, s) + BranchHashed(h, t) == RootHashed(h, s);
    }
  }

  lemma NotTrue<T>(s: seq<T>, x: T, p: nat)
    requires p < |s| ==> s[p] != x
    ensures !AllTrue(s, [(x, p)])
  {
    var marked := [(x, p)];
    assert marked[0] == (x, p);
  }

  lemma InnerIsNoLeaf<T>(h: (T, T) -> T, s: seq<T>, k: nat)
    requires |s| > 0 && 0 < k <= Height(|s|) && Separated(h, s, RootHashed(h, s)) && 0 < Width(|s|, k)
    ensures TxNode(h, s, k, 0) != s[0]
  {
    HeightIsLeast(|s|);
    LeftEdgeHashed(h, s, k, Height(|s|) - k);
    NodeParts(h, s, k - 1, 0);
  }

  lemma {:induction false} LeftEdgeHashed<T>(h: (T, T) -> T, s: seq<T>, k: nat, up: nat)
    requires 0 < Width(|s|, k + up) && 0 < Width(|s|, k)
    ensures Hashed(h, s, k, 0) <= Hashed(h, s, k + up, 0)
  {
    if up > 0 {
      NodeParts(h, s, k + up - 1, 0);
      LeftEdgeHashed(h, s, k, up - 1);
    }
  }

  /** Exactly when a claimed count can be believed: every tree that claims n and has the root of this block of
      distinct transactions marks only what the block has, where it has it, if and only if the two counts say
      so. */
  lemma ClaimIsTrueExactlyWhen<T(!new)>(h: (T, T) -> T, s: seq<T>, n: nat)
    requires |s| > 0 && n > 0 && Distinct(s)
    requires CollisionFree(h, RootHashed(h, s)) && Separated(h, s, RootHashed(h, s))
    ensures Harmless(|s|, n) <==> forall t :: Claims(h, s, n, t) ==> AllTrue(s, Matches(t, 0))
  {
    hide Claims, AllTrue, CollisionFree, Separated, Distinct, Harmless;
    if Harmless(|s|, n) {
      forall t | Claims(h, s, n, t) ensures AllTrue(s, Matches(t, 0)) {
        HarmlessClaimsAreTrue(h, s, n, t);
      }
    } else {
      var t := OtherClaimsMislead(h, s, n);
    }
  }

  /** These bytes are accepted, claim n transactions and have the block's root. */
  ghost predicate AcceptedFor(sha: seq<byte> -> Digest, block: seq<Digest>, n: nat, bytes: seq<byte>)
    requires |block| > 0
  {
    && Parse(sha, bytes).Ok?
    && Parse(sha, bytes).value.nTransactions == n && Parse(sha, bytes).value.root == TxRoot(NodeHash(sha), block)
    && Claims(NodeHash(sha), block, n, ParsedTree(bytes))
  }

  /** The same of the parser and of the bytes it accepts. */
  lemma BytesAreTrueExactlyWhen(sha: seq<byte> -> Digest, block: seq<Digest>, n: nat)
    requires |block| > 0 && 0 < n <= MAX_TREE_TRANSACTIONS && Distinct(block)
    requires CollisionFree(NodeHash(sha), RootHashed(NodeHash(sha), block))
    requires Separated(NodeHash(sha), block, RootHashed(NodeHash(sha), block))
    ensures Harmless(|block|, n)
            <==> forall bytes :: AcceptedFor(sha, block, n, bytes) ==> AllTrue(block, Parse(sha, bytes).value.matched)
  {
    hide Claims, AllTrue, CollisionFree, Separated, Distinct, Harmless, Parse, ParsedTree, Encoding;
    if Harmless(|block|, n) {
      forall bytes | AcceptedFor(sha, block, n, bytes) ensures AllTrue(block, Parse(sha, bytes).value.matched) {
        BytesOfHarmlessClaims(sha, block, n, bytes);
      }
    } else {
      var t := OtherClaimsMislead(NodeHash(sha), block, n);
      MisleadingBytes(sha, block, n, t);
    }
  }

  lemma BytesOfHarmlessClaims(sha: seq<byte> -> Digest, block: seq<Digest>, n: nat, bytes: seq<byte>)
    requires |block| > 0 && n > 0 && Distinct(block) && Harmless(|block|, n) && AcceptedFor(sha, block, n, bytes)
    ensures AllTrue(block, Parse(sha, bytes).value.matched)
  {
    hide Claims, AllTrue, Distinct, Harmless, Decode, ReadFrame, Unpack;
    HarmlessClaimsAreTrue(NodeHash(sha), block, n, ParsedTree(bytes));
  }

  lemma MisleadingBytes(sha: seq<byte> -> Digest, block: seq<Digest>, n: nat, t: Branch<Digest>)
    requires |block| > 0 && n <= MAX_TREE_TRANSACTIONS && Claims(NodeHash(sha), block, n, t)
    ensures AcceptedFor(sha, block, n, Encoding(n, t)) && Parse(sha, Encoding(n, t)).value.matched == Matches(t, 0)
  {
    EncodingIsAccepted(sha, n, t);
    EncodedFrame(n, t);
    EncodedTree(n, t);
    assert ParsedTree(Encoding(n, t)) == t;
  }
}

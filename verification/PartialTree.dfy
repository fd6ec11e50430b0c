/**
  The partial Merkle tree of BIP 37 (oracle/dml_commitment.js, partialMerkleTree): a preorder list of
  flag bits and a preorder list of hashes that together describe one tree. The walk is proved to be
  the inverse of the two traversals; the tree an honest node builds is proved to reproduce the root
  and the matches; and an accepted tree with the right root is proved to mark nothing false.
 */
module PartialTree {
  import opened Wrappers
  import opened PaddedTree
  import opened OddMerkle

  /** What the walk visits. Stop is a node not descended into: below the leaves' level it only carries
      a hash, at the leaves' level it may be marked as matched. Lone is a node whose only child stands
      in for both. */
  datatype Branch<T> = Stop(hash: T, marked: bool) | Fork(left: Branch<T>, right: Branch<T>) | Lone(only: Branch<T>)

  datatype WalkError = OutOfBits | OutOfHashes

  /** t is a branch of node (l, i) in a tree over n leaves. */
  predicate Fits<T>(n: nat, l: nat, i: nat, t: Branch<T>) {
    match t
    case Stop(_, marked) => marked ==> l == 0
    case Fork(left, right) =>
      l > 0 && 2 * i + 1 < Width(n, l - 1) && Fits(n, l - 1, 2 * i, left) && Fits(n, l - 1, 2 * i + 1, right)
    case Lone(only) => l > 0 && 2 * i + 1 >= Width(n, l - 1) && Fits(n, l - 1, 2 * i, only)
  }

  /** One bit per visited node. */
  function Bits<T>(t: Branch<T>): (b: seq<bool>)
    ensures |b| >= 1
  {
    match t
    case Stop(_, marked) => [marked]
    case Fork(left, right) => [true] + Bits(left) + Bits(right)
    case Lone(only) => [true] + Bits(only)
  }

  /** One hash per node the walk stops at. */
  function Hashes<T>(t: Branch<T>): (s: seq<T>)
    ensures |s| >= 1
  {
    match t
    case Stop(hash, _) => [hash]
    case Fork(left, right) => Hashes(left) + Hashes(right)
    case Lone(only) => Hashes(only)
  }

  function BranchRoot<T>(h: (T, T) -> T, t: Branch<T>): T {
    match t
    case Stop(hash, _) => hash
    case Fork(left, right) => h(BranchRoot(h, left), BranchRoot(h, right))
    case Lone(only) => h(BranchRoot(h, only), BranchRoot(h, only))
  }

  /** The marked leaves with their positions, left to right. */
  function Matches<T>(t: Branch<T>, i: nat): seq<(T, nat)> {
    match t
    case Stop(hash, marked) => if marked then [(hash, i)] else []
    case Fork(left, right) => Matches(left, 2 * i) + Matches(right, 2 * i + 1)
    case Lone(only) => Matches(only, 2 * i)
  }

  // ---- the walk as a parser ----------------------------------------------------------------------

  datatype Parsed<T> = Parsed(tree: Branch<T>, bits: seq<bool>, hashes: seq<T>)

  lemma DecodedLone<T>(bits: seq<bool>, d: Parsed<T>)
    requires |bits| > 0 && bits[0] && bits[1..] == Bits(d.tree) + d.bits
    ensures bits == Bits(Lone(d.tree)) + d.bits
  {
    assert bits == [true] + bits[1..];
  }

  lemma DecodedFork<T>(bits: seq<bool>, hashes: seq<T>, left: Parsed<T>, right: Parsed<T>)
    requires |bits| > 0 && bits[0] && bits[1..] == Bits(left.tree) + left.bits
      && hashes == Hashes(left.tree) + left.hashes
    requires left.bits == Bits(right.tree) + right.bits && left.hashes == Hashes(right.tree) + right.hashes
    ensures bits == Bits(Fork(left.tree, right.tree)) + right.bits
    ensures hashes == Hashes(Fork(left.tree, right.tree)) + right.hashes
  {
    assert bits == [true] + bits[1..];
    ForkTraversed(left.tree, right.tree, right.bits, right.hashes);
  }

  /** The tree the walk of node (l, i) sees, and what it leaves unread. */
  function Decode<T>(n: nat, l: nat, i: nat, bits: seq<bool>, hashes: seq<T>): (r: Result<Parsed<T>, WalkError>)
    ensures r.Ok? ==> Fits(n, l, i, r.value.tree)
    ensures r.Ok? ==> bits == Bits(r.value.tree) + r.value.bits && hashes == Hashes(r.value.tree) + r.value.hashes
    decreases l
  {
    if |bits| == 0 then Err(OutOfBits)
    else if l == 0 || !bits[0] then
      if |hashes| == 0 then Err(OutOfHashes)
      else Ok(Parsed(Stop(hashes[0], l == 0 && bits[0]), bits[1..], hashes[1..]))
    else
      var left := Decode(n, l - 1, 2 * i, bits[1..], hashes);
      if left.Err? then Err(left.error)
      else if 2 * i + 1 >= Width(n, l - 1) then
        DecodedLone(bits, left.value);
        Ok(left.value.(tree := Lone(left.value.tree)))
      else
        var right := Decode(n, l - 1, 2 * i + 1, left.value.bits, left.value.hashes);
        if right.Err? then Err(right.error)
        else
          DecodedFork(bits, hashes, left.value, right.value);
          Ok(right.value.(tree := Fork(left.value.tree, right.value.tree)))
  }

  lemma DecodeLone<T>(n: nat, l: nat, i: nat, bits: seq<bool>, hashes: seq<T>)
    requires l > 0 && 2 * i + 1 >= Width(n, l - 1) && Decode(n, l - 1, 2 * i, bits, hashes).Ok?
    ensures var d := Decode(n, l - 1, 2 * i, bits, hashes).value;
      Decode(n, l, i, [true] + bits, hashes) == Ok(d.(tree := Lone(d.tree)))
  {
    assert ([true] + bits)[1..] == bits;
  }

  lemma DecodeFork<T>(n: nat, l: nat, i: nat, bits: seq<bool>, hashes: seq<T>)
    requires l > 0 && 2 * i + 1 < Width(n, l - 1) && Decode(n, l - 1, 2 * i, bits, hashes).Ok?
    requires var d := Decode(n, l - 1, 2 * i, bits, hashes).value; Decode(n, l - 1, 2 * i + 1, d.bits, d.hashes).Ok?
    ensures var d := Decode(n, l - 1, 2 * i, bits, hashes).value;
      var e := Decode(n, l - 1, 2 * i + 1, d.bits, d.hashes).value;
      Decode(n, l, i, [true] + bits, hashes) == Ok(e.(tree := Fork(d.tree, e.tree)))
  {
    hide Bits, Hashes, Fits;
    assert ([true] + bits)[1..] == bits;
  }

  lemma ForkTraversed<T>(left: Branch<T>, right: Branch<T>, bits: seq<bool>, hashes: seq<T>)
    ensures Bits(Fork(left, right)) + bits == [true] + (Bits(left) + (Bits(right) + bits))
    ensures Hashes(Fork(left, right)) + hashes == Hashes(left) + (Hashes(right) + hashes)
  {
  }

  lemma LoneTraversed<T>(only: Branch<T>, bits: seq<bool>)
    ensures Bits(Lone(only)) + bits == [true] + (Bits(only) + bits)
  {
  }

  /** Every branch that fits is read back from its two traversals, whatever follows them. */
  lemma {:induction false} DecodeReadsBack<T>(n: nat, l: nat, i: nat, t: Branch<T>, bits: seq<bool>, hashes: seq<T>)
    requires Fits(n, l, i, t)
    ensures Decode(n, l, i, Bits(t) + bits, Hashes(t) + hashes) == Ok(Parsed(t, bits, hashes))
    decreases t
  {
    match t
    case Stop(hash, marked) =>
      assert ([marked] + bits)[1..] == bits && ([hash] + hashes)[1..] == hashes;
    case Lone(only) =>
      hide Decode;
      LoneTraversed(only, bits);
      DecodeReadsBack(n, l - 1, 2 * i, only, bits, hashes);
      DecodeLone(n, l, i, Bits(only) + bits, Hashes(only) + hashes);
    case Fork(left, right) =>
      var b, h := Bits(right) + bits, Hashes(right) + hashes;
      hide Decode, Bits, Hashes;
      ForkTraversed(left, right, bits, hashes);
      DecodeReadsBack(n, l - 1, 2 * i, left, b, h);
      DecodeReadsBack(n, l - 1, 2 * i + 1, right, bits, hashes);
      DecodeFork(n, l, i, Bits(left) + b, Hashes(left) + h);
  }

  lemma {:induction false} WidthIsCeiling(n: nat, l: nat)
    requires n > 0
    ensures Width(n, l) > 0
    ensures Pow2(l) * (Width(n, l) - 1) < n <= Pow2(l) * Width(n, l)
  {
    if l > 0 {
      WidthIsCeiling(n, l - 1);
      HalveWidth(n, Pow2(l - 1), Width(n, l - 1));
    }
  }

  lemma HalveWidth(n: nat, p: nat, w: nat)
    requires p > 0 && w > 0 && p * (w - 1) < n <= p * w
    ensures var w' := (w + 1) / 2; 2 * p * (w' - 1) < n <= 2 * p * w'
  {
    var w' := (w + 1) / 2;
    if w % 2 == 0 {
      assert w == 2 * w' && p * w == 2 * p * w';
      assert 2 * p * (w' - 1) == p * w - 2 * p && p * (w - 1) == p * w - p;
    } else {
      assert w == 2 * w' - 1 && 2 * p * w' == p * w + p;
      assert 2 * p * (w' - 1) == p * (w - 1);
    }
  }

  lemma NoSmallMultiple(p: int, d: int)
    requires p > 0 && d != 0
    ensures p * d >= p || p * d <= -p
  {
    if d > 0 { assert p * d >= p * 1; } else { assert p * d <= p * -1; }
  }

  lemma DivisionIs(a: nat, p: nat, w: nat)
    requires p > 0 && p * w <= a < p * w + p
    ensures a / p == w
  {
    var q, m := a / p, a % p;
    assert a == p * q + m;
    assert p * (w - q) == p * w - p * q;
    if w != q { NoSmallMultiple(p, w - q); }
  }

  /** The source's closed form for the width of a level: floor((n + 2^l - 1) / 2^l). */
  function WidthAt(n: nat, l: nat): (w: nat)
    requires n > 0
    ensures w == Width(n, l)
  {
    WidthIsCeiling(n, l);
    var p := Pow2(l);
    assert p * (Width(n, l) - 1) == p * Width(n, l) - p;
    DivisionIs(n + p - 1, p, Width(n, l));
    (n + p - 1) / p
  }

  /** The source's loop for the height: the first power of two that is not below n. */
  method TreeHeight(n: nat) returns (height: nat)
    requires n > 0
    ensures height == Height(n)
  {
    height := 0;
    WidthOne(n, 0);
    while Pow2(height) < n
      invariant forall k :: 0 <= k < height ==> Width(n, k) > 1
      decreases n - Pow2(height)
    {
      WidthOne(n, height);
      height := height + 1;
    }
    WidthOne(n, height);
    HeightUnique(n, height);
  }

  /** A walk of node (l, i) that started at these bits and hashes did what `Decode` does there: the
      same refusal, or the root of the branch, its matches, and the rest left unread. */
  ghost predicate Walked<T>(h: (T, T) -> T, n: nat, l: nat, i: nat, bits: seq<bool>, hashes: seq<T>,
                            r: Result<T, WalkError>, bits': seq<bool>, hashes': seq<T>, marks: seq<(T, nat)>) {
    match Decode(n, l, i, bits, hashes)
    case Err(e) => r == Err(e)
    case Ok(p) =>
      r == Ok(BranchRoot(h, p.tree)) && bits' == p.bits && hashes' == p.hashes && marks == Matches(p.tree, i)
  }

  /** The three ways a walk ends where it started. */
  lemma WalkedStop<T>(h: (T, T) -> T, n: nat, l: nat, i: nat, bits: seq<bool>, hashes: seq<T>,
                      bits': seq<bool>, hashes': seq<T>, marks: seq<(T, nat)>)
    ensures |bits| == 0 ==> Walked(h, n, l, i, bits, hashes, Err(OutOfBits), bits', hashes', marks)
    ensures |bits| > 0 && (l == 0 || !bits[0]) ==>
      && (|hashes| == 0 ==> Walked(h, n, l, i, bits, hashes, Err(OutOfHashes), bits', hashes', marks))
      && (|hashes| > 0 ==> Walked(h, n, l, i, bits, hashes, Ok(hashes[0]), bits[1..], hashes[1..],
                                  if l == 0 && bits[0] then [(hashes[0], i)] else []))
  {
  }

  lemma WalkedLone<T>(h: (T, T) -> T, n: nat, l: nat, i: nat, bits: seq<bool>, hashes: seq<T>,
                      r: Result<T, WalkError>, bits': seq<bool>, hashes': seq<T>, marks: seq<(T, nat)>)
    requires |bits| > 0 && bits[0] && l > 0 && 2 * i + 1 >= Width(n, l - 1)
    requires Walked(h, n, l - 1, 2 * i, bits[1..], hashes, r, bits', hashes', marks)
    ensures Walked(h, n, l, i, bits, hashes, if r.Ok? then Ok(h(r.value, r.value)) else r, bits', hashes', marks)
  {
  }

  lemma WalkedFork<T>(h: (T, T) -> T, n: nat, l: nat, i: nat, bits: seq<bool>, hashes: seq<T>,
                      left: Result<T, WalkError>, bits': seq<bool>, hashes': seq<T>, marks: seq<(T, nat)>,
                      right: Result<T, WalkError>, bits'': seq<bool>, hashes'': seq<T>, marks': seq<(T, nat)>)
    requires |bits| > 0 && bits[0] && l > 0 && 2 * i + 1 < Width(n, l - 1)
    requires Walked(h, n, l - 1, 2 * i, bits[1..], hashes, left, bits', hashes', marks)
    requires left.Ok? ==> Walked(h, n, l - 1, 2 * i + 1, bits', hashes', right, bits'', hashes'', marks')
    ensures Walked(h, n, l, i, bits, hashes,
                   if left.Err? then left else if right.Err? then right else Ok(h(left.value, right.value)),
                   bits'', hashes'', marks + marks')
  {
    hide Bits, Hashes, Fits;
  }

  /** The walker's cursors: how many bits and hashes it has read, and what it has marked. */
  class Walker<T> {
    const h: (T, T) -> T
    const n: nat
    const bits: seq<bool>
    const hashes: seq<T>
    var bitsUsed: nat
    var hashesUsed: nat
    var matched: seq<(T, nat)>

    ghost predicate Valid()
      reads this
    {
      n > 0 && bitsUsed <= |bits| && hashesUsed <= |hashes|
    }

    constructor (h: (T, T) -> T, n: nat, bits: seq<bool>, hashes: seq<T>)
      requires n > 0
      ensures Valid() && this.h == h && this.n == n && this.bits == bits && this.hashes == hashes
      ensures bitsUsed == 0 && hashesUsed == 0 && matched == []
    {
      this.h, this.n, this.bits, this.hashes := h, n, bits, hashes;
      bitsUsed, hashesUsed, matched := 0, 0, [];
    }

    /** Walks node (l, i): the cursors move past exactly the branch that `Decode` sees there. */
    method Walk(l: nat, i: nat) returns (r: Result<T, WalkError>)
      requires Valid()
      modifies this
      ensures Valid()
      ensures |old(matched)| <= |matched| && matched[..|old(matched)|] == old(matched)
      ensures Walked(h, n, l, i, bits[old(bitsUsed)..], hashes[old(hashesUsed)..],
                     r, bits[bitsUsed..], hashes[hashesUsed..], matched[|old(matched)|..])
      decreases l
    {
      hide Walked;
      ghost var bits0, hashes0, k := bits[bitsUsed..], hashes[hashesUsed..], |matched|;
      WalkedStop(h, n, l, i, bits0, hashes0, bits[bitsUsed..], hashes[hashesUsed..], []);
      assert matched[k..] == [];
      if bitsUsed >= |bits| { return Err(OutOfBits); }
      var descend := bits[bitsUsed];
      bitsUsed := bitsUsed + 1;
      assert bits0[1..] == bits[bitsUsed..];
      if l == 0 || !descend {
        WalkedStop(h, n, l, i, bits0, hashes0, bits[bitsUsed..], hashes[hashesUsed..], []);
        if hashesUsed >= |hashes| { return Err(OutOfHashes); }
        var hash := hashes[hashesUsed];
        hashesUsed := hashesUsed + 1;
        assert hashes0[1..] == hashes[hashesUsed..];
        if l == 0 && descend { matched := matched + [(hash, i)]; }
        assert matched[k..] == if l == 0 && descend then [(hash, i)] else [];
        return Ok(hash);
      }
      var left := Walk(l - 1, 2 * i);
      ghost var bits1, hashes1, marks := bits[bitsUsed..], hashes[hashesUsed..], matched[k..];
      if 2 * i + 1 >= WidthAt(n, l - 1) {
        WalkedLone(h, n, l, i, bits0, hashes0, left, bits1, hashes1, marks);
        return if left.Ok? then Ok(h(left.value, left.value)) else left;
      }
      if left.Err? {
        WalkedFork(h, n, l, i, bits0, hashes0, left, bits1, hashes1, marks, left, bits1, hashes1, []);
        assert marks + [] == marks;
        return left;
      }
      var right := Walk(l - 1, 2 * i + 1);
      assert matched[k..] == marks + matched[k + |marks|..];
      WalkedFork(h, n, l, i, bits0, hashes0, left, bits1, hashes1, marks,
                 right, bits[bitsUsed..], hashes[hashesUsed..], matched[k + |marks|..]);
      r := if right.Ok? then Ok(h(left.value, right.value)) else right;
    }
  }

  // ---- an honest encoding is accepted and says what it should -------------------------------------

  /** Some marked leaf lies beneath node (l, i). */
  ghost predicate MarkBeneath(marks: set<nat>, n: nat, l: nat, i: nat) {
    exists j :: j in marks && j < n && Shift(j, l) == i
  }

  /** The branch BIP 37 prescribes: descend exactly where a match lies beneath. */
  ghost function Honest<T>(h: (T, T) -> T, s: seq<T>, marks: set<nat>, l: nat, i: nat): (t: Branch<T>)
    requires i < Width(|s|, l)
    ensures Fits(|s|, l, i, t) && BranchRoot(h, t) == TxNode(h, s, l, i)
  {
    if l == 0 then Stop(s[i], i in marks)
    else if !MarkBeneath(marks, |s|, l, i) then Stop(TxNode(h, s, l, i), false)
    else if 2 * i + 1 < Width(|s|, l - 1)
    then Fork(Honest(h, s, marks, l - 1, 2 * i), Honest(h, s, marks, l - 1, 2 * i + 1))
    else Lone(Honest(h, s, marks, l - 1, 2 * i))
  }

  /** The whole honest tree. */
  ghost function HonestTree<T>(h: (T, T) -> T, s: seq<T>, marks: set<nat>): Branch<T>
    requires |s| > 0
  {
    HeightIsLeast(|s|);
    Honest(h, s, marks, Height(|s|), 0)
  }

  /** A list with each element's position beside it. */
  function Indexed<T>(s: seq<T>): (r: seq<(T, nat)>)
    ensures |r| == |s| && forall j :: 0 <= j < |s| ==> r[j] == (s[j], j)
  {
    if |s| == 0 then [] else Indexed(s[..|s| - 1]) + [(s[|s| - 1], |s| - 1)]
  }

  /** The pairs at marked positions, in order. */
  function Keep<T>(marks: set<nat>, pairs: seq<(T, nat)>): seq<(T, nat)> {
    if |pairs| == 0 then []
    else (if pairs[0].1 in marks then [pairs[0]] else []) + Keep(marks, pairs[1..])
  }

  lemma {:induction false} KeepAppend<T>(marks: set<nat>, a: seq<(T, nat)>, b: seq<(T, nat)>)
    ensures Keep(marks, a + b) == Keep(marks, a) + Keep(marks, b)
  {
    if |a| == 0 {
      assert a + b == b;
    } else {
      var first := if a[0].1 in marks then [a[0]] else [];
      assert (a + b)[0] == a[0] && (a + b)[1..] == a[1..] + b;
      KeepAppend(marks, a[1..], b);
      assert first + (Keep(marks, a[1..]) + Keep(marks, b)) == (first + Keep(marks, a[1..])) + Keep(marks, b);
    }
  }

  lemma {:induction false} KeepNone<T>(marks: set<nat>, pairs: seq<(T, nat)>)
    requires forall k :: 0 <= k < |pairs| ==> pairs[k].1 !in marks
    ensures Keep(marks, pairs) == []
  {
    if |pairs| > 0 {
      KeepNone(marks, pairs[1..]);
    }
  }

  lemma {:induction false} PositionsBeneath<T>(s: seq<T>, l: nat, i: nat)
    requires i < Width(|s|, l)
    ensures forall p :: p in Beneath(Indexed(s), l, i) ==> p.1 < |s| && Shift(p.1, l) == i
    decreases l
  {
    if l > 0 {
      PositionsBeneath(s, l - 1, 2 * i);
      if 2 * i + 1 < Width(|s|, l - 1) { PositionsBeneath(s, l - 1, 2 * i + 1); }
    }
  }

  lemma KeepOne<T>(marks: set<nat>, pair: (T, nat))
    ensures Keep(marks, [pair]) == if pair.1 in marks then [pair] else []
  {
    assert Keep(marks, [pair][1..]) == [];
  }

  lemma {:induction false} HonestMarks<T>(h: (T, T) -> T, s: seq<T>, marks: set<nat>, l: nat, i: nat)
    requires i < Width(|s|, l)
    ensures Matches(Honest(h, s, marks, l, i), i) == Keep(marks, Beneath(Indexed(s), l, i))
    decreases l
  {
    hide MarkBeneath, Keep, TxNode, Fits, BranchRoot, Indexed, Honest, Beneath;
    HonestParts(h, s, marks, l, i);
    if l == 0 {
      KeepOne(marks, (s[i], i));
    } else if !MarkBeneath(marks, |s|, l, i) {
      NoneKept(s, marks, l, i);
    } else {
      HonestMarks(h, s, marks, l - 1, 2 * i);
      if 2 * i + 1 < Width(|s|, l - 1) {
        HonestMarks(h, s, marks, l - 1, 2 * i + 1);
        KeepAppend(marks, Beneath(Indexed(s), l - 1, 2 * i), Beneath(Indexed(s), l - 1, 2 * i + 1));
      }
    }
  }

  lemma NoneKept<T>(s: seq<T>, marks: set<nat>, l: nat, i: nat)
    requires i < Width(|s|, l) && !MarkBeneath(marks, |s|, l, i)
    ensures Keep(marks, Beneath(Indexed(s), l, i)) == []
  {
    PositionsBeneath(s, l, i);
    KeepNone(marks, Beneath(Indexed(s), l, i));
  }

  /** One node of the honest tree, and of the pairs beneath it. */
  lemma HonestParts<T>(h: (T, T) -> T, s: seq<T>, marks: set<nat>, l: nat, i: nat)
    requires i < Width(|s|, l)
    ensures l == 0 ==> Honest(h, s, marks, 0, i) == Stop(s[i], i in marks) && Beneath(Indexed(s), 0, i) == [(s[i], i)]
    ensures l > 0 && !MarkBeneath(marks, |s|, l, i) ==> Honest(h, s, marks, l, i) == Stop(TxNode(h, s, l, i), false)
    ensures l > 0 && MarkBeneath(marks, |s|, l, i) ==>
      && 2 * i < Width(|s|, l - 1)
      && var pairs := Indexed(s);
         if 2 * i + 1 < Width(|s|, l - 1)
         then Honest(h, s, marks, l, i)
             == Fork(Honest(h, s, marks, l - 1, 2 * i), Honest(h, s, marks, l - 1, 2 * i + 1))
              && Beneath(pairs, l, i) == Beneath(pairs, l - 1, 2 * i) + Beneath(pairs, l - 1, 2 * i + 1)
         else Honest(h, s, marks, l, i) == Lone(Honest(h, s, marks, l - 1, 2 * i))
              && Beneath(pairs, l, i) == Beneath(pairs, l - 1, 2 * i)
  {
    hide MarkBeneath, TxNode, Fits, BranchRoot;
  }

  /** Reading the honest encoding of any list and match set gives back the block's own root and exactly
      the marked hashes with their positions, and leaves nothing over. */
  lemma HonestEncodingRoundTrips<T>(h: (T, T) -> T, s: seq<T>, marks: set<nat>)
    requires |s| > 0
    ensures var t := HonestTree(h, s, marks);
      && Decode(|s|, Height(|s|), 0, Bits(t), Hashes(t)) == Ok(Parsed(t, [], []))
      && BranchRoot(h, t) == TxRoot(h, s)
      && Matches(t, 0) == Keep(marks, Indexed(s))
  {
    HeightIsLeast(|s|);
    var t := HonestTree(h, s, marks);
    DecodeReadsBack(|s|, Height(|s|), 0, t, [], []);
    assert Bits(t) + [] == Bits(t) && Hashes(t) + [] == Hashes(t);
    HonestMarks(h, s, marks, Height(|s|), 0);
    RootBeneath(Indexed(s), Height(|s|));
  }

  // ---- an accepted tree marks only true leaves ----------------------------------------------------

  /** Every pair hashed to compute the branch's root. */
  ghost function BranchHashed<T>(h: (T, T) -> T, t: Branch<T>): set<(T, T)> {
    match t
    case Stop(_, _) => {}
    case Fork(left, right) => {(BranchRoot(h, left), BranchRoot(h, right))} + BranchHashed(h, left)
        + BranchHashed(h, right)
    case Lone(only) => {(BranchRoot(h, only), BranchRoot(h, only))} + BranchHashed(h, only)
  }

  /** Each marked pair is the list's own. */
  predicate AllTrue<T(==)>(s: seq<T>, marked: seq<(T, nat)>) {
    forall k :: 0 <= k < |marked| ==> marked[k].1 < |s| && s[marked[k].1] == marked[k].0
  }

  lemma AllTrueAppend<T>(s: seq<T>, a: seq<(T, nat)>, b: seq<(T, nat)>)
    requires AllTrue(s, a) && AllTrue(s, b)
    ensures AllTrue(s, a + b)
  {
  }

  /** A branch with the block's own root at a node has the block's own roots at its children. */
  lemma ChildrenAgree<T>(h: (T, T) -> T, s: seq<T>, l: nat, i: nat, left: T, right: T, pairs: set<(T, T)>)
    requires i < Width(|s|, l + 1) && Hashed(h, s, l + 1, i) <= pairs && (left, right) in pairs
      && CollisionFree(h, pairs)
    requires h(left, right) == TxNode(h, s, l + 1, i)
    ensures 2 * i < Width(|s|, l) && left == TxNode(h, s, l, 2 * i) && Hashed(h, s, l, 2 * i) <= pairs
    ensures RightOf(|s|, l, i) < Width(|s|, l) && right == TxNode(h, s, l, RightOf(|s|, l, i))
    ensures Hashed(h, s, l, RightOf(|s|, l, i)) <= pairs
  {
    NodeParts(h, s, l, i);
    hide TxNode, Hashed;
  }

  lemma {:induction false} BranchMarksTrueLeaves<T>(
      h: (T, T) -> T, s: seq<T>, l: nat, i: nat, t: Branch<T>, pairs: set<(T, T)>)
    requires i < Width(|s|, l) && Fits(|s|, l, i, t)
    requires Hashed(h, s, l, i) <= pairs && BranchHashed(h, t) <= pairs && CollisionFree(h, pairs)
    requires BranchRoot(h, t) == TxNode(h, s, l, i)
    ensures AllTrue(s, Matches(t, i))
    decreases t
  {
    match t
    case Stop(_, _) =>
    case Lone(only) =>
      ChildrenAgree(h, s, l - 1, i, BranchRoot(h, only), BranchRoot(h, only), pairs);
      BranchMarksTrueLeaves(h, s, l - 1, 2 * i, only, pairs);
    case Fork(left, right) =>
      ChildrenAgree(h, s, l - 1, i, BranchRoot(h, left), BranchRoot(h, right), pairs);
      BranchMarksTrueLeaves(h, s, l - 1, 2 * i, left, pairs);
      BranchMarksTrueLeaves(h, s, l - 1, 2 * i + 1, right, pairs);
      AllTrueAppend(s, Matches(left, 2 * i), Matches(right, 2 * i + 1));
  }

  /** Soundness: whatever bits and hashes were sent, if they parse to the root of a list of the claimed
      length, every marked (hash, position) pair is that list's. Nothing else about the encoding is
      assumed. */
  lemma AcceptedTreeMarksTrueLeaves<T>(h: (T, T) -> T, s: seq<T>, bits: seq<bool>, hashes: seq<T>)
    requires |s| > 0
    requires var d := Decode(|s|, Height(|s|), 0, bits, hashes);
      && d.Ok? && BranchRoot(h, d.value.tree) == TxRoot(h, s)
      && CollisionFree(h, RootHashed(h, s) + BranchHashed(h, d.value.tree))
    ensures var d := Decode(|s|, Height(|s|), 0, bits, hashes);
      AllTrue(s, Matches(d.value.tree, 0))
  {
    HeightIsLeast(|s|);
    var t := Decode(|s|, Height(|s|), 0, bits, hashes).value.tree;
    BranchMarksTrueLeaves(h, s, Height(|s|), 0, t, RootHashed(h, s) + BranchHashed(h, t));
  }

  /** The length has to be the claimed one. Over a list of three, a tree that claims four transactions
      can reproduce the root under every hash and mark position 3, which the list does not have. */
  lemma ClaimedLengthMatters<T>(h: (T, T) -> T, x: T, y: T, z: T)
    ensures var t := Fork(Stop(h(x, y), false), Fork(Stop(z, false), Stop(z, true)));
      && Fits(4, Height(4), 0, t)
      && BranchRoot(h, t) == TxRoot(h, [x, y, z])
      && Matches(t, 0) == [(z, 3)]
  {
    var s := [x, y, z];
    assert Width(4, 0) == 4 && Width(4, 1) == 2;
    assert Width(3, 0) == 3 && Width(3, 1) == 2;
    assert Height(4) == 1 + Height(2) && Height(3) == 1 + Height(2) && Height(2) == 1 + Height(1);
    assert Width(3, 2) == 1 && TxNode(h, s, 1, 0) == h(x, y) && TxNode(h, s, 1, 1) == h(z, z);
    assert Height(3) == 2 && TxRoot(h, s) == TxNode(h, s, 2, 0) == h(h(x, y), h(z, z));
    var t := Fork(Stop(h(x, y), false), Fork(Stop(z, false), Stop(z, true)));
    assert Fits(4, 0, 2, Stop(z, false)) && Fits(4, 0, 3, Stop(z, true));
    assert BranchRoot(h, t.right) == h(z, z);
    assert Fits(4, 1, 1, t.right) && Fits(4, 1, 0, t.left);
    assert Matches(t.left, 0) == [] && Matches(t.right, 1) == [(z, 3)];
  }

  // ---- a tree that claims another length ----------------------------------------------------------

  /** Node (l, i) of the claimed tree stands on node (l, j) of the list's: at the same place, or past the
      end of the list's level. */
  predicate Tracks(n: nat, l: nat, i: nat, j: nat) {
    i == j || (j < i && i >= Width(n, l))
  }

  /** x is not the hash of one of the pairs. */
  ghost predicate NoDigest<T>(h: (T, T) -> T, x: T, pairs: set<(T, T)>) {
    forall p :: p in pairs ==> x != h(p.0, p.1)
  }

  /** Each marked hash that is no inner digest is one of the list's, and is where it is said to be if the
      list reaches that far. */
  ghost predicate TrueWithin<T>(h: (T, T) -> T, s: seq<T>, marked: seq<(T, nat)>, pairs: set<(T, T)>) {
    forall k :: 0 <= k < |marked| && NoDigest(h, marked[k].0, pairs) ==>
      marked[k].0 in s && (marked[k].1 < |s| ==> s[marked[k].1] == marked[k].0)
  }

  lemma StopMarks<T>(h: (T, T) -> T, s: seq<T>, i: nat, hash: T, m: nat, j: nat, pairs: set<(T, T)>)
    requires j < Width(|s|, m) && Hashed(h, s, m, j) <= pairs
    requires hash == TxNode(h, s, m, j) && (m == 0 ==> Tracks(|s|, 0, i, j))
    ensures TrueWithin(h, s, [(hash, i)], pairs)
  {
    if m > 0 { InnerIsDigest(h, s, m, j, pairs); }
  }

  lemma InnerIsDigest<T>(h: (T, T) -> T, s: seq<T>, m: nat, j: nat, pairs: set<(T, T)>)
    requires m > 0 && j < Width(|s|, m) && Hashed(h, s, m, j) <= pairs
    ensures !NoDigest(h, TxNode(h, s, m, j), pairs)
  {
    NodeParts(h, s, m - 1, j);
  }

  /** A node with a child in the claimed tree is no leaf of the list's. */
  lemma NotALeaf<T>(h: (T, T) -> T, s: seq<T>, m: nat, j: nat, left: T, right: T, pairs: set<(T, T)>)
    requires j < Width(|s|, m) && Separated(h, s, pairs) && (left, right) in pairs
      && h(left, right) == TxNode(h, s, m, j)
    ensures m > 0
  {
    hide TxNode, Width;
    var p := (left, right);
    assert p in pairs && TxNode(h, s, m, j) == h(p.0, p.1);
    if m == 0 { LeafNode(h, s, j); }
  }

  /** Both children of a node that tracks go on tracking. */
  lemma TracksDown(n: nat, l: nat, i: nat, j: nat)
    requires l > 0 && Tracks(n, l, i, j)
    ensures Tracks(n, l - 1, 2 * i, 2 * j) && Tracks(n, l - 1, 2 * i + 1, RightOf(n, l - 1, j))
  {
  }

  lemma TrueWithinAppend<T>(h: (T, T) -> T, s: seq<T>, a: seq<(T, nat)>, b: seq<(T, nat)>, pairs: set<(T, T)>)
    requires TrueWithin(h, s, a, pairs) && TrueWithin(h, s, b, pairs)
    ensures TrueWithin(h, s, a + b, pairs)
  {
    hide NoDigest;
  }

  /** t is a branch of node (l, i) in a tree over n leaves and has the root of the list's node (m, j). */
  ghost predicate Stands<T>(h: (T, T) -> T, s: seq<T>, n: nat, l: nat, i: nat, t: Branch<T>, m: nat, j: nat,
                            pairs: set<(T, T)>) {
    && Fits(n, l, i, t) && j < Width(|s|, m) && (l == m ==> Tracks(|s|, l, i, j))
    && Hashed(h, s, m, j) <= pairs && BranchHashed(h, t) <= pairs && Separated(h, s, pairs)
    && BranchRoot(h, t) == TxNode(h, s, m, j)
  }

  lemma LoneStands<T>(h: (T, T) -> T, s: seq<T>, n: nat, l: nat, i: nat, only: Branch<T>, m: nat, j: nat,
                      pairs: set<(T, T)>)
    requires Stands(h, s, n, l, i, Lone(only), m, j, pairs) && CollisionFree(h, pairs)
    ensures l > 0 && m > 0 && Stands(h, s, n, l - 1, 2 * i, only, m - 1, 2 * j, pairs)
  {
    hide TxNode, Hashed, Separated, CollisionFree, Tracks, Width, RightOf;
    var r := BranchRoot(h, only);
    NotALeaf(h, s, m, j, r, r, pairs);
    ChildrenAgree(h, s, m - 1, j, r, r, pairs);
    if l == m { TracksDown(|s|, l, i, j); }
  }

  lemma ForkStands<T>(
      h: (T, T) -> T, s: seq<T>, n: nat, l: nat, i: nat, left: Branch<T>, right: Branch<T>, m: nat, j: nat,
          pairs: set<(T, T)>)
    requires Stands(h, s, n, l, i, Fork(left, right), m, j, pairs) && CollisionFree(h, pairs)
    ensures l > 0 && m > 0 && Stands(h, s, n, l - 1, 2 * i, left, m - 1, 2 * j, pairs)
    ensures Stands(h, s, n, l - 1, 2 * i + 1, right, m - 1, RightOf(|s|, m - 1, j), pairs)
  {
    hide TxNode, Hashed, Separated, CollisionFree, Tracks, Width, RightOf;
    NotALeaf(h, s, m, j, BranchRoot(h, left), BranchRoot(h, right), pairs);
    ChildrenAgree(h, s, m - 1, j, BranchRoot(h, left), BranchRoot(h, right), pairs);
    if l == m { TracksDown(|s|, l, i, j); }
  }

  lemma StopStands<T>(h: (T, T) -> T, s: seq<T>, n: nat, l: nat, i: nat, t: Branch<T>, m: nat, j: nat,
                      pairs: set<(T, T)>)
    requires t.Stop? && Stands(h, s, n, l, i, t, m, j, pairs)
    ensures TrueWithin(h, s, Matches(t, i), pairs)
  {
    hide TxNode, Hashed, Separated, NoDigest, Tracks;
    if t.marked { StopMarks(h, s, i, t.hash, m, j, pairs); }
  }

  lemma {:induction false} BranchMarksWithin<T>(
      h: (T, T) -> T, s: seq<T>, n: nat, l: nat, i: nat, t: Branch<T>, m: nat, j: nat, pairs: set<(T, T)>)
    requires Stands(h, s, n, l, i, t, m, j, pairs) && CollisionFree(h, pairs)
    ensures TrueWithin(h, s, Matches(t, i), pairs)
    decreases t
  {
    hide Stands, CollisionFree, TrueWithin;
    match t
    case Stop(_, _) => StopStands(h, s, n, l, i, t, m, j, pairs);
    case Lone(only) =>
      LoneStands(h, s, n, l, i, only, m, j, pairs);
      BranchMarksWithin(h, s, n, l - 1, 2 * i, only, m - 1, 2 * j, pairs);
    case Fork(left, right) =>
      ForkStands(h, s, n, l, i, left, right, m, j, pairs);
      BranchMarksWithin(h, s, n, l - 1, 2 * i, left, m - 1, 2 * j, pairs);
      BranchMarksWithin(h, s, n, l - 1, 2 * i + 1, right, m - 1, RightOf(|s|, m - 1, j), pairs);
      TrueWithinAppend(h, s, Matches(left, 2 * i), Matches(right, 2 * i + 1), pairs);
  }

  /** Whatever length a tree claims: if it parses to the root of a list, every hash it marks that is no inner
      digest is one of the list's, and a position inside the list is told truly. */
  lemma AcceptedTreeIsTrueWithin<T>(h: (T, T) -> T, s: seq<T>, n: nat, bits: seq<bool>, hashes: seq<T>)
    requires |s| > 0 && n > 0
    requires var d := Decode(n, Height(n), 0, bits, hashes);
      && d.Ok? && BranchRoot(h, d.value.tree) == TxRoot(h, s)
      && var pairs := RootHashed(h, s) + BranchHashed(h, d.value.tree);
         CollisionFree(h, pairs) && Separated(h, s, pairs)
    ensures var t := Decode(n, Height(n), 0, bits, hashes).value.tree;
      TrueWithin(h, s, Matches(t, 0), RootHashed(h, s) + BranchHashed(h, t))
  {
    HeightIsLeast(|s|);
    var t := Decode(n, Height(n), 0, bits, hashes).value.tree;
    BranchMarksWithin(h, s, n, Height(n), 0, t, Height(|s|), 0, RootHashed(h, s) + BranchHashed(h, t));
  }

  // ---- how many nodes a walk can visit -----------------------------------------------------------

  /** Nodes of levels 0 to l beneath node (l, i), itself included. */
  ghost function NodeCount(n: nat, l: nat, i: nat): nat {
    if l == 0 then 1
    else 1 + NodeCount(n, l - 1, 2 * i) + (if 2 * i + 1 < Width(n, l - 1) then NodeCount(n, l - 1, 2 * i + 1) else 0)
  }

  ghost function NodeCounts(n: nat, l: nat, k: nat): nat {
    if k == 0 then 0 else NodeCounts(n, l, k - 1) + NodeCount(n, l, k - 1)
  }

  /** All nodes of levels 0 to l. */
  ghost function Population(n: nat, l: nat): nat {
    if l == 0 then n else Width(n, l) + Population(n, l - 1)
  }

  lemma {:induction false} CountByLevels(n: nat, l: nat, k: nat)
    requires k <= Width(n, l + 1)
    ensures NodeCounts(n, l + 1, k) == k + NodeCounts(n, l, if 2 * k <= Width(n, l) then 2 * k else Width(n, l))
    decreases k
  {
    if k > 0 {
      CountByLevels(n, l, k - 1);
      assert NodeCounts(n, l, 2 * k - 1) == NodeCounts(n, l, 2 * (k - 1)) + NodeCount(n, l, 2 * (k - 1));
    }
  }

  lemma {:induction false} CountLeaves(n: nat, k: nat)
    ensures NodeCounts(n, 0, k) == k
  {
    if k > 0 {
      CountLeaves(n, k - 1);
    }
  }

  lemma {:induction false} CountIsPopulation(n: nat, l: nat)
    ensures NodeCounts(n, l, Width(n, l)) == Population(n, l)
  {
    if l == 0 {
      CountLeaves(n, n);
    } else {
      CountIsPopulation(n, l - 1);
      CountByLevels(n, l - 1, Width(n, l));
    }
  }

  lemma {:induction false} PopulationBound(n: nat, l: nat)
    ensures Population(n, l) + Width(n, l) <= 2 * n + l
  {
    if l > 0 {
      PopulationBound(n, l - 1);
    }
  }

  lemma {:induction false} BitsAreVisits<T>(n: nat, l: nat, i: nat, t: Branch<T>)
    requires Fits(n, l, i, t)
    ensures |Hashes(t)| <= |Bits(t)| <= NodeCount(n, l, i)
    decreases t
  {
    match t
    case Stop(_, _) =>
    case Lone(only) => BitsAreVisits(n, l - 1, 2 * i, only);
    case Fork(left, right) =>
      BitsAreVisits(n, l - 1, 2 * i, left);
      BitsAreVisits(n, l - 1, 2 * i + 1, right);
  }

  /** A walk reads fewer than 2n + height flag bits and at most as many hashes. */
  lemma VisitBound<T>(n: nat, t: Branch<T>)
    requires n > 0 && Fits(n, Height(n), 0, t)
    ensures |Hashes(t)| <= |Bits(t)| < 2 * n + Height(n)
  {
    HeightIsLeast(n);
    BitsAreVisits(n, Height(n), 0, t);
    CountIsPopulation(n, Height(n));
    assert NodeCounts(n, Height(n), 1) == NodeCounts(n, Height(n), 0) + NodeCount(n, Height(n), 0);
    PopulationBound(n, Height(n));
  }
}

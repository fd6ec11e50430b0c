/**
  The incremental members tree (core/members_tree.js). The class keeps one waiting left sibling per
  level and the current root; a rebuild from durable records uses a carry stack instead. Both are
  proved against the padded tree, so the root never depends on the route that produced it.
 */
module MembersTree {
  import opened Wrappers
  import opened PaddedTree

  datatype TreeError = TreeFull(capacity: nat) | OverCapacity(count: nat) | NotAFieldElement

  /** A completed subtree waiting on the carry stack. */
  datatype Pending<T> = Pending(level: nat, node: T)

  datatype Path<T> = Path(elements: seq<T>, sides: seq<nat>)

  predicate AllConvert<T>(field: string -> Option<T>, cs: seq<string>) {
    forall i :: 0 <= i < |cs| ==> field(cs[i]).Some?
  }

  /** The field elements the commitments stand for, in order. */
  function Leaves<T>(field: string -> Option<T>, cs: seq<string>): (s: seq<T>)
    requires AllConvert(field, cs)
    ensures |s| == |cs|
    ensures forall i :: 0 <= i < |cs| ==> s[i] == field(cs[i]).value
  {
    seq(|cs|, i requires 0 <= i < |cs| => field(cs[i]).value)
  }

  // ---- the carry stack, as a function of how many leaves have been walked ------------------------

  /** The completed subtrees of the first k leaves at level l and above: one per set bit of k >> l,
      tallest first. */
  ghost function StackOf<T>(h: (T, T) -> T, z: T, s: seq<T>, k: nat, l: nat): seq<Pending<T>>
    decreases Shift(k, l)
  {
    if Shift(k, l) == 0 then []
    else
      StackOf(h, z, s, k, l + 1)
      + (if Shift(k, l) % 2 == 1 then [Pending(l, Node(h, z, s, l, Shift(k, l) - 1))] else [])
  }

  lemma {:induction false} StackSize<T>(h: (T, T) -> T, z: T, s: seq<T>, k: nat, l: nat)
    ensures |StackOf(h, z, s, k, l)| == PopCount(Shift(k, l))
    decreases Shift(k, l)
  {
    if Shift(k, l) != 0 {
      StackSize(h, z, s, k, l + 1);
    }
  }

  lemma {:induction false} StackDepends<T>(h: (T, T) -> T, z: T, s: seq<T>, a: nat, b: nat, l: nat)
    requires Shift(a, l) == Shift(b, l)
    ensures StackOf(h, z, s, a, l) == StackOf(h, z, s, b, l)
    decreases Shift(a, l)
  {
    if Shift(a, l) != 0 {
      StackDepends(h, z, s, a, b, l + 1);
    }
  }

  /** Every entry is a whole subtree of the first k leaves, at a level whose bit of k is set. */
  lemma {:induction false} StackEntries<T>(h: (T, T) -> T, z: T, s: seq<T>, k: nat, l: nat)
    ensures forall j :: 0 <= j < |StackOf(h, z, s, k, l)| ==>
      var e := StackOf(h, z, s, k, l)[j];
      e.level >= l && Shift(k, e.level) % 2 == 1 && e.node == Node(h, z, s, e.level, Shift(k, e.level) - 1)
    decreases Shift(k, l)
  {
    if Shift(k, l) != 0 {
      StackEntries(h, z, s, k, l + 1);
    }
  }

  /** And every set bit has its entry. */
  lemma {:induction false} StackCovers<T>(h: (T, T) -> T, z: T, s: seq<T>, k: nat, l: nat, bit: nat)
    requires l <= bit && Shift(k, bit) % 2 == 1
    ensures Pending(bit, Node(h, z, s, bit, Shift(k, bit) - 1)) in StackOf(h, z, s, k, l)
    decreases Shift(k, l), bit - l
  {
    if Shift(k, l) == 0 {
      ShiftAdd(k, l, bit - l);
      ZeroShift(bit - l);
    } else if l < bit {
      StackCovers(h, z, s, k, l + 1, bit);
    }
  }

  lemma {:induction false} ZeroShift(l: nat)
    ensures Shift(0, l) == 0
  {
    if l > 0 {
      ZeroShift(l - 1);
    }
  }

  /** The walk's inner step: what the top of the stack says about the next bit. */
  lemma StackTop<T>(h: (T, T) -> T, z: T, s: seq<T>, k: nat, l: nat)
    ensures var st := StackOf(h, z, s, k, l);
      if Shift(k, l) % 2 == 1
      then st != [] && st[|st| - 1] == Pending(l, Node(h, z, s, l, Shift(k, l) - 1))
           && st[..|st| - 1] == StackOf(h, z, s, k, l + 1)
      else (st == [] || st[|st| - 1].level != l) && st == StackOf(h, z, s, k, l + 1)
  {
    StackEntries(h, z, s, k, l + 1);
  }

  /** Popping the top entry: the combined node is one level up, and the count with leaf k on board
      carries one bit further. */
  lemma CarryStep<T>(h: (T, T) -> T, z: T, s: seq<T>, k: nat, l: nat)
    requires Shift(k, l) % 2 == 1 && Shift(k + 1, l) == Shift(k, l) + 1
    ensures var st := StackOf(h, z, s, k, l);
      && st != [] && st[..|st| - 1] == StackOf(h, z, s, k, l + 1)
      && Node(h, z, s, l + 1, Shift(k, l + 1)) == h(st[|st| - 1].node, Node(h, z, s, l, Shift(k, l)))
    ensures Shift(k + 1, l + 1) == Shift(k, l + 1) + 1
    ensures StackOf(h, z, s, k + 1, l) == StackOf(h, z, s, k + 1, l + 1)
  {
    StackTop(h, z, s, k, l);
    StackTop(h, z, s, k + 1, l);
    ParentOf(h, z, s, l, Shift(k, l));
  }

  /** Pushing onto a clear bit. */
  lemma CarryEnd<T>(h: (T, T) -> T, z: T, s: seq<T>, k: nat, l: nat)
    requires Shift(k, l) % 2 == 0 && Shift(k + 1, l) == Shift(k, l) + 1
    ensures StackOf(h, z, s, k + 1, l) == StackOf(h, z, s, k, l) + [Pending(l, Node(h, z, s, l, Shift(k, l)))]
  {
    StackTop(h, z, s, k, l);
    StackDepends(h, z, s, k, k + 1, l + 1);
  }

  /** A tree filled to the brim leaves one entry on the stack, and it is the root. */
  lemma {:induction false} FullStack<T>(h: (T, T) -> T, z: T, s: seq<T>, d: nat, l: nat)
    requires l <= d
    ensures StackOf(h, z, s, Pow2(d), l) == [Pending(d, Root(h, z, s, d))]
    decreases d - l
  {
    ShiftOfPow2(d, l);
    if l < d {
      FullStack(h, z, s, d, l + 1);
    } else {
      assert Shift(Pow2(d), d + 1) == Shift(Pow2(d), d) / 2 == 0;
    }
  }

  /** The nodes above leaf i, from the leaf itself up to level d. */
  ghost function Above<T>(h: (T, T) -> T, z: T, s: seq<T>, i: nat, d: nat): (r: seq<T>)
    ensures |r| == d + 1
    ensures forall l {:trigger r[l]} :: 0 <= l <= d ==> r[l] == Node(h, z, s, l, Shift(i, l))
  {
    (if d == 0 then [] else Above(h, z, s, i, d - 1)) + [Node(h, z, s, d, Shift(i, d))]
  }

  /** The left siblings the next append will read, at the levels where it is a right child. */
  ghost function Waiting<T>(h: (T, T) -> T, z: T, s: seq<T>, d: nat): (r: seq<T>)
    ensures |r| == d
    ensures forall l {:trigger r[l]} :: 0 <= l < d && Shift(|s|, l) % 2 == 1 ==>
      r[l] == Node(h, z, s, l, Shift(|s|, l) - 1)
  {
    if d == 0 then []
    else
      var i := Shift(|s|, d - 1);
      Waiting(h, z, s, d - 1) + [if i % 2 == 1 then Node(h, z, s, d - 1, i - 1) else z]
  }

  /** One level of an append: an even index is a left child beside an empty subtree, an odd one is the
      right partner of a node the append did not touch. */
  lemma InsertStep<T>(h: (T, T) -> T, z: T, before: seq<T>, leaf: T, l: nat)
    ensures var s := before + [leaf]; var idx := Shift(|before|, l);
      Node(h, z, s, l + 1, Shift(|before|, l + 1))
      == if idx % 2 == 0 then h(Node(h, z, s, l, idx), ZeroRoot(h, z, l))
         else h(Node(h, z, before, l, idx - 1), Node(h, z, s, l, idx))
  {
    var s := before + [leaf];
    var idx := Shift(|before|, l);
    ParentOf(h, z, s, l, idx);
    if idx % 2 == 0 {
      WidthBound(|before|, l);
      EmptyNode(h, z, s, l, idx + 1);
    } else {
      AppendFrame(h, z, before, leaf, l, idx - 1);
    }
  }

  /** The waiting sibling the next append will read at level l was either written by this append or
      left in place by it. */
  lemma NextSibling<T>(h: (T, T) -> T, z: T, before: seq<T>, leaf: T, l: nat)
    requires Shift(|before| + 1, l) % 2 == 1
    ensures var s := before + [leaf]; var idx := Shift(|before|, l);
      Node(h, z, s, l, Shift(|before| + 1, l) - 1)
      == if idx % 2 == 0 then Node(h, z, s, l, idx) else Node(h, z, before, l, idx - 1)
  {
    ShiftStep(|before|, l);
    if Shift(|before|, l) % 2 == 1 {
      AppendFrame(h, z, before, leaf, l, Shift(|before|, l) - 1);
    }
  }

  /** One level of the closing fold: the node over the next free slot. */
  lemma FoldLevel<T>(h: (T, T) -> T, z: T, s: seq<T>, l: nat)
    ensures var idx := Shift(|s|, l);
      Node(h, z, s, l + 1, idx / 2)
      == if idx % 2 == 1 then h(Node(h, z, s, l, idx - 1), Node(h, z, s, l, idx))
         else h(Node(h, z, s, l, idx), ZeroRoot(h, z, l))
  {
    WidthBound(|s|, l);
    ParentOf(h, z, s, l, Shift(|s|, l));
    if Shift(|s|, l) % 2 == 0 {
      EmptyNode(h, z, s, l, Shift(|s|, l) + 1);
    }
  }

  // ---- the full build ----------------------------------------------------------------------------

  /** Level l of the padded tree, all 2^(d - l) nodes of it. */
  ghost function LevelOf<T>(h: (T, T) -> T, z: T, s: seq<T>, d: nat, l: nat): (r: seq<T>)
    requires l <= d
    ensures |r| == Pow2(d - l)
  {
    seq(Pow2(d - l), i requires 0 <= i < Pow2(d - l) => Node(h, z, s, l, i))
  }

  lemma OneNodeLeft(k: nat)
    requires Pow2(k) <= 1
    ensures k == 0
  {
  }

  class MembersTree<T> {
    const h: (T, T) -> T
    const z: T
    const field: string -> Option<T>
    const depth: nat
    var zeros: seq<T>
    var commitments: seq<string>
    var levels: Option<seq<seq<T>>>
    const frontier: array<Option<T>>
    var root: T
    ghost var hashes: nat  // how often this tree has hashed

    /** Every hash the tree computes is computed here. */
    method Combine(left: T, right: T) returns (node: T)
      modifies this`hashes
      ensures node == h(left, right) && hashes == old(hashes) + 1
    {
      node := h(left, right);
      hashes := hashes + 1;
    }

    /** Only a frontier entry whose level's bit of the size is set is ever read, so only those are
        constrained; the rest may hold anything an earlier append left there. */
    ghost predicate FrontierFor(s: seq<T>, n: nat)
      reads this, frontier
    {
      forall l {:trigger frontier[l]} :: 0 <= l < depth && l < frontier.Length && Shift(n, l) % 2 == 1 ==>
        frontier[l] == Some(Node(h, z, s, l, Shift(n, l) - 1))
    }

    ghost predicate Shape()
      reads this
    {
      && frontier.Length == depth
      && |zeros| == depth + 1
      && (forall l {:trigger zeros[l]} :: 0 <= l <= depth ==> zeros[l] == ZeroRoot(h, z, l))
      && |commitments| <= Pow2(depth)
      && AllConvert(field, commitments)
    }

    ghost predicate Valid()
      reads this, frontier
    {
      && Shape()
      && FrontierFor(Leaves(field, commitments), |commitments|)
      && root == Root(h, z, Leaves(field, commitments), depth)
      && (levels.Some? ==>
            && |levels.value| == depth + 1
            && forall l {:trigger levels.value[l]} :: 0 <= l <= depth ==>
                 levels.value[l] == LevelOf(h, z, Leaves(field, commitments), depth, l))
    }

    constructor (h: (T, T) -> T, z: T, field: string -> Option<T>, depth: nat)
      ensures Valid() && fresh(frontier)
      ensures this.h == h && this.z == z && this.field == field && this.depth == depth
      ensures commitments == [] && levels == None && hashes == depth
    {
      this.h, this.z, this.field, this.depth := h, z, field, depth;
      zeros, commitments, levels := [z], [], None;
      frontier := new Option<T>[depth](_ => None);
      root, hashes := z, 0;
      new;
      for l := 0 to depth
        invariant |zeros| == l + 1 && hashes == l && commitments == [] && levels == None
        invariant fresh(frontier) && frontier.Length == depth
        invariant forall k {:trigger zeros[k]} :: 0 <= k <= l ==> zeros[k] == ZeroRoot(h, z, k)
        modifies this
      {
        var next := Combine(zeros[l], zeros[l]);
        zeros := zeros + [next];
      }
      root := zeros[depth];
      WidthBound(0, depth);
      forall l: nat ensures Shift(0, l) == 0 { ZeroShift(l); }
      EmptyWidth(depth);
      EmptyNode(h, z, [], depth, 0);
    }

    predicate Full()
      reads this
    {
      |commitments| >= Pow2(depth)
    }

    /** Refuses, leaving the tree untouched, when the tree is full or the commitment is not a field
        element; otherwise the leaf takes the next index and the root moves to the new list's. */
    method Append(commitment: string) returns (r: Result<nat, TreeError>)
      requires Valid()
      modifies this, frontier
      ensures Valid()
      ensures r == if old(Full()) then Err(TreeFull(Pow2(depth)))
                   else if field(commitment) == None then Err(NotAFieldElement)
                   else Ok(|old(commitments)|)
      ensures commitments == if r.Ok? then old(commitments) + [commitment] else old(commitments)
      ensures r.Err? ==> root == old(root) && levels == old(levels)
      ensures hashes == old(hashes) + if r.Ok? then depth else 0
    {
      if Full() { return Err(TreeFull(Pow2(depth))); }
      match field(commitment) {
        case None => return Err(NotAFieldElement);
        case Some(leaf) =>
          var index := |commitments|;
          ghost var before := Leaves(field, commitments);
          commitments := commitments + [commitment];
          levels := None;
          assert Leaves(field, commitments) == before + [leaf];
          Insert(before, leaf, index);
          r := Ok(index);
      }
    }

    /** One appended leaf recomputes the depth nodes above it. */
    method Insert(ghost before: seq<T>, leaf: T, index: nat)
      requires Shape() && |before| == index < Pow2(depth)
      requires FrontierFor(before, index)
      modifies this`root, this`hashes, frontier
      ensures FrontierFor(before + [leaf], index + 1)
      ensures root == Root(h, z, before + [leaf], depth)
      ensures hashes == old(hashes) + depth
    {
      ghost var s := before + [leaf];
      ghost var above := Above(h, z, s, index, depth);
      ghost var waiting := Waiting(h, z, before, depth);
      var cur, idx := leaf, index;
      for l := 0 to depth
        invariant idx == Shift(index, l) && cur == above[l] && hashes == old(hashes) + l
        invariant forall k {:trigger frontier[k]} :: 0 <= k < l && Shift(index, k) % 2 == 0 ==>
          frontier[k] == Some(above[k])
        invariant forall k {:trigger frontier[k]} :: 0 <= k < depth && Shift(index, k) % 2 == 1 ==>
          frontier[k] == Some(waiting[k])
      {
        InsertStep(h, z, before, leaf, l);
        if idx % 2 == 0 {
          frontier[l] := Some(cur);
          cur := Combine(cur, zeros[l]);
        } else {
          cur := Combine(frontier[l].value, cur);
        }
        idx := idx / 2;
      }
      ShiftVanishes(index, depth);
      root := cur;
      forall l | 0 <= l < depth && Shift(index + 1, l) % 2 == 1
        ensures frontier[l] == Some(Node(h, z, s, l, Shift(index + 1, l) - 1))
      {
        NextSibling(h, z, before, leaf, l);
        if Shift(index, l) % 2 == 0 {
          assert frontier[l] == Some(above[l]);
        } else {
          assert frontier[l] == Some(waiting[l]);
        }
      }
    }

    /** The one-pass rebuild. The tree it returns satisfies the same `Valid` that appending keeps, so
        its root and every frontier entry a later append reads are the appended ones. Beyond the depth
        hashes of an empty tree it spends one a node the walk combines, n - popcount(n) of them, and
        depth more to fold a tree that is not full. */
    static method FromCommitments(h: (T, T) -> T, z: T, field: string -> Option<T>, depth: nat, cs: seq<string>)
      returns (r: Result<MembersTree<T>, TreeError>)
      ensures r.Ok? <==> |cs| <= Pow2(depth) && AllConvert(field, cs)
      ensures |cs| > Pow2(depth) ==> r == Err(OverCapacity(|cs|))
      ensures r.Ok? ==>
        && fresh(r.value) && fresh(r.value.frontier) && r.value.Valid()
        && r.value.h == h && r.value.z == z && r.value.field == field && r.value.depth == depth
        && r.value.commitments == cs
        && r.value.hashes == depth + |cs| - PopCount(|cs|) + if |cs| == Pow2(depth) then 0 else depth
    {
      var t: MembersTree<T> := new MembersTree<T>(h, z, field, depth);
      if |cs| > Pow2(depth) { return Err(OverCapacity(|cs|)); }
      if !AllConvert(field, cs) { return Err(NotAFieldElement); }
      t.commitments := cs;
      hide Node, Root, ZeroRoot;
      var s := Leaves(field, cs);
      var stack: seq<Pending<T>> := [];
      for k := 0 to |s|
        invariant stack == StackOf(h, z, s, k, 0)
        invariant t.hashes + |stack| == depth + k
        modifies t`hashes
      {
        stack := t.Carry(s, k, stack);
      }
      StackSize(h, z, s, |s|, 0);
      t.FillFrontier(s, stack);
      if |s| == Pow2(depth) {
        FullStack(h, z, s, depth, 0);
        t.root := stack[0].node;
      } else {
        t.FoldFrontier(s, |s|);
      }
      r := Ok(t);
    }

    /** Brings leaf k onto the carry stack, combining while the top waits at the same level. Each
        round hashes once and shortens the stack by one, so the hashes spent are the entries lost. */
    method Carry(s: seq<T>, k: nat, stack: seq<Pending<T>>) returns (next: seq<Pending<T>>)
      requires k < |s| && stack == StackOf(h, z, s, k, 0)
      modifies this`hashes
      ensures next == StackOf(h, z, s, k + 1, 0)
      ensures hashes + |next| == old(hashes) + |stack| + 1
    {
      next := stack;
      var level, node := 0, s[k];
      while next != [] && next[|next| - 1].level == level
        invariant next == StackOf(h, z, s, k, level) && hashes + |next| == old(hashes) + |stack|
        invariant node == Node(h, z, s, level, Shift(k, level))
        invariant Shift(k + 1, level) == Shift(k, level) + 1
        invariant StackOf(h, z, s, k + 1, 0) == StackOf(h, z, s, k + 1, level)
        decreases |next|
      {
        hide Node, StackOf;
        StackTop(h, z, s, k, level);
        CarryStep(h, z, s, k, level);
        node := Combine(next[|next| - 1].node, node);
        next := next[..|next| - 1];
        level := level + 1;
      }
      StackTop(h, z, s, k, level);
      CarryEnd(h, z, s, k, level);
      next := next + [Pending(level, node)];
    }

    /** The root of a tree with room left, folded up from the next free slot. */
    method FoldFrontier(ghost s: seq<T>, n: nat)
      requires Shape() && |s| == n < Pow2(depth) && FrontierFor(s, n)
      modifies this`root, this`hashes
      ensures root == Root(h, z, s, depth) && hashes == old(hashes) + depth
    {
      var cur, idx := zeros[0], n;
      for l := 0 to depth
        invariant idx == Shift(n, l) && hashes == old(hashes) + l
        invariant cur == Node(h, z, s, l, idx)
      {
        FoldLevel(h, z, s, l);
        if idx % 2 == 1 {
          cur := Combine(frontier[l].value, cur);
        } else {
          cur := Combine(cur, zeros[l]);
        }
        idx := idx / 2;
      }
      ShiftVanishes(n, depth);
      root := cur;
    }

    /** Copies the carry stack into the frontier; an entry at the root's own level waits for nobody. */
    method FillFrontier(ghost s: seq<T>, stack: seq<Pending<T>>)
      requires frontier.Length == depth
      requires stack == StackOf(h, z, s, |s|, 0)
      modifies frontier
      ensures FrontierFor(s, |s|)
    {
      StackEntries(h, z, s, |s|, 0);
      for i := 0 to |stack|
        invariant forall j :: 0 <= j < i && stack[j].level < depth ==> frontier[stack[j].level] == Some(stack[j].node)
      {
        if stack[i].level < depth {
          frontier[stack[i].level] := Some(stack[i].node);
        }
      }
      forall l | 0 <= l < depth && Shift(|s|, l) % 2 == 1
        ensures frontier[l] == Some(Node(h, z, s, l, Shift(|s|, l) - 1))
      {
        StackCovers(h, z, s, |s|, 0, l);
      }
    }

    /** The reference build: pad to capacity, then hash pairs level by level, capacity - 1 hashes however
        few the members. Cached until an append. */
    method Levels() returns (ls: seq<seq<T>>)
      requires Valid()
      modifies this`levels, this`hashes
      ensures Valid() && levels == Some(ls)
      ensures hashes == old(hashes) + if old(levels).Some? then 0 else Pow2(depth) - 1
      ensures |ls| == depth + 1
      ensures forall l {:trigger ls[l]} :: 0 <= l <= depth ==>
        ls[l] == LevelOf(h, z, Leaves(field, commitments), depth, l)
    {
      if levels.Some? { return levels.value; }
      var s := Leaves(field, commitments);
      var level := s;
      while |level| < Pow2(depth)
        invariant |s| <= |level| <= Pow2(depth)
        invariant forall i :: 0 <= i < |level| ==> level[i] == Node(h, z, s, 0, i)
      {
        level := level + [z];
      }
      ls := [level];
      var l := 0;
      assert level == LevelOf(h, z, s, depth, 0);
      while |level| > 1
        invariant l <= depth && |ls| == l + 1
        invariant level == LevelOf(h, z, s, depth, l) && hashes + |level| == old(hashes) + Pow2(depth)
        invariant forall k {:trigger ls[k]} :: 0 <= k <= l ==> ls[k] == LevelOf(h, z, s, depth, k)
        decreases |level|
      {
        assert l < depth;
        var next := HashPairs(s, l, level);
        level := next;
        ls := ls + [level];
        l := l + 1;
      }
      OneNodeLeft(depth - l);
      levels := Some(ls);
    }

    method HashPairs(ghost s: seq<T>, ghost l: nat, level: seq<T>) returns (next: seq<T>)
      requires l < depth && level == LevelOf(h, z, s, depth, l)
      modifies this`hashes
      ensures next == LevelOf(h, z, s, depth, l + 1)
      ensures hashes + |next| == old(hashes) + |level|
    {
      next := [];
      var i := 0;
      assert |level| == 2 * Pow2(depth - (l + 1));
      while i < |level|
        invariant i == 2 * |next| <= |level| && hashes == old(hashes) + |next|
        invariant forall j :: 0 <= j < |next| ==> next[j] == Node(h, z, s, l + 1, j)
      {
        var node := Combine(level[i], level[i + 1]);
        next := next + [node];
        i := i + 2;
      }
    }

    /** The reference root, from the full build: the incremental root is the same element. */
    method RootFromFullBuild() returns (r: T)
      requires Valid()
      modifies this`levels, this`hashes
      ensures Valid() && r == root
    {
      var ls := Levels();
      r := ls[depth][0];
    }

    /** The sibling path out of the full build. */
    method PathFor(index: nat) returns (p: Path<T>)
      requires Valid() && index < Pow2(depth)
      modifies this`levels, this`hashes
      ensures Valid()
      ensures p == Path(PathNodes(h, z, Leaves(field, commitments), index, depth), PathSides(index, depth))
    {
      var ls := Levels();
      var elements, sides := [], [];
      var idx := index;
      for l := 0 to depth
        invariant idx == Shift(index, l) < Pow2(depth - l)
        invariant elements == PathNodes(h, z, Leaves(field, commitments), index, l)
        invariant sides == PathSides(index, l)
      {
        assert Pow2(depth - l) == 2 * Pow2(depth - (l + 1));
        hide Node, ZeroRoot, Root;
        elements := elements + [ls[l][Sibling(idx)]];
        sides := sides + [idx % 2];
        idx := idx / 2;
      }
      p := Path(elements, sides);
    }
  }

  /** However two trees over one commitment list were built, their roots agree and so does every
      frontier entry an append can read. */
  lemma SameListSameTree<T>(a: MembersTree<T>, b: MembersTree<T>)
    requires a.Valid() && b.Valid()
    requires a.h == b.h && a.z == b.z && a.field == b.field && a.depth == b.depth
    requires a.commitments == b.commitments
    ensures a.root == b.root
    ensures forall l :: 0 <= l < a.depth && Shift(|a.commitments|, l) % 2 == 1 ==> a.frontier[l] == b.frontier[l]
  {
    assert Leaves(a.field, a.commitments) == Leaves(b.field, b.commitments);
    forall l | 0 <= l < a.depth && Shift(|a.commitments|, l) % 2 == 1
      ensures a.frontier[l] == b.frontier[l]
    {
      assert a.frontier[l].Some? && b.frontier[l].Some?;
    }
  }
}

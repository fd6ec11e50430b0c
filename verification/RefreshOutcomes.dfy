/**
  What a refresh does to the root window (core/gateway.js, refreshRoots), said of the snapshot's own fields: when it
  is adopted, what is then held for it, and that the two leaf orderings of one list are held side by side.
 */
module RefreshOutcomes {
  import opened LeafSet
  import opened RootWindow
  import opened Sorting
  import opened Wrappers

  /** A record can be held exactly when its snapshot, if it has one, is its own in height and roots and carries nothing
      else, and its ordering is one of the two there are. */
  lemma HoldsExactlyWhen(r: Record)
    ensures Fault(r).None? <==>
      && (r.snapshot.Some? ==>
            r.snapshot.value == Snapshot(r.height, r.root, r.shaRoot, r.snapshot.value.leaves, false))
      && (r.order.None? || r.order.value == "proRegTxHash")
  {
  }

  /** x is held for this snapshot: its height, roots, time, block and leaves, nothing of anything else, and the
      ordering its version stands for. */
  predicate HeldFor(sha: string -> string, x: Record, c: Candidate) {
    && x.height == c.height && x.root == c.root && x.shaRoot == c.shaRoot && x.ts == c.ts && x.blockHash == c.blockHash
    && x.order == (if c.version == 3 then Some("proRegTxHash") else None)
    && x.setCommitment == Some(LeafSetCommitment(sha, c.leaves))
    && x.snapshot == Some(Snapshot(c.height, c.root, c.shaRoot, c.leaves, false))
  }

  /** Nothing held is above the snapshot, and everything at its height is of its block and its leaf multiset. */
  predicate FitsIn(sha: string -> string, snaps: seq<Record>, c: Candidate) {
    forall x | x in snaps ::
      && x.height <= c.height
      && (x.height == c.height ==>
            && x.blockHash.Some? && x.blockHash == c.blockHash
            && x.setCommitment == Some(LeafSetCommitment(sha, c.leaves)))
  }

  lemma AdoptableExactlyWhen(sha: string -> string, snaps: seq<Record>, c: Candidate)
    ensures Adoptable(snaps, RecordFor(sha, c)) <==> FitsIn(sha, snaps, c)
  {
  }

  /** A refresh adopts a snapshot exactly when it is signed, its roots are its leaves' and it fits in: it is then
      current, held as it is, and all else held was held before; otherwise the window is left as it was. */
  lemma RefreshesExactlyWhen(sha: string -> string, window: nat, maxLeaves: int, snaps: seq<Record>, c: Candidate,
                             signed: bool, consistent: bool, pins: set<string>)
    ensures var after := Step(sha, window, maxLeaves, snaps, Refresh(c, signed, consistent, pins));
      if signed && consistent && FitsIn(sha, snaps, c) then
        && |after| > 0 && HeldFor(sha, after[|after| - 1], c)
        && forall x :: x in after ==> x == after[|after| - 1] || x in snaps
      else after == snaps
  {
    hide Adopted, Adoptable, FitsIn;
    var r := RecordFor(sha, c);
    AdoptableExactlyWhen(sha, snaps, c);
    if signed && consistent && FitsIn(sha, snaps, c) { AdoptedFrom(snaps, r, window, maxLeaves, pins); }
  }

  lemma AdoptedFrom(snaps: seq<Record>, r: Record, window: nat, maxLeaves: int, pins: set<string>)
    requires Adoptable(snaps, r)
    ensures var after := Adopted(snaps, r, window, maxLeaves, pins);
      |after| > 0 && after[|after| - 1] == r && forall x :: x in after ==> x == r || x in snaps
  {
    AdoptedIsCurrent(snaps, r, window, maxLeaves, pins);
    PlacedSorted(snaps, r);
    var hs := AdoptedOnlyKeeps(snaps, r, window, maxLeaves, pins);
    HasHeights(Placed(snaps, r), hs);
    hide Adopted, Placed, Sorted;
  }

  /** One list published in both leaf orderings, either first: both are held after both refreshes, so a proof against
      either tree is accepted through a changeover. */
  lemma BothOrderingsAreHeld(sha: string -> string, window: nat, maxLeaves: int, snaps: seq<Record>, a: Candidate,
                             b: Candidate, pins: set<string>, later: set<string>)
    requires FitsIn(sha, snaps, a) && (a.version == 3 <==> b.version != 3)
    requires a.height == b.height && a.blockHash.Some? && a.blockHash == b.blockHash
    requires multiset(a.leaves) == multiset(b.leaves)
    ensures var first := Step(sha, window, maxLeaves, snaps, Refresh(a, true, true, pins));
      var both := Step(sha, window, maxLeaves, first, Refresh(b, true, true, later));
      && (exists x :: x in both && HeldFor(sha, x, a)) && (exists y :: y in both && HeldFor(sha, y, b))
  {
    hide Adopted, Adoptable, StableSort, HeldFor, FitsIn;
    var first := Step(sha, window, maxLeaves, snaps, Refresh(a, true, true, pins));
    RefreshesExactlyWhen(sha, window, maxLeaves, snaps, a, true, true, pins);
    SortedSame(a.leaves, b.leaves);
    var x := first[|first| - 1];
    StillFits(sha, snaps, first, a, b);
    RefreshesExactlyWhen(sha, window, maxLeaves, first, b, true, true, later);
    SecondKeepsFirst(sha, window, maxLeaves, first, x, a, b, later);
    var both := Step(sha, window, maxLeaves, first, Refresh(b, true, true, later));
    assert both[|both| - 1] in both;
  }

  lemma StillFits(sha: string -> string, snaps: seq<Record>, first: seq<Record>, a: Candidate, b: Candidate)
    requires FitsIn(sha, snaps, a) && |first| > 0 && HeldFor(sha, first[|first| - 1], a)
    requires forall x :: x in first ==> x == first[|first| - 1] || x in snaps
    requires a.height == b.height && a.blockHash.Some? && a.blockHash == b.blockHash
    requires LeafSetCommitment(sha, a.leaves) == LeafSetCommitment(sha, b.leaves)
    ensures FitsIn(sha, first, b)
  {
    hide LeafSetCommitment;
  }

  lemma SecondKeepsFirst(sha: string -> string, window: nat, maxLeaves: int, first: seq<Record>, x: Record,
                         a: Candidate, b: Candidate, pins: set<string>)
    requires FitsIn(sha, first, b) && x in first && HeldFor(sha, x, a)
    requires a.height == b.height && (a.version == 3 <==> b.version != 3)
    ensures x in Step(sha, window, maxLeaves, first, Refresh(b, true, true, pins))
  {
    AdoptableExactlyWhen(sha, first, b);
    OtherOrderStays(first, RecordFor(sha, b), window, maxLeaves, pins, x);
    hide Adopted, LeafSetCommitment;
  }
}

/**
  The window of masternode-list snapshots (core/stores.js, RootWindows) and the gateway's decision to adopt
  one (core/gateway.js, refreshRoots): two leaf orderings may share a height, heights are trimmed whole, and
  the memory they hold is bounded without ever giving up the present.
 */
module RootWindow {
  import opened Wrappers
  import opened Sorting
  import opened Lists
  import opened LeafSet

  /** A snapshot as held: extra is whether it carries any field outside the eight the window allows. */
  datatype Snapshot = Snapshot(height: int, root: string, shaRoot: Option<string>, leaves: seq<string>, extra: bool)

  /** One adopted snapshot with its roots, its ordering, and the block and leaf multiset it describes. */
  datatype Record = Record(height: int, root: string, shaRoot: Option<string>, ts: int, order: Option<string>,
                           blockHash: Option<string>, setCommitment: Option<string>, snapshot: Option<Snapshot>)

  datatype AdoptError = ExtraField | OtherRoot | OtherHeight | OtherShaRoot | UnknownOrder

  /** What the store refuses to hold: an un-normalized snapshot, one that is not the record's own, or an
      ordering outside the known two. */
  function Fault(r: Record): Option<AdoptError> {
    if r.snapshot.Some? && r.snapshot.value.extra then Some(ExtraField)
    else if r.snapshot.Some? && r.snapshot.value.root != r.root then Some(OtherRoot)
    else if r.snapshot.Some? && r.snapshot.value.height != r.height then Some(OtherHeight)
    else if r.snapshot.Some? && r.snapshot.value.shaRoot != r.shaRoot then Some(OtherShaRoot)
    else if r.order !in {None, Some("proRegTxHash")} then Some(UnknownOrder)
    else None
  }

  predicate SameKey(a: Record, b: Record) {
    a.height == b.height && a.order == b.order
  }

  predicate ByHeight(a: Record, b: Record) {
    a.height <= b.height
  }

  // ---- lists of records ------------------------------------------------------------------------------

  /** The records at the heights in the set, in order. */
  function AtHeights(s: seq<Record>, hs: set<int>): (r: seq<Record>)
    ensures |r| <= |s|
  {
    if |s| == 0 then [] else (if s[0].height in hs then [s[0]] else []) + AtHeights(s[1..], hs)
  }

  lemma {:induction false} HasHeights(s: seq<Record>, hs: set<int>)
    ensures forall x :: x in AtHeights(s, hs) <==> x in s && x.height in hs
  {
    if |s| > 0 {
      HasHeights(s[1..], hs);
      HeadAndTail(s);
    }
  }

  function WithoutKey(s: seq<Record>, k: Record): (r: seq<Record>)
    ensures forall x :: x in r <==> x in s && !SameKey(x, k)
  {
    if |s| == 0 then [] else (if SameKey(s[0], k) then [] else [s[0]]) + WithoutKey(s[1..], k)
  }

  function HeightsOf(s: seq<Record>): (hs: set<int>)
    ensures forall h :: h in hs <==> exists i :: 0 <= i < |s| && s[i].height == h
  {
    set i | 0 <= i < |s| :: s[i].height
  }

  /** The heights of a height-sorted list, each once, ascending. */
  function Ladder(s: seq<Record>): (r: seq<int>) {
    if |s| == 0 then []
    else
      var before := Ladder(s[..|s| - 1]);
      var h := s[|s| - 1].height;
      if |before| > 0 && before[|before| - 1] == h then before else before + [h]
  }

  predicate Sorted(s: seq<Record>) {
    forall i, j :: 0 <= i < j < |s| ==> s[i].height <= s[j].height
  }

  lemma HeightsAppend(front: seq<Record>, last: Record)
    ensures HeightsOf(front + [last]) == HeightsOf(front) + {last.height}
  {
    var s := front + [last];
    forall h ensures h in HeightsOf(s) <==> h in HeightsOf(front) + {last.height} {
      if h in HeightsOf(front) {
        var i :| 0 <= i < |front| && front[i].height == h;
        assert s[i].height == h;
      }
      assert s[|front|].height == last.height;
    }
  }

  lemma {:induction false} LadderTop(s: seq<Record>)
    requires |s| > 0
    ensures |Ladder(s)| > 0 && Ladder(s)[|Ladder(s)| - 1] == s[|s| - 1].height
  {
  }

  lemma {:induction false} LadderHeights(s: seq<Record>)
    ensures forall h :: h in Ladder(s) <==> h in HeightsOf(s)
  {
    if |s| > 0 {
      var front, last := s[..|s| - 1], s[|s| - 1];
      LadderHeights(front);
      HeightsAppend(front, last);
      assert s == front + [last];
    }
  }

  lemma {:induction false} LadderAscends(s: seq<Record>)
    requires Sorted(s)
    ensures forall i, j :: 0 <= i < j < |Ladder(s)| ==> Ladder(s)[i] < Ladder(s)[j]
    ensures forall h :: h in Ladder(s) <==> h in HeightsOf(s)
    ensures |s| > 0 ==> |Ladder(s)| > 0 && Ladder(s)[|Ladder(s)| - 1] == s[|s| - 1].height
  {
    LadderHeights(s);
    hide HeightsOf;
    if |s| > 0 {
      var front, last := s[..|s| - 1], s[|s| - 1];
      assert Sorted(front);
      LadderAscends(front);
      LadderTop(s);
      if |front| > 0 {
        LadderTop(front);
        assert front[|front| - 1].height <= last.height;
      }
    }
  }

  // ---- adopting --------------------------------------------------------------------------------------

  /** Past the key's old record, last in adoption order, in height order. */
  function Placed(snaps: seq<Record>, r: Record): seq<Record> {
    StableSort(ByHeight, WithoutKey(snaps, r) + [r])
  }

  /** slice(-window) of the heights: a window of 0 keeps them all. */
  function KeptHeights(ladder: seq<int>, window: nat): set<int> {
    set i | 0 <= i < |ladder| && (window == 0 || i >= |ladder| - window) :: ladder[i]
  }

  function Trimmed(s: seq<Record>, window: nat): seq<Record> {
    AtHeights(s, KeptHeights(Ladder(s), window))
  }

  function LeavesOf(r: Record): nat {
    if r.snapshot.Some? then |r.snapshot.value.leaves| else 0
  }

  function RetainedLeaves(s: seq<Record>): nat {
    if |s| == 0 then 0 else LeavesOf(s[0]) + RetainedLeaves(s[1..])
  }

  /** Some record at the height carries a root a live challenge or verify depends on. */
  predicate Pinned(s: seq<Record>, pins: set<string>, h: int) {
    exists r | r in s :: r.height == h && (r.root in pins || (r.shaRoot.Some? && r.shaRoot.value in pins))
  }

  /** The oldest unpinned height below the newest, or the oldest when all are pinned. */
  function Target(s: seq<Record>, pins: set<string>, ladder: seq<int>): (h: int)
    requires |ladder| > 1
    ensures h in ladder[..|ladder| - 1]
  {
    var k := FirstUnpinned(s, pins, ladder[..|ladder| - 1]);
    if k < |ladder| - 1 then ladder[k] else ladder[0]
  }

  function FirstUnpinned(s: seq<Record>, pins: set<string>, heights: seq<int>): (k: nat)
    ensures k <= |heights| && (k < |heights| ==> !Pinned(s, pins, heights[k]))
    ensures forall i :: 0 <= i < k ==> Pinned(s, pins, heights[i])
  {
    if |heights| == 0 then 0 else if !Pinned(s, pins, heights[0]) then 0 else 1 + FirstUnpinned(s, pins, heights[1..])
  }

  lemma {:induction false} DroppingShrinks(s: seq<Record>, h: int)
    requires h in HeightsOf(s)
    ensures |AtHeights(s, HeightsOf(s) - {h})| < |s|
  {
    DroppingShrinksIn(s, HeightsOf(s) - {h}, h);
  }

  lemma {:induction false} DroppingShrinksIn(s: seq<Record>, hs: set<int>, h: int)
    requires h !in hs && exists i :: 0 <= i < |s| && s[i].height == h
    ensures |AtHeights(s, hs)| < |s|
  {
    var i :| 0 <= i < |s| && s[i].height == h;
    if i > 0 {
      assert s[1..][i - 1].height == h;
      DroppingShrinksIn(s[1..], hs, h);
    }
  }

  /** Whole heights go, until the leaves fit or one height is left. */
  function Bounded(s: seq<Record>, maxLeaves: int, pins: set<string>): (r: seq<Record>)
    requires Sorted(s)
    decreases |s|
  {
    if maxLeaves <= 0 || RetainedLeaves(s) <= maxLeaves || |Ladder(s)| <= 1 then s
    else
      LadderAscends(s);
      var h := Target(s, pins, Ladder(s));
      DroppingShrinks(s, h);
      SortedAtHeights(s, HeightsOf(s) - {h});
      Bounded(AtHeights(s, HeightsOf(s) - {h}), maxLeaves, pins)
  }

  lemma {:induction false} SortedAtHeights(s: seq<Record>, hs: set<int>)
    requires Sorted(s)
    ensures Sorted(AtHeights(s, hs))
  {
    if |s| > 0 {
      SortedAtHeights(s[1..], hs);
      HasHeights(s[1..], hs);
      var rest := AtHeights(s[1..], hs);
      forall j | 0 <= j < |rest| ensures s[0].height <= rest[j].height {
        assert rest[j] in s[1..];
        var k :| 0 <= k < |s[1..]| && s[1..][k] == rest[j];
        assert s[k + 1] == rest[j];
      }
    }
  }

  function Adopted(snaps: seq<Record>, r: Record, window: nat, maxLeaves: int, pins: set<string>): seq<Record> {
    var placed := Placed(snaps, r);
    PlacedSorted(snaps, r);
    SortedAtHeights(placed, KeptHeights(Ladder(placed), window));
    Bounded(Trimmed(placed, window), maxLeaves, pins)
  }

  lemma PlacedSorted(snaps: seq<Record>, r: Record)
    ensures Sorted(Placed(snaps, r))
    ensures forall x :: x in Placed(snaps, r) <==> x == r || (x in snaps && !SameKey(x, r))
  {
    var s := WithoutKey(snaps, r) + [r];
    SortSorts(ByHeight, s);
    SortPermutes(ByHeight, s);
    forall i, j | 0 <= i < j < |Placed(snaps, r)| ensures Placed(snaps, r)[i].height <= Placed(snaps, r)[j].height {
      assert ByHeight(Placed(snaps, r)[i], Placed(snaps, r)[j]);
    }
    forall x ensures x in Placed(snaps, r) <==> x in s {
      assert x in Placed(snaps, r) <==> x in multiset(Placed(snaps, r));
      assert x in s <==> x in multiset(s);
    }
  }

  // ---- what trimming and bounding keep ----------------------------------------------------------------

  lemma {:induction false} HeightsCompose(s: seq<Record>, a: set<int>, b: set<int>)
    ensures AtHeights(AtHeights(s, a), b) == AtHeights(s, a * b)
  {
    if |s| > 0 {
      HeightsCompose(s[1..], a, b);
      var rest := AtHeights(s[1..], a);
      if s[0].height in a {
        assert ([s[0]] + rest)[0] == s[0] && ([s[0]] + rest)[1..] == rest;
      } else {
        assert [] + rest == rest;
      }
    }
  }

  lemma {:induction false} AllHeights(s: seq<Record>, hs: set<int>)
    requires HeightsOf(s) <= hs
    ensures AtHeights(s, hs) == s
  {
    if |s| > 0 {
      assert s[0].height in HeightsOf(s);
      forall h | h in HeightsOf(s[1..]) ensures h in hs {
        var i :| 0 <= i < |s[1..]| && s[1..][i].height == h;
        assert s[i + 1].height == h;
      }
      AllHeights(s[1..], hs);
      HeadAndTail(s);
    }
  }

  lemma {:induction false} LastKept(s: seq<Record>, hs: set<int>)
    requires |s| > 0 && s[|s| - 1].height in hs
    ensures var t := AtHeights(s, hs); |t| > 0 && t[|t| - 1] == s[|s| - 1]
  {
    if |s| > 1 {
      var rest := AtHeights(s[1..], hs);
      LastKept(s[1..], hs);
      LastOfTwo(if s[0].height in hs then [s[0]] else [], rest);
    }
  }

  lemma LastOfTwo(a: seq<Record>, b: seq<Record>)
    requires |b| > 0
    ensures (a + b)[|a + b| - 1] == b[|b| - 1]
  {
  }

  lemma HeightsKept(s: seq<Record>, hs: set<int>)
    requires hs <= HeightsOf(s)
    ensures HeightsOf(AtHeights(s, hs)) == hs
  {
    HasHeights(s, hs);
    var t := AtHeights(s, hs);
    forall h ensures h in HeightsOf(t) <==> h in hs {
      if h in HeightsOf(t) {
        var i :| 0 <= i < |t| && t[i].height == h;
        assert t[i] in t;
      }
      if h in hs {
        var i :| 0 <= i < |s| && s[i].height == h;
        assert s[i] in t;
        var k :| 0 <= k < |t| && t[k] == s[i];
      }
    }
  }

  lemma PinsSurvive(s: seq<Record>, hs: set<int>, pins: set<string>, h: int)
    requires h in hs
    ensures Pinned(AtHeights(s, hs), pins, h) <==> Pinned(s, pins, h)
  {
    HasHeights(s, hs);
  }

  /** Height h goes before height k: a pinned one only before pinned ones, and of one kind the older. */
  predicate GoesFirst(s: seq<Record>, pins: set<string>, h: int, k: int) {
    (Pinned(s, pins, h) ==> Pinned(s, pins, k)) && (Pinned(s, pins, h) == Pinned(s, pins, k) ==> h < k)
  }

  /** Which heights the bound may give up: with a pinned one, every unpinned one below the newest; and with
      any, every older one of its kind. */
  ghost predicate FairlyDropped(s: seq<Record>, pins: set<string>, kept: set<int>, newest: int) {
    forall h, k {:trigger GoesFirst(s, pins, h, k)} ::
      h in HeightsOf(s) && h !in kept && k in kept && k != newest ==> GoesFirst(s, pins, h, k)
  }

  /** Among ascending heights, the choice goes before every other. */
  lemma ChoiceIsFair(s: seq<Record>, pins: set<string>, below: seq<int>, i: nat)
    requires (forall a, b :: 0 <= a < b < |below| ==> below[a] < below[b]) && i < |below|
    requires var at := FirstUnpinned(s, pins, below); i != if at < |below| then at else 0
    ensures var at := FirstUnpinned(s, pins, below); GoesFirst(s, pins, below[if at < |below| then at else 0], below[i])
  {
    hide Pinned, FirstUnpinned;
    var at := FirstUnpinned(s, pins, below);
    if i < at { assert Pinned(s, pins, below[i]); }
    if at == |below| { assert Pinned(s, pins, below[0]); }
  }

  lemma TargetIsFair(s: seq<Record>, pins: set<string>, ladder: seq<int>, k: int)
    requires Sorted(s) && |s| > 0 && ladder == Ladder(s) && |ladder| > 1
    requires k in HeightsOf(s) && k != s[|s| - 1].height && k != Target(s, pins, ladder)
    ensures GoesFirst(s, pins, Target(s, pins, ladder), k)
  {
    LadderAscends(s);
    hide Ladder, HeightsOf, Sorted, GoesFirst;
    var i :| 0 <= i < |ladder| && ladder[i] == k;
    ClimbIsFair(s, pins, ladder, i);
  }

  lemma ClimbIsFair(s: seq<Record>, pins: set<string>, ladder: seq<int>, i: nat)
    requires i + 1 < |ladder| && (forall a, b :: 0 <= a < b < |ladder| ==> ladder[a] < ladder[b])
    requires ladder[i] != Target(s, pins, ladder)
    ensures GoesFirst(s, pins, Target(s, pins, ladder), ladder[i])
  {
    hide Pinned, FirstUnpinned, GoesFirst;
    ChoiceIsFair(s, pins, ladder[..|ladder| - 1], i);
  }

  /** One round: the target goes, with every record at it, and nothing else. */
  lemma BoundRound(s: seq<Record>, pins: set<string>)
    requires Sorted(s) && |Ladder(s)| > 1
    ensures var h := Target(s, pins, Ladder(s)); var left := HeightsOf(s) - {h}; var t := AtHeights(s, left);
      && |s| > 0 && h in HeightsOf(s) && |t| < |s| && Sorted(t) && HeightsOf(t) == left && s[|s| - 1].height in left
      && |t| > 0 && t[|t| - 1] == s[|s| - 1]
  {
    hide Sorted, HeightsOf, Target, AtHeights;
    NewestIsNotTarget(s, pins);
    NewestHeight(s);
    var left := HeightsOf(s) - {Target(s, pins, Ladder(s))};
    DroppingShrinks(s, Target(s, pins, Ladder(s)));
    SortedAtHeights(s, left);
    LastKept(s, left);
    HeightsKept(s, left);
  }

  /** The loop in full: it removes whole heights and never the newest, it stops within the budget or with a
      single height, and it gives up what it should first. */
  lemma {:induction false} BoundKeeps(s: seq<Record>, maxLeaves: int, pins: set<string>) returns (kept: set<int>)
    requires Sorted(s)
    ensures var t := Bounded(s, maxLeaves, pins);
      && t == AtHeights(s, kept) && kept == HeightsOf(t) <= HeightsOf(s) && Sorted(t)
      && (maxLeaves <= 0 ==> t == s)
      && (maxLeaves > 0 ==> RetainedLeaves(t) <= maxLeaves || |Ladder(t)| <= 1)
    ensures |s| > 0 ==> s[|s| - 1].height in kept && FairlyDropped(s, pins, kept, s[|s| - 1].height)
    decreases |s|
  {
    hide Pinned, Sorted, HeightsOf, Target, GoesFirst, AtHeights, Ladder, RetainedLeaves;
    if maxLeaves <= 0 || RetainedLeaves(s) <= maxLeaves || |Ladder(s)| <= 1 {
      kept := HeightsOf(s);
      AllHeights(s, kept);
      if |s| > 0 { NewestHeight(s); }
    } else {
      var h := Target(s, pins, Ladder(s));
      var left := HeightsOf(s) - {h};
      BoundRound(s, pins);
      kept := BoundKeeps(AtHeights(s, left), maxLeaves, pins);
      HeightsCompose(s, left, kept);
      assert left * kept == kept;
      assert FairlyDropped(AtHeights(s, left), pins, kept, s[|s| - 1].height);
      FairAfter(s, pins, h, left, kept);
    }
  }

  lemma NewestHeight(s: seq<Record>)
    requires |s| > 0
    ensures s[|s| - 1].height in HeightsOf(s)
  {
  }

  lemma NewestIsNotTarget(s: seq<Record>, pins: set<string>)
    requires Sorted(s) && |s| > 0 && |Ladder(s)| > 1
    ensures Target(s, pins, Ladder(s)) != s[|s| - 1].height && Target(s, pins, Ladder(s)) in HeightsOf(s)
  {
    LadderAscends(s);
    hide Ladder, HeightsOf;
    var ladder := Ladder(s);
    var h := Target(s, pins, ladder);
    var i :| 0 <= i < |ladder| - 1 && ladder[i] == h;
    assert ladder[i] < ladder[|ladder| - 1];
  }

  lemma FairAfter(s: seq<Record>, pins: set<string>, h: int, left: set<int>, kept: set<int>)
    requires Sorted(s) && |s| > 0 && |Ladder(s)| > 1 && h == Target(s, pins, Ladder(s)) && left == HeightsOf(s) - {h}
    requires kept <= left && FairlyDropped(AtHeights(s, left), pins, kept, s[|s| - 1].height)
    ensures FairlyDropped(s, pins, kept, s[|s| - 1].height)
  {
    var t := AtHeights(s, left);
    HeightsKept(s, left);
    hide HeightsOf, Pinned, Ladder, Sorted, Target;
    var newest := s[|s| - 1].height;
    forall g, k | g in HeightsOf(s) && g !in kept && k in kept && k != newest ensures GoesFirst(s, pins, g, k) {
      if g == h {
        TargetIsFair(s, pins, Ladder(s), k);
      } else {
        assert GoesFirst(t, pins, g, k);
        PinsSurvive(s, left, pins, g);
        PinsSurvive(s, left, pins, k);
      }
    }
  }

  // ---- the newest adoption is current -----------------------------------------------------------------

  predicate AtOrAbove(snaps: seq<Record>, h: int) {
    forall x :: x in snaps ==> x.height <= h
  }

  lemma PlacedOnTop(snaps: seq<Record>, r: Record)
    requires AtOrAbove(snaps, r.height)
    ensures var p := Placed(snaps, r); |p| > 0 && p[|p| - 1] == r
  {
    var others := WithoutKey(snaps, r);
    forall i | 0 <= i < |others| ensures ByHeight(others[i], r) {
      assert others[i] in others;
    }
    SortAppend(ByHeight, others, r);
  }

  lemma TrimKeepsLast(p: seq<Record>, window: nat)
    requires Sorted(p) && |p| > 0
    ensures var t := Trimmed(p, window); Sorted(t) && |t| > 0 && t[|t| - 1] == p[|p| - 1]
  {
    LadderAscends(p);
    var hs := KeptHeights(Ladder(p), window);
    assert Ladder(p)[|Ladder(p)| - 1] in hs;
    hide Ladder, Sorted, KeptHeights;
    SortedAtHeights(p, hs);
    LastKept(p, hs);
  }

  lemma BoundKeepsLast(t: seq<Record>, maxLeaves: int, pins: set<string>)
    requires Sorted(t) && |t| > 0
    ensures var b := Bounded(t, maxLeaves, pins); |b| > 0 && b[|b| - 1] == t[|t| - 1]
  {
    var kept := BoundKeeps(t, maxLeaves, pins);
    hide Bounded, Sorted, FairlyDropped;
    LastKept(t, kept);
  }

  /** A strictly ascending list has as many elements as it is long. */
  lemma {:induction false} AscendingCount(s: seq<int>)
    requires forall i, j :: 0 <= i < j < |s| ==> s[i] < s[j]
    ensures |set i | 0 <= i < |s| :: s[i]| == |s|
  {
    if |s| > 0 {
      var front, last := s[..|s| - 1], s[|s| - 1];
      AscendingCount(front);
      var all, before := (set i | 0 <= i < |s| :: s[i]), (set i | 0 <= i < |front| :: front[i]);
      forall h ensures h in all <==> h in before + {last} {
        if h in before {
          var i :| 0 <= i < |front| && front[i] == h;
          assert s[i] == h;
        }
      }
      assert all == before + {last};
    }
  }

  lemma LadderCount(s: seq<Record>)
    requires Sorted(s)
    ensures |HeightsOf(s)| == |Ladder(s)|
  {
    LadderAscends(s);
    hide Sorted, HeightsOf;
    AscendingCount(Ladder(s));
    var ladder := Ladder(s);
    assert HeightsOf(s) == set i | 0 <= i < |ladder| :: ladder[i];
  }

  lemma KeptAreLast(ladder: seq<int>, window: nat, from: nat)
    requires from <= |ladder| && from == if window == 0 || |ladder| <= window then 0 else |ladder| - window
    ensures KeptHeights(ladder, window) == set i | 0 <= i < |ladder[from..]| :: ladder[from..][i]
  {
    var last := ladder[from..];
    forall h ensures h in KeptHeights(ladder, window) <==> h in set i | 0 <= i < |last| :: last[i] {
      if h in KeptHeights(ladder, window) {
        var i :| 0 <= i < |ladder| && (window == 0 || i >= |ladder| - window) && ladder[i] == h;
        assert last[i - from] == h;
      }
      if h in set i | 0 <= i < |last| :: last[i] {
        var i :| 0 <= i < |last| && last[i] == h;
        assert ladder[i + from] == h;
      }
    }
  }

  /** The last heights of an ascending ladder: as many as the window, each above every other. */
  lemma KeptAreNewest(ladder: seq<int>, window: nat)
    requires forall i, j :: 0 <= i < j < |ladder| ==> ladder[i] < ladder[j]
    ensures |KeptHeights(ladder, window)| == if window == 0 || |ladder| <= window then |ladder| else window
    ensures forall h :: h in KeptHeights(ladder, window) ==> h in ladder
    ensures forall h, k :: h in ladder && h !in KeptHeights(ladder, window) && k in KeptHeights(ladder, window) ==>
      h < k
  {
    var from := if window == 0 || |ladder| <= window then 0 else |ladder| - window;
    AscendingCount(ladder[from..]);
    KeptAreLast(ladder, window, from);
  }

  /** Trimming keeps whole heights, the newest of them, as many as the window allows: all of them when it
      allows any number. */
  lemma TrimKeepsTheNewest(p: seq<Record>, window: nat)
    requires Sorted(p)
    ensures var all, kept := HeightsOf(p), HeightsOf(Trimmed(p, window));
      && |kept| == (if window == 0 || |all| <= window then |all| else window) && kept <= all
      && (forall h, k :: h in all - kept && k in kept ==> h < k)
      && (forall x :: x in Trimmed(p, window) <==> x in p && x.height in kept)
  {
    LadderCount(p);
    LadderAscends(p);
    hide Sorted, HeightsOf, Ladder, KeptHeights;
    KeptAreNewest(Ladder(p), window);
    HeightsKept(p, KeptHeights(Ladder(p), window));
    HasHeights(p, KeptHeights(Ladder(p), window));
  }

  /** After adopting a snapshot at or above every height held, it is the current one: re-adoption, trimming
      and the leaf bound included. */
  lemma AdoptedIsCurrent(snaps: seq<Record>, r: Record, window: nat, maxLeaves: int, pins: set<string>)
    requires AtOrAbove(snaps, r.height)
    ensures var a := Adopted(snaps, r, window, maxLeaves, pins); |a| > 0 && a[|a| - 1] == r
  {
    PlacedSorted(snaps, r);
    PlacedOnTop(snaps, r);
    TrimKeepsLast(Placed(snaps, r), window);
    BoundKeepsLast(Trimmed(Placed(snaps, r), window), maxLeaves, pins);
    hide Placed, Trimmed, Bounded, Sorted;
  }

  /** What adopting may leave: the new record, and records held before under another key. */
  lemma AdoptedOnlyKeeps(snaps: seq<Record>, r: Record, window: nat, maxLeaves: int, pins: set<string>)
    returns (hs: set<int>)
    ensures Adopted(snaps, r, window, maxLeaves, pins) == AtHeights(Placed(snaps, r), hs)
    ensures Sorted(Adopted(snaps, r, window, maxLeaves, pins))
  {
    var p := Placed(snaps, r);
    PlacedSorted(snaps, r);
    var trim := KeptHeights(Ladder(p), window);
    SortedAtHeights(p, trim);
    var kept := BoundKeeps(AtHeights(p, trim), maxLeaves, pins);
    HeightsCompose(p, trim, kept);
    hs := trim * kept;
  }

  /** The changeover: a record in the other ordering at the height being adopted is still held after it. */
  lemma OtherOrderStays(snaps: seq<Record>, r: Record, window: nat, maxLeaves: int, pins: set<string>, x: Record)
    requires AtOrAbove(snaps, r.height) && x in snaps && x.height == r.height && x.order != r.order
    ensures x in Adopted(snaps, r, window, maxLeaves, pins)
  {
    AdoptedIsCurrent(snaps, r, window, maxLeaves, pins);
    PlacedSorted(snaps, r);
    var hs := AdoptedOnlyKeeps(snaps, r, window, maxLeaves, pins);
    HasHeights(Placed(snaps, r), hs);
    hide Adopted, Placed, Sorted;
  }

  /** With no bound on leaves, what adopting gives up is exactly the key's old record and the heights past
      the window. */
  lemma AdoptedWithoutBound(snaps: seq<Record>, r: Record, window: nat, pins: set<string>)
    ensures Adopted(snaps, r, window, 0, pins) == Trimmed(Placed(snaps, r), window)
  {
    PlacedSorted(snaps, r);
    SortedAtHeights(Placed(snaps, r), KeptHeights(Ladder(Placed(snaps, r)), window));
  }

  // ---- the gateway's decision -------------------------------------------------------------------------

  /** A snapshot that passed validation: version 3 states the one ordering it may have. */
  datatype Candidate = Candidate(version: int, height: int, root: string, shaRoot: Option<string>, ts: int,
                                 blockHash: Option<string>, leaves: seq<string>)

  /** The record the gateway builds: the ordering from the version, the commitment from the leaves, and the
      snapshot field by field. */
  function RecordFor(sha: string -> string, c: Candidate): (r: Record)
    ensures Fault(r) == None
  {
    Record(c.height, c.root, c.shaRoot, c.ts, if c.version == 3 then Some("proRegTxHash") else None, c.blockHash,
           Some(LeafSetCommitment(sha, c.leaves)), Some(Snapshot(c.height, c.root, c.shaRoot, c.leaves, false)))
  }

  /** The same block and the same leaf multiset as everything at its height; what cannot be compared is not
      the same. */
  predicate MayCoexist(snaps: seq<Record>, r: Record) {
    forall x | x in snaps && x.height == r.height ::
      && x.blockHash.Some? && x.blockHash == r.blockHash
      && x.setCommitment.Some? && x.setCommitment == r.setCommitment
  }

  predicate Adoptable(snaps: seq<Record>, r: Record) {
    AtOrAbove(snaps, r.height) && MayCoexist(snaps, r)
  }

  datatype Event = Refresh(c: Candidate, signed: bool, consistent: bool, pins: set<string>) | Age(cutoff: int)

  function DropOlderThan(s: seq<Record>, cutoff: int): (r: seq<Record>)
    ensures forall x :: x in r <==> x in s && x.ts >= cutoff
  {
    if |s| == 0 then [] else (if s[0].ts >= cutoff then [s[0]] else []) + DropOlderThan(s[1..], cutoff)
  }

  /** signed: the quorum is met. consistent: both roots were recomputed from the leaves and agree. */
  function Step(sha: string -> string, window: nat, maxLeaves: int, snaps: seq<Record>, e: Event): seq<Record> {
    match e
    case Refresh(c, signed, consistent, pins) =>
      var r := RecordFor(sha, c);
      if signed && consistent && Adoptable(snaps, r) then Adopted(snaps, r, window, maxLeaves, pins) else snaps
    case Age(cutoff) => DropOlderThan(snaps, cutoff)
  }

  function Run(sha: string -> string, window: nat, maxLeaves: int, events: seq<Event>): seq<Record> {
    if |events| == 0 then []
    else Step(sha, window, maxLeaves, Run(sha, window, maxLeaves, events[..|events| - 1]), events[|events| - 1])
  }

  function KeyOf(r: Record): (int, Option<string>) {
    (r.height, r.order)
  }

  /** Records at one height name one block and commit to one leaf multiset. */
  ghost predicate Agree(a: Record, b: Record) {
    a.height == b.height ==> a.blockHash.Some? && a.blockHash == b.blockHash && a.setCommitment == b.setCommitment
  }

  ghost predicate Inv(sha: string -> string, snaps: seq<Record>) {
    && Sorted(snaps) && DistinctBy(KeyOf, snaps)
    && (forall r :: r in snaps ==> Fault(r) == None && r.snapshot.Some?
                                   && r.setCommitment == Some(LeafSetCommitment(sha, r.snapshot.value.leaves)))
    && (forall a, b :: a in snaps && b in snaps && a != b ==> Agree(a, b))
  }

  lemma {:induction false} DistinctAtHeights(s: seq<Record>, hs: set<int>)
    requires DistinctBy(KeyOf, s)
    ensures DistinctBy(KeyOf, AtHeights(s, hs))
  {
    if |s| > 0 {
      DistinctAtHeights(s[1..], hs);
      HasHeights(s[1..], hs);
      NotInTail(s, AtHeights(s[1..], hs));
    }
  }

  lemma NotInTail(s: seq<Record>, t: seq<Record>)
    requires |s| > 0 && DistinctBy(KeyOf, s) && forall x :: x in t ==> x in s[1..]
    ensures forall j :: 0 <= j < |t| ==> KeyOf(s[0]) != KeyOf(t[j])
  {
    forall j | 0 <= j < |t| ensures KeyOf(s[0]) != KeyOf(t[j]) {
      assert t[j] in s[1..];
      var k :| 0 <= k < |s[1..]| && s[1..][k] == t[j];
      assert s[k + 1] == t[j];
    }
  }

  lemma {:induction false} DistinctWithoutKey(s: seq<Record>, r: Record)
    requires DistinctBy(KeyOf, s)
    ensures DistinctBy(KeyOf, WithoutKey(s, r) + [r])
  {
    WithoutKeyDistinct(s, r);
    var t := WithoutKey(s, r);
    forall i | 0 <= i < |t| ensures KeyOf(t[i]) != KeyOf(r) {
      assert t[i] in t;
    }
  }

  lemma {:induction false} WithoutKeyDistinct(s: seq<Record>, r: Record)
    requires DistinctBy(KeyOf, s)
    ensures DistinctBy(KeyOf, WithoutKey(s, r))
  {
    if |s| > 0 {
      WithoutKeyDistinct(s[1..], r);
      NotInTail(s, WithoutKey(s[1..], r));
    }
  }

  lemma {:induction false} OlderDistinct(s: seq<Record>, cutoff: int)
    requires DistinctBy(KeyOf, s)
    ensures DistinctBy(KeyOf, DropOlderThan(s, cutoff))
  {
    if |s| > 0 {
      OlderDistinct(s[1..], cutoff);
      NotInTail(s, DropOlderThan(s[1..], cutoff));
    }
  }

  lemma {:induction false} OlderSorted(s: seq<Record>, cutoff: int)
    requires Sorted(s)
    ensures Sorted(DropOlderThan(s, cutoff))
  {
    if |s| > 0 {
      OlderSorted(s[1..], cutoff);
      var rest := DropOlderThan(s[1..], cutoff);
      forall j | 0 <= j < |rest| ensures s[0].height <= rest[j].height {
        assert rest[j] in s[1..];
        var k :| 0 <= k < |s[1..]| && s[1..][k] == rest[j];
        assert s[k + 1] == rest[j];
      }
    }
  }

  ghost predicate Before(s: seq<Record>, x: Record, y: Record) {
    exists i, j :: 0 <= i < j < |s| && s[i] == x && s[j] == y
  }

  lemma BeforeCons(h: Record, s: seq<Record>, x: Record, y: Record)
    ensures Before([h] + s, x, y) <==> (x == h && y in s) || Before(s, x, y)
  {
    var all := [h] + s;
    if Before(all, x, y) {
      var i, j :| 0 <= i < j < |all| && all[i] == x && all[j] == y;
      assert y == s[j - 1];
      if i > 0 { assert x == s[i - 1]; }
    }
    if x == h && y in s {
      var j :| 0 <= j < |s| && s[j] == y;
      assert all[0] == x && all[j + 1] == y;
    }
    if Before(s, x, y) {
      var i, j :| 0 <= i < j < |s| && s[i] == x && s[j] == y;
      assert all[i + 1] == x && all[j + 1] == y;
    }
  }

  /** Ageing keeps the order of what it keeps. */
  lemma {:induction false} OlderInOrder(s: seq<Record>, cutoff: int, x: Record, y: Record)
    ensures Before(DropOlderThan(s, cutoff), x, y) <==> Before(s, x, y) && x.ts >= cutoff && y.ts >= cutoff
  {
    hide Before;
    if |s| == 0 {
      NoneBefore(s, x, y);
    } else {
      var rest := DropOlderThan(s[1..], cutoff);
      OlderInOrder(s[1..], cutoff, x, y);
      BeforeCons(s[0], s[1..], x, y);
      BeforeCons(s[0], rest, x, y);
      assert [s[0]] + s[1..] == s && [] + rest == rest;
    }
  }

  lemma NoneBefore(s: seq<Record>, x: Record, y: Record)
    requires |s| == 0
    ensures !Before(s, x, y)
  {
  }

  lemma CoexistAgrees(sha: string -> string, snaps: seq<Record>, r: Record, a: Record, b: Record)
    requires Inv(sha, snaps) && MayCoexist(snaps, r) && a != b
    requires (a == r || a in snaps) && (b == r || b in snaps)
    ensures Agree(a, b)
  {
  }

  lemma AdoptedShape(snaps: seq<Record>, r: Record, window: nat, maxLeaves: int, pins: set<string>)
    requires DistinctBy(KeyOf, snaps)
    ensures var after := Adopted(snaps, r, window, maxLeaves, pins);
      Sorted(after) && DistinctBy(KeyOf, after) && forall x :: x in after ==> x == r || x in snaps
  {
    var hs := AdoptedOnlyKeeps(snaps, r, window, maxLeaves, pins);
    PlacedSorted(snaps, r);
    DistinctWithoutKey(snaps, r);
    SortPermutes(ByHeight, WithoutKey(snaps, r) + [r]);
    DistinctPermutes(KeyOf, WithoutKey(snaps, r) + [r], Placed(snaps, r));
    HasHeights(Placed(snaps, r), hs);
    hide Adopted, Sorted, DistinctBy, SameKey;
    DistinctAtHeights(Placed(snaps, r), hs);
  }

  lemma AdoptKeeps(sha: string -> string, window: nat, maxLeaves: int, snaps: seq<Record>, c: Candidate,
                   pins: set<string>)
    requires Inv(sha, snaps) && Adoptable(snaps, RecordFor(sha, c))
    ensures Inv(sha, Adopted(snaps, RecordFor(sha, c), window, maxLeaves, pins))
  {
    var r := RecordFor(sha, c);
    AdoptedShape(snaps, r, window, maxLeaves, pins);
    var after := Adopted(snaps, r, window, maxLeaves, pins);
    forall a, b | a in after && b in after && a != b ensures Agree(a, b) {
      CoexistAgrees(sha, snaps, r, a, b);
    }
    hide Adopted, Sorted, Agree, DistinctBy;
  }

  lemma {:induction false} RunKeeps(sha: string -> string, window: nat, maxLeaves: int, events: seq<Event>)
    ensures Inv(sha, Run(sha, window, maxLeaves, events))
  {
    if |events| > 0 {
      var front, last := events[..|events| - 1], events[|events| - 1];
      RunKeeps(sha, window, maxLeaves, front);
      var snaps := Run(sha, window, maxLeaves, front);
      match last {
        case Refresh(c, signed, consistent, pins) =>
          if signed && consistent && Adoptable(snaps, RecordFor(sha, c)) {
            AdoptKeeps(sha, window, maxLeaves, snaps, c, pins);
          }
        case Age(cutoff) => OlderSorted(snaps, cutoff); OlderDistinct(snaps, cutoff);
      }
    }
  }

  /** Whatever was refreshed, republished and aged: two records at one height name the same block and hold
      the same leaf multiset, so a proof against either proves membership in one set. */
  lemma OneHeightOneSet(sha: string -> string, window: nat, maxLeaves: int, events: seq<Event>, a: Record, b: Record)
    requires var snaps := Run(sha, window, maxLeaves, events);
      a in snaps && b in snaps && a != b && a.height == b.height
    requires a.snapshot.Some? && b.snapshot.Some?
    requires (forall i :: 0 <= i < |a.snapshot.value.leaves| ==> OneLine(a.snapshot.value.leaves[i]))
    requires (forall i :: 0 <= i < |b.snapshot.value.leaves| ==> OneLine(b.snapshot.value.leaves[i]))
    requires sha(Canonical(a.snapshot.value.leaves)) == sha(Canonical(b.snapshot.value.leaves))
             ==> Canonical(a.snapshot.value.leaves) == Canonical(b.snapshot.value.leaves)
    ensures a.blockHash.Some? && a.blockHash == b.blockHash
    ensures multiset(a.snapshot.value.leaves) == multiset(b.snapshot.value.leaves)
  {
    RunKeeps(sha, window, maxLeaves, events);
    assert Agree(a, b);
    CommitmentIsTheMultiset(sha, a.snapshot.value.leaves, b.snapshot.value.leaves);
  }

  lemma SubsetCount(a: set<int>, b: set<int>)
    requires a <= b
    ensures |a| <= |b|
  {
    assert b == a + (b - a) && a !! (b - a);
  }

  /** Within the window, and within the leaf budget unless a single height is all there is. */
  ghost predicate Fits(s: seq<Record>, window: nat, maxLeaves: int) {
    && (window > 0 ==> |HeightsOf(s)| <= window)
    && (maxLeaves > 0 ==> RetainedLeaves(s) <= maxLeaves || |HeightsOf(s)| <= 1)
  }

  lemma AdoptedFits(snaps: seq<Record>, r: Record, window: nat, maxLeaves: int, pins: set<string>)
    ensures Fits(Adopted(snaps, r, window, maxLeaves, pins), window, maxLeaves)
  {
    var p := Placed(snaps, r);
    PlacedSorted(snaps, r);
    SortedAtHeights(p, KeptHeights(Ladder(p), window));
    TrimKeepsTheNewest(p, window);
    hide Placed, Ladder, HeightsOf, Sorted, Bounded, RetainedLeaves, FairlyDropped;
    var t := Trimmed(p, window);
    var kept := BoundKeeps(t, maxLeaves, pins);
    SubsetCount(kept, HeightsOf(t));
    LadderCount(Bounded(t, maxLeaves, pins));
  }

  lemma {:induction false} OlderHasFewer(s: seq<Record>, cutoff: int)
    ensures RetainedLeaves(DropOlderThan(s, cutoff)) <= RetainedLeaves(s)
  {
    if |s| > 0 {
      OlderHasFewer(s[1..], cutoff);
      var rest := DropOlderThan(s[1..], cutoff);
      assert ([s[0]] + rest)[1..] == rest && [] + rest == rest;
    }
  }

  lemma OlderFits(s: seq<Record>, cutoff: int, window: nat, maxLeaves: int)
    requires Fits(s, window, maxLeaves)
    ensures Fits(DropOlderThan(s, cutoff), window, maxLeaves)
  {
    OlderHasFewer(s, cutoff);
    var t := DropOlderThan(s, cutoff);
    forall h | h in HeightsOf(t) ensures h in HeightsOf(s) {
      var i :| 0 <= i < |t| && t[i].height == h;
      assert t[i] in s;
      var k :| 0 <= k < |s| && s[k] == t[i];
    }
    SubsetCount(HeightsOf(t), HeightsOf(s));
  }

  /** Over every run of refreshes and ageing the heights held are within the window, and the leaves within
      their budget unless one height is all there is. */
  lemma {:induction false} MemoryIsBounded(sha: string -> string, window: nat, maxLeaves: int, events: seq<Event>)
    ensures Fits(Run(sha, window, maxLeaves, events), window, maxLeaves)
  {
    if |events| > 0 {
      var front, last := events[..|events| - 1], events[|events| - 1];
      MemoryIsBounded(sha, window, maxLeaves, front);
      var snaps := Run(sha, window, maxLeaves, front);
      match last {
        case Refresh(c, signed, consistent, pins) => AdoptedFits(snaps, RecordFor(sha, c), window, maxLeaves, pins);
        case Age(cutoff) => OlderFits(snaps, cutoff, window, maxLeaves);
      }
    }
  }

  /** No height holds more than two records. */
  lemma TwoPerHeight(sha: string -> string, window: nat, maxLeaves: int, events: seq<Event>, i: nat, j: nat, k: nat)
    requires i < j < k < |Run(sha, window, maxLeaves, events)|
    ensures var snaps := Run(sha, window, maxLeaves, events); !(snaps[i].height == snaps[j].height == snaps[k].height)
  {
    RunKeeps(sha, window, maxLeaves, events);
    var snaps := Run(sha, window, maxLeaves, events);
    assert snaps[i] in snaps && snaps[j] in snaps && snaps[k] in snaps;
    assert KeyOf(snaps[i]) != KeyOf(snaps[j]) && KeyOf(snaps[j]) != KeyOf(snaps[k])
        && KeyOf(snaps[i]) != KeyOf(snaps[k]);
  }

  /** A refresh that changes the window adopted a snapshot at or above every height it held, and that
      snapshot is now current. */
  lemma NeverBelowTheWindow(sha: string -> string, window: nat, maxLeaves: int, events: seq<Event>, c: Candidate,
                            signed: bool, consistent: bool, pins: set<string>)
    requires var snaps := Run(sha, window, maxLeaves, events);
      Step(sha, window, maxLeaves, snaps, Refresh(c, signed, consistent, pins)) != snaps
    ensures var snaps := Run(sha, window, maxLeaves, events);
      var after := Step(sha, window, maxLeaves, snaps, Refresh(c, signed, consistent, pins));
      && signed && consistent && AtOrAbove(snaps, c.height)
      && |after| > 0 && after[|after| - 1] == RecordFor(sha, c)
  {
    var snaps := Run(sha, window, maxLeaves, events);
    AdoptedIsCurrent(snaps, RecordFor(sha, c), window, maxLeaves, pins);
  }
}

/** The window of accepted roots (core/stores.js, RootStore): one root a height, the newest heights kept. */
module RootStore {
  import opened Lists
  import opened Sorting
  import opened Wrappers

  datatype RootEntry<T> = RootEntry(height: int, root: T, ts: int)

  predicate ByHeight<T>(a: RootEntry<T>, b: RootEntry<T>) {
    a.height <= b.height
  }

  /** A map keyed by height, in insertion order: a height already there is replaced where it is. */
  function Put<T>(roots: seq<RootEntry<T>>, e: RootEntry<T>): (r: seq<RootEntry<T>>)
    ensures |roots| <= |r| <= |roots| + 1
  {
    if |roots| == 0 then [e]
    else if roots[0].height == e.height then [e] + roots[1..]
    else [roots[0]] + Put(roots[1..], e)
  }

  function PutAll<T>(roots: seq<RootEntry<T>>, list: seq<RootEntry<T>>): seq<RootEntry<T>> {
    if |list| == 0 then roots else Put(PutAll(roots, list[..|list| - 1]), list[|list| - 1])
  }

  /** slice(-window): a window of 0 keeps everything. */
  function Newest<T>(s: seq<T>, window: nat): (r: seq<T>)
    ensures window > 0 ==> |r| <= window
  {
    if window == 0 || |s| <= window then s else s[|s| - window..]
  }

  /** What update leaves: the last `window` of every height's latest entry, in height order. */
  function Updated<T>(roots: seq<RootEntry<T>>, list: seq<RootEntry<T>>, window: nat): seq<RootEntry<T>> {
    Newest(StableSort(ByHeight, PutAll(roots, list)), window)
  }

  /** Strictly ascending heights, which is what every update leaves. */
  predicate Ascending<T>(roots: seq<RootEntry<T>>) {
    forall i, j :: 0 <= i < j < |roots| ==> roots[i].height < roots[j].height
  }

  function HeightOf<T>(e: RootEntry<T>): int {
    e.height
  }

  lemma OneMoreHeight<T>(x: RootEntry<T>, s: seq<RootEntry<T>>)
    requires DistinctBy(HeightOf, s) && forall y :: y in s ==> y.height != x.height
    ensures DistinctBy(HeightOf, [x] + s)
  {
    forall i, j | 0 <= i < j < |[x] + s| ensures HeightOf(([x] + s)[i]) != HeightOf(([x] + s)[j]) {
      assert ([x] + s)[j] == s[j - 1];
      if i > 0 { assert ([x] + s)[i] == s[i - 1]; }
    }
  }

  /** A map has one entry a key: the new one at its height, and the old ones at every other. */
  lemma {:induction false} PutReplaces<T>(roots: seq<RootEntry<T>>, e: RootEntry<T>)
    requires DistinctBy(HeightOf, roots)
    ensures DistinctBy(HeightOf, Put(roots, e))
    ensures forall x :: x in Put(roots, e) ==> x == e || (x in roots && x.height != e.height)
    ensures e in Put(roots, e) && forall x :: x in roots && x.height != e.height ==> x in Put(roots, e)
  {
    if |roots| > 0 {
      HeadAndTail(roots);
      var rest := roots[1..];
      assert DistinctBy(HeightOf, rest);
      forall y | y in rest ensures y.height != roots[0].height {
        var i :| 0 <= i < |rest| && rest[i] == y;
        assert HeightOf(roots[0]) != HeightOf(roots[i + 1]);
      }
      if roots[0].height == e.height {
        OneMoreHeight(e, rest);
      } else {
        PutReplaces(rest, e);
        var more := Put(rest, e);
        forall y | y in more ensures y.height != roots[0].height {
          assert y == e || y in rest;
        }
        OneMoreHeight(roots[0], more);
      }
    }
  }

  lemma {:induction false} PutAllDistinct<T>(roots: seq<RootEntry<T>>, list: seq<RootEntry<T>>)
    requires DistinctBy(HeightOf, roots)
    ensures DistinctBy(HeightOf, PutAll(roots, list))
  {
    if |list| > 0 {
      PutAllDistinct(roots, list[..|list| - 1]);
      PutReplaces(PutAll(roots, list[..|list| - 1]), list[|list| - 1]);
    }
  }

  lemma NewestAscends<T>(s: seq<RootEntry<T>>, window: nat)
    requires Ascending(s)
    ensures Ascending(Newest(s, window))
  {
    if window > 0 && |s| > window {
      var from := |s| - window;
      forall i, j | 0 <= i < j < window ensures s[from..][i].height < s[from..][j].height {
        assert s[from..][i] == s[from + i] && s[from..][j] == s[from + j];
      }
    }
  }

  /** Whatever list comes in, the heights kept are distinct and in order. */
  lemma UpdateAscends<T(!new)>(roots: seq<RootEntry<T>>, list: seq<RootEntry<T>>, window: nat)
    requires Ascending(roots)
    ensures Ascending(Updated(roots, list, window))
  {
    var all := PutAll(roots, list);
    var sorted := StableSort(ByHeight, all);
    assert DistinctBy(HeightOf, roots);
    PutAllDistinct(roots, list);
    SortPermutes(ByHeight, all);
    DistinctPermutes(HeightOf, all, sorted);
    assert TotalPreorder<RootEntry<T>>(ByHeight);
    SortSorts(ByHeight, all);
    forall i, j | 0 <= i < j < |sorted| ensures sorted[i].height < sorted[j].height {
      assert ByHeight(sorted[i], sorted[j]) && HeightOf(sorted[i]) != HeightOf(sorted[j]);
    }
    NewestAscends(sorted, window);
  }

  /** Everything but an entry at this height at the end. */
  function Others<T>(roots: seq<RootEntry<T>>, height: int): seq<RootEntry<T>> {
    if |roots| > 0 && roots[|roots| - 1].height == height then roots[..|roots| - 1] else roots
  }

  lemma {:induction false} PutOnTop<T>(roots: seq<RootEntry<T>>, e: RootEntry<T>)
    requires Ascending(roots) && forall i :: 0 <= i < |roots| ==> roots[i].height <= e.height
    ensures Put(roots, e) == Others(roots, e.height) + [e]
  {
    if |roots| > 1 {
      assert roots[0].height < roots[1].height;
      PutOnTop(roots[1..], e);
      HeadAndTail(roots);
    }
  }

  lemma AscendingIsSorted<T>(roots: seq<RootEntry<T>>)
    requires Ascending(roots)
    ensures StableSort(ByHeight, roots) == roots
  {
    forall i, j | 0 <= i < j < |roots| ensures ByHeight(roots[i], roots[j]) {
      assert roots[i].height < roots[j].height;
    }
    SortOfSorted(ByHeight, roots);
  }

  lemma OnTopAscends<T>(roots: seq<RootEntry<T>>, e: RootEntry<T>)
    requires Ascending(roots) && forall i :: 0 <= i < |roots| ==> roots[i].height <= e.height
    ensures Ascending(Others(roots, e.height) + [e])
  {
    if |roots| > 0 {
      forall i | 0 <= i < |roots| - 1 ensures roots[i].height < e.height {
        assert roots[i].height < roots[|roots| - 1].height;
      }
    }
  }

  /** An entry at or above every retained height becomes the newest; of the others exactly the oldest are
      lost, and only as many as do not fit the window with it. */
  lemma UpdateOnTop<T>(roots: seq<RootEntry<T>>, e: RootEntry<T>, window: nat)
    requires Ascending(roots) && forall i :: 0 <= i < |roots| ==> roots[i].height <= e.height
    ensures Updated(roots, [e], window) == Newest(Others(roots, e.height) + [e], window)
    ensures Ascending(Updated(roots, [e], window)) && e in Updated(roots, [e], window)
  {
    PutOnTop(roots, e);
    OnTopAscends(roots, e);
    assert [e][..0] == [] && PutAll(roots, []) == roots;
    assert PutAll(roots, [e]) == Put(roots, e);
    var all := Others(roots, e.height) + [e];
    AscendingIsSorted(all);
    NewestAscends(all, window);
    NewestHas(all, window, |all| - 1);
  }

  lemma NewestIsPart<T>(s: seq<T>, window: nat)
    ensures var t := Newest(s, window);
      |t| <= |s| && (|s| > 0 ==> |t| > 0) && forall i :: 0 <= i < |t| ==> t[i] == s[|s| - |t| + i]
  {
  }

  /** Cutting twice is cutting once. */
  lemma NewestTwice<T>(s: seq<T>, t: seq<T>, window: nat)
    ensures Newest(Newest(s, window) + t, window) == Newest(s + t, window)
  {
  }

  lemma OnTopEntries<T>(roots: seq<RootEntry<T>>, e: RootEntry<T>, window: nat)
    ensures var kept := Newest(Others(roots, e.height) + [e], window);
      |kept| > 0 && kept[|kept| - 1] == e && forall i :: 0 <= i < |kept| ==> kept[i] == e || kept[i] in roots
  {
    hide Newest;
    var all := Others(roots, e.height) + [e];
    NewestIsPart(all, window);
    assert forall i :: 0 <= i < |all| ==> all[i] == e || (i < |roots| && all[i] == roots[i]);
  }

  /** So it ends with the new entry, and holds nothing that was not there before. */
  lemma UpdatedEntries<T>(roots: seq<RootEntry<T>>, e: RootEntry<T>, window: nat)
    requires Ascending(roots) && forall i :: 0 <= i < |roots| ==> roots[i].height <= e.height
    ensures var kept := Updated(roots, [e], window);
      && Ascending(kept) && |kept| > 0 && kept[|kept| - 1] == e && (window > 0 ==> |kept| <= window)
      && forall i :: 0 <= i < |kept| ==> kept[i] == e || kept[i] in roots
  {
    hide Others, Updated, Newest, Ascending;
    UpdateOnTop(roots, e, window);
    OnTopEntries(roots, e, window);
  }

  lemma NewestHas<T>(s: seq<T>, window: nat, i: nat)
    requires i < |s| && (window == 0 || |s| - window <= i)
    ensures s[i] in Newest(s, window)
    ensures Newest(s, window)[|Newest(s, window)| - (|s| - i)] == s[i]
  {
  }

  class RootStore<T(==, !new)> {
    const window: nat
    var roots: seq<RootEntry<T>>

    ghost predicate Valid()
      reads this
    {
      Ascending(roots)
    }

    constructor (window: nat)
      ensures Valid() && this.window == window && roots == []
    {
      this.window, roots := window, [];
    }

    method Update(list: seq<RootEntry<T>>)
      requires Valid()
      modifies this
      ensures Valid() && roots == Updated(old(roots), list, window)
    {
      var byHeight := roots;
      for i := 0 to |list|
        invariant roots == old(roots) && byHeight == PutAll(roots, list[..i])
      {
        assert list[..i + 1][..i] == list[..i];
        byHeight := Put(byHeight, list[i]);
      }
      assert list[..|list|] == list;
      UpdateAscends(roots, list, window);
      roots := Newest(StableSort(ByHeight, byHeight), window);
    }

    /** The newest entry: no other has its height, or a greater one. */
    method Current() returns (e: Option<RootEntry<T>>)
      requires Valid()
      ensures e.None? <==> roots == []
      ensures e.Some? ==> e.value in roots && forall x :: x in roots && x != e.value ==> x.height < e.value.height
    {
      e := if |roots| == 0 then None else Some(roots[|roots| - 1]);
    }

    method IsRecent(root: T) returns (found: bool)
      ensures found <==> exists i :: 0 <= i < |roots| && roots[i].root == root
    {
      found := false;
      for k := 0 to |roots|
        invariant found <==> exists i :: 0 <= i < k && roots[i].root == root
      {
        if roots[k].root == root { found := true; }
      }
    }
  }
}

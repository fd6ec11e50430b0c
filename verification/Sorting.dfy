/**
  The stable sort the JavaScript runtime provides, as a function, with the three facts its callers
  rest on: it permutes, its result is sorted, and where the order is strict the result depends only
  on the multiset.
 */
module Sorting {

  ghost predicate TotalPreorder<T(!new)>(le: (T, T) -> bool) {
    && (forall x, y :: le(x, y) || le(y, x))
    && (forall x, y, z :: le(x, y) && le(y, z) ==> le(x, z))
  }

  ghost predicate SortedBy<T>(le: (T, T) -> bool, s: seq<T>) {
    forall i, j :: 0 <= i < j < |s| ==> le(s[i], s[j])
  }

  /** x goes in front of the first element it does not exceed, so among equals the earlier one of the
      input stays earlier. */
  function Insert<T>(le: (T, T) -> bool, x: T, s: seq<T>): (r: seq<T>)
    ensures |r| == |s| + 1
  {
    if |s| == 0 then [x] else if le(x, s[0]) then [x] + s else [s[0]] + Insert(le, x, s[1..])
  }

  function StableSort<T>(le: (T, T) -> bool, s: seq<T>): (r: seq<T>)
    ensures |r| == |s|
  {
    if |s| == 0 then [] else Insert(le, s[0], StableSort(le, s[1..]))
  }

  lemma {:induction false} InsertPermutes<T>(le: (T, T) -> bool, x: T, s: seq<T>)
    ensures multiset(Insert(le, x, s)) == multiset(s) + multiset{x}
  {
    if |s| > 0 {
      assert s == [s[0]] + s[1..];
      if !le(x, s[0]) {
        InsertPermutes(le, x, s[1..]);
      }
    }
  }

  lemma {:induction false} SortPermutes<T>(le: (T, T) -> bool, s: seq<T>)
    ensures multiset(StableSort(le, s)) == multiset(s)
  {
    if |s| > 0 {
      assert s == [s[0]] + s[1..];
      SortPermutes(le, s[1..]);
      InsertPermutes(le, s[0], StableSort(le, s[1..]));
    }
  }

  lemma {:induction false} InsertSorts<T(!new)>(le: (T, T) -> bool, x: T, s: seq<T>)
    requires TotalPreorder(le) && SortedBy(le, s)
    ensures SortedBy(le, Insert(le, x, s))
  {
    if |s| > 0 && !le(x, s[0]) {
      var rest := Insert(le, x, s[1..]);
      InsertSorts(le, x, s[1..]);
      InsertPermutes(le, x, s[1..]);
      forall j | 0 <= j < |rest| ensures le(s[0], rest[j]) {
        assert rest[j] in multiset(rest);
        assert rest[j] == x || rest[j] in multiset(s[1..]);
        if rest[j] != x {
          var k :| 0 <= k < |s[1..]| && s[1..][k] == rest[j];
          assert s[k + 1] == rest[j];
        }
      }
    } else if |s| > 0 {
      forall j | 0 <= j < |s| ensures le(x, s[j]) {
        if j > 0 { assert le(s[0], s[j]); }
      }
    }
  }

  lemma {:induction false} SortSorts<T(!new)>(le: (T, T) -> bool, s: seq<T>)
    requires TotalPreorder(le)
    ensures SortedBy(le, StableSort(le, s))
  {
    if |s| > 0 {
      SortSorts(le, s[1..]);
      InsertSorts(le, s[0], StableSort(le, s[1..]));
    }
  }

  /** A last element nothing exceeds stays last: appending it and sorting again only appends it. */
  lemma {:induction false} SortAppend<T>(le: (T, T) -> bool, s: seq<T>, x: T)
    requires forall i :: 0 <= i < |s| ==> le(s[i], x)
    ensures StableSort(le, s + [x]) == StableSort(le, s) + [x]
  {
    if |s| == 0 {
      assert s + [x] == [x];
      assert StableSort(le, [x]) == Insert(le, x, StableSort(le, []));
    } else {
      assert (s + [x])[1..] == s[1..] + [x];
      SortAppend(le, s[1..], x);
      InsertBeforeLast(le, s[0], StableSort(le, s[1..]), x);
    }
  }

  lemma {:induction false} InsertBeforeLast<T>(le: (T, T) -> bool, y: T, s: seq<T>, x: T)
    requires le(y, x)
    ensures Insert(le, y, s + [x]) == Insert(le, y, s) + [x]
  {
    if |s| == 0 {
      assert s + [x] == [x];
    } else {
      assert (s + [x])[0] == s[0] && (s + [x])[1..] == s[1..] + [x];
      if !le(y, s[0]) {
        InsertBeforeLast(le, y, s[1..], x);
      }
    }
  }

  lemma {:induction false} SortOfSorted<T>(le: (T, T) -> bool, s: seq<T>)
    requires SortedBy(le, s)
    ensures StableSort(le, s) == s
  {
    if |s| > 0 {
      SortOfSorted(le, s[1..]);
      if |s| > 1 { assert le(s[0], s[1]); }
    }
  }

  /** No two different elements of s tie. */
  ghost predicate Strict<T>(le: (T, T) -> bool, s: seq<T>) {
    forall x, y :: x in s && y in s && le(x, y) && le(y, x) ==> x == y
  }

  lemma SameHead<T>(le: (T, T) -> bool, a: seq<T>, b: seq<T>)
    requires SortedBy(le, a) && SortedBy(le, b) && multiset(a) == multiset(b) && Strict(le, a)
    requires |a| > 0 && |b| > 0
    ensures a[0] == b[0]
  {
    assert a[0] in multiset(b) && b[0] in multiset(a);
    var i :| 0 <= i < |b| && b[i] == a[0];
    var j :| 0 <= j < |a| && a[j] == b[0];
    if i > 0 && j > 0 { assert le(b[0], b[i]) && le(a[0], a[j]); }
  }

  lemma TailKeeps<T>(le: (T, T) -> bool, a: seq<T>)
    requires |a| > 0 && SortedBy(le, a)
    ensures SortedBy(le, a[1..])
    ensures Strict(le, a) ==> Strict(le, a[1..])
    ensures multiset(a[1..]) == multiset(a) - multiset{a[0]}
  {
    assert a == [a[0]] + a[1..];
  }

  lemma HeadAndTail<T>(a: seq<T>)
    requires |a| > 0
    ensures a == [a[0]] + a[1..]
  {
  }

  /** Two sorted lists of one multiset are one list when no two of its elements tie. */
  lemma {:induction false} SortedUnique<T>(le: (T, T) -> bool, a: seq<T>, b: seq<T>)
    requires SortedBy(le, a) && SortedBy(le, b) && multiset(a) == multiset(b) && Strict(le, a)
    ensures a == b
  {
    SameLength(a, b);
    if |a| > 0 {
      SameHead(le, a, b);
      TailKeeps(le, a);
      TailKeeps(le, b);
      hide SortedBy, Strict;
      SortedUnique(le, a[1..], b[1..]);
      HeadAndTail(a);
      HeadAndTail(b);
    }
  }

  lemma SameLength<T>(a: seq<T>, b: seq<T>)
    requires multiset(a) == multiset(b)
    ensures |a| == |b|
  {
    assert |multiset(a)| == |a| && |multiset(b)| == |b|;
  }
}

/** Facts about lists up to order, and the byte-string order both commitments sort by. */
module Lists {
  import opened Bytes
  import opened Sorting

  function Map<A, B>(f: A -> B, s: seq<A>): (r: seq<B>)
    ensures |r| == |s| && forall i :: 0 <= i < |s| ==> r[i] == f(s[i])
  {
    if |s| == 0 then [] else [f(s[0])] + Map(f, s[1..])
  }

  lemma {:induction false} MapAppend<A, B>(f: A -> B, s: seq<A>, t: seq<A>)
    ensures Map(f, s + t) == Map(f, s) + Map(f, t)
  {
    if |s| == 0 {
      assert s + t == t;
    } else {
      assert (s + t)[1..] == s[1..] + t;
      MapAppend(f, s[1..], t);
    }
  }

  function Without<A>(s: seq<A>, k: nat): seq<A>
    requires k < |s|
  {
    s[..k] + s[k + 1..]
  }

  lemma WithoutOne<A>(s: seq<A>, k: nat)
    requires k < |s|
    ensures multiset(Without(s, k)) == multiset(s) - multiset{s[k]}
  {
    assert s == s[..k] + [s[k]] + s[k + 1..];
  }

  lemma MultisetMiddle<B>(a: seq<B>, y: B, b: seq<B>)
    ensures multiset(a + ([y] + b)) == multiset(a + b) + multiset{y}
  {
  }

  lemma MapMiddle<A, B>(f: A -> B, a: seq<A>, x: A, b: seq<A>)
    ensures Map(f, a + ([x] + b)) == Map(f, a) + ([f(x)] + Map(f, b))
  {
    MapAppend(f, a, [x] + b);
    assert ([x] + b)[0] == x && ([x] + b)[1..] == b;
  }

  lemma SplitAt<A>(s: seq<A>, k: nat)
    requires k < |s|
    ensures s == s[..k] + ([s[k]] + s[k + 1..])
  {
  }

  lemma MapWithout<A, B>(f: A -> B, s: seq<A>, k: nat)
    requires k < |s|
    ensures multiset(Map(f, s)) == multiset(Map(f, Without(s, k))) + multiset{f(s[k])}
  {
    SplitAt(s, k);
    MapMiddle(f, s[..k], s[k], s[k + 1..]);
    MapAppend(f, s[..k], s[k + 1..]);
    MultisetMiddle(Map(f, s[..k]), f(s[k]), Map(f, s[k + 1..]));
  }

  /** Reordering a list reorders its images. */
  lemma {:induction false} MapPermutes<A, B>(f: A -> B, a: seq<A>, b: seq<A>)
    requires multiset(a) == multiset(b)
    ensures multiset(Map(f, a)) == multiset(Map(f, b))
    decreases |a|
  {
    if |a| == 0 {
      assert |multiset(b)| == 0;
    } else {
      assert a[0] in multiset(b);
      var k :| 0 <= k < |b| && b[k] == a[0];
      WithoutOne(a, 0);
      WithoutOne(b, k);
      MapPermutes(f, Without(a, 0), Without(b, k));
      MapWithout(f, a, 0);
      MapWithout(f, b, k);
    }
  }

  /** Lists with the same images element for element: each element of one has a match in the other. */
  lemma ImageMatches<A, B>(f: A -> B, a: seq<A>, b: seq<A>, x: A) returns (y: A)
    requires multiset(Map(f, a)) == multiset(Map(f, b)) && x in a
    ensures y in b && f(y) == f(x)
  {
    var i :| 0 <= i < |a| && a[i] == x;
    assert Map(f, a)[i] in multiset(Map(f, a));
    assert f(x) in multiset(Map(f, b));
    var j :| 0 <= j < |b| && Map(f, b)[j] == f(x);
    y := b[j];
  }

  /** One multiset, one membership. */
  lemma SameMembers<A>(a: seq<A>, b: seq<A>)
    requires multiset(a) == multiset(b)
    ensures |a| == |b| && forall x :: x in a <==> x in b
  {
    assert |multiset(a)| == |a| && |multiset(b)| == |b|;
    forall x ensures x in a <==> x in b {
      assert x in a <==> x in multiset(a);
      assert x in b <==> x in multiset(b);
    }
  }

  ghost predicate DistinctBy<A, K>(key: A -> K, s: seq<A>) {
    forall i, j :: 0 <= i < j < |s| ==> key(s[i]) != key(s[j])
  }

  lemma TwiceInList<A>(s: seq<A>, i: nat, j: nat)
    requires i < j < |s| && s[i] == s[j]
    ensures multiset(s)[s[i]] >= 2
  {
    assert s == s[..j] + [s[j]] + s[j + 1..];
    assert s[i] in s[..j] by { assert s[..j][i] == s[i]; }
    assert s[i] in multiset(s[..j]);
  }

  lemma {:induction false} OnceInList<A, K>(key: A -> K, s: seq<A>, x: A)
    requires DistinctBy(key, s)
    ensures multiset(s)[x] <= 1
  {
    if |s| > 0 {
      assert s == [s[0]] + s[1..];
      OnceInList(key, s[1..], x);
      forall k | 0 <= k < |s[1..]| ensures s[1..][k] != s[0] {
        assert key(s[0]) != key(s[k + 1]);
      }
      assert s[0] !in s[1..];
    }
  }

  /** Having no two elements with one key does not depend on the order. */
  lemma DistinctPermutes<A, K>(key: A -> K, a: seq<A>, b: seq<A>)
    requires multiset(a) == multiset(b) && DistinctBy(key, a)
    ensures DistinctBy(key, b)
  {
    forall i, j | 0 <= i < j < |b| ensures key(b[i]) != key(b[j]) {
      if key(b[i]) == key(b[j]) {
        assert b[i] in multiset(a) && b[j] in multiset(a);
        var p :| 0 <= p < |a| && a[p] == b[i];
        var q :| 0 <= q < |a| && a[q] == b[j];
        assert p == q;
        TwiceInList(b, i, j);
        OnceInList(key, a, b[i]);
      }
    }
  }

  // ---- memcmp order ------------------------------------------------------------------------------

  predicate LexLe(a: seq<byte>, b: seq<byte>) {
    |a| == 0 || (|b| > 0 && (a[0] < b[0] || (a[0] == b[0] && LexLe(a[1..], b[1..]))))
  }

  lemma {:induction false} LexTotal(a: seq<byte>, b: seq<byte>)
    ensures LexLe(a, b) || LexLe(b, a)
    ensures LexLe(a, b) && LexLe(b, a) ==> a == b
  {
    if |a| > 0 && |b| > 0 && a[0] == b[0] {
      LexTotal(a[1..], b[1..]);
      assert a == [a[0]] + a[1..] && b == [b[0]] + b[1..];
    }
  }

  lemma {:induction false} LexTransitive(a: seq<byte>, b: seq<byte>, c: seq<byte>)
    requires LexLe(a, b) && LexLe(b, c)
    ensures LexLe(a, c)
  {
    if |a| > 0 && a[0] == b[0] == c[0] {
      LexTransitive(a[1..], b[1..], c[1..]);
    }
  }

  /** Sorting by a byte-string key. */
  function ByKey<A>(key: A -> seq<byte>): (A, A) -> bool {
    (x, y) => LexLe(key(x), key(y))
  }

  lemma ByKeyIsPreorder<A(!new)>(key: A -> seq<byte>)
    ensures TotalPreorder(ByKey(key))
  {
    forall x: A, y: A ensures LexLe(key(x), key(y)) || LexLe(key(y), key(x)) {
      LexTotal(key(x), key(y));
    }
    forall x: A, y: A, z: A | LexLe(key(x), key(y)) && LexLe(key(y), key(z)) ensures LexLe(key(x), key(z)) {
      LexTransitive(key(x), key(y), key(z));
    }
  }

  /** In a sorted list, comparing neighbours is comparing everything. */
  lemma NeighboursSuffice<A>(key: A -> seq<byte>, s: seq<A>)
    requires SortedBy(ByKey(key), s)
    requires forall i :: 1 <= i < |s| ==> key(s[i]) != key(s[i - 1])
    ensures DistinctBy(key, s)
  {
    forall i, j | 0 <= i < j < |s| ensures key(s[i]) != key(s[j]) {
      assert ByKey(key)(s[i], s[i + 1]);
      assert i + 1 < j ==> ByKey(key)(s[i + 1], s[j]);
      LexTotal(key(s[i]), key(s[i + 1]));
      assert key(s[i + 1]) != key(s[(i + 1) - 1]);
    }
  }

  /** Lists with one multiset and no tied keys sort to one list. */
  lemma SortForgetsOrder<A(!new)>(key: A -> seq<byte>, a: seq<A>, b: seq<A>)
    requires multiset(a) == multiset(b)
    requires forall x, y :: x in a && y in a && key(x) == key(y) ==> x == y
    ensures StableSort(ByKey(key), a) == StableSort(ByKey(key), b)
  {
    var le := ByKey(key);
    ByKeyIsPreorder(key);
    SortSorts(le, a);
    SortSorts(le, b);
    SortPermutes(le, a);
    SortPermutes(le, b);
    var sorted := StableSort(le, a);
    forall x, y | x in sorted && y in sorted && le(x, y) && le(y, x) ensures x == y {
      assert x in multiset(sorted) && y in multiset(sorted);
      assert x in multiset(a) && y in multiset(a);
      LexTotal(key(x), key(y));
    }
    SortedUnique(le, sorted, StableSort(le, b));
  }
}

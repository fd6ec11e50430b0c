/**
  The order-independent commitment to a leaf multiset (core/stores.js, leafSetCommitment): sort by length
  and then lexicographically, join with newlines, hash.
 */
module LeafSet {
  import opened Sorting

  /** Code-unit order of strings of one length, and in general a prefix before its extensions. */
  predicate StrLe(a: string, b: string) {
    |a| == 0 || (|b| > 0 && (a[0] < b[0] || (a[0] == b[0] && StrLe(a[1..], b[1..]))))
  }

  predicate LeafLe(a: string, b: string) {
    |a| < |b| || (|a| == |b| && StrLe(a, b))
  }

  lemma {:induction false} StrTotal(a: string, b: string)
    ensures StrLe(a, b) || StrLe(b, a)
    ensures StrLe(a, b) && StrLe(b, a) ==> a == b
  {
    if |a| > 0 && |b| > 0 && a[0] == b[0] {
      StrTotal(a[1..], b[1..]);
      HeadAndTail(a);
      HeadAndTail(b);
    }
  }

  lemma {:induction false} StrTransitive(a: string, b: string, c: string)
    requires StrLe(a, b) && StrLe(b, c)
    ensures StrLe(a, c)
  {
    if |a| > 0 && a[0] == b[0] == c[0] {
      StrTransitive(a[1..], b[1..], c[1..]);
    }
  }

  lemma LeafOrder()
    ensures TotalPreorder(LeafLe)
    ensures forall a, b :: LeafLe(a, b) && LeafLe(b, a) ==> a == b
  {
    forall a: string, b: string
      ensures LeafLe(a, b) || LeafLe(b, a)
      ensures LeafLe(a, b) && LeafLe(b, a) ==> a == b
    {
      StrTotal(a, b);
    }
    forall a: string, b: string, c: string | LeafLe(a, b) && LeafLe(b, c) ensures LeafLe(a, c) {
      if |a| == |b| == |c| { StrTransitive(a, b, c); }
    }
  }

  function Join(s: seq<string>): string {
    if |s| == 0 then "" else if |s| == 1 then s[0] else s[0] + "\n" + Join(s[1..])
  }

  /** What an encoded field element always is: some text on one line. */
  predicate OneLine(leaf: string) {
    |leaf| > 0 && '\n' !in leaf
  }

  function Canonical(leaves: seq<string>): string {
    Join(StableSort(LeafLe, leaves))
  }

  function LeafSetCommitment(sha: string -> string, leaves: seq<string>): string {
    sha(Canonical(leaves))
  }

  lemma FirstNewline(a: string, rest: string)
    requires '\n' !in a
    ensures var whole := a + "\n" + rest; whole[|a|] == '\n' && forall i :: 0 <= i < |a| ==> whole[i] != '\n'
  {
  }

  /** Two texts that agree, each cut at its first newline, agree before it and after it. */
  lemma CutAtNewline(a: string, b: string, restA: string, restB: string)
    requires '\n' !in a && '\n' !in b && a + "\n" + restA == b + "\n" + restB
    ensures a == b && restA == restB
  {
    var whole := a + "\n" + restA;
    FirstNewline(a, restA);
    FirstNewline(b, restB);
    assert |a| == |b|;
    assert a == whole[..|a|] && b == whole[..|b|];
    assert restA == whole[|a| + 1..] && restB == whole[|b| + 1..];
  }

  lemma NoNewline(a: string, b: string, rest: string)
    requires '\n' !in a
    ensures a != b + "\n" + rest
  {
    var whole := b + "\n" + rest;
    assert whole[|b|] == '\n';
    assert '\n' in whole;
  }

  lemma JoinOfNone(a: seq<string>)
    requires forall i :: 0 <= i < |a| ==> OneLine(a[i])
    ensures Join(a) == "" <==> a == []
  {
    if |a| > 0 { assert |Join(a)| >= |a[0]|; }
  }

  /** A joined list of one-line texts can be taken apart again. */
  lemma {:induction false} JoinIsInjective(a: seq<string>, b: seq<string>)
    requires (forall i :: 0 <= i < |a| ==> OneLine(a[i])) && (forall i :: 0 <= i < |b| ==> OneLine(b[i]))
    requires Join(a) == Join(b)
    ensures a == b
  {
    JoinOfNone(a);
    JoinOfNone(b);
    if |a| == 1 && |b| > 1 {
      NoNewline(a[0], b[0], Join(b[1..]));
    } else if |b| == 1 && |a| > 1 {
      NoNewline(b[0], a[0], Join(a[1..]));
    } else if |a| > 1 {
      CutAtNewline(a[0], b[0], Join(a[1..]), Join(b[1..]));
      JoinIsInjective(a[1..], b[1..]);
      HeadAndTail(a);
      HeadAndTail(b);
    }
  }

  lemma SortedSame(a: seq<string>, b: seq<string>)
    ensures multiset(a) == multiset(b) <==> StableSort(LeafLe, a) == StableSort(LeafLe, b)
  {
    LeafOrder();
    SortPermutes(LeafLe, a);
    SortPermutes(LeafLe, b);
    if multiset(a) == multiset(b) {
      SortSorts(LeafLe, a);
      SortSorts(LeafLe, b);
      SortedUnique(LeafLe, StableSort(LeafLe, a), StableSort(LeafLe, b));
    }
  }

  lemma SortedOneLine(a: seq<string>)
    requires forall i :: 0 <= i < |a| ==> OneLine(a[i])
    ensures forall i :: 0 <= i < |StableSort(LeafLe, a)| ==> OneLine(StableSort(LeafLe, a)[i])
  {
    var s := StableSort(LeafLe, a);
    SortPermutes(LeafLe, a);
    forall i | 0 <= i < |s| ensures OneLine(s[i]) {
      assert s[i] in multiset(a);
      var k :| 0 <= k < |a| && a[k] == s[i];
    }
  }

  /** Equal commitments are equal multisets, duplicates counted, and the other way round; the hash is asked
      only not to collide on the two texts in question. */
  lemma CommitmentIsTheMultiset(sha: string -> string, a: seq<string>, b: seq<string>)
    requires (forall i :: 0 <= i < |a| ==> OneLine(a[i])) && (forall i :: 0 <= i < |b| ==> OneLine(b[i]))
    requires sha(Canonical(a)) == sha(Canonical(b)) ==> Canonical(a) == Canonical(b)
    ensures LeafSetCommitment(sha, a) == LeafSetCommitment(sha, b) <==> multiset(a) == multiset(b)
  {
    SortedSame(a, b);
    SortedOneLine(a);
    SortedOneLine(b);
    if Canonical(a) == Canonical(b) { JoinIsInjective(StableSort(LeafLe, a), StableSort(LeafLe, b)); }
  }
}

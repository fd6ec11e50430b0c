/**
  The gateway's in-memory stores as the objects they are (core/stores.js): the root windows with their leaf
  bound, the concurrency gate, and the one-time challenges with the roots they hold.
 */
module Stores {
  import opened Wrappers
  import opened Sorting
  import opened Lists
  import opened RootWindow

  class RootWindows {
    const window: nat
    const maxLeaves: int
    var snaps: seq<Record>

    ghost predicate Valid()
      reads this
    {
      Sorted(snaps) && DistinctBy(KeyOf, snaps)
    }

    constructor (window: nat, maxLeaves: int)
      ensures Valid() && snaps == [] && this.window == window && this.maxLeaves == maxLeaves
    {
      this.window, this.maxLeaves, snaps := window, maxLeaves, [];
    }

    /** Refuses and changes nothing, or adopts; a snapshot at or above every height held becomes current. */
    method Adopt(r: Record, pins: set<string>) returns (fault: Option<AdoptError>)
      requires Valid()
      modifies this
      ensures Valid() && fault == Fault(r)
      ensures snaps == if fault.Some? then old(snaps) else Adopted(old(snaps), r, window, maxLeaves, pins)
      ensures fault.None? && AtOrAbove(old(snaps), r.height) ==> |snaps| > 0 && snaps[|snaps| - 1] == r
    {
      hide StableSort, WithoutKey, AtHeights, KeptHeights, Ladder, Bounded;
      if r.snapshot.Some? {
        if r.snapshot.value.extra { return Some(ExtraField); }
        if r.snapshot.value.root != r.root { return Some(OtherRoot); }
        if r.snapshot.value.height != r.height { return Some(OtherHeight); }
        if r.snapshot.value.shaRoot != r.shaRoot { return Some(OtherShaRoot); }
      }
      if r.order !in {None, Some("proRegTxHash")} { return Some(UnknownOrder); }
      AdoptedShape(snaps, r, window, maxLeaves, pins);
      if AtOrAbove(snaps, r.height) { AdoptedIsCurrent(snaps, r, window, maxLeaves, pins); }
      PlacedSorted(snaps, r);
      var all := StableSort(ByHeight, WithoutKey(snaps, r) + [r]);
      SortedAtHeights(all, KeptHeights(Ladder(all), window));
      snaps := AtHeights(all, KeptHeights(Ladder(all), window));
      EnforceLeafBound(pins);
      fault := None;
    }

    method EnforceLeafBound(pins: set<string>)
      requires Sorted(snaps)
      modifies this
      ensures snaps == Bounded(old(snaps), maxLeaves, pins)
    {
      if maxLeaves <= 0 { return; }
      while RetainedLeaves(snaps) > maxLeaves
        invariant Sorted(snaps) && Bounded(snaps, maxLeaves, pins) == Bounded(old(snaps), maxLeaves, pins)
        decreases |snaps|
      {
        var heights := Ladder(snaps);
        if |heights| <= 1 { return; }
        LadderAscends(snaps);
        var target := Target(snaps, pins, heights);
        DroppingShrinks(snaps, target);
        SortedAtHeights(snaps, HeightsOf(snaps) - {target});
        snaps := AtHeights(snaps, HeightsOf(snaps) - {target});
      }
    }

    method Current() returns (r: Option<Record>)
      ensures r.None? <==> snaps == []
      ensures r.Some? ==> r.value == snaps[|snaps| - 1]
    {
      r := if |snaps| == 0 then None else Some(snaps[|snaps| - 1]);
    }

    /** The adoption floor: the highest height of any record held, whichever was adopted last. */
    method MaxHeight() returns (h: Option<int>)
      ensures h.None? <==> snaps == []
      ensures h.Some? ==> AtOrAbove(snaps, h.value) && h.value in HeightsOf(snaps)
    {
      if |snaps| == 0 { return None; }
      var top := snaps[0].height;
      for i := 1 to |snaps|
        invariant top in HeightsOf(snaps) && forall k :: 0 <= k < i ==> snaps[k].height <= top
      {
        if snaps[i].height > top { top := snaps[i].height; }
      }
      h := Some(top);
    }

    /** The newest timestamp among the records holding the root. */
    method TsOf(root: string) returns (ts: Option<int>)
      ensures ts.None? <==> forall i :: 0 <= i < |snaps| ==> snaps[i].root != root
      ensures ts.Some? ==> (exists i :: 0 <= i < |snaps| && snaps[i].root == root && snaps[i].ts == ts.value)
                           && forall i :: 0 <= i < |snaps| && snaps[i].root == root ==> snaps[i].ts <= ts.value
    {
      ts := None;
      for k := 0 to |snaps|
        invariant ts.None? <==> forall i :: 0 <= i < k ==> snaps[i].root != root
        invariant ts.Some? ==> (exists i :: 0 <= i < k && snaps[i].root == root && snaps[i].ts == ts.value)
                               && forall i :: 0 <= i < k && snaps[i].root == root ==> snaps[i].ts <= ts.value
      {
        if snaps[k].root == root && (ts.None? || snaps[k].ts > ts.value) { ts := Some(snaps[k].ts); }
      }
    }

    /** Accepted, and no older than the bound when there is one: some record holding the root is that young. */
    method IsEligibleWithin(root: string, maxAge: int, now: int) returns (ok: bool)
      ensures ok <==> exists i :: 0 <= i < |snaps| && snaps[i].root == root
                                  && (maxAge <= 0 || now - snaps[i].ts <= maxAge)
    {
      var ts := TsOf(root);
      if ts.None? { return false; }
      ok := maxAge <= 0 || (if now - ts.value < 0 then 0 else now - ts.value) <= maxAge;
    }

    /** Exactly the records stamped before the cutoff go, whatever their heights; the others stay where they
        were among themselves. */
    method DropOlder(cutoff: int)
      requires Valid()
      modifies this
      ensures Valid() && forall x :: x in snaps <==> x in old(snaps) && x.ts >= cutoff
      ensures forall x, y :: Before(snaps, x, y) <==> Before(old(snaps), x, y) && x.ts >= cutoff && y.ts >= cutoff
    {
      OlderSorted(snaps, cutoff);
      OlderDistinct(snaps, cutoff);
      forall x, y {
        OlderInOrder(snaps, cutoff, x, y);
      }
      snaps := DropOlderThan(snaps, cutoff);
    }
  }

  // ---- challenges ------------------------------------------------------------------------------------

  datatype Challenge = Challenge(root: Option<string>, account: string, epoch: int, expires: int)

  /** What one verify in flight keeps to let its root go with: it works once. */
  class Hold {
    const root: Option<string>
    var released: bool

    constructor (root: Option<string>)
      ensures this.root == root && released == root.None?
    {
      this.root, released := root, root.None?;
    }
  }

  /** The verifies among these that hold the root. */
  ghost function Holders(holds: set<Hold>, root: string): set<Hold> {
    set h | h in holds && h.root == Some(root)
  }

  /** One-time challenges, and the roots of the verifies in flight, counted; holds is who they are. */
  class ChallengeStore {
    const ttl: int
    const maxPending: nat
    var pending: map<string, Challenge>
    var held: map<string, nat>
    ghost var holds: set<Hold>

    ghost predicate Valid()
      reads this, holds
    {
      && |pending| <= maxPending
      && (forall r :: r in held ==> held[r] > 0)
      && (forall r :: Count(held, r) == |Holders(holds, r)|)
      && (forall h :: h in holds ==> !h.released)
    }

    constructor (ttl: int, maxPending: nat)
      ensures Valid() && pending == map[] && held == map[] && holds == {}
      ensures this.ttl == ttl && this.maxPending == maxPending
    {
      this.ttl, this.maxPending, pending, held := ttl, maxPending, map[], map[];
      holds := {};
    }

    function Unexpired(now: int): map<string, Challenge>
      reads this
    {
      map n | n in pending && now <= pending[n].expires :: pending[n]
    }

    method Sweep(now: int)
      requires Valid()
      modifies this`pending
      ensures Valid() && pending == old(Unexpired(now))
    {
      var before := pending;
      pending := map n | n in before && now <= before[n].expires :: before[n];
      SubmapIsSmaller(pending, before);
    }

    /** Room for one more nonce, expired ones making way for it first. */
    method MakeRoom(nonce: string, now: int) returns (ok: bool)
      requires Valid()
      modifies this`pending
      ensures Valid() && (pending == old(pending) || pending == old(Unexpired(now)))
      ensures ok ==> |pending| < maxPending
      ensures |old(pending)| < maxPending ==> ok && pending == old(pending)
      ensures !ok ==> |pending| >= maxPending && pending == old(Unexpired(now))
    {
      ok := true;
      if |pending| >= maxPending {
        Sweep(now);
        ok := |pending| < maxPending;
      }
    }

    method Put(nonce: string, c: Challenge, now: int) returns (ok: bool)
      requires Valid()
      modifies this`pending
      ensures Valid()
      ensures ok ==> nonce in pending && pending[nonce] == c.(expires := now + ttl)
      ensures ok ==> OthersStand(old(pending), pending, nonce, now)
      ensures ok && |old(pending)| < maxPending ==> pending - {nonce} == old(pending) - {nonce}
      ensures !ok ==> pending == old(Unexpired(now)) && |old(Unexpired(now))| >= maxPending
    {
      ok := MakeRoom(nonce, now);
      if ok {
        AddOne(pending, nonce, c.(expires := now + ttl));
        pending := pending[nonce := c.(expires := now + ttl)];
      }
    }

    /** One-time use: whatever the answer, the nonce is gone. */
    method Take(nonce: string, now: int) returns (c: Option<Challenge>)
      requires Valid()
      modifies this`pending
      ensures Valid() && pending == old(pending) - {nonce}
      ensures c == if nonce in old(pending) && now <= old(pending)[nonce].expires then Some(old(pending)[nonce])
        else None
    {
      c := if nonce in pending && now <= pending[nonce].expires then Some(pending[nonce]) else None;
      var before := pending;
      pending := pending - {nonce};
      SubmapIsSmaller(pending, before);
    }

    /** A challenge that was not processed goes back exactly as it was: its life is not extended and the
        store's bound is not exceeded. */
    method Restore(nonce: string, c: Challenge, now: int) returns (ok: bool)
      requires Valid()
      modifies this`pending
      ensures Valid()
      ensures ok ==> now <= c.expires && nonce in pending && pending[nonce] == c
      ensures ok ==> OthersStand(old(pending), pending, nonce, now)
      ensures ok && |old(pending)| < maxPending ==> pending - {nonce} == old(pending) - {nonce}
      ensures !ok ==> now > c.expires || |old(Unexpired(now))| >= maxPending
      ensures !ok ==> pending == old(pending) || pending == old(Unexpired(now))
    {
      if now > c.expires { return false; }
      ok := MakeRoom(nonce, now);
      if ok {
        AddOne(pending, nonce, c);
        pending := pending[nonce := c];
      }
    }

    /** A verify begins: one more holds its root, nothing else changes. Without a root there is nothing to
        let go. */
    method Keep(root: Option<string>) returns (h: Hold)
      requires Valid()
      modifies this`held, this`holds
      ensures Valid() && fresh(h) && h.root == root
      ensures holds == old(holds) + (if root.Some? then {h} else {}) && (h.released || h in holds)
      ensures forall r :: Count(held, r) == Count(old(held), r) + if root == Some(r) then 1 else 0
    {
      h := new Hold(root);
      if root.Some? {
        held := held[root.value := Count(held, root.value) + 1];
        HoldersGain(holds, h);
        holds := holds + {h};
      }
    }

    /** A verify lets go, once however often it asks; another in flight against the same root keeps it. */
    method Release(h: Hold)
      requires Valid() && (h.released || h in holds)
      modifies this`held, this`holds, h
      ensures Valid() && h.released && holds == old(holds) - {h}
      ensures forall r :: Count(held, r) == Count(old(held), r) - if !old(h.released) && h.root == Some(r) then 1 else 0
    {
      if h.released { return; }
      h.released := true;
      HoldersGain(holds - {h}, h);
      assert holds == holds - {h} + {h};
      holds := holds - {h};
      if h.root.Some? {
        var n := Count(held, h.root.value) - 1;
        held := if n > 0 then held[h.root.value := n] else held - {h.root.value};
      }
    }

    /** Exactly the roots a live challenge was minted against or a verify in flight still holds. */
    method PinnedRoots(now: int) returns (roots: set<string>)
      requires Valid()
      modifies this`pending
      ensures Valid() && pending == old(Unexpired(now))
      ensures forall r :: r in roots <==> (exists h :: h in holds && h.root == Some(r))
                                          || exists n :: n in pending && pending[n].root == Some(r)
    {
      Sweep(now);
      var live := set n | n in pending && pending[n].root.Some? :: pending[n].root.value;
      roots := live + held.Keys;
      HeldIsHolding(held, holds);
    }
  }

  /** Every other live challenge is still there as it was, and no other has appeared. */
  ghost predicate OthersStand(before: map<string, Challenge>, after: map<string, Challenge>, nonce: string, now: int) {
    && (forall n :: n in before && n != nonce && now <= before[n].expires ==> n in after && after[n] == before[n])
    && (forall n :: n in after && n != nonce ==> n in before && after[n] == before[n])
  }

  /** One more verify is one more holder of its own root. */
  lemma HoldersGain(holds: set<Hold>, h: Hold)
    requires h !in holds
    ensures forall r :: |Holders(holds + {h}, r)| == |Holders(holds, r)| + if h.root == Some(r) then 1 else 0
  {
    forall r ensures |Holders(holds + {h}, r)| == |Holders(holds, r)| + if h.root == Some(r) then 1 else 0 {
      assert Holders(holds + {h}, r) == Holders(holds, r) + if h.root == Some(r) then {h} else {};
    }
  }

  lemma HeldIsHolding(held: map<string, nat>, holds: set<Hold>)
    requires (forall r :: r in held ==> held[r] > 0) && forall r :: Count(held, r) == |Holders(holds, r)|
    ensures forall r :: r in held <==> exists h :: h in holds && h.root == Some(r)
  {
    forall r ensures r in held <==> exists h :: h in holds && h.root == Some(r) {
      assert r in held <==> Holders(holds, r) != {};
      if Holders(holds, r) != {} {
        var h :| h in Holders(holds, r);
      }
      assert forall h :: h in holds && h.root == Some(r) ==> h in Holders(holds, r);
    }
  }

  function Count(held: map<string, nat>, root: string): nat {
    if root in held then held[root] else 0
  }

  lemma {:induction false} SubmapIsSmaller<V>(a: map<string, V>, b: map<string, V>)
    requires a.Keys <= b.Keys
    ensures |a| <= |b|
  {
    SubsetIsSmaller(a.Keys, b.Keys);
    assert |a| == |a.Keys| && |b| == |b.Keys|;
  }

  lemma {:induction false} SubsetIsSmaller(a: set<string>, b: set<string>)
    requires a <= b
    ensures |a| <= |b|
    decreases |b|
  {
    if b != {} {
      var x :| x in b;
      SubsetIsSmaller(a - {x}, b - {x});
    }
  }

  lemma AddOne<V>(m: map<string, V>, k: string, v: V)
    ensures |m[k := v]| <= |m| + 1
  {
    assert m[k := v].Keys == m.Keys + {k};
    assert |m[k := v]| == |m[k := v].Keys| && |m| == |m.Keys|;
  }
}

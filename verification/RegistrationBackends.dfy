/**
  The loops and objects of core/registration_store.js that work without awaits: the loader's two
  passes, and the in-memory backend. Each is proved against the functions of `RegistrationLog`.
 */
module RegistrationBackends {
  import opened Wrappers
  import opened Sorting
  import opened RegistrationAnswers
  import opened RegistrationLog

  lemma {:induction false} ScanErrSticks(cfg: Config, lines: seq<Line>, k: nat)
    requires k <= |lines| && Scan(cfg, lines[..k]).Err?
    ensures Scan(cfg, lines) == Scan(cfg, lines[..k])
    decreases |lines|
  {
    if k == |lines| {
      assert lines[..k] == lines;
    } else {
      var front := lines[..|lines| - 1];
      assert front[..k] == lines[..k];
      ScanErrSticks(cfg, front, k);
    }
  }

  /** Collects the lines into the two maps, collapsing a repeated registration onto its last copy, or
      stops at the line that spoils the file. */
  method Collect(cfg: Config, lines: seq<Line>) returns (r: Result<Scanned, LoadError>)
    ensures r == Scan(cfg, lines)
  {
    var seen: set<Key> := {};
    var byBucket: map<Bucket, seq<Record>> := map[];
    var stamped := false;
    for i := 0 to |lines|
      invariant Scan(cfg, lines[..i]) == Ok(Scanned(Index(seen, byBucket), stamped))
    {
      ghost var upTo := lines[..i + 1];
      assert upTo[..|upTo| - 1] == lines[..i];
      if Scan(cfg, upTo).Err? { ScanErrSticks(cfg, lines, i + 1); }
      match lines[i] {
        case Garbled => return Err(Malformed);
        case Header(schedule) =>
          if cfg.schedule.Some? && schedule != cfg.schedule.value { return Err(OtherSchedule); }
          stamped := true;
        case Entry(rec) =>
          if !Usable(rec) { return Err(Unusable); }
          var b := BucketOf(rec);
          var bucket := if b in byBucket then byBucket[b] else [];
          if KeyOf(rec) in seen {
            var at := FindKey(bucket, KeyOf(rec));
            if at == |bucket| || !SameRegistration(bucket[at], rec) { return Err(Contradiction); }
            byBucket := byBucket[b := bucket[at := rec]];
          } else {
            if |bucket| > 0 && DeclarationOf(bucket[0]) != DeclarationOf(rec) { return Err(MixedDeclarations); }
            seen := seen + {KeyOf(rec)};
            byBucket := byBucket[b := bucket + [rec]];
          }
      }
    }
    assert lines[..|lines|] == lines;
    r := Ok(Scanned(Index(seen, byBucket), stamped));
  }

  /** Sorts every bucket by recorded position and refuses the file when a position does not fit. */
  method OrderBuckets(ix: Index) returns (r: Result<Index, LoadError>)
    ensures r == if AllFit(ix) then Ok(InOrder(ix)) else Err(Gap)
  {
    hide StableSort, PositionsFit;
    var byBucket := ix.byBucket;
    var todo := ix.byBucket.Keys;
    while todo != {}
      invariant todo <= ix.byBucket.Keys == byBucket.Keys
      invariant forall b :: b in byBucket ==>
        byBucket[b] == if b in todo then ix.byBucket[b] else StableSort(ByIndex, ix.byBucket[b])
      invariant forall b :: b in byBucket && b !in todo ==> PositionsFit(ix.byBucket[b])
      decreases |todo|
    {
      var b :| b in todo;
      var sorted := StableSort(ByIndex, byBucket[b]);
      LastIsLargest(ix.byBucket[b]);
      if |sorted| > 0 && sorted[|sorted| - 1].index > |sorted| { return Err(Gap); }
      byBucket := byBucket[b := sorted];
      todo := todo - {b};
    }
    assert byBucket == InOrder(ix).byBucket;
    r := Ok(Index(ix.seen, byBucket));
  }

  /** After sorting, the last record alone decides whether every position fits. */
  lemma LastIsLargest(s: seq<Record>)
    ensures var t := StableSort(ByIndex, s);
      PositionsFit(s) <==> (|t| > 0 ==> t[|t| - 1].index <= |t|)
  {
    var t := StableSort(ByIndex, s);
    ByIndexIsPreorder();
    SortSorts(ByIndex, s);
    SortPermutes(ByIndex, s);
    hide StableSort;
    if |t| > 0 {
      assert t[|t| - 1] in multiset(s);
      if t[|t| - 1].index <= |t| {
        forall r | r in s ensures r.index <= |s| {
          assert r in multiset(t);
          var i :| 0 <= i < |t| && t[i] == r;
          if i < |t| - 1 { assert ByIndex(t[i], t[|t| - 1]); }
        }
      }
    }
  }

  method LoadFile(cfg: Config, lines: seq<Line>) returns (r: Result<Index, LoadError>)
    ensures r == Load(cfg, lines)
  {
    var scan := Collect(cfg, lines);
    if scan.Err? { return Err(scan.error); }
    if !scan.value.stamped && cfg.schedule.Some? && scan.value.index.seen != {} && !cfg.assumeSchedule {
      return Err(Unstamped);
    }
    r := OrderBuckets(scan.value.index);
  }

  /** What the wrapper in front of a backend answers. */
  datatype Outcome = Refused | AlreadyThere | OtherDeclaration(declared: Declaration) | Landed(index: nat)

  /** The in-memory backend: the atomic append-only set the file backend stands in for. */
  class MemoryRegistrationBackend {
    var seen: set<Key>
    var byBucket: map<Bucket, seq<Record>>

    function Contents(): Index
      reads this
    {
      Index(seen, byBucket)
    }

    /** The index is coherent, and every record sits at the position it carries. */
    ghost predicate Valid()
      reads this
    {
      Coherent(Contents()) && Placed(Contents())
    }

    constructor ()
      ensures Valid() && Contents() == EMPTY
    {
      seen, byBucket := {}, map[];
    }

    /** The registration store's append over this backend: refused at the front, or decided by the
        index; only a landed record changes anything. */
    method Append(d: Request) returns (r: Outcome)
      requires Valid()
      modifies this
      ensures Valid()
      ensures r.Refused? <==> !Admissible(d)
      ensures Admissible(d) ==>
        match Decide(old(Contents()), d)
        case Duplicate => r == AlreadyThere && Contents() == old(Contents())
        case Conflict(declared) => r == OtherDeclaration(declared) && Contents() == old(Contents())
        case Write(rec) =>
          r == Landed(rec.index) && Contents() == Remember(old(Contents()), rec) && AtItsIndex(Contents(), rec)
      ensures r.AlreadyThere? <==> Admissible(d) && Spent(old(Contents()), d)
      ensures r.OtherDeclaration? <==>
        Admissible(d) && !Spent(old(Contents()), d)
        && Declared(old(Contents()), d).Some?
        && Declared(old(Contents()), d).value != Declaration(d.engine, d.statement)
      ensures r.OtherDeclaration? ==> Declared(old(Contents()), d) == Some(r.declared)
      ensures r.Landed? ==>
        var before, after := Peers(old(Contents()), d), Peers(Contents(), d);
        && r.index == |before| && |after| == |before| + 1 && after[..|before|] == before
        && IsRequest(after[r.index], d, r.index)
    {
      hide Coherent, Placed, AtItsIndex, Admissible, Spent;
      DecidesAsPromised(Contents(), d);
      if Decide(Contents(), d).Write? { WritesTheRequest(Contents(), d); }
      if !Admissible(d) { return Refused; }
      var want := RecordFor(d, 0);
      if KeyOf(want) in seen { return AlreadyThere; }
      var bucket := if BucketOf(want) in byBucket then byBucket[BucketOf(want)] else [];
      if |bucket| > 0 && DeclarationOf(bucket[0]) != DeclarationOf(want) {
        return OtherDeclaration(DeclarationOf(bucket[0]));
      }
      var rec := RecordFor(d, |bucket|);
      assert Appendable(Contents(), rec);
      RememberCoherent(Contents(), rec);
      RememberPlaces(Contents(), rec, rec);
      RememberKeepsPlaced(Contents(), rec);
      seen := seen + {KeyOf(rec)};
      byBucket := byBucket[BucketOf(rec) := bucket + [rec]];
      r := Landed(|bucket|);
    }

    method DeclarationFor(b: Bucket) returns (r: Option<Declaration>)
      requires Valid()
      ensures r.None? <==> b !in byBucket
      ensures r.Some? ==> forall rec :: rec in byBucket[b] ==> DeclarationOf(rec) == r.value
    {
      r := None;
      if b in byBucket {
        assert BucketOk(b, byBucket[b]);
        if |byBucket[b]| > 0 { r := Some(DeclarationOf(byBucket[b][0])); }
      }
    }

    /** True exactly when some record of the season was registered under the engine, although only each
        bucket's first record is read. */
    method SeasonHasEngine(season: int, engine: string) returns (found: bool)
      requires Valid()
      ensures found <==> exists b, i :: b in byBucket && 0 <= i < |byBucket[b]| && byBucket[b][i].season == season
                                        && DeclarationOf(byBucket[b][i]).engine == engine
    {
      var todo := byBucket.Keys;
      while todo != {}
        invariant todo <= byBucket.Keys
        invariant forall b, i {:trigger byBucket[b][i]} :: b in byBucket && b !in todo && 0 <= i < |byBucket[b]| ==>
          !(byBucket[b][i].season == season && DeclarationOf(byBucket[b][i]).engine == engine)
        decreases |todo|
      {
        var b :| b in todo;
        assert BucketOk(b, byBucket[b]);
        if b.season == season && |byBucket[b]| > 0 && DeclarationOf(byBucket[b][0]).engine == engine {
          assert byBucket[b][0].season == season;
          return true;
        }
        forall i | 0 <= i < |byBucket[b]|
          ensures !(byBucket[b][i].season == season && DeclarationOf(byBucket[b][i]).engine == engine)
        {
          assert BucketOf(byBucket[b][i]) == b && DeclarationOf(byBucket[b][i]) == DeclarationOf(byBucket[b][0]);
        }
        todo := todo - {b};
      }
      found := false;
    }
  }
}

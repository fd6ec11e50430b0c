/**
  What the registration log means (core/registration_store.js): how a file of lines becomes an index
  by bucket, how an append decides, and why the two agree. `Load` is the loader as a function of the
  lines; `Decide` and `Remember` are the append as a function of the index; the theorem is that
  remembering in memory and reloading the longer file are the same thing, for every file the loader
  accepts.
 */
module RegistrationLog {
  import opened Wrappers
  import opened Sorting
  import opened Lists
  import opened FieldElements

  // ---- records -----------------------------------------------------------------------------------

  /** A line's record as parsed. Engine and statement are absent from lines older than those fields. */
  datatype Record = Record(season: int, contextHash: string, regNullifier: string, commitment: string,
                           engine: Option<string>, statement: Option<string>, index: int)

  datatype Key = Key(season: int, contextHash: string, regNullifier: string)
  datatype Bucket = Bucket(season: int, contextHash: string)
  datatype Declaration = Declaration(engine: string, statement: string)

  function KeyOf(r: Record): Key {
    Key(r.season, r.contextHash, r.regNullifier)
  }

  function BucketOf(r: Record): Bucket {
    Bucket(r.season, r.contextHash)
  }

  function Or(o: Option<string>, default: string): string {
    if o.Some? then o.value else default
  }

  /** A record without the fields is a PLONK derive registration. */
  function DeclarationOf(r: Record): Declaration {
    Declaration(Or(r.engine, "plonk"), Or(r.statement, "derive"))
  }

  predicate IsValidEngineStatement(engine: string, statement: string) {
    || (engine in {"groth16", "plonk"} && statement == "derive")
    || (engine == "zkvm" && statement in {"derive", "custody"})
  }

  /** Nothing the loader would refuse the record for: canonical field elements, non-negative integers,
      and a declaration that is either absent or possible. */
  predicate Usable(r: Record) {
    && r.season >= 0 && r.index >= 0
    && IsCanonicalField(r.contextHash) && IsCanonicalField(r.regNullifier) && IsCanonicalField(r.commitment)
    && ((r.engine.Some? || r.statement.Some?) ==>
          r.engine.Some? && r.statement.Some? && IsValidEngineStatement(r.engine.value, r.statement.value))
  }

  /** One registration twice: everything but the assigned index agrees, an absent field reading as
      empty. */
  predicate SameRegistration(a: Record, b: Record) {
    && KeyOf(a) == KeyOf(b) && a.commitment == b.commitment
    && Or(a.engine, "") == Or(b.engine, "") && Or(a.statement, "") == Or(b.statement, "")
  }

  // ---- the index ---------------------------------------------------------------------------------

  datatype Index = Index(seen: set<Key>, byBucket: map<Bucket, seq<Record>>)

  const EMPTY := Index({}, map[])

  function RecordsOf(ix: Index, b: Bucket): seq<Record> {
    if b in ix.byBucket then ix.byBucket[b] else []
  }

  function Remember(ix: Index, r: Record): Index {
    Index(ix.seen + {KeyOf(r)}, ix.byBucket[BucketOf(r) := RecordsOf(ix, BucketOf(r)) + [r]])
  }

  /** The position of the first record with this key, or the length when there is none. */
  function FindKey(s: seq<Record>, k: Key): (at: nat)
    ensures at <= |s| && (at < |s| ==> KeyOf(s[at]) == k)
    ensures forall i :: 0 <= i < at ==> KeyOf(s[i]) != k
  {
    if |s| == 0 then 0 else if KeyOf(s[0]) == k then 0 else 1 + FindKey(s[1..], k)
  }

  // ---- the loader --------------------------------------------------------------------------------

  datatype Line = Header(schedule: string) | Entry(record: Record) | Garbled

  datatype Config = Config(schedule: Option<string>, assumeSchedule: bool)

  datatype LoadError = Malformed | OtherSchedule | Unusable | Contradiction | MixedDeclarations | Unstamped | Gap

  /** One more record while loading: a repeated key replaces the earlier copy in place if it is the same
      registration and refuses the file if not; a bucket has one declaration. */
  function AddLoaded(ix: Index, r: Record): Result<Index, LoadError> {
    var bucket := RecordsOf(ix, BucketOf(r));
    if !Usable(r) then Err(Unusable)
    else if KeyOf(r) in ix.seen then
      var at := FindKey(bucket, KeyOf(r));
      if at == |bucket| || !SameRegistration(bucket[at], r) then Err(Contradiction)
      else Ok(ix.(byBucket := ix.byBucket[BucketOf(r) := bucket[at := r]]))
    else if |bucket| > 0 && DeclarationOf(bucket[0]) != DeclarationOf(r) then Err(MixedDeclarations)
    else Ok(Remember(ix, r))
  }

  datatype Scanned = Scanned(index: Index, stamped: bool)

  /** Every line in order, up to the first that spoils the file. */
  function Scan(cfg: Config, lines: seq<Line>): Result<Scanned, LoadError> {
    if |lines| == 0 then Ok(Scanned(EMPTY, false))
    else
      var before := Scan(cfg, lines[..|lines| - 1]);
      if before.Err? then before else ScanLine(cfg, before.value, lines[|lines| - 1])
  }

  function ScanLine(cfg: Config, before: Scanned, line: Line): Result<Scanned, LoadError> {
    match line
    case Garbled => Err(Malformed)
    case Header(schedule) =>
      if cfg.schedule.Some? && schedule != cfg.schedule.value then Err(OtherSchedule)
      else Ok(before.(stamped := true))
    case Entry(r) =>
      var after := AddLoaded(before.index, r);
      if after.Err? then Err(after.error) else Ok(before.(index := after.value))
  }

  predicate ByIndex(a: Record, b: Record) {
    a.index <= b.index
  }

  /** The largest recorded position does not exceed the number of records. */
  predicate PositionsFit(bucket: seq<Record>) {
    forall r :: r in bucket ==> r.index <= |bucket|
  }

  /** Every bucket in the order of its recorded positions, ties in file order. */
  function InOrder(ix: Index): Index {
    ix.(byBucket := map b | b in ix.byBucket :: StableSort(ByIndex, ix.byBucket[b]))
  }

  predicate AllFit(ix: Index) {
    forall b | b in ix.byBucket :: PositionsFit(ix.byBucket[b])
  }

  function Load(cfg: Config, lines: seq<Line>): Result<Index, LoadError> {
    var scan := Scan(cfg, lines);
    if scan.Err? then Err(scan.error)
    else if !scan.value.stamped && cfg.schedule.Some? && scan.value.index.seen != {} && !cfg.assumeSchedule
        then Err(Unstamped)
    else if !AllFit(scan.value.index) then Err(Gap)
    else Ok(InOrder(scan.value.index))
  }

  // ---- the append --------------------------------------------------------------------------------

  datatype Request = Request(season: nat, contextHash: string, regNullifier: string, commitment: string,
                             engine: string, statement: string)

  /** What the store's front refuses before any backend sees it. */
  predicate Admissible(d: Request) {
    && IsValidEngineStatement(d.engine, d.statement)
    && IsCanonicalField(d.contextHash) && IsCanonicalField(d.regNullifier) && IsCanonicalField(d.commitment)
  }

  function RecordFor(d: Request, index: nat): Record {
    Record(d.season, d.contextHash, d.regNullifier, d.commitment, Some(d.engine), Some(d.statement), index)
  }

  datatype Decision = Duplicate | Conflict(declared: Declaration) | Write(record: Record)

  function Decide(ix: Index, d: Request): Decision {
    var want := RecordFor(d, 0);
    var bucket := RecordsOf(ix, BucketOf(want));
    if KeyOf(want) in ix.seen then Duplicate
    else if |bucket| > 0 && DeclarationOf(bucket[0]) != DeclarationOf(want) then Conflict(DeclarationOf(bucket[0]))
    else Write(RecordFor(d, |bucket|))
  }

  /** r is a record an append could have decided to write over this index. */
  ghost predicate Appendable(ix: Index, r: Record) {
    exists d: Request :: Admissible(d) && Decide(ix, d) == Write(r)
  }

  // ---- what the index always looks like -----------------------------------------------------------

  /** Every record is in the bucket it belongs to, usable, and of the bucket's declaration; no key
      occurs twice; and `seen` is exactly the keys in the buckets. */
  ghost predicate Coherent(ix: Index) {
    && (forall b {:trigger ix.byBucket[b]} :: b in ix.byBucket ==> BucketOk(b, ix.byBucket[b]))
    && (forall b, i {:trigger ix.byBucket[b][i]} :: b in ix.byBucket && 0 <= i < |ix.byBucket[b]| ==>
         KeyOf(ix.byBucket[b][i]) in ix.seen)
    && SeenIsFound(ix)
  }

  ghost predicate BucketOk(b: Bucket, bucket: seq<Record>) {
    && |bucket| > 0
    && (forall i :: 0 <= i < |bucket| ==> BucketOf(bucket[i]) == b && Usable(bucket[i]))
    && (forall i :: 0 <= i < |bucket| ==> DeclarationOf(bucket[i]) == DeclarationOf(bucket[0]))
    && (forall i, j :: 0 <= i < j < |bucket| ==> KeyOf(bucket[i]) != KeyOf(bucket[j]))
  }

  lemma FoundIfThere(s: seq<Record>, k: Key, i: nat)
    requires i < |s| && KeyOf(s[i]) == k
    ensures FindKey(s, k) <= i
  {
  }

  /** Every key seen is in its bucket. */
  ghost predicate SeenIsFound(ix: Index) {
    forall k {:trigger k in ix.seen} :: k in ix.seen ==>
      var bucket := RecordsOf(ix, Bucket(k.season, k.contextHash)); FindKey(bucket, k) < |bucket|
  }

  lemma RememberFinds(ix: Index, r: Record)
    requires SeenIsFound(ix)
    ensures SeenIsFound(Remember(ix, r))
  {
    var ix', s := Remember(ix, r), RecordsOf(ix, BucketOf(r));
    forall k | k in ix'.seen
      ensures var bucket := RecordsOf(ix', Bucket(k.season, k.contextHash)); FindKey(bucket, k) < |bucket|
    {
      var bucket := RecordsOf(ix', Bucket(k.season, k.contextHash));
      if k == KeyOf(r) {
        FoundIfThere(bucket, k, |s|);
      } else {
        FoundIfThere(bucket, k, FindKey(RecordsOf(ix, Bucket(k.season, k.contextHash)), k));
      }
    }
  }

  lemma RememberKeeps(ix: Index, r: Record)
    requires Coherent(ix) && Usable(r) && KeyOf(r) !in ix.seen
    requires var s := RecordsOf(ix, BucketOf(r)); |s| > 0 ==> DeclarationOf(s[0]) == DeclarationOf(r)
    ensures Coherent(Remember(ix, r))
  {
    RememberBucket(ix, r);
    assert SeenIsFound(ix);
    hide BucketOk, SeenIsFound, Usable, DeclarationOf;
    RememberFinds(ix, r);
  }

  lemma RememberBucket(ix: Index, r: Record)
    requires Coherent(ix) && Usable(r) && KeyOf(r) !in ix.seen
    requires var s := RecordsOf(ix, BucketOf(r)); |s| > 0 ==> DeclarationOf(s[0]) == DeclarationOf(r)
    ensures BucketOk(BucketOf(r), RecordsOf(ix, BucketOf(r)) + [r])
  {
    hide SeenIsFound, Usable;
  }

  lemma ReplaceKeepsBucket(b: Bucket, s: seq<Record>, r: Record, at: nat)
    requires BucketOk(b, s) && at < |s| && SameRegistration(s[at], r) && Usable(r)
    ensures BucketOk(b, s[at := r]) && forall i :: 0 <= i < |s| ==> KeyOf(s[at := r][i]) == KeyOf(s[i])
  {
    assert DeclarationOf(s[at]) == DeclarationOf(r);
  }

  function Replace(ix: Index, b: Bucket, at: nat, r: Record): Index
    requires b in ix.byBucket && at < |ix.byBucket[b]|
  {
    ix.(byBucket := ix.byBucket[b := ix.byBucket[b][at := r]])
  }

  lemma ReplaceFinds(ix: Index, b: Bucket, at: nat, r: Record)
    requires SeenIsFound(ix) && b in ix.byBucket && at < |ix.byBucket[b]| && KeyOf(ix.byBucket[b][at]) == KeyOf(r)
    ensures SeenIsFound(Replace(ix, b, at, r))
  {
    var ix' := Replace(ix, b, at, r);
    forall k | k in ix'.seen
      ensures var bucket := RecordsOf(ix', Bucket(k.season, k.contextHash)); FindKey(bucket, k) < |bucket|
    {
      var bucket := RecordsOf(ix', Bucket(k.season, k.contextHash));
      FoundIfThere(bucket, k, FindKey(RecordsOf(ix, Bucket(k.season, k.contextHash)), k));
    }
  }

  lemma ReplaceKeeps(ix: Index, r: Record, at: nat)
    requires Coherent(ix) && Usable(r) && BucketOf(r) in ix.byBucket && at < |ix.byBucket[BucketOf(r)]|
    requires SameRegistration(ix.byBucket[BucketOf(r)][at], r)
    ensures Coherent(Replace(ix, BucketOf(r), at, r))
  {
    var s := ix.byBucket[BucketOf(r)];
    ReplaceKeepsBucket(BucketOf(r), s, r, at);
    ReplaceFinds(ix, BucketOf(r), at, r);
    hide BucketOk, Usable, SameRegistration, SeenIsFound;
  }

  lemma AddLoadedKeeps(ix: Index, r: Record)
    requires Coherent(ix) && AddLoaded(ix, r).Ok?
    ensures Coherent(AddLoaded(ix, r).value)
  {
    if KeyOf(r) in ix.seen {
      ReplaceKeeps(ix, r, FindKey(RecordsOf(ix, BucketOf(r)), KeyOf(r)));
    } else {
      RememberKeeps(ix, r);
    }
  }

  lemma {:induction false} ScanIsCoherent(cfg: Config, lines: seq<Line>)
    requires Scan(cfg, lines).Ok?
    ensures Coherent(Scan(cfg, lines).value.index)
  {
    if |lines| > 0 {
      ScanIsCoherent(cfg, lines[..|lines| - 1]);
      var line := lines[|lines| - 1];
      if line.Entry? {
        AddLoadedKeeps(Scan(cfg, lines[..|lines| - 1]).value.index, line.record);
      }
    }
  }

  // ---- order -------------------------------------------------------------------------------------

  lemma ByIndexIsPreorder()
    ensures TotalPreorder(ByIndex)
  {
  }

  /** The bound is exact: a record appended at position |s| stays behind the sorted bucket s on the next
      reload if and only if no recorded position exceeds |s|. */
  lemma FitIsExactlyOrderKept(s: seq<Record>, r: Record)
    requires SortedBy(ByIndex, s) && r.index == |s|
    ensures StableSort(ByIndex, s + [r]) == s + [r] <==> PositionsFit(s)
  {
    ByIndexIsPreorder();
    if PositionsFit(s) {
      SortAppend(ByIndex, s, r);
      SortOfSorted(ByIndex, s);
    } else {
      var x :| x in s && x.index > |s|;
      var i :| 0 <= i < |s| && s[i] == x;
      SortSorts(ByIndex, s + [r]);
      assert !SortedBy(ByIndex, s + [r]) by { assert !ByIndex((s + [r])[i], (s + [r])[|s|]); }
    }
  }

  lemma SortKeepsBucket(b: Bucket, s: seq<Record>)
    requires BucketOk(b, s)
    ensures BucketOk(b, StableSort(ByIndex, s)) && multiset(StableSort(ByIndex, s)) == multiset(s)
  {
    var t := StableSort(ByIndex, s);
    SortPermutes(ByIndex, s);
    SameMembers(s, t);
    DistinctPermutes(KeyOf, s, t);
    assert t[0] in s;
    forall i | 0 <= i < |t| ensures BucketOf(t[i]) == b && Usable(t[i]) && DeclarationOf(t[i]) == DeclarationOf(t[0]) {
      assert t[i] in s && t[0] in s;
    }
  }

  lemma InOrderKeeps(ix: Index)
    requires Coherent(ix)
    ensures Coherent(InOrder(ix))
  {
    var ix' := InOrder(ix);
    forall b | b in ix'.byBucket
      ensures BucketOk(b, ix'.byBucket[b])
      ensures multiset(ix'.byBucket[b]) == multiset(ix.byBucket[b])
    {
      SortKeepsBucket(b, ix.byBucket[b]);
    }
    forall b, i | b in ix'.byBucket && 0 <= i < |ix'.byBucket[b]| ensures KeyOf(ix'.byBucket[b][i]) in ix'.seen {
      assert ix'.byBucket[b][i] in multiset(ix.byBucket[b]);
    }
    forall k | k in ix'.seen
      ensures var bucket := RecordsOf(ix', Bucket(k.season, k.contextHash)); FindKey(bucket, k) < |bucket|
    {
      var b := Bucket(k.season, k.contextHash);
      var before := RecordsOf(ix, b);
      var x := before[FindKey(before, k)];
      assert x in multiset(ix'.byBucket[b]);
      var i :| 0 <= i < |ix'.byBucket[b]| && ix'.byBucket[b][i] == x;
      FoundIfThere(ix'.byBucket[b], k, i);
    }
  }

  lemma LoadIsCoherent(cfg: Config, lines: seq<Line>)
    requires Load(cfg, lines).Ok?
    ensures Coherent(Load(cfg, lines).value)
  {
    ScanIsCoherent(cfg, lines);
    InOrderKeeps(Scan(cfg, lines).value.index);
  }

  // ---- live order is restart order ---------------------------------------------------------------

  /** The file a load leaves behind: it names its schedule, or was never asked to. */
  predicate Stamped(cfg: Config, lines: seq<Line>) {
    cfg.schedule.None? || cfg.assumeSchedule || exists i :: 0 <= i < |lines| && lines[i].Header?
  }

  lemma {:induction false} ScanStamp(cfg: Config, lines: seq<Line>)
    requires Scan(cfg, lines).Ok?
    ensures Scan(cfg, lines).value.stamped <==> exists i :: 0 <= i < |lines| && lines[i].Header?
  {
    if |lines| > 0 {
      ScanStamp(cfg, lines[..|lines| - 1]);
    }
  }

  lemma SameBucketSorted(ix: Index, b: Bucket)
    requires Coherent(ix)
    ensures RecordsOf(InOrder(ix), b) == StableSort(ByIndex, RecordsOf(ix, b))
    ensures |RecordsOf(ix, b)| > 0 ==> DeclarationOf(RecordsOf(InOrder(ix), b)[0]) == DeclarationOf(RecordsOf(ix, b)[0])
  {
    if b in ix.byBucket {
      SortKeepsBucket(b, ix.byBucket[b]);
      SameMembers(ix.byBucket[b], StableSort(ByIndex, ix.byBucket[b]));
      assert StableSort(ByIndex, ix.byBucket[b])[0] in ix.byBucket[b];
    }
  }

  lemma AppendLast(s: seq<Record>, r: Record)
    requires PositionsFit(s) && r.index == |s|
    ensures StableSort(ByIndex, s + [r]) == StableSort(ByIndex, s) + [r] && PositionsFit(s + [r])
  {
    forall i | 0 <= i < |s| ensures ByIndex(s[i], r) {
      assert s[i] in s;
    }
    SortAppend(ByIndex, s, r);
  }

  /** Appending to the unsorted index and ordering it is ordering it and appending. */
  lemma OrderThenRemember(ix: Index, r: Record)
    requires Coherent(ix) && AllFit(ix) && r.index == |RecordsOf(ix, BucketOf(r))|
    ensures InOrder(Remember(ix, r)) == Remember(InOrder(ix), r) && AllFit(Remember(ix, r))
  {
    hide StableSort, PositionsFit, Coherent;
    var b, none: seq<Record> := BucketOf(r), [];
    assert PositionsFit(none) && StableSort(ByIndex, none) == none by { FitsEmpty(); }
    AppendLast(RecordsOf(ix, b), r);
    assert InOrder(Remember(ix, r)).byBucket == Remember(InOrder(ix), r).byBucket;
  }

  lemma FitsEmpty()
    ensures var none: seq<Record> := []; PositionsFit(none) && StableSort(ByIndex, none) == none
  {
  }

  lemma DecisionSpelledOut(ix: Index, r: Record)
    requires Appendable(ix, r)
    ensures KeyOf(r) !in ix.seen && r.index == |RecordsOf(ix, BucketOf(r))| && Usable(r)
    ensures r.index > 0 ==> DeclarationOf(RecordsOf(ix, BucketOf(r))[0]) == DeclarationOf(r)
  {
    var d: Request :| Admissible(d) && Decide(ix, d) == Write(r);
  }

  /** The step: for every file the loader accepts, duplicate keys and tied positions included, the file
      with one more appended record is accepted and reloads to exactly the index the running process
      holds after remembering it. */
  lemma ReloadAfterAppend(cfg: Config, lines: seq<Line>, r: Record)
    requires Load(cfg, lines).Ok? && Stamped(cfg, lines) && Appendable(Load(cfg, lines).value, r)
    ensures Load(cfg, lines + [Entry(r)]) == Ok(Remember(Load(cfg, lines).value, r))
    ensures Stamped(cfg, lines + [Entry(r)])
  {
    var more := lines + [Entry(r)];
    assert more[..|more| - 1] == lines;
    var ix := Scan(cfg, lines).value.index;
    ScanIsCoherent(cfg, lines);
    AddsInOrder(ix, r);
    StampedMore(cfg, lines, Entry(r));
    ScanStamp(cfg, lines);
    ScanStamp(cfg, more);
    hide InOrder, AllFit, Coherent, Appendable, Remember;
  }

  lemma StampedMore(cfg: Config, lines: seq<Line>, line: Line)
    requires Stamped(cfg, lines)
    ensures Stamped(cfg, lines + [line])
  {
    if i :| 0 <= i < |lines| && lines[i].Header? { assert (lines + [line])[i].Header?; }
  }

  /** What the loader does with one more record that an append decided on. */
  lemma AddsInOrder(ix: Index, r: Record)
    requires Coherent(ix) && AllFit(ix) && Appendable(InOrder(ix), r)
    ensures AddLoaded(ix, r) == Ok(Remember(ix, r))
    ensures InOrder(Remember(ix, r)) == Remember(InOrder(ix), r) && AllFit(Remember(ix, r))
  {
    DecisionSpelledOut(InOrder(ix), r);
    SameBucketSorted(ix, BucketOf(r));
    OrderThenRemember(ix, r);
    hide InOrder, AllFit, Coherent, Appendable, Usable;
  }

  /** Stamping the schedule on a file changes nothing else. */
  lemma ReloadAfterStamp(cfg: Config, lines: seq<Line>, schedule: string)
    requires Load(cfg, lines).Ok? && cfg.schedule == Some(schedule)
    ensures Load(cfg, lines + [Header(schedule)]) == Load(cfg, lines) && Stamped(cfg, lines + [Header(schedule)])
  {
    var more := lines + [Header(schedule)];
    assert more[..|more| - 1] == lines && more[|lines|].Header?;
  }

  /** One request over a live index: a refused one changes nothing. */
  function Apply(ix: Index, d: Request): Index {
    match Decide(ix, d)
    case Write(r) => Remember(ix, r)
    case _ => ix
  }

  /** The lines it adds to the file. */
  function LinesFor(ix: Index, d: Request): seq<Line> {
    match Decide(ix, d)
    case Write(r) => [Entry(r)]
    case _ => []
  }

  lemma ReloadAfterRequest(cfg: Config, lines: seq<Line>, d: Request)
    requires Load(cfg, lines).Ok? && Stamped(cfg, lines) && Admissible(d)
    ensures var ix := Load(cfg, lines).value;
      Load(cfg, lines + LinesFor(ix, d)) == Ok(Apply(ix, d)) && Stamped(cfg, lines + LinesFor(ix, d))
  {
    var ix := Load(cfg, lines).value;
    match Decide(ix, d) {
      case Write(r) =>
        assert Appendable(ix, r);
        ReloadAfterAppend(cfg, lines, r);
      case _ => assert lines + [] == lines;
    }
  }

  /** The index after a run of requests. */
  function After(ix: Index, requests: seq<Request>): Index {
    if |requests| == 0 then ix else Apply(After(ix, requests[..|requests| - 1]), requests[|requests| - 1])
  }

  /** The lines that run adds to the file. */
  function Written(ix: Index, requests: seq<Request>): seq<Line> {
    if |requests| == 0 then []
    else
      var front := requests[..|requests| - 1];
      Written(ix, front) + LinesFor(After(ix, front), requests[|requests| - 1])
  }

  /** Live equals restart, over every run of appends from every accepted file: the reloaded index, bucket
      order included, is the live one, and the file is accepted again. */
  lemma {:induction false} LiveEqualsRestart(cfg: Config, lines: seq<Line>, requests: seq<Request>)
    requires Load(cfg, lines).Ok? && Stamped(cfg, lines) && forall i :: 0 <= i < |requests| ==> Admissible(requests[i])
    ensures var ix := Load(cfg, lines).value;
      && Load(cfg, lines + Written(ix, requests)) == Ok(After(ix, requests))
      && Stamped(cfg, lines + Written(ix, requests))
    decreases |requests|
  {
    hide Load, Stamped, Apply, LinesFor, Admissible;
    var ix := Load(cfg, lines).value;
    if |requests| == 0 {
      assert lines + [] == lines;
    } else {
      var front, d := requests[..|requests| - 1], requests[|requests| - 1];
      LiveEqualsRestart(cfg, lines, front);
      ReloadAfterRequest(cfg, lines + Written(ix, front), d);
      assert lines + (Written(ix, front) + LinesFor(After(ix, front), d)) == lines + Written(ix, front)
          + LinesFor(After(ix, front), d);
    }
  }

  // ---- what a remembered record keeps --------------------------------------------------------------

  /** r is where its own index says, so a leaf index handed to a member keeps naming that member. */
  predicate AtItsIndex(ix: Index, r: Record) {
    && KeyOf(r) in ix.seen
    && 0 <= r.index < |RecordsOf(ix, BucketOf(r))| && RecordsOf(ix, BucketOf(r))[r.index] == r
  }

  /** Every record sits at the position it carries, as in a log no file repair ever touched. */
  ghost predicate Placed(ix: Index) {
    forall b {:trigger ix.byBucket[b]} :: b in ix.byBucket ==> forall i :: 0 <= i < |ix.byBucket[b]| ==>
        ix.byBucket[b][i].index == i
  }

  lemma RememberKeepsPlaced(ix: Index, r: Record)
    requires Placed(ix) && Appendable(ix, r)
    ensures Placed(Remember(ix, r))
  {
    DecisionSpelledOut(ix, r);
  }

  predicate HasEngine(ix: Index, season: int, engine: string) {
    exists b | b in ix.byBucket :: b.season == season && |ix.byBucket[b]| > 0
        && DeclarationOf(ix.byBucket[b][0]).engine == engine
  }

  lemma RememberPlaces(ix: Index, r: Record, x: Record)
    requires Appendable(ix, r)
    ensures AtItsIndex(Remember(ix, r), r)
    ensures AtItsIndex(ix, x) ==> AtItsIndex(Remember(ix, r), x)
  {
    DecisionSpelledOut(ix, r);
  }

  /** While a record is in the index, the engine it was registered under is reported for its season. */
  lemma EngineIsReported(ix: Index, r: Record)
    requires Coherent(ix) && AtItsIndex(ix, r)
    ensures HasEngine(ix, r.season, DeclarationOf(r).engine)
  {
    var b := BucketOf(r);
    assert BucketOk(b, ix.byBucket[b]);
  }

  lemma RememberCoherent(ix: Index, r: Record)
    requires Coherent(ix) && Appendable(ix, r)
    ensures Coherent(Remember(ix, r))
  {
    DecisionSpelledOut(ix, r);
    RememberKeeps(ix, r);
  }
}

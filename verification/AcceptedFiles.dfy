/**
  Which files the registration log accepts, and what it makes of them (core/registration_store.js, the load), said
  of the file's lines alone: every refusal has its own reason, and the index holds the last copy of every
  registration, in the order of the recorded positions.
 */
module AcceptedFiles {
  import opened FieldElements
  import opened LogFile
  import opened RegistrationLog
  import opened Sorting
  import opened Lists
  import opened Wrappers

  // ---- the lines -----------------------------------------------------------------------------------------

  /** Line i is a record with this key. */
  predicate KeyAt(lines: seq<Line>, i: int, k: Key) {
    0 <= i < |lines| && lines[i].Entry? && KeyOf(lines[i].record) == k
  }

  /** Line i is a record of this season and context. */
  predicate MemberAt(lines: seq<Line>, i: int, b: Bucket) {
    0 <= i < |lines| && lines[i].Entry? && BucketOf(lines[i].record) == b
  }

  /** Line i is a record, and no later line has its key. */
  predicate LastAt(lines: seq<Line>, i: int) {
    && 0 <= i < |lines| && lines[i].Entry?
    && forall j :: i < j < |lines| ==> !KeyAt(lines, j, KeyOf(lines[i].record))
  }

  /** r is the last copy of its registration. */
  predicate Latest(lines: seq<Line>, r: Record) {
    exists i :: 0 <= i < |lines| && lines[i] == Entry(r) && LastAt(lines, i)
  }

  /** The one key is met before the other. */
  predicate MetBefore(lines: seq<Line>, k: Key, l: Key) {
    exists i :: 0 <= i < |lines| && KeyAt(lines, i, k) && forall j :: 0 <= j < |lines| && KeyAt(lines, j, l) ==> i < j
  }

  function Keys(lines: seq<Line>): set<Key> {
    set i | 0 <= i < |lines| && lines[i].Entry? :: KeyOf(lines[i].record)
  }

  /** The registrations of one season and context. */
  function KeysOf(lines: seq<Line>, b: Bucket): set<Key> {
    set k | k in Keys(lines) && Bucket(k.season, k.contextHash) == b
  }

  // ---- what the loader requires of them ---------------------------------------------------------------------

  /** The three field elements are spelled canonically, the numbers are not negative, and the declaration is one of the
      four there are or, as in the oldest records, absent. */
  predicate WellFormed(r: Record) {
    && r.season >= 0 && r.index >= 0
    && IsCanonicalField(r.contextHash) && IsCanonicalField(r.regNullifier) && IsCanonicalField(r.commitment)
    && (r.engine, r.statement) in {(None, None), (Some("groth16"), Some("derive")), (Some("plonk"), Some("derive")),
                                   (Some("zkvm"), Some("derive")), (Some("zkvm"), Some("custody"))}
  }

  predicate AllWellFormed(lines: seq<Line>) {
    forall i | 0 <= i < |lines| :: lines[i].Entry? ==> WellFormed(lines[i].record)
  }

  /** Two copies of a registration differ in nothing but the position they were given. */
  predicate CopiesAgree(lines: seq<Line>) {
    forall i, j | 0 <= i < j < |lines| ::
      lines[j].Entry? && KeyAt(lines, i, KeyOf(lines[j].record))
      ==> lines[i].record == lines[j].record.(index := lines[i].record.index)
  }

  /** What a record declares: without the fields, plonk and derive. */
  function Declares(r: Record): Declaration {
    if r.engine.Some? && r.statement.Some? then Declaration(r.engine.value, r.statement.value)
    else Declaration("plonk", "derive")
  }

  /** A season and context registers under one engine and statement. */
  predicate DeclaredOnce(lines: seq<Line>) {
    forall i, j | 0 <= i < j < |lines| ::
      lines[j].Entry? && MemberAt(lines, i, BucketOf(lines[j].record))
      ==> Declares(lines[i].record) == Declares(lines[j].record)
  }

  // The same as the loader asks them.

  predicate AllUsable(lines: seq<Line>) {
    forall i :: 0 <= i < |lines| && lines[i].Entry? ==> Usable(lines[i].record)
  }

  predicate NoContradiction(lines: seq<Line>) {
    forall i, j | 0 <= i < j < |lines| ::
      lines[j].Entry? && KeyAt(lines, i, KeyOf(lines[j].record))
      ==> SameRegistration(lines[i].record, lines[j].record)
  }

  predicate OneDeclaration(lines: seq<Line>) {
    forall i, j | 0 <= i < j < |lines| ::
      lines[j].Entry? && MemberAt(lines, i, BucketOf(lines[j].record))
      ==> DeclarationOf(lines[i].record) == DeclarationOf(lines[j].record)
  }

  lemma UsableIsWellFormed(r: Record)
    ensures Usable(r) <==> WellFormed(r)
  {
    hide IsCanonicalField;
  }

  lemma SameIsCopy(a: Record, b: Record)
    requires WellFormed(a) && WellFormed(b) && KeyOf(a) == KeyOf(b)
    ensures SameRegistration(a, b) <==> a == b.(index := a.index)
  {
    hide IsCanonicalField;
  }

  lemma DeclaresIsDeclaration(r: Record)
    requires WellFormed(r)
    ensures DeclarationOf(r) == Declares(r)
  {
    hide IsCanonicalField;
  }

  lemma AllUsableIsAllWellFormed(lines: seq<Line>)
    ensures AllUsable(lines) <==> AllWellFormed(lines)
  {
    hide Usable, WellFormed;
    forall i | 0 <= i < |lines| && lines[i].Entry? ensures Usable(lines[i].record) <==> WellFormed(lines[i].record) {
      UsableIsWellFormed(lines[i].record);
    }
  }

  lemma AskedAsSaid(lines: seq<Line>)
    requires AllWellFormed(lines)
    ensures NoContradiction(lines) <==> CopiesAgree(lines)
    ensures OneDeclaration(lines) <==> DeclaredOnce(lines)
  {
    hide WellFormed, SameRegistration, Declares, DeclarationOf;
    forall i, j | 0 <= i < j < |lines| && lines[j].Entry? && KeyAt(lines, i, KeyOf(lines[j].record))
      ensures SameRegistration(lines[i].record, lines[j].record)
         <==> lines[i].record == lines[j].record.(index := lines[i].record.index)
    {
      SameIsCopy(lines[i].record, lines[j].record);
    }
    forall i | 0 <= i < |lines| && lines[i].Entry? ensures DeclarationOf(lines[i].record) == Declares(lines[i].record) {
      DeclaresIsDeclaration(lines[i].record);
    }
  }

  predicate Readable(cfg: Config, lines: seq<Line>) {
    forall i :: 0 <= i < |lines| ==>
        && !lines[i].Garbled?
        && (lines[i].Header? && cfg.schedule.Some? ==> lines[i].schedule == cfg.schedule.value)
  }

  /** Records under a schedule say which, unless that is assumed. */
  predicate Attributed(cfg: Config, lines: seq<Line>) {
    cfg.schedule.None? || cfg.assumeSchedule || Headed(lines) || Keys(lines) == {}
  }

  /** No recorded position is past the number of registrations of its season and context. */
  predicate NoGap(lines: seq<Line>) {
    forall i | 0 <= i < |lines| ::
      LastAt(lines, i) ==> lines[i].record.index <= |KeysOf(lines, BucketOf(lines[i].record))|
  }

  // ---- what a scan holds --------------------------------------------------------------------------------------

  /** The buckets are the last copies, each bucket in the order its registrations were first met. */
  ghost predicate Holds(lines: seq<Line>, ix: Index) {
    && ix.seen == Keys(lines)
    && (forall b, r {:trigger r in RecordsOf(ix, b)} ::
          r in RecordsOf(ix, b) <==> BucketOf(r) == b && Latest(lines, r))
    && (forall b, p, q {:trigger RecordsOf(ix, b)[p], RecordsOf(ix, b)[q]} :: 0 <= p < q < |RecordsOf(ix, b)| ==>
          MetBefore(lines, KeyOf(RecordsOf(ix, b)[p]), KeyOf(RecordsOf(ix, b)[q])))
  }

  lemma LineOf(lines: seq<Line>, line: Line)
    ensures var more := lines + [line];
      && more[|lines|] == line && (forall i :: 0 <= i < |lines| ==> more[i] == lines[i])
      && Keys(more) == Keys(lines) + if line.Entry? then {KeyOf(line.record)} else {}
  {
    var more := lines + [line];
    forall k | k in Keys(lines) ensures k in Keys(more) {
      var i :| 0 <= i < |lines| && lines[i].Entry? && KeyOf(lines[i].record) == k;
      assert more[i] == lines[i];
    }
    if line.Entry? { assert more[|lines|] == line; }
  }

  /** Latest, one line on. */
  lemma LatestOf(lines: seq<Line>, line: Line, x: Record)
    ensures Latest(lines + [line], x)
       <==> (line == Entry(x) || (Latest(lines, x) && !(line.Entry? && KeyOf(line.record) == KeyOf(x))))
  {
    var more := lines + [line];
    LineOf(lines, line);
    if Latest(more, x) {
      var i :| 0 <= i < |more| && more[i] == Entry(x) && LastAt(more, i);
      if i < |lines| {
        assert !KeyAt(more, |lines|, KeyOf(x));
        assert forall j :: i < j < |lines| ==> KeyAt(more, j, KeyOf(x)) == KeyAt(lines, j, KeyOf(x));
        assert LastAt(lines, i);
      }
    }
    if line == Entry(x) { assert LastAt(more, |lines|); }
    if Latest(lines, x) && !(line.Entry? && KeyOf(line.record) == KeyOf(x)) {
      var i :| 0 <= i < |lines| && lines[i] == Entry(x) && LastAt(lines, i);
      forall j | i < j < |more| ensures !KeyAt(more, j, KeyOf(x)) {
        if j < |lines| { assert !KeyAt(lines, j, KeyOf(x)); }
      }
      assert LastAt(more, i) && more[i] == Entry(x);
    }
  }

  lemma MetBeforeMore(lines: seq<Line>, line: Line, k: Key, l: Key)
    requires MetBefore(lines, k, l)
    ensures MetBefore(lines + [line], k, l)
  {
    var i :| 0 <= i < |lines| && KeyAt(lines, i, k) && forall j :: 0 <= j < |lines| && KeyAt(lines, j, l) ==> i < j;
    var more := lines + [line];
    assert KeyAt(more, i, k);
    forall j | 0 <= j < |more| && KeyAt(more, j, l) ensures i < j {
      if j < |lines| { assert KeyAt(lines, j, l); }
    }
  }

  lemma NotMet(lines: seq<Line>, k: Key)
    requires k !in Keys(lines)
    ensures forall j :: !KeyAt(lines, j, k)
  {
  }

  /** A key is met before one that was not met at all. */
  lemma MetBeforeNew(lines: seq<Line>, line: Line, k: Key, l: Key)
    requires k in Keys(lines) && l !in Keys(lines)
    ensures MetBefore(lines + [line], k, l)
  {
    var more := lines + [line];
    var i :| 0 <= i < |lines| && lines[i].Entry? && KeyOf(lines[i].record) == k;
    assert KeyAt(more, i, k);
    NotMet(lines, l);
    assert forall j :: 0 <= j < |lines| ==> KeyAt(more, j, l) == KeyAt(lines, j, l);
  }

  lemma LatestIsMet(lines: seq<Line>, r: Record)
    requires Latest(lines, r)
    ensures KeyOf(r) in Keys(lines)
  {
  }

  /** What two scans of the order of one bucket agree on. */
  ghost predicate Ordered(lines: seq<Line>, s: seq<Record>) {
    forall p, q :: 0 <= p < q < |s| ==> MetBefore(lines, KeyOf(s[p]), KeyOf(s[q]))
  }

  lemma OrderedMore(lines: seq<Line>, line: Line, s: seq<Record>)
    requires Ordered(lines, s)
    ensures Ordered(lines + [line], s)
  {
    forall p, q | 0 <= p < q < |s| ensures MetBefore(lines + [line], KeyOf(s[p]), KeyOf(s[q])) {
      MetBeforeMore(lines, line, KeyOf(s[p]), KeyOf(s[q]));
    }
  }

  lemma HeldOrder(lines: seq<Line>, ix: Index, b: Bucket)
    requires Holds(lines, ix)
    ensures Ordered(lines, RecordsOf(ix, b))
  {
  }

  lemma HoldsOther(lines: seq<Line>, line: Line, ix: Index)
    requires Holds(lines, ix) && !line.Entry?
    ensures Holds(lines + [line], ix)
  {
    LineOf(lines, line);
    forall r: Record { LatestOf(lines, line, r); }
    forall b ensures Ordered(lines + [line], RecordsOf(ix, b)) {
      HeldOrder(lines, ix, b);
      OrderedMore(lines, line, RecordsOf(ix, b));
    }
    hide Latest, MetBefore, RecordsOf, Keys;
  }

  lemma RememberedBucket(lines: seq<Line>, ix: Index, r: Record)
    requires Holds(lines, ix) && KeyOf(r) !in ix.seen
    ensures var s := RecordsOf(ix, BucketOf(r)); Ordered(lines + [Entry(r)], s + [r])
  {
    var s := RecordsOf(ix, BucketOf(r));
    HeldOrder(lines, ix, BucketOf(r));
    OrderedMore(lines, Entry(r), s);
    forall p | 0 <= p < |s| ensures MetBefore(lines + [Entry(r)], KeyOf(s[p]), KeyOf(r)) {
      assert s[p] in s;
      LatestIsMet(lines, s[p]);
      MetBeforeNew(lines, Entry(r), KeyOf(s[p]), KeyOf(r));
    }
  }

  lemma HoldsRemember(lines: seq<Line>, ix: Index, r: Record)
    requires Holds(lines, ix) && KeyOf(r) !in ix.seen
    ensures Holds(lines + [Entry(r)], Remember(ix, r))
  {
    var more, ix' := lines + [Entry(r)], Remember(ix, r);
    LineOf(lines, Entry(r));
    RememberedBucket(lines, ix, r);
    forall b ensures Ordered(more, RecordsOf(ix', b)) {
      HeldOrder(lines, ix, b);
      OrderedMore(lines, Entry(r), RecordsOf(ix, b));
    }
    forall b, x ensures x in RecordsOf(ix', b) <==> BucketOf(x) == b && Latest(more, x) {
      LatestOf(lines, Entry(r), x);
      RememberedMembers(ix, r, b, x);
      if Latest(lines, x) { LatestIsMet(lines, x); }
    }
    hide Latest, MetBefore, Keys, RecordsOf;
  }

  lemma RememberedMembers(ix: Index, r: Record, b: Bucket, x: Record)
    ensures x in RecordsOf(Remember(ix, r), b) <==> x in RecordsOf(ix, b) || (x == r && b == BucketOf(r))
  {
  }

  lemma ReplacedMembers(s: seq<Record>, r: Record, at: nat, x: Record)
    requires at < |s| && KeyOf(s[at]) == KeyOf(r)
    requires forall i, j :: 0 <= i < j < |s| ==> KeyOf(s[i]) != KeyOf(s[j])
    ensures x in s[at := r] <==> x == r || (x in s && KeyOf(x) != KeyOf(r))
  {
    if x == r { assert s[at := r][at] == r; }
    if x in s && KeyOf(x) != KeyOf(r) {
      var i :| 0 <= i < |s| && s[i] == x;
      assert s[at := r][i] == x;
    }
  }

  lemma HoldsReplace(lines: seq<Line>, ix: Index, r: Record, at: nat)
    requires Holds(lines, ix) && Coherent(ix) && BucketOf(r) in ix.byBucket && at < |ix.byBucket[BucketOf(r)]|
    requires KeyOf(ix.byBucket[BucketOf(r)][at]) == KeyOf(r)
    ensures Holds(lines + [Entry(r)], Replace(ix, BucketOf(r), at, r))
  {
    hide Latest, MetBefore, Keys, Coherent;
    var more, ix', s := lines + [Entry(r)], Replace(ix, BucketOf(r), at, r), ix.byBucket[BucketOf(r)];
    KeysApart(ix, BucketOf(r), at);
    LineOf(lines, Entry(r));
    forall b ensures Ordered(more, RecordsOf(ix', b)) {
      HeldOrder(lines, ix, b);
      OrderedMore(lines, Entry(r), RecordsOf(ix, b));
      if b == BucketOf(r) { SameOrder(more, s, s[at := r]); }
    }
    forall b, x ensures x in RecordsOf(ix', b) <==> BucketOf(x) == b && Latest(more, x) {
      LatestOf(lines, Entry(r), x);
      ReplacedMembers(s, r, at, x);
      assert x in RecordsOf(ix, b) <==> BucketOf(x) == b && Latest(lines, x);
    }
  }

  lemma KeysApart(ix: Index, b: Bucket, at: nat)
    requires Coherent(ix) && b in ix.byBucket && at < |ix.byBucket[b]|
    ensures forall i, j :: 0 <= i < j < |ix.byBucket[b]| ==> KeyOf(ix.byBucket[b][i]) != KeyOf(ix.byBucket[b][j])
    ensures KeyOf(ix.byBucket[b][at]) in ix.seen
  {
    assert BucketOk(b, ix.byBucket[b]);
  }

  lemma SameOrder(lines: seq<Line>, s: seq<Record>, t: seq<Record>)
    requires Ordered(lines, s) && |t| == |s| && forall i :: 0 <= i < |s| ==> KeyOf(t[i]) == KeyOf(s[i])
    ensures Ordered(lines, t)
  {
    hide MetBefore;
  }

  // ---- one more line ---------------------------------------------------------------------------------------

  /** All that a scan requires. */
  predicate Scannable(cfg: Config, lines: seq<Line>) {
    Readable(cfg, lines) && AllUsable(lines) && NoContradiction(lines) && OneDeclaration(lines)
  }

  predicate AgreesWithCopies(lines: seq<Line>, r: Record) {
    forall i | 0 <= i < |lines| :: KeyAt(lines, i, KeyOf(r)) ==> SameRegistration(lines[i].record, r)
  }

  predicate DeclaresWithPeers(lines: seq<Line>, r: Record) {
    forall i | 0 <= i < |lines| ::
      MemberAt(lines, i, BucketOf(r)) ==> DeclarationOf(lines[i].record) == DeclarationOf(r)
  }

  predicate FitsWith(lines: seq<Line>, r: Record) {
    && Usable(r)
    && AgreesWithCopies(lines, r) && DeclaresWithPeers(lines, r)
  }

  lemma ScannableMore(cfg: Config, lines: seq<Line>, line: Line)
    ensures Scannable(cfg, lines + [line])
       <==> Scannable(cfg, lines) && !line.Garbled?
            && (line.Header? && cfg.schedule.Some? ==> line.schedule == cfg.schedule.value)
            && (line.Entry? ==> FitsWith(lines, line.record))
  {
    hide Readable, AllUsable, NoContradiction, OneDeclaration, Usable, AgreesWithCopies, DeclaresWithPeers;
    ReadableMore(cfg, lines, line);
    UsableMore(lines, line);
    ContradictionMore(lines, line);
    DeclarationMore(lines, line);
  }

  lemma ReadableMore(cfg: Config, lines: seq<Line>, line: Line)
    ensures Readable(cfg, lines + [line])
       <==> Readable(cfg, lines) && !line.Garbled?
            && (line.Header? && cfg.schedule.Some? ==> line.schedule == cfg.schedule.value)
  {
    var more := lines + [line];
    assert more[|lines|] == line && forall i :: 0 <= i < |lines| ==> more[i] == lines[i];
  }

  lemma UsableMore(lines: seq<Line>, line: Line)
    ensures AllUsable(lines + [line]) <==> AllUsable(lines) && (line.Entry? ==> Usable(line.record))
  {
    hide Usable;
    var more := lines + [line];
    assert more[|lines|] == line && forall i :: 0 <= i < |lines| ==> more[i] == lines[i];
  }

  lemma ContradictionMore(lines: seq<Line>, line: Line)
    ensures NoContradiction(lines + [line])
       <==> NoContradiction(lines) && (line.Entry? ==> AgreesWithCopies(lines, line.record))
  {
    hide SameRegistration;
    var more := lines + [line];
    assert more[|lines|] == line && forall i :: 0 <= i < |lines| ==> more[i] == lines[i];
    assert forall i, k :: 0 <= i < |lines| ==> KeyAt(more, i, k) == KeyAt(lines, i, k);
  }

  lemma DeclarationMore(lines: seq<Line>, line: Line)
    ensures OneDeclaration(lines + [line])
       <==> OneDeclaration(lines) && (line.Entry? ==> DeclaresWithPeers(lines, line.record))
  {
    hide DeclarationOf;
    var more := lines + [line];
    assert more[|lines|] == line && forall i :: 0 <= i < |lines| ==> more[i] == lines[i];
    assert forall i, b :: 0 <= i < |lines| ==> MemberAt(more, i, b) == MemberAt(lines, i, b);
  }

  /** The copy a bucket holds speaks for every copy, and its first record for all of it. */
  lemma AddsExactlyWhen(cfg: Config, lines: seq<Line>, ix: Index, r: Record)
    requires Scannable(cfg, lines) && Holds(lines, ix) && Coherent(ix)
    ensures AddLoaded(ix, r).Ok? <==> FitsWith(lines, r)
  {
    var s := RecordsOf(ix, BucketOf(r));
    if KeyOf(r) in ix.seen {
      var at := FindKey(s, KeyOf(r));
      HeldCopy(lines, ix, r);
      if Usable(r) && SameRegistration(s[at], r) { SameFits(cfg, lines, r, s[at]); }
    } else {
      NewFits(cfg, lines, ix, r);
    }
  }

  lemma HeldCopy(lines: seq<Line>, ix: Index, r: Record)
    requires Holds(lines, ix) && Coherent(ix) && KeyOf(r) in ix.seen
    ensures var s := RecordsOf(ix, BucketOf(r));
      var at := FindKey(s, KeyOf(r));
      at < |s| && exists i :: 0 <= i < |lines| && lines[i] == Entry(s[at])
  {
    var s := RecordsOf(ix, BucketOf(r));
    assert SeenIsFound(ix);
    assert s[FindKey(s, KeyOf(r))] in s;
  }

  lemma SameFits(cfg: Config, lines: seq<Line>, r: Record, x: Record)
    requires Scannable(cfg, lines) && Usable(r) && SameRegistration(x, r)
    requires exists i :: 0 <= i < |lines| && lines[i] == Entry(x)
    ensures FitsWith(lines, r)
  {
    var k :| 0 <= k < |lines| && lines[k] == Entry(x);
    assert Usable(lines[k].record);
    SameDeclared(x, r);
    forall i | 0 <= i < |lines| && KeyAt(lines, i, KeyOf(r)) ensures SameRegistration(lines[i].record, r) {
      assert KeyAt(lines, k, KeyOf(lines[i].record));
      if i < k { assert SameRegistration(lines[i].record, lines[k].record); }
      if k < i { assert SameRegistration(lines[k].record, lines[i].record); }
    }
    forall i | 0 <= i < |lines| && MemberAt(lines, i, BucketOf(r))
      ensures DeclarationOf(lines[i].record) == DeclarationOf(r) {
      assert MemberAt(lines, k, BucketOf(lines[i].record));
      if i < k { assert DeclarationOf(lines[i].record) == DeclarationOf(lines[k].record); }
      if k < i { assert DeclarationOf(lines[k].record) == DeclarationOf(lines[i].record); }
    }
  }

  lemma SameDeclared(a: Record, b: Record)
    requires Usable(a) && Usable(b) && SameRegistration(a, b)
    ensures BucketOf(a) == BucketOf(b) && DeclarationOf(a) == DeclarationOf(b)
  {
  }

  lemma NewFits(cfg: Config, lines: seq<Line>, ix: Index, r: Record)
    requires Scannable(cfg, lines) && Holds(lines, ix) && KeyOf(r) !in ix.seen
    ensures var s := RecordsOf(ix, BucketOf(r));
      FitsWith(lines, r) <==> Usable(r) && (|s| > 0 ==> DeclarationOf(s[0]) == DeclarationOf(r))
  {
    var s := RecordsOf(ix, BucketOf(r));
    assert forall i :: 0 <= i < |lines| && lines[i].Entry? ==> KeyOf(lines[i].record) in Keys(lines);
    if |s| > 0 {
      assert s[0] in s;
      var k :| 0 <= k < |lines| && lines[k] == Entry(s[0]);
      assert BucketOf(lines[k].record) == BucketOf(r);
    } else {
      forall i | 0 <= i < |lines| && lines[i].Entry? ensures BucketOf(lines[i].record) != BucketOf(r) {
        var x := LastCopy(lines, i);
        assert x !in s;
      }
    }
    hide Usable, SameRegistration, DeclarationOf, Latest, MetBefore;
  }

  /** Every record line has a last copy. */
  lemma {:induction false} LastCopy(lines: seq<Line>, i: nat) returns (x: Record)
    requires i < |lines| && lines[i].Entry?
    ensures KeyOf(x) == KeyOf(lines[i].record) && Latest(lines, x)
  {
    var front, last := lines[..|lines| - 1], lines[|lines| - 1];
    assert lines == front + [last];
    if last.Entry? && KeyOf(last.record) == KeyOf(lines[i].record) {
      x := last.record;
    } else {
      x := LastCopy(front, i);
    }
    LatestOf(front, last, x);
  }

  /** A scan gets through exactly the lines it should, and holds exactly what they say. */
  lemma {:induction false} ScansExactlyWhen(cfg: Config, lines: seq<Line>)
    ensures Scan(cfg, lines).Ok? <==> Scannable(cfg, lines)
    ensures Scan(cfg, lines).Ok? ==> Holds(lines, Scan(cfg, lines).value.index)
  {
    if |lines| > 0 {
      var front, last := lines[..|lines| - 1], lines[|lines| - 1];
      assert lines == front + [last];
      ScansExactlyWhen(cfg, front);
      ScannableMore(cfg, front, last);
      hide Scannable, Holds, FitsWith, AddLoaded, Coherent;
      if Scan(cfg, front).Ok? {
        var ix := Scan(cfg, front).value.index;
        ScanIsCoherent(cfg, front);
        if last.Entry? {
          AddsExactlyWhen(cfg, front, ix, last.record);
          if AddLoaded(ix, last.record).Ok? { HoldsAdded(front, ix, last.record); }
        } else {
          HoldsOther(front, last, ix);
        }
      }
    }
  }

  lemma HoldsAdded(lines: seq<Line>, ix: Index, r: Record)
    requires Holds(lines, ix) && Coherent(ix) && AddLoaded(ix, r).Ok?
    ensures Holds(lines + [Entry(r)], AddLoaded(ix, r).value)
  {
    hide Holds, Usable, DeclarationOf;
    if KeyOf(r) in ix.seen {
      HoldsReplace(lines, ix, r, FindKey(RecordsOf(ix, BucketOf(r)), KeyOf(r)));
    } else {
      HoldsRemember(lines, ix, r);
    }
  }

  // ---- the load -----------------------------------------------------------------------------------------

  lemma {:induction false} KeySetSize(s: seq<Record>)
    requires forall i, j :: 0 <= i < j < |s| ==> KeyOf(s[i]) != KeyOf(s[j])
    ensures |set i | 0 <= i < |s| :: KeyOf(s[i])| == |s|
  {
    if |s| > 0 {
      var front, r := s[..|s| - 1], s[|s| - 1];
      KeySetSize(front);
      var keys := set i | 0 <= i < |front| :: KeyOf(front[i]);
      assert (set i | 0 <= i < |s| :: KeyOf(s[i])) == keys + {KeyOf(r)} by {
        forall k | k in keys ensures k in set i | 0 <= i < |s| :: KeyOf(s[i]) {
          var i :| 0 <= i < |front| && KeyOf(front[i]) == k;
          assert s[i] == front[i];
        }
      }
      assert KeyOf(r) !in keys;
    }
  }

  /** A bucket has one record for each registration. */
  lemma BucketSize(lines: seq<Line>, ix: Index, b: Bucket)
    requires Holds(lines, ix) && Coherent(ix)
    ensures |RecordsOf(ix, b)| == |KeysOf(lines, b)|
  {
    var s := RecordsOf(ix, b);
    if b in ix.byBucket { assert BucketOk(b, ix.byBucket[b]); }
    KeySetSize(s);
    assert (set i | 0 <= i < |s| :: KeyOf(s[i])) == KeysOf(lines, b) by {
      forall i | 0 <= i < |s| ensures KeyOf(s[i]) in KeysOf(lines, b) {
        assert s[i] in s;
        LatestIsMet(lines, s[i]);
      }
      forall k | k in KeysOf(lines, b) ensures exists i :: 0 <= i < |s| && KeyOf(s[i]) == k {
        var i :| 0 <= i < |lines| && lines[i].Entry? && KeyOf(lines[i].record) == k;
        var x := LastCopy(lines, i);
        assert x in s;
      }
    }
  }

  lemma FitsExactlyWhen(lines: seq<Line>, ix: Index)
    requires Holds(lines, ix) && Coherent(ix)
    ensures AllFit(ix) <==> NoGap(lines)
  {
    forall b { BucketSize(lines, ix, b); }
    if AllFit(ix) {
      forall i | LastAt(lines, i) ensures lines[i].record.index <= |KeysOf(lines, BucketOf(lines[i].record))| {
        var r := lines[i].record;
        assert Latest(lines, r);
        assert r in RecordsOf(ix, BucketOf(r));
      }
    }
    if NoGap(lines) {
      forall b, r | b in ix.byBucket && r in ix.byBucket[b] ensures r.index <= |ix.byBucket[b]| {
        assert r in RecordsOf(ix, b);
        var i :| 0 <= i < |lines| && lines[i] == Entry(r) && LastAt(lines, i);
      }
    }
  }

  /** A file is accepted exactly when every line can be read, every header names the configured schedule and there is
      one if records need it, every record is well formed, copies of a registration agree, a season and context has
      one declaration, and no position leaves a gap. */
  lemma AcceptsExactlyWhen(cfg: Config, lines: seq<Line>)
    ensures Load(cfg, lines).Ok?
       <==> Readable(cfg, lines) && AllWellFormed(lines) && CopiesAgree(lines) && DeclaredOnce(lines)
            && Attributed(cfg, lines) && NoGap(lines)
  {
    hide Scan, AllFit, NoGap, Coherent, Readable, AllUsable, NoContradiction, OneDeclaration, AllWellFormed,
      CopiesAgree, DeclaredOnce;
    AllUsableIsAllWellFormed(lines);
    if AllWellFormed(lines) { AskedAsSaid(lines); }
    ScansExactlyWhen(cfg, lines);
    if Scan(cfg, lines).Ok? {
      ScanStamp(cfg, lines);
      ScanIsCoherent(cfg, lines);
      FitsExactlyWhen(lines, Scan(cfg, lines).value.index);
    }
  }

  /** Among equals the one that came first stays first. */
  lemma {:induction false} StableOrder(lines: seq<Line>, s: seq<Record>)
    requires Ordered(lines, s)
    ensures forall p, q :: 0 <= p < q < |s| && StableSort(ByIndex, s)[q].index <= StableSort(ByIndex, s)[p].index ==>
      MetBefore(lines, KeyOf(StableSort(ByIndex, s)[p]), KeyOf(StableSort(ByIndex, s)[q]))
  {
    if |s| > 0 {
      var rest := StableSort(ByIndex, s[1..]);
      StableOrder(lines, s[1..]);
      SortPermutes(ByIndex, s[1..]);
      SameMembers(s[1..], rest);
      forall i | 0 <= i < |rest| ensures MetBefore(lines, KeyOf(s[0]), KeyOf(rest[i])) {
        assert rest[i] in s[1..];
        var j :| 0 <= j < |s[1..]| && s[1..][j] == rest[i];
        assert s[1..][j] == s[j + 1];
      }
      StableInsert(lines, s[0], rest);
    }
  }

  ghost predicate TiesKept(lines: seq<Line>, s: seq<Record>) {
    forall p, q :: 0 <= p < q < |s| && s[q].index <= s[p].index ==> MetBefore(lines, KeyOf(s[p]), KeyOf(s[q]))
  }

  lemma {:induction false} StableInsert(lines: seq<Line>, x: Record, s: seq<Record>)
    requires TiesKept(lines, s) && forall i :: 0 <= i < |s| ==> MetBefore(lines, KeyOf(x), KeyOf(s[i]))
    ensures TiesKept(lines, Insert(ByIndex, x, s))
    ensures forall i :: 0 <= i < |s| + 1 ==> Insert(ByIndex, x, s)[i] == x || Insert(ByIndex, x, s)[i] in s
  {
    hide MetBefore;
    if |s| > 0 && !ByIndex(x, s[0]) {
      StableInsert(lines, x, s[1..]);
      var rest := Insert(ByIndex, x, s[1..]);
      forall q | 0 <= q < |rest| && rest[q].index <= s[0].index ensures MetBefore(lines, KeyOf(s[0]), KeyOf(rest[q])) {
        if rest[q] in s[1..] {
          var j :| 0 <= j < |s[1..]| && s[1..][j] == rest[q];
          assert s[j + 1] == rest[q];
        }
      }
    }
  }

  /** And what it is accepted as: every registration once, as its last copy, in the bucket of its season and context;
      each bucket in the order of the recorded positions, and where those tie in the order first met. */
  lemma AcceptedAs(cfg: Config, lines: seq<Line>, b: Bucket)
    requires Load(cfg, lines).Ok?
    ensures var ix := Load(cfg, lines).value;
      var s := RecordsOf(ix, b);
      && ix.seen == Keys(lines)
      && |s| == |KeysOf(lines, b)|
      && (forall r :: r in s <==> BucketOf(r) == b && Latest(lines, r))
      && (forall p, q :: 0 <= p < q < |s| ==>
            s[p].index <= s[q].index
            && (s[p].index == s[q].index ==> MetBefore(lines, KeyOf(s[p]), KeyOf(s[q]))))
  {
    ScansExactlyWhen(cfg, lines);
    ScanIsCoherent(cfg, lines);
    var scanned := Scan(cfg, lines).value.index;
    hide Scan, Coherent, Holds, AllFit;
    BucketSize(lines, scanned, b);
    InOrderBucket(lines, scanned, b);
  }

  lemma InOrderBucket(lines: seq<Line>, ix: Index, b: Bucket)
    requires Holds(lines, ix)
    ensures var s := RecordsOf(InOrder(ix), b);
      && InOrder(ix).seen == Keys(lines) && |s| == |RecordsOf(ix, b)|
      && (forall r :: r in s <==> BucketOf(r) == b && Latest(lines, r))
      && SortedBy(ByIndex, s) && TiesKept(lines, s)
  {
    var before := RecordsOf(ix, b);
    HeldOrder(lines, ix, b);
    StableOrder(lines, before);
    SortPermutes(ByIndex, before);
    SameMembers(before, StableSort(ByIndex, before));
    ByIndexIsPreorder();
    SortSorts(ByIndex, before);
    hide MetBefore, Latest, Keys;
  }
}

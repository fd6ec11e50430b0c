/**
  The registration log as bytes on a disk that can lose them. A file is its newline-terminated lines and
  a tail an interrupted write may leave; `ByteLe` is "this many bytes of that file". The durable file
  is always such a prefix of the visible one, and a power loss leaves something in between.
 */
module LogFile {
  import opened Wrappers
  import opened RegistrationLog

  /** Torn: a proper part of the line's text. Unended: all of it, but not its newline. */
  datatype Tail = Clean | Torn(line: Line) | Unended(line: Line)

  datatype File = File(lines: seq<Line>, tail: Tail)

  /** The lines a reader can make out; a torn tail is not one. */
  function Content(f: File): seq<Line> {
    if f.tail.Unended? then f.lines + [f.tail.line] else f.lines
  }

  predicate TailLe(a: Tail, b: Tail) {
    a == Clean || a == b || (a.Torn? && b == Unended(a.line))
  }

  predicate ByteLe(a: File, b: File) {
    && a.lines <= b.lines
    && if |a.lines| == |b.lines| then TailLe(a.tail, b.tail) else a.tail == Clean || a.tail.line == b.lines[|a.lines|]
  }

  lemma ByteLeTransitive(a: File, b: File, c: File)
    requires ByteLe(a, b) && ByteLe(b, c)
    ensures ByteLe(a, c)
  {
  }

  lemma ByteLeContent(a: File, b: File)
    requires ByteLe(a, b)
    ensures Content(a) <= Content(b)
  {
  }

  // ---- one line being written ----------------------------------------------------------------------

  datatype Landing = Nothing | Partly | NoNewline | Whole

  /** The file after some of a line's bytes have landed behind complete lines. */
  function Land(base: seq<Line>, line: Line, landing: Landing): File {
    match landing
    case Nothing => File(base, Clean)
    case Partly => File(base, Torn(line))
    case NoNewline => File(base, Unended(line))
    case Whole => File(base + [line], Clean)
  }

  /** A prefix of a file being written either stops inside the lines that were there before, or reads as
      those lines with or without the new one. */
  lemma PrefixOfLanding(x: File, base: seq<Line>, line: Line, landing: Landing)
    requires ByteLe(x, Land(base, line, landing))
    ensures ByteLe(x, File(base, Clean)) || Content(x) == base || Content(x) == base + [line]
  {
    if |x.lines| < |base| {
      assert Land(base, line, landing).lines[..|base|] == base;
    } else if |x.lines| == |base| {
      assert x.lines == base;
    } else {
      assert landing == Whole && x.lines == base + [line];
    }
  }

  // ---- records and headers -------------------------------------------------------------------------

  /** The record lines alone. */
  function Entries(lines: seq<Line>): seq<Line> {
    if |lines| == 0 then []
    else Entries(lines[..|lines| - 1]) + (if lines[|lines| - 1].Entry? then [lines[|lines| - 1]] else [])
  }

  lemma EntriesAppend(lines: seq<Line>, line: Line)
    ensures Entries(lines + [line]) == Entries(lines) + if line.Entry? then [line] else []
    ensures !line.Entry? ==> Entries(lines + [line]) == Entries(lines)
  {
    assert (lines + [line])[..|lines|] == lines;
  }

  lemma {:induction false} EntriesMonotone(a: seq<Line>, b: seq<Line>)
    requires a <= b
    ensures Entries(a) <= Entries(b)
    decreases |b|
  {
    if |a| < |b| {
      EntriesMonotone(a, b[..|b| - 1]);
    } else {
      assert a == b;
    }
  }

  function Recs(f: File): seq<Line> {
    Entries(Content(f))
  }

  predicate Headed(lines: seq<Line>) {
    exists i :: 0 <= i < |lines| && lines[i].Header?
  }

  predicate HeadersMatch(cfg: Config, lines: seq<Line>) {
    forall i :: 0 <= i < |lines| ==>
        !lines[i].Garbled? && (lines[i].Header? ==> Some(lines[i].schedule) == cfg.schedule)
  }

  /** Nothing but the records themselves could make the loader refuse these lines. */
  predicate HeadersOk(cfg: Config, lines: seq<Line>) {
    && HeadersMatch(cfg, lines)
    && (cfg.assumeSchedule || Entries(lines) == [] || Headed(lines))
  }

  /** Loading records without any schedule. */
  const BARE := Config(None, false)

  /** The two scans agree on acceptance, on the index, and on whether a header was seen. */
  ghost predicate ScansAgree(cfg: Config, lines: seq<Line>) {
    var whole, bare := Scan(cfg, lines), Scan(BARE, Entries(lines));
    && (whole.Ok? <==> HeadersMatch(cfg, lines) && bare.Ok?)
    && (whole.Ok? ==> whole.value.index == bare.value.index && (whole.value.stamped <==> Headed(lines)))
  }

  lemma HeadersStep(cfg: Config, front: seq<Line>, last: Line)
    ensures HeadersMatch(cfg, front + [last])
       <==> HeadersMatch(cfg, front) && !last.Garbled? && (last.Header? ==> Some(last.schedule) == cfg.schedule)
    ensures Headed(front + [last]) <==> Headed(front) || last.Header?
  {
    var lines := front + [last];
    assert lines[|front|] == last && forall i :: 0 <= i < |front| ==> lines[i] == front[i];
  }

  lemma ScanStep(cfg: Config, front: seq<Line>, last: Line)
    ensures Scan(cfg, front + [last]) == if Scan(cfg, front).Err? then Scan(cfg, front)
      else ScanLine(cfg, Scan(cfg, front).value, last)
  {
    assert (front + [last])[..|front|] == front;
  }

  lemma ScansAgreeEntry(cfg: Config, front: seq<Line>, r: Record)
    requires ScansAgree(cfg, front)
    ensures ScansAgree(cfg, front + [Entry(r)])
  {
    EntriesAppend(front, Entry(r));
    HeadersStep(cfg, front, Entry(r));
    ScanStep(cfg, front, Entry(r));
    ScanStep(BARE, Entries(front), Entry(r));
    hide Scan, Entries, HeadersMatch, Headed, AddLoaded;
  }

  lemma ScansAgreeOther(cfg: Config, front: seq<Line>, line: Line)
    requires cfg.schedule.Some? && ScansAgree(cfg, front) && !line.Entry?
    ensures ScansAgree(cfg, front + [line])
  {
    EntriesAppend(front, line);
    HeadersStep(cfg, front, line);
    ScanStep(cfg, front, line);
    hide Scan, Entries, HeadersMatch, Headed, AddLoaded;
  }

  lemma {:induction false} ScanByEntries(cfg: Config, lines: seq<Line>)
    requires cfg.schedule.Some?
    ensures ScansAgree(cfg, lines)
  {
    if |lines| > 0 {
      var front, last := lines[..|lines| - 1], lines[|lines| - 1];
      ScanByEntries(cfg, front);
      assert lines == front + [last];
      hide ScansAgree;
      if last.Entry? { ScansAgreeEntry(cfg, front, last.record); } else { ScansAgreeOther(cfg, front, last); }
    }
  }

  lemma {:induction false} SeenMeansEntries(lines: seq<Line>)
    requires Scan(BARE, Entries(lines)).Ok?
    ensures Scan(BARE, Entries(lines)).value.index.seen == {} <==> Entries(lines) == []
  {
    var e := Entries(lines);
    if |e| > 0 {
      EntriesAreEntries(lines);
      SeenNonEmpty(e);
    }
  }

  lemma {:induction false} EntriesAreEntries(lines: seq<Line>)
    ensures forall i :: 0 <= i < |Entries(lines)| ==> Entries(lines)[i].Entry?
  {
    if |lines| > 0 {
      EntriesAreEntries(lines[..|lines| - 1]);
    }
  }

  lemma SeenNonEmpty(e: seq<Line>)
    requires |e| > 0 && e[|e| - 1].Entry? && Scan(BARE, e).Ok?
    ensures Scan(BARE, e).value.index.seen != {}
  {
    assert KeyOf(e[|e| - 1].record) in Scan(BARE, e).value.index.seen;
  }

  /** The loader's verdict splits into the headers' and the records'. */
  lemma LoadByEntries(cfg: Config, lines: seq<Line>)
    requires cfg.schedule.Some?
    ensures Load(cfg, lines).Ok? <==> HeadersOk(cfg, lines) && Load(BARE, Entries(lines)).Ok?
    ensures Load(cfg, lines).Ok? ==> Load(cfg, lines).value == Load(BARE, Entries(lines)).value
  {
    ScanByEntries(cfg, lines);
    if Scan(BARE, Entries(lines)).Ok? { SeenMeansEntries(lines); }
  }

  // ---- what the disk always looks like ---------------------------------------------------------------

  /** b is a loadable a, or a with one more record an append could have written. */
  ghost predicate OneMore(a: seq<Line>, b: seq<Line>) {
    && Load(BARE, a).Ok?
    && (b == a || exists r :: b == a + [Entry(r)] && Appendable(Load(BARE, a).value, r))
  }

  /** Every file a power loss could leave has acceptable headers. */
  ghost predicate HeadersBetween(cfg: Config, d: File, v: File) {
    forall x :: ByteLe(d, x) && ByteLe(x, v) ==> HeadersOk(cfg, Content(x))
  }

  /** At most one record is not yet durable, it is one an append decided on, and none is behind a torn
      tail. */
  ghost predicate DiskOk(cfg: Config, d: File, v: File) {
    && cfg.schedule.Some?
    && ByteLe(d, v) && HeadersBetween(cfg, d, v)
    && OneMore(Recs(d), Recs(v))
    && (v.tail.Torn? ==> Recs(d) == Recs(v))
  }

  lemma OneMoreLoads(a: seq<Line>, b: seq<Line>)
    requires OneMore(a, b)
    ensures Load(BARE, b).Ok?
  {
    if b != a {
      var r :| b == a + [Entry(r)] && Appendable(Load(BARE, a).value, r);
      ReloadAfterAppend(BARE, a, r);
    }
  }

  lemma OneMoreBetween(a: seq<Line>, x: seq<Line>, b: seq<Line>)
    requires OneMore(a, b) && a <= x <= b
    ensures OneMore(a, x) && OneMore(x, b) && (x == a || x == b)
  {
    OneMoreLoads(a, b);
    if |x| == |a| { assert x == a; } else { assert x == b; }
  }

  /** Bytes reaching the disk, whether forced or written back in passing. */
  lemma DiskFlush(cfg: Config, d: File, x: File, v: File)
    requires DiskOk(cfg, d, v) && ByteLe(d, x) && ByteLe(x, v)
    ensures DiskOk(cfg, x, v) && (Recs(x) == Recs(d) || Recs(x) == Recs(v)) && Recs(d) <= Recs(x)
  {
    RecsBetween(cfg, d, x, v);
    forall y | ByteLe(x, y) && ByteLe(y, v) ensures HeadersOk(cfg, Content(y)) {
      ByteLeTransitive(d, x, y);
    }
  }

  lemma RecsBetween(cfg: Config, d: File, x: File, v: File)
    requires DiskOk(cfg, d, v) && ByteLe(d, x) && ByteLe(x, v)
    ensures OneMore(Recs(d), Recs(x)) && OneMore(Recs(x), Recs(v)) && Recs(d) <= Recs(x) <= Recs(v)
    ensures Recs(x) == Recs(d) || Recs(x) == Recs(v)
  {
    ByteLeContent(d, x);
    ByteLeContent(x, v);
    EntriesMonotone(Content(d), Content(x));
    EntriesMonotone(Content(x), Content(v));
    OneMoreBetween(Recs(d), Recs(x), Recs(v));
  }

  /** The visible file shrinks to what was durable, or to anything in between. */
  lemma DiskCut(cfg: Config, d: File, x: File, v: File)
    requires DiskOk(cfg, d, v) && ByteLe(d, x) && ByteLe(x, v)
    ensures DiskOk(cfg, x, x)
  {
    RecsBetween(cfg, d, x, v);
    OneMoreLoads(Recs(d), Recs(x));
    forall y | ByteLe(x, y) && ByteLe(y, x) ensures HeadersOk(cfg, Content(y)) {
      ByteLeTransitive(d, x, y);
      ByteLeTransitive(y, x, v);
    }
  }

  lemma ByteLeRefl(a: File)
    ensures ByteLe(a, a)
  {
  }

  /** Every such file loads: no power loss and no failure can make the log refuse itself. */
  lemma DiskLoads(cfg: Config, d: File, x: File, v: File)
    requires DiskOk(cfg, d, v) && ByteLe(d, x) && ByteLe(x, v)
    ensures Load(BARE, Recs(x)).Ok? && Load(cfg, Content(x)).Ok?
      && Load(cfg, Content(x)).value == Load(BARE, Recs(x)).value
  {
    RecsBetween(cfg, d, x, v);
    OneMoreLoads(Recs(d), Recs(x));
    LoadByEntries(cfg, Content(x));
  }

  /** Part of a line lands behind complete lines. */
  lemma DiskLand(cfg: Config, d: File, v: File, base: seq<Line>, line: Line, landing: Landing)
    requires DiskOk(cfg, d, v) && (v.lines == base || v == File(base + [line], Clean))
      && ByteLe(v, Land(base, line, landing))
    requires HeadersOk(cfg, base) && HeadersOk(cfg, base + [line])
    requires OneMore(Recs(d), Recs(Land(base, line, landing)))
    requires landing == Partly ==> Recs(d) == Entries(base)
    ensures DiskOk(cfg, d, Land(base, line, landing))
  {
    var v' := Land(base, line, landing);
    ByteLeTransitive(d, v, v');
    forall x | ByteLe(d, x) && ByteLe(x, v') ensures HeadersOk(cfg, Content(x)) {
      PrefixOfLanding(x, base, line, landing);
      if ByteLe(x, File(base, Clean)) {
        assert ByteLe(File(base, Clean), v);
        ByteLeTransitive(x, File(base, Clean), v);
      }
    }
  }
}

/**
  What the season sees of the log (core/registration_store.js under core/season.js): every state of the
  log's machine shows a store, an index with at most one record whose write is not yet settled; and every
  step of the log leaves that store alone, settles it, or raises such a record.
 */
module LogStore {
  import opened LogFile
  import opened RegistrationGuarantees
  import opened RegistrationLog
  import opened RegistrationProtocol
  import opened Wrappers
  import S = Season

  /** The records the view was built from; before there is a view, those a restart is sure to find. */
  function Base(s: State): seq<Line> {
    if s.loaded then s.known else Recs(s.durable)
  }

  function IndexOf(records: seq<Line>): Index {
    var loaded := Load(BARE, records);
    if loaded.Ok? then loaded.value else EMPTY
  }

  function StoreOf(base: seq<Line>, visible: seq<Line>): S.Store {
    S.Store(IndexOf(base),
            if |visible| == |base| + 1 && visible[|base|].Entry? then Some(visible[|base|].record) else None)
  }

  /** The store a state of the log shows. */
  function Shown(s: State): S.Store {
    StoreOf(Base(s), Recs(s.visible))
  }

  datatype Move = Stays | Settles(landed: bool) | Raises(record: Record)

  /** What one step of the log may do to the store. */
  ghost predicate Moved(a: S.Store, b: S.Store, m: Move) {
    match m
    case Stays => b == a
    case Settles(landed) => b == S.Settle(a, landed)
    case Raises(r) => a.uncertain.None? && Appendable(a.index, r) && b == S.Store(a.index, Some(r))
  }

  lemma ShownIndex(cfg: Config, s: State)
    requires Inv(cfg, s)
    ensures OneMore(Base(s), Recs(s.visible)) && Base(s) <= Recs(s.visible)
    ensures s.loaded ==> Shown(s).index == s.view
  {
    hide Recs, Load, HistoryOk, AppendOk, LoadOk;
  }

  // ---- moves of the two record lists -----------------------------------------------------------------

  lemma AppendSettles(a: seq<Line>, b: seq<Line>)
    requires OneMore(a, b)
    ensures StoreOf(b, b) == S.Settle(StoreOf(a, b), true) && StoreOf(a, a) == S.Settle(StoreOf(a, b), false)
  {
    if b != a {
      var r :| b == a + [Entry(r)] && Appendable(Load(BARE, a).value, r);
      assert b[|a|] == Entry(r);
      ReloadAfterAppend(BARE, a, r);
    }
  }

  lemma AppendRaises(a: seq<Line>, r: Record)
    requires Load(BARE, a).Ok? && Appendable(Load(BARE, a).value, r)
    ensures Moved(StoreOf(a, a), StoreOf(a, a + [Entry(r)]), Raises(r))
  {
    assert (a + [Entry(r)])[|a|] == Entry(r);
  }

  /** From one pair of lists to a pair between them. */
  lemma BetweenMoves(a: seq<Line>, b: seq<Line>, x: seq<Line>, y: seq<Line>) returns (m: Move)
    requires OneMore(a, b) && (y == b || (x == y && (y == a || y == b))) && (x == a || x == b)
    ensures Moved(StoreOf(a, b), StoreOf(x, y), m) && !m.Raises?
  {
    AppendSettles(a, b);
    m := if x == a && y == b then Stays else Settles(y == b);
  }

  // ---- each step -------------------------------------------------------------------------------------

  lemma DiskMoves(cfg: Config, s: State, e: Event) returns (m: Move)
    requires Inv(cfg, s) && DiskStep(s, e).Some?
    ensures Moved(Shown(s), Shown(DiskStep(s, e).value), m) && !m.Raises?
    ensures e.Flush? && s.loaded ==> m == Stays
  {
    hide Load, Recs, AppendOk, LoadOk, HistoryOk, StoreOf;
    ShownIndex(cfg, s);
    DurableBetween(cfg, s);
    if e.Flush? { RecsBetween(cfg, s.durable, e.x, s.visible); }
    m := BetweenMoves(Base(s), Recs(s.visible), Base(DiskStep(s, e).value), Recs(DiskStep(s, e).value.visible));
    if e.Flush? && s.loaded { m := Stays; }
  }

  /** What is durable is the base, or all that is visible. */
  lemma DurableBetween(cfg: Config, s: State)
    requires Inv(cfg, s)
    ensures Recs(s.durable) == Base(s) || Recs(s.durable) == Recs(s.visible)
  {
    hide Load, Recs, AppendOk, LoadOk, HistoryOk;
    ByteLeContentOf(s);
    if s.loaded { OneMoreBetween(s.known, Recs(s.durable), Recs(s.visible)); }
  }

  lemma ByteLeContentOf(s: State)
    requires ByteLe(s.durable, s.visible)
    ensures Recs(s.durable) <= Recs(s.visible)
  {
    ByteLeContent(s.durable, s.visible);
    EntriesMonotone(Content(s.durable), Content(s.visible));
  }

  /** A step that changes no records and does not load. */
  lemma SameRecords(s: State, s': State)
    requires s'.loaded == s.loaded && Recs(s'.visible) == Recs(s.visible)
    requires if s.loaded then s'.known == s.known else Recs(s'.durable) == Recs(s.durable)
    ensures Shown(s') == Shown(s)
  {
  }

  lemma LandingMoves(cfg: Config, s: State, landing: Landing) returns (m: Move)
    requires Inv(cfg, s) && s.append.AWriting?
    requires ByteLe(s.visible, Land(s.append.base, Entry(s.append.job.record), landing))
    ensures var s' := s.(visible := Land(s.append.base, Entry(s.append.job.record), landing));
      Moved(Shown(s), Shown(s'), m) && (m == Stays || m == Raises(s.append.job.record))
  {
    hide Load, HeadersOk, HistoryOk, LoadOk, Appendable, AtItsIndex, DiskOk, Shown, Land;
    var job, base := s.append.job, s.append.base;
    var v := Land(base, Entry(job.record), landing);
    WritingPc(cfg, s);
    RecsLanding(base, Entry(job.record), landing);
    ByteLeContent(s.visible, v);
    EntriesMonotone(Content(s.visible), Content(v));
    m := if Recs(v) == Recs(s.visible) then Stays else Raises(job.record);
    LandedMove(s, v);
  }

  lemma WritingPc(cfg: Config, s: State)
    requires Inv(cfg, s) && s.append.AWriting?
    ensures var job, base := s.append.job, s.append.base;
      && s.loaded && s.known == job.from == Entries(base) && Load(BARE, job.from).Ok?
           && Appendable(Load(BARE, job.from).value, job.record)
      && (Recs(s.visible) == job.from || Recs(s.visible) == job.from + [Entry(job.record)])
  {
    hide Load, Recs, HeadersOk, HistoryOk, LoadOk, AtItsIndex, DiskOk, ViewOk;
  }

  lemma LandedMove(s: State, v: File)
    requires s.append.AWriting? && s.loaded && s.known == s.append.job.from
    requires var job := s.append.job; Load(BARE, job.from).Ok? && Appendable(Load(BARE, job.from).value, job.record)
    requires var job := s.append.job;
      && (Recs(s.visible) == job.from || Recs(s.visible) == job.from + [Entry(job.record)])
      && (Recs(v) == job.from || Recs(v) == job.from + [Entry(job.record)])
      && Recs(s.visible) <= Recs(v)
    ensures Moved(Shown(s), Shown(s.(visible := v)), if Recs(v) == Recs(s.visible) then Stays
      else Raises(s.append.job.record))
  {
    hide Load, Recs, Appendable, StoreOf;
    AppendRaises(s.append.job.from, s.append.job.record);
  }

  lemma SyncedMove(cfg: Config, s: State)
    requires Inv(cfg, s) && s.append.ASyncing?
    ensures var job := s.append.job;
      Moved(Shown(s), Shown(FileSynced(s).(view := Remember(s.view, job.record), known := s.known + [Entry(job.record)],
                                           append := AClosing(job, false))), Settles(true))
  {
    hide Load, Recs, HeadersOk, HistoryOk, LoadOk, Appendable, AtItsIndex, DiskOk, StoreOf, Remember;
    ShownIndex(cfg, s);
    AppendSettles(Base(s), Recs(s.visible));
  }

  lemma AppendMoves(cfg: Config, s: State, e: Event) returns (m: Move)
    requires Inv(cfg, s) && AppendStep(s, e).Some?
    ensures Moved(Shown(s), Shown(AppendStep(s, e).value), m)
    ensures m.Raises? ==> s.append.AWriting? && m.record == s.append.job.record && e.Lands?
    ensures !s.append.AWriting? && !s.append.ASyncing? ==> m == Stays
  {
    hide Inv, Load, Recs, Shown, Remember, Decide, Land, ResumeWith;
    m := Stays;
    if s.append.AWriting? && e.Lands? {
      m := LandingMoves(cfg, s, e.landing);
    } else if s.append.ASyncing? && e.ok {
      SyncedMove(cfg, s);
      m := Settles(true);
    } else {
      RetryLoaded(cfg, s);
      ResumeRecords(s);
      SameRecords(s, AppendStep(s, e).value);
    }
  }

  lemma RetryLoaded(cfg: Config, s: State)
    requires Inv(cfg, s)
    ensures s.append.ABarrier? ==> s.loaded
  {
    hide DiskOk, ViewOk, HistoryOk, LoadOk, Load, Recs;
  }

  lemma ResumeRecords(s: State)
    ensures s.append.AResuming? ==>
      var s' := ResumeWith(s, s.append.job);
      s'.loaded == s.loaded && s'.visible == s.visible && s'.durable == s.durable && s'.known == s.known
          && s'.view == s.view
  {
  }

  // ---- the load --------------------------------------------------------------------------------------

  lemma RepairRecords(cfg: Config, s: State, raw: File)
    ensures var s' := Repaired(cfg, s, raw);
      s'.loaded == s.loaded && s'.visible == s.visible && s'.durable == s.durable && s'.known == s.known
          && s'.view == s.view
    ensures var s' := AfterRead(cfg, s);
      s'.loaded == s.loaded && s'.visible == s.visible && s'.durable == s.durable && s'.known == s.known
          && s'.view == s.view
  {
    hide Scan;
  }

  lemma SyncMoves(cfg: Config, s: State, s': State) returns (m: Move)
    requires Inv(cfg, s) && s'.loaded == s.loaded && s'.known == s.known && s'.visible == s.visible
      && s'.durable == s.visible
    ensures Moved(Shown(s), Shown(s'), m) && !m.Raises?
  {
    hide Inv, Load, Recs, StoreOf;
    ShownIndex(cfg, s);
    m := BetweenMoves(Base(s), Recs(s.visible), Base(s'), Recs(s'.visible));
  }

  lemma InstallMoves(cfg: Config, s: State) returns (m: Move)
    requires Inv(cfg, s) && s.load.LFinishing?
    ensures Moved(Shown(s), Shown(InstallMaps(cfg, s, s.load.raw)), m) && !m.Raises?
  {
    hide Inv, Load, Recs, StoreOf, Scan, AllFit;
    ShownIndex(cfg, s);
    m := BetweenMoves(Base(s), Recs(s.visible), Base(InstallMaps(cfg, s, s.load.raw)), Recs(s.visible));
  }

  lemma TruncateRecords(cfg: Config, s: State)
    requires Inv(cfg, s) && s.load.LTruncating?
    ensures var raw := s.load.raw;
      && Recs(Cut(s.durable, raw.lines)) == Recs(s.durable) && Recs(File(raw.lines, Clean)) == Recs(s.visible)
  {
    hide ViewOk, HistoryOk, AppendOk, Load, Recs, RawOk, Cut;
    assert LoadPcOk(cfg, s.durable, s.visible, s.load);
    TruncateOnDisk(cfg, s.durable, s.visible);
  }

  lemma NewlineRecords(cfg: Config, s: State)
    requires Inv(cfg, s) && s.load.LEnding?
    ensures Recs(File(Content(s.load.raw), Clean)) == Recs(s.visible)
  {
    hide ViewOk, HistoryOk, AppendOk, DiskOk, Load, Entries, RawOk;
    assert LoadPcOk(cfg, s.durable, s.visible, s.load);
  }

  lemma StampRecords(cfg: Config, s: State, landing: Landing)
    requires Inv(cfg, s) && s.load.LStamping?
    ensures Recs(Land(s.load.base, Header(ScheduleOf(cfg)), landing)) == Recs(s.visible)
  {
    hide ViewOk, HistoryOk, AppendOk, DiskOk, Load, Recs, RawOk, Land, LoadPcOk;
    StampingPc(cfg, s, landing);
  }

  lemma LoadMoves(cfg: Config, s: State, e: Event) returns (m: Move)
    requires Inv(cfg, s) && LoadStep(cfg, s, e).Some?
    ensures Moved(Shown(s), Shown(LoadStep(cfg, s, e).value), m) && !m.Raises?
  {
    hide Inv, Load, Recs, Shown, Repaired, AfterRead, InstallMaps, Cut, Land;
    var s' := LoadStep(cfg, s, e).value;
    m := Stays;
    if e == LoadFails {
      SameRecords(s, s');
    } else {
      match s.load
      case LBarrier => m := SyncMoves(cfg, s, s');
      case LReading => RepairRecords(cfg, s, s.visible); SameRecords(s, s');
      case LTruncating(raw) =>
        TruncateRecords(cfg, s);
        RepairRecords(cfg, s.(visible := File(raw.lines, Clean), durable := Cut(s.durable, raw.lines)), raw);
        SameRecords(s, s');
      case LSyncingTail(_) => m := SyncMoves(cfg, s, s');
      case LEnding(_) => NewlineRecords(cfg, s); SameRecords(s, s');
      case LSyncingEnd(raw) => RepairRecords(cfg, FileSynced(s), raw); m := SyncMoves(cfg, s, s');
      case LSyncingAll(raw) => RepairRecords(cfg, FileSynced(s), raw); m := SyncMoves(cfg, s, s');
      case LStamping(_, _) => if e.StampLands? { StampRecords(cfg, s, e.landing); } SameRecords(s, s');
      case LSyncingStamp(_) => m := SyncMoves(cfg, s, s');
      case LFinishing(_) => m := InstallMoves(cfg, s);
      case _ => SameRecords(s, s');
    }
  }

  /** Every step of the log, on the store it shows, leaves it alone, settles it, or raises the record whose
      bytes have just landed. */
  lemma LogMoves(cfg: Config, s: State, e: Event) returns (m: Move)
    requires Inv(cfg, s) && Step(cfg, s, e).Some?
    ensures Moved(Shown(s), Shown(Step(cfg, s, e).value), m)
    ensures m.Raises? ==> s.append.AWriting? && m.record == s.append.job.record && e.Lands?
  {
    hide Inv, Shown, DiskStep, AppendStep, LoadStep;
    if DiskStep(s, e).Some? {
      m := DiskMoves(cfg, s, e);
    } else if AppendStep(s, e).Some? {
      m := AppendMoves(cfg, s, e);
    } else {
      m := LoadMoves(cfg, s, e);
    }
  }

  // ---- between and during writes -----------------------------------------------------------------------

  /** A read is answered in this state. */
  predicate Readable(s: State) {
    s.loaded && !s.stale && !s.unbarriered
  }

  /** Neither the arrival of an append nor the end of the process. */
  predicate Ordinary(e: Event) {
    !e.Enqueue? && !e.PowerLoss? && !e.Kill?
  }

  /** With no append under way a view that answers reads shows everything there is. */
  lemma ReadableIsSettled(cfg: Config, s: State)
    requires Inv(cfg, s) && Readable(s) && !Writing(s.append)
    ensures Shown(s) == S.Store(s.view, None)
  {
    hide Recs, Load, HistoryOk, AppendOk, LoadOk, DiskOk;
    Established(s);
  }

  /** And goes on doing so: nothing but an append can unsettle it. */
  lemma QuietStep(cfg: Config, s: State, e: Event)
    requires Inv(cfg, s) && Step(cfg, s, e).Some? && Readable(s) && s.append.AIdle? && Ordinary(e)
    ensures var s' := Step(cfg, s, e).value; Readable(s') && s'.append.AIdle? && s'.view == s.view
  {
    hide DiskOk, ViewOk, HistoryOk, Recs, Load, Repaired, AfterRead, InstallMaps, LoadPcOk;
  }

  lemma IdleStaysIdle(cfg: Config, s: State, e: Event)
    requires Step(cfg, s, e).Some? && s.append.AIdle? && Ordinary(e)
    ensures Step(cfg, s, e).value.append.AIdle?
  {
    hide LoadStep, ByteLe;
    if AppendStep(s, e).None? && LoadStep(cfg, s, e).Some? { LoadLeavesAppend(cfg, s, e); }
  }

  /** The append in hand is this request's, decided or about to be decided against this index. */
  ghost predicate WriteOk(s: State, d: Request, before: Index) {
    && s.loaded
    && match s.append
       case AIdle => false
       case AWaiting(x) => x == d && Readable(s) && s.view == before
       case AReady(x) => x == d && s.view == before
       case _ => Decide(before, d) == Write(s.append.job.record) && Load(BARE, s.append.job.from) == Ok(before)
  }

  /** An append waiting for a view that answers goes on. */
  lemma WaitingGoesOn(cfg: Config, s: State, e: Event, d: Request, before: Index)
    requires Inv(cfg, s) && WriteOk(s, d, before) && s.append.AWaiting?
    requires Step(cfg, s, e).Some? && Ordinary(e)
    ensures WriteOk(Step(cfg, s, e).value, d, before)
  {
    hide DiskOk, ViewOk, HistoryOk, AppendOk, Recs, Load, Repaired, AfterRead, InstallMaps, LoadPcOk;
  }

  /** One that is decided on is refused there and then, leaving everything else alone, or goes on. */
  lemma ReadyGoesOn(cfg: Config, s: State, e: Event, d: Request, before: Index)
    requires Inv(cfg, s) && WriteOk(s, d, before) && s.append.AReady?
    requires Step(cfg, s, e).Some? && Ordinary(e)
    ensures var s' := Step(cfg, s, e).value;
      if s'.append.AIdle? then s' == s.(append := AIdle, answered := s'.answered) else WriteOk(s', d, before)
  {
    hide DiskOk, HistoryOk, Recs, Repaired, AfterRead, InstallMaps, LoadPcOk, OneMore, AtItsIndex;
  }

  lemma JobGoesOn(cfg: Config, s: State, e: Event, d: Request, before: Index)
    requires Inv(cfg, s) && WriteOk(s, d, before) && !s.append.AWaiting? && !s.append.AReady?
    requires Step(cfg, s, e).Some? && Ordinary(e)
    ensures var s' := Step(cfg, s, e).value; s'.loaded && (s'.append.AIdle? || WriteOk(s', d, before))
  {
    hide Inv, LoadStep, AppendStep, Load, Decide, ByteLe;
    if DiskStep(s, e).None? {
      if AppendStep(s, e).Some? { AppendKeepsJob(s, e); } else { LoadKeepsJob(cfg, s, e); }
    }
  }

  lemma AppendKeepsJob(s: State, e: Event)
    requires AppendStep(s, e).Some? && !s.append.AWaiting? && !s.append.AReady? && !s.append.AIdle?
    ensures var s' := AppendStep(s, e).value;
      && (s.loaded ==> s'.loaded)
      && (s'.append.AIdle? || (!s'.append.AWaiting? && !s'.append.AReady? && s'.append.job == s.append.job))
  {
    hide ByteLe, Land, Remember, ResumeWith;
    ResumeSettles(s);
  }

  lemma ResumeSettles(s: State)
    ensures s.append.AResuming? ==>
      ResumeWith(s, s.append.job).append.AIdle? && ResumeWith(s, s.append.job).loaded == s.loaded
  {
  }

  lemma LoadKeepsJob(cfg: Config, s: State, e: Event)
    requires LoadStep(cfg, s, e).Some? && !s.append.AWaiting? && !s.append.AReady? && !s.append.AIdle?
    ensures var s' := LoadStep(cfg, s, e).value;
      && (s.loaded ==> s'.loaded)
      && (s'.append.AIdle? || (!s'.append.AWaiting? && !s'.append.AReady? && s'.append.job == s.append.job))
  {
    hide Repaired, AfterRead, InstallMaps, Cut, ByteLe, Land;
    match s.load
    case LReading => RepairKeepsJob(cfg, s, s.visible);
    case LTruncating(raw) => RepairKeepsJob(cfg,
        s.(visible := File(raw.lines, Clean), durable := Cut(s.durable, raw.lines)), raw);
    case LSyncingEnd(raw) => RepairKeepsJob(cfg, FileSynced(s), raw);
    case LSyncingAll(raw) => RepairKeepsJob(cfg, FileSynced(s), raw);
    case LFinishing(raw) => RepairKeepsJob(cfg, s, raw);
    case _ =>
  }

  lemma RepairKeepsJob(cfg: Config, s: State, raw: File)
    ensures forall s' | s' in [Repaired(cfg, s, raw), AfterRead(cfg, s), InstallMaps(cfg, s, raw)] ::
      (s.loaded ==> s'.loaded) && (s'.append == s.append || s'.append.AIdle?)
  {
    hide Scan, AllFit, InOrder, Recs;
  }

  // ---- how a write ends --------------------------------------------------------------------------------

  /** The view of a job whose record it holds. */
  lemma JobShown(cfg: Config, s: State, before: Index)
    requires Inv(cfg, s) && !s.append.AIdle? && !s.append.AWaiting? && !s.append.AReady?
    requires JobOk(s, s.append.job) && Load(BARE, s.append.job.from) == Ok(before)
    requires s.known == s.append.job.from + [Entry(s.append.job.record)]
    ensures s.view == Remember(before, s.append.job.record) && Shown(s) == S.Store(s.view, None)
  {
    hide Recs, Load, HistoryOk, AppendOk, LoadOk, DiskOk, Remember;
    ShownIndex(cfg, s);
    ReloadAfterAppend(BARE, s.append.job.from, s.append.job.record);
  }

  /** What the step that ends an append leaves of the records: nothing changes. */
  lemma EndKeepsRecords(cfg: Config, s: State, e: Event)
    requires Ends(cfg, s, e) && (s.append.AReady? || s.append.AClosing? || s.append.AResuming?)
    ensures var s' := Step(cfg, s, e).value;
      && s'.loaded == s.loaded && s'.visible == s.visible && s'.known == s.known && s'.view == s.view
      && s'.durable == s.durable && s'.stale == s.stale && s'.unbarriered == s.unbarriered
    ensures s.append.AClosing? ==> !s.append.failed
  {
    hide LoadStep, Decide, SameRegistration;
    if AppendStep(s, e).None? && LoadStep(cfg, s, e).Some? { LoadLeavesAppend(cfg, s, e); }
  }

  /** A resumed append that finds anything finds its own record, exactly where the write put it. */
  lemma ResumeFinds(cfg: Config, s: State)
    requires Inv(cfg, s) && s.append.AResuming? && ReplyTo(s) != Failed
    ensures JobOk(s, s.append.job) && ReplyTo(s) == Wrote(s.append.job.record)
    ensures s.known == s.append.job.from + [Entry(s.append.job.record)]
  {
    hide DiskOk, HistoryOk, LoadOk, Recs, Load;
    JobHolds(s);
    LookupIsOurs(s, s.append.job);
    FoundSeen(s, s.append.job);
  }

  lemma FoundSeen(s: State, job: Job)
    requires JobOk(s, job) && ViewOk(s)
    requires FindKey(RecordsOf(s.view, BucketOf(job.record)), KeyOf(job.record))
             < |RecordsOf(s.view, BucketOf(job.record))|
    ensures s.known == job.from + [Entry(job.record)]
  {
    hide AtItsIndex;
    var bucket := RecordsOf(s.view, BucketOf(job.record));
    var at := FindKey(bucket, KeyOf(job.record));
    LoadIsCoherent(BARE, s.known);
    assert KeyOf(s.view.byBucket[BucketOf(job.record)][at]) in s.view.seen;
    FoundIsOurs(s, job);
  }

  lemma ClosedHas(cfg: Config, s: State)
    requires Inv(cfg, s) && s.append.AClosing? && !s.append.failed
    ensures JobOk(s, s.append.job) && s.known == s.append.job.from + [Entry(s.append.job.record)]
  {
    hide DiskOk, ViewOk, HistoryOk, LoadOk, Recs, Load;
  }

  /** A record reported written is the one decided on, is in the view, and nothing else is pending. */
  lemma WrittenIsShown(cfg: Config, s: State, e: Event, d: Request, before: Index)
    requires Inv(cfg, s) && WriteOk(s, d, before) && Ends(cfg, s, e) && ReplyTo(s).Wrote?
    ensures var r, s' := ReplyTo(s).record, Step(cfg, s, e).value;
      Decide(before, d) == Write(r) && s'.loaded && Shown(s') == S.Store(Remember(before, r), None)
  {
    hide Inv, Step, Load, Remember, Recs, Decide, Shown, JobOk, FindKey, SameRegistration;
    EndKeepsRecords(cfg, s, e);
    if s.append.AResuming? { ResumeFinds(cfg, s); } else { ClosedHas(cfg, s); }
    JobShown(cfg, s, before);
    SameRecords(s, Step(cfg, s, e).value);
  }

  /** A refusal is the view's, and leaves everything as it was. */
  lemma RefusedIsShown(cfg: Config, s: State, e: Event, d: Request, before: Index)
    requires Inv(cfg, s) && WriteOk(s, d, before) && Ends(cfg, s, e)
      && (ReplyTo(s).AlreadyThere? || ReplyTo(s).OtherDeclaration?)
    ensures var s' := Step(cfg, s, e).value;
      && s'.loaded && Shown(s') == S.Store(before, None)
      && (ReplyTo(s).AlreadyThere? <==> Decide(before, d).Duplicate?)
      && (ReplyTo(s).OtherDeclaration? <==> Decide(before, d).Conflict?)
  {
    hide Inv, Step, Load, Recs, Shown, FindKey, SameRegistration;
    EndKeepsRecords(cfg, s, e);
    if s.append.AResuming? { ResumeFinds(cfg, s); }
    ReadyIsReadable(cfg, s);
    ReadableIsSettled(cfg, s);
    SameRecords(s, Step(cfg, s, e).value);
  }

  lemma ReadyIsReadable(cfg: Config, s: State)
    requires Inv(cfg, s)
    ensures s.append.AReady? ==> Readable(s)
  {
    hide DiskOk, ViewOk, HistoryOk, LoadOk, Recs, Load;
  }
}

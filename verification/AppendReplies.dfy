/**
  What the log tells each caller, and that it does what it is asked (core/registration_store.js): whatever happens
  between an append's turn and its end, it is answered about its own request; and with storage that answers, an
  append is written and a first load installs the file.
 */
module AppendReplies {
  import opened LogFile
  import opened LogStore
  import opened Recovery
  import opened RegistrationAnswers
  import opened RegistrationGuarantees
  import opened RegistrationLog
  import opened RegistrationProtocol
  import opened Wrappers

  // ---- an append is answered about its own request -----------------------------------------------------

  /** The append in hand is this request's: not yet decided, or decided to be written. */
  ghost predicate Carries(s: State, d: Request) {
    match s.append
    case AIdle => false
    case AWaiting(x) => x == d
    case AReady(x) => x == d
    case _ =>
      && Load(BARE, s.append.job.from).Ok?
      && Decide(Load(BARE, s.append.job.from).value, d) == Write(s.append.job.record)
  }

  lemma DiskCarriesOn(s: State, d: Request, e: Event)
    requires Carries(s, d) && DiskStep(s, e).Some?
    ensures var s' := DiskStep(s, e).value; s'.append.AIdle? || Carries(s', d)
  {
    hide Load, Decide, ByteLe;
  }

  lemma QueueCarriesOn(cfg: Config, s: State, d: Request, e: Event)
    requires Inv(cfg, s) && Carries(s, d) && AppendStep(s, e).Some? && (s.append.AWaiting? || s.append.AReady?)
    ensures var s' := AppendStep(s, e).value; s'.append.AIdle? || Carries(s', d)
  {
    hide Load, DiskOk, HistoryOk, LoadOk, Recs, OneMore, Complete, AtItsIndex;
  }

  lemma CarriesOn(cfg: Config, s: State, d: Request, e: Event)
    requires Inv(cfg, s) && Carries(s, d) && Step(cfg, s, e).Some?
    ensures var s' := Step(cfg, s, e).value; s'.append.AIdle? || Carries(s', d)
  {
    hide Inv, DiskStep, AppendStep, LoadStep, Load, Decide;
    if DiskStep(s, e).Some? {
      DiskCarriesOn(s, d, e);
    } else if s.append.AWaiting? || s.append.AReady? {
      if AppendStep(s, e).Some? { QueueCarriesOn(cfg, s, d, e); } else { LoadLeavesAppend(cfg, s, e); }
    } else if AppendStep(s, e).Some? {
      AppendKeepsJob(s, e);
    } else {
      LoadKeepsJob(cfg, s, e);
    }
  }

  /** This request's append had its turn at this event, and has not ended since. */
  predicate InHand(cfg: Config, f: File, events: seq<Event>, at: nat, d: Request) {
    && at < |events| && events[at] == Enqueue(d) && Run(cfg, Start(f), events[..at]).append.AIdle?
    && forall k :: at < k <= |events| ==> !Run(cfg, Start(f), events[..k]).append.AIdle?
  }

  lemma RunLast(cfg: Config, s: State, events: seq<Event>)
    requires |events| > 0
    ensures var before := Run(cfg, s, events[..|events| - 1]);
      var after := Step(cfg, before, events[|events| - 1]);
      Run(cfg, s, events) == if after.Some? then after.value else before
  {
  }

  lemma {:induction false} CarriedSince(cfg: Config, f: File, events: seq<Event>, at: nat, d: Request)
    requires cfg.schedule.Some? && Load(cfg, Content(f)).Ok? && InHand(cfg, f, events, at, d)
    ensures Carries(Run(cfg, Start(f), events), d)
  {
    hide Inv, Step, Load, Run, Carries;
    var front, last := events[..|events| - 1], events[|events| - 1];
    var before := Run(cfg, Start(f), front);
    RunLast(cfg, Start(f), events);
    assert events[..|events|] == events;
    if at == |front| {
      assert events[..at] == front;
      Enqueued(cfg, before, d);
    } else {
      assert forall k :: 0 <= k <= |front| ==> front[..k] == events[..k];
      CarriedSince(cfg, f, front, at, d);
      RunKeeps(cfg, f, front);
      if Step(cfg, before, last).Some? { CarriesOn(cfg, before, d, last); }
    }
  }

  lemma Enqueued(cfg: Config, s: State, d: Request)
    requires s.append.AIdle?
    ensures var after := Step(cfg, s, Enqueue(d));
      after.Some? ==> after.value.append.AIdle? || Carries(after.value, d)
  {
  }

  /** What an append that ends tells is true of its own request: a record written is the request, durable at its
      index; a nullifier already there is the request's own, spent in its season and context; and the declaration
      in conflict is the one its bucket has, and not the request's. */
  lemma RepliesToItsRequest(cfg: Config, f: File, events: seq<Event>, at: nat, d: Request, e: Event)
    requires cfg.schedule.Some? && Load(cfg, Content(f)).Ok? && InHand(cfg, f, events, at, d)
    requires Ends(cfg, Run(cfg, Start(f), events), e)
    ensures var s := Run(cfg, Start(f), events);
      var s' := Step(cfg, s, e).value;
      && Load(BARE, Recs(s'.durable)).Ok?
      && match ReplyTo(s)
         case Wrote(r) => IsRequest(r, d, r.index) && AtItsIndex(SetOf(s'), r) && Spent(SetOf(s'), d)
         case AlreadyThere => Spent(SetOf(s'), d)
         case OtherDeclaration(declared) =>
           && Declared(SetOf(s'), d) == Some(declared) && declared != Declaration(d.engine, d.statement)
           && !Spent(SetOf(s'), d)
         case Failed => true
  {
    hide Inv, Run, Load, Recs, Step, Carries, InHand, Ends, ReplyTo;
    var s := Run(cfg, Start(f), events);
    RunKeeps(cfg, f, events);
    CarriedSince(cfg, f, events, at, d);
    EndsStep(cfg, s, e);
    StepKeeps(cfg, s, e);
    EndedReply(cfg, s, e);
    ReplyIsTo(cfg, s, e, d);
    HistoryTold(cfg, Step(cfg, s, e).value);
    SetCoherent(Step(cfg, s, e).value);
    if ReplyTo(s).Wrote? { SpentAtItsIndex(SetOf(Step(cfg, s, e).value), ReplyTo(s).record, d); }
  }

  lemma EndsStep(cfg: Config, s: State, e: Event)
    requires Ends(cfg, s, e)
    ensures Step(cfg, s, e).Some?
  {
    hide Step;
  }

  lemma SetCoherent(s: State)
    requires Load(BARE, Recs(s.durable)).Ok?
    ensures Coherent(SetOf(s))
  {
    hide Load, Coherent, Recs;
    LoadIsCoherent(BARE, Recs(s.durable));
  }

  lemma SpentAtItsIndex(ix: Index, r: Record, d: Request)
    requires AtItsIndex(ix, r) && IsRequest(r, d, r.index)
    ensures Spent(ix, d)
  {
    assert Peers(ix, d)[r.index].regNullifier == d.regNullifier;
  }

  lemma ReplyIsTo(cfg: Config, s: State, e: Event, d: Request)
    requires Inv(cfg, s) && Carries(s, d) && Ends(cfg, s, e) && Load(BARE, Recs(Step(cfg, s, e).value.durable)).Ok?
    ensures var held := SetOf(Step(cfg, s, e).value);
      match ReplyTo(s)
      case Wrote(r) => IsRequest(r, d, r.index)
      case AlreadyThere => Spent(held, d)
      case OtherDeclaration(declared) => Declared(held, d) == Some(declared) && !Spent(held, d)
          && declared != Declaration(d.engine, d.statement)
      case Failed => true
  {
    hide Inv, Step, Load, Recs, Decide, Coherent, Spent, Declared, FindKey, SameRegistration, Peers;
    if ReplyTo(s).Failed? {
    } else if s.append.AReady? {
      EndKeepsRecords(cfg, s, e);
      ViewIsTheSet(cfg, s);
      SetCoherent(s);
      DecidesAsPromised(s.view, d);
    } else {
      if s.append.AResuming? { ResumeFinds(cfg, s); }
      LoadIsCoherent(BARE, s.append.job.from);
      DecidesAsPromised(Load(BARE, s.append.job.from).value, d);
    }
  }

  // ---- what may go wrong ----------------------------------------------------------------------------------

  /** Every await of an append or a load may fail, and a record's bytes may land in part first. */
  lemma StorageMayFail(cfg: Config, s: State, landing: Landing)
    ensures s.append.AOpening? ==> Step(cfg, s, Opened(false)).Some?
    ensures s.append.AWriting? ==> Step(cfg, s, WriteFails).Some?
    ensures s.append.AWriting? && s.visible == File(s.append.base, Clean) ==> Step(cfg, s, Lands(landing)).Some?
    ensures s.append.ASyncing? ==> Step(cfg, s, Synced(false)).Some?
    ensures s.append.AClosing? ==> Step(cfg, s, Closed(false)).Some?
    ensures s.append.ABarrier? ==> Step(cfg, s, BarrierDone(false)).Some?
    ensures Busy(s.load) ==> Step(cfg, s, LoadFails).Some?
  {
    hide AppendStep, LoadStep;
    WritesMayFail(s, landing);
    SyncsMayFail(s);
    LoadsMayFail(cfg, s);
  }

  lemma WritesMayFail(s: State, landing: Landing)
    ensures s.append.AOpening? ==> AppendStep(s, Opened(false)).Some?
    ensures s.append.AWriting? ==> AppendStep(s, WriteFails).Some?
    ensures s.append.AWriting? && s.visible == File(s.append.base, Clean) ==> AppendStep(s, Lands(landing)).Some?
  {
    hide Decide, ResumeWith, Remember;
  }

  lemma SyncsMayFail(s: State)
    ensures s.append.ASyncing? ==> AppendStep(s, Synced(false)).Some?
    ensures s.append.AClosing? ==> AppendStep(s, Closed(false)).Some?
    ensures s.append.ABarrier? ==> AppendStep(s, BarrierDone(false)).Some?
  {
    hide Decide, ResumeWith, Remember, Land;
  }

  lemma LoadsMayFail(cfg: Config, s: State)
    ensures Busy(s.load) ==> LoadStep(cfg, s, LoadFails).Some?
  {
    hide AfterRead, Repaired, InstallMaps, Land, Cut;
  }

  /** The process may end at any point: by a power loss that leaves what is durable and any part of what is not, or
      alone, leaving the file as it is seen. */
  lemma ProcessMayEnd(cfg: Config, s: State, x: File)
    requires Survivor(s, x)
    ensures var lost, killed := Run(cfg, s, [Flush(x), PowerLoss]), Run(cfg, s, [Kill]);
      && lost.visible == lost.durable == x && !lost.loaded && lost.append.AIdle? && lost.load.LIdle?
      && killed.visible == s.visible && killed.durable == s.durable && !killed.loaded && killed.append.AIdle?
      && killed.load.LIdle? && lost.acked == killed.acked == s.acked
  {
    hide Run, AppendStep, LoadStep;
    RunOne(cfg, s, Kill);
    assert [Flush(x), PowerLoss] == [Flush(x)] + [PowerLoss];
    RunThen(cfg, s, Flush(x), [PowerLoss]);
    RunOne(cfg, s.(durable := x), PowerLoss);
  }

  // ---- a failure is known until it is repaired ----------------------------------------------------------

  /** The step that learns of a failure. */
  predicate LearnsOfFailure(s: State, e: Event) {
    || e in {Opened(false), WriteFails, Synced(false), Closed(false)}
    || (s.append.AClosing? && s.append.failed && e.Closed?)
  }

  /** It marks the view, both ways, and the append is not answered before the recovery has been tried. */
  lemma FailuresAreMarked(cfg: Config, s: State, e: Event)
    requires LearnsOfFailure(s, e) && Step(cfg, s, e).Some?
    ensures var s' := Step(cfg, s, e).value; s'.stale && s'.unbarriered && (s'.append.AClosing? || s'.append.ABarrier?)
  {
    hide AfterRead, Repaired, InstallMaps, ResumeWith;
  }

  /** A view once marked stays so, the process living, until a reload has made it the file and the disk. */
  lemma OnlyReloadsUnmark(cfg: Config, s: State, e: Event)
    requires Inv(cfg, s) && Step(cfg, s, e).Some? && Flagged(s) && !Flagged(Step(cfg, s, e).value)
    requires !e.PowerLoss? && !e.Kill?
    ensures e == ClearFlags && Complete(s) && Step(cfg, s, e).value.view == s.view
    ensures Load(cfg, Content(s.durable)) == Ok(s.view)
  {
    hide DiskStep, AppendStep, LoadStep, Inv, Flagged, Complete, Load;
    if DiskStep(s, e).Some? {
      DiskStaysMarked(s, e);
    } else if AppendStep(s, e).Some? {
      AppendStaysMarked(s, e);
    } else {
      LoadStaysMarked(cfg, s, e);
      ClearingIsComplete(cfg, s);
    }
  }

  lemma DiskStaysMarked(s: State, e: Event)
    requires DiskStep(s, e).Some? && !e.PowerLoss? && !e.Kill? && Flagged(s)
    ensures Flagged(DiskStep(s, e).value)
  {
  }

  lemma AppendStaysMarked(s: State, e: Event)
    requires AppendStep(s, e).Some? && Flagged(s)
    ensures Flagged(AppendStep(s, e).value)
  {
    hide Decide, Land, ByteLe, SameRegistration, FindKey;
  }

  lemma LoadStaysMarked(cfg: Config, s: State, e: Event)
    requires LoadStep(cfg, s, e).Some? && Flagged(s)
    ensures !Flagged(LoadStep(cfg, s, e).value) ==>
      e == ClearFlags && s.load.LClearing? && LoadStep(cfg, s, e).value.view == s.view
  {
    hide AfterRead, Repaired, InstallMaps, Land, ByteLe, Cut;
    match s.load
    case LReading => RepairStaysMarked(cfg, s, s.visible);
    case LTruncating(raw) => RepairStaysMarked(cfg,
        s.(visible := File(raw.lines, Clean), durable := Cut(s.durable, raw.lines)), raw);
    case LSyncingEnd(raw) => RepairStaysMarked(cfg, FileSynced(s), raw);
    case LSyncingAll(raw) => RepairStaysMarked(cfg, FileSynced(s), raw);
    case LFinishing(raw) => RepairStaysMarked(cfg, s, raw);
    case _ =>
  }

  lemma RepairStaysMarked(cfg: Config, s: State, raw: File)
    requires Flagged(s)
    ensures Flagged(AfterRead(cfg, s)) && Flagged(Repaired(cfg, s, raw)) && Flagged(InstallMaps(cfg, s, raw))
  {
    hide Scan, AllFit, InOrder, Recs;
  }

  lemma ClearingIsComplete(cfg: Config, s: State)
    requires Inv(cfg, s) && s.load.LClearing?
    ensures Complete(s) && Load(cfg, Content(s.durable)) == Ok(s.view)
  {
    hide Load, Recs, HistoryOk, AppendOk, HeadersOk, LoadPcOk;
    DurableLoads(cfg, s);
  }

  // ---- storage that answers ------------------------------------------------------------------------------

  lemma RunThen(cfg: Config, s: State, e: Event, more: seq<Event>)
    requires Step(cfg, s, e).Some?
    ensures Run(cfg, s, [e] + more) == Run(cfg, Step(cfg, s, e).value, more)
  {
    hide Step;
    RunOne(cfg, s, e);
    RunOnwards(cfg, s, [e], more);
  }

  /** Nothing in flight: no load, and the file is its lines. */
  lemma IdleAndReadable(cfg: Config, s: State)
    requires Inv(cfg, s) && Readable(s) && s.append.AIdle?
    ensures s.load.LIdle? && s.visible.tail == Clean && Recs(s.durable) == Recs(s.visible) && Coherent(s.view)
  {
    hide DiskOk, HistoryOk, Recs, Load, Coherent;
    Established(s);
    LoadIsCoherent(BARE, s.known);
  }

  const SUCCESS := [Pass, DecideNow, Opened(true), Lands(Whole), Written, Synced(true), Closed(true)]

  lemma QueueSteps(cfg: Config, s: State, d: Request, r: Record)
    requires Readable(s) && s.append.AIdle? && Admissible(d) && Decide(s.view, d) == Write(r)
    ensures Step(cfg, s, Enqueue(d)) == Some(s.(append := AWaiting(d)))
    ensures Step(cfg, s.(append := AWaiting(d)), Pass) == Some(s.(append := AReady(d)))
    ensures Step(cfg, s.(append := AReady(d)), DecideNow) == Some(s.(append := AOpening(Job(r, s.known))))
  {
    hide Admissible, Decide, LoadStep;
  }

  lemma WriteSteps(cfg: Config, s: State, job: Job)
    requires s.append == AOpening(job) && s.visible.tail == Clean
    ensures var v := File(s.visible.lines + [Entry(job.record)], Clean);
      var s4 := s.(append := AWriting(job, s.visible.lines));
      && Step(cfg, s, Opened(true)) == Some(s4)
      && Step(cfg, s4, Lands(Whole)) == Some(s4.(visible := v))
      && Step(cfg, s4.(visible := v), Written) == Some(s4.(visible := v, append := ASyncing(job)))
  {
    hide LoadStep;
  }

  lemma CloseSteps(cfg: Config, s: State, job: Job)
    requires s.append == ASyncing(job)
    ensures var s7 := s.(durable := s.visible, view := Remember(s.view, job.record),
                         known := s.known + [Entry(job.record)], append := AClosing(job, false));
      && Step(cfg, s, Synced(true)) == Some(s7)
      && Step(cfg, s7, Closed(true)) == Some(s7.(append := AIdle, acked := s.acked + {job.record}))
  {
    hide LoadStep, Remember;
  }

  /** The state once the record is in the view, and its file closed but for the answer. */
  function ClosingState(s: State, r: Record): State {
    var v := File(s.visible.lines + [Entry(r)], Clean);
    s.(visible := v, durable := v, view := Remember(s.view, r), known := s.known + [Entry(r)],
       append := AClosing(Job(r, s.known), false))
  }

  lemma SuccessRuns(cfg: Config, s: State, d: Request, r: Record)
    requires Readable(s) && s.append.AIdle? && s.visible.tail == Clean
    requires Admissible(d) && Decide(s.view, d) == Write(r)
    ensures Run(cfg, s, [Enqueue(d)] + SUCCESS[..6]) == ClosingState(s, r)
    ensures Run(cfg, s, [Enqueue(d)] + SUCCESS) == ClosingState(s, r).(append := AIdle, acked := s.acked + {r})
  {
    hide Admissible, Decide, Remember, Run, Step;
    var job := Job(r, s.known);
    var s1, s2, s3 := s.(append := AWaiting(d)), s.(append := AReady(d)), s.(append := AOpening(job));
    var s4 := s.(append := AWriting(job, s.visible.lines));
    var v := File(s.visible.lines + [Entry(r)], Clean);
    var s5, s6 := s4.(visible := v), s4.(visible := v, append := ASyncing(job));
    QueueSteps(cfg, s, d, r);
    WriteSteps(cfg, s3, job);
    CloseSteps(cfg, s6, job);
    RunThen(cfg, s, Enqueue(d), SUCCESS[..6]);
    assert SUCCESS[..6] == [Pass] + SUCCESS[1..6];
    RunThen(cfg, s1, Pass, SUCCESS[1..6]);
    assert SUCCESS[1..6] == [DecideNow] + SUCCESS[2..6];
    RunThen(cfg, s2, DecideNow, SUCCESS[2..6]);
    assert SUCCESS[2..6] == [Opened(true)] + SUCCESS[3..6];
    RunThen(cfg, s3, Opened(true), SUCCESS[3..6]);
    assert SUCCESS[3..6] == [Lands(Whole)] + SUCCESS[4..6];
    RunThen(cfg, s4, Lands(Whole), SUCCESS[4..6]);
    assert SUCCESS[4..6] == [Written] + SUCCESS[5..6];
    RunThen(cfg, s5, Written, SUCCESS[5..6]);
    assert SUCCESS[5..6] == [Synced(true)];
    RunOne(cfg, s6, Synced(true));
    assert [Enqueue(d)] + SUCCESS == ([Enqueue(d)] + SUCCESS[..6]) + [Closed(true)];
    RunOnwards(cfg, s, [Enqueue(d)] + SUCCESS[..6], [Closed(true)]);
    RunOne(cfg, ClosingState(s, r), Closed(true));
  }

  /** A request that nothing refuses, on storage that answers, is written and told so: the record is the request, last
      of its season and context, on the disk and in the view, and nothing else has changed. */
  lemma AppendSucceeds(cfg: Config, f: File, events: seq<Event>, d: Request) returns (r: Record)
    requires cfg.schedule.Some? && Load(cfg, Content(f)).Ok?
    requires var s := Run(cfg, Start(f), events);
      && Readable(s) && s.append.AIdle? && Admissible(d) && !Spent(s.view, d)
      && (Declared(s.view, d).Some? ==> Declared(s.view, d).value == Declaration(d.engine, d.statement))
    ensures var s, s' := Run(cfg, Start(f), events), Run(cfg, Start(f), events + ([Enqueue(d)] + SUCCESS));
      && IsRequest(r, d, |Peers(s.view, d)|) && r in s'.acked && s'.append.AIdle? && Readable(s')
      && Recs(s'.durable) == Recs(s.durable) + [Entry(r)] && s'.visible == s'.durable
      && s'.view == Remember(s.view, r) && Load(cfg, Content(s'.durable)) == Ok(s'.view)
    ensures ReplyTo(Run(cfg, Start(f), events + ([Enqueue(d)] + SUCCESS[..6]))) == Wrote(r)
  {
    hide Inv, Run, Load, Decide, Coherent, Spent, Declared, Remember, Admissible;
    var s := Run(cfg, Start(f), events);
    RunKeeps(cfg, f, events);
    IdleAndReadable(cfg, s);
    DecidesAsPromised(s.view, d);
    r := Decide(s.view, d).record;
    SuccessRuns(cfg, s, d, r);
    RunOnwards(cfg, Start(f), events, [Enqueue(d)] + SUCCESS);
    RunOnwards(cfg, Start(f), events, [Enqueue(d)] + SUCCESS[..6]);
    EntriesAppend(s.visible.lines, Entry(r));
    RunKeeps(cfg, f, events + ([Enqueue(d)] + SUCCESS));
    WrittenReloads(cfg, ClosingState(s, r).(append := AIdle, acked := s.acked + {r}));
  }

  /** One the view refuses is refused at its turn, with the refusal that holds, and writes nothing. */
  lemma AppendIsRefused(cfg: Config, f: File, events: seq<Event>, d: Request)
    requires cfg.schedule.Some? && Load(cfg, Content(f)).Ok?
    requires var s := Run(cfg, Start(f), events);
      && Readable(s) && s.append.AIdle? && Admissible(d)
      && (Spent(s.view, d)
          || (Declared(s.view, d).Some? && Declared(s.view, d).value != Declaration(d.engine, d.statement)))
    ensures var s, asked := Run(cfg, Start(f), events), Run(cfg, Start(f), events + [Enqueue(d), Pass]);
      var s' := Step(cfg, asked, DecideNow);
      && (ReplyTo(asked) == if Spent(s.view, d) then AlreadyThere else OtherDeclaration(Declared(s.view, d).value))
      && s'.Some? && s'.value == s.(answered := s'.value.answered)
  {
    hide Inv, Run, Load, Decide, Coherent, Spent, Declared, Admissible, LoadStep, RecordsOf;
    var s := Run(cfg, Start(f), events);
    RunKeeps(cfg, f, events);
    IdleAndReadable(cfg, s);
    DecidesAsPromised(s.view, d);
    RunOnwards(cfg, Start(f), events, [Enqueue(d), Pass]);
    assert [Enqueue(d), Pass] == [Enqueue(d)] + [Pass];
    RunThen(cfg, s, Enqueue(d), [Pass]);
    RunOne(cfg, s.(append := AWaiting(d)), Pass);
  }

  /** An append that failed and has waited for the recovery is told its record is written exactly when the recovered
      view has it, and its error otherwise. */
  lemma ResumesExactlyWhen(cfg: Config, f: File, events: seq<Event>)
    requires cfg.schedule.Some? && Load(cfg, Content(f)).Ok? && Run(cfg, Start(f), events).append.AResuming?
    ensures var s := Run(cfg, Start(f), events);
      var r, after := s.append.job.record, Step(cfg, s, Resume);
      && ReplyTo(s) == (if KeyOf(r) in s.view.seen then Wrote(r) else Failed)
      && (KeyOf(r) in s.view.seen <==> r in RecordsOf(s.view, BucketOf(r)))
      && after == Some(s.(append := AIdle, acked := s.acked + if KeyOf(r) in s.view.seen then {r} else {}))
  {
    hide Inv, Run, Load;
    RunKeeps(cfg, f, events);
    Resumes(cfg, Run(cfg, Start(f), events));
  }

  lemma Resumes(cfg: Config, s: State)
    requires Inv(cfg, s) && s.append.AResuming?
    ensures var r, after := s.append.job.record, Step(cfg, s, Resume);
      && ReplyTo(s) == (if KeyOf(r) in s.view.seen then Wrote(r) else Failed)
      && (KeyOf(r) in s.view.seen <==> r in RecordsOf(s.view, BucketOf(r)))
      && after == Some(s.(append := AIdle, acked := s.acked + if KeyOf(r) in s.view.seen then {r} else {}))
  {
    hide DiskOk, HistoryOk, LoadOk, JobOk, ViewOk, AtItsIndex, LoadStep;
    JobHolds(s);
    var job := s.append.job;
    LookupIsOurs(s, job);
    SeenIsFoundHere(s, job);
    assert s.acked + {} == s.acked;
  }

  lemma HeldIsSeen(ix: Index, b: Bucket, i: nat)
    requires Coherent(ix) && i < |RecordsOf(ix, b)|
    ensures KeyOf(RecordsOf(ix, b)[i]) in ix.seen
  {
    assert KeyOf(ix.byBucket[b][i]) in ix.seen;
  }

  lemma SeenIsFoundHere(s: State, job: Job)
    requires JobOk(s, job) && ViewOk(s)
    ensures var bucket := RecordsOf(s.view, BucketOf(job.record));
      && (KeyOf(job.record) in s.view.seen <==> FindKey(bucket, KeyOf(job.record)) < |bucket|)
      && (KeyOf(job.record) in s.view.seen <==> job.record in bucket)
  {
    hide Load, Appendable, Recs;
    LoadIsCoherent(BARE, s.known);
    var b, k := BucketOf(job.record), KeyOf(job.record);
    var bucket := RecordsOf(s.view, b);
    if FindKey(bucket, k) < |bucket| { HeldIsSeen(s.view, b, FindKey(bucket, k)); }
    if k in s.view.seen { FoundIsOurs(s, job); }
    if job.record in bucket {
      var i :| 0 <= i < |bucket| && bucket[i] == job.record;
      FoundIfThere(bucket, k, i);
    }
  }

  lemma WrittenReloads(cfg: Config, s: State)
    requires Inv(cfg, s) && Readable(s) && s.append.AIdle?
    ensures Load(cfg, Content(s.durable)) == Ok(s.view)
  {
    hide Inv, Load;
    EstablishedIsReload(cfg, s);
  }

  /** A load, at each step of it, keeps every record of the file. */
  lemma LoadKeepsRecords(cfg: Config, s: State, e: Event)
    requires Inv(cfg, s) && LoadStep(cfg, s, e).Some?
    ensures Recs(LoadStep(cfg, s, e).value.visible) == Recs(s.visible)
  {
    hide Inv, Load, Recs, Repaired, AfterRead, InstallMaps, Cut, Land;
    match s.load
    case LReading => RepairRecords(cfg, s, s.visible);
    case LTruncating(raw) =>
      TruncateRecords(cfg, s);
      RepairRecords(cfg, s.(visible := File(raw.lines, Clean), durable := Cut(s.durable, raw.lines)), raw);
    case LEnding(_) => NewlineRecords(cfg, s);
    case LSyncingEnd(raw) => RepairRecords(cfg, FileSynced(s), raw);
    case LSyncingAll(raw) => RepairRecords(cfg, FileSynced(s), raw);
    case LStamping(_, _) => if e.StampLands? { StampRecords(cfg, s, e.landing); }
    case LFinishing(raw) => InstallLeavesFile(cfg, s, raw);
    case _ =>
  }

  lemma InstallLeavesFile(cfg: Config, s: State, raw: File)
    ensures InstallMaps(cfg, s, raw).visible == s.visible
  {
    hide Scan, AllFit;
  }

  /** What the next step of a first load does. */
  ghost predicate LoadsOn(cfg: Config, s: State, after: Option<State>) {
    && after.Some? && after.value.append.AIdle?
    && if after.value.loaded then !Flagged(after.value) else LoadsLeft(cfg, after.value) < LoadsLeft(cfg, s)
  }

  lemma FirstIsUnmarked(cfg: Config, s: State)
    requires Inv(cfg, s) && !s.loaded
    ensures !s.load.LBarrier? && !s.load.LClearing? && !Flagged(s)
  {
    hide DiskOk, ViewOk, HistoryOk, AppendOk, LoadPcOk;
  }

  lemma FirstInstall(cfg: Config, s: State)
    requires Inv(cfg, s) && s.load.LFinishing? && !s.loaded && s.append.AIdle?
    ensures var s' := InstallMaps(cfg, s, s.load.raw); s'.loaded && !Flagged(s') && s'.append.AIdle?
  {
    hide DiskOk, ViewOk, HistoryOk, AppendOk, RawOk, InstallMaps;
    assert LoadPcOk(cfg, s.durable, s.visible, s.load);
    ScheduleSet(cfg, s);
    InstallSpelledOut(cfg, s, s.load.raw);
  }

  lemma FirstRepair(cfg: Config, s: State)
    requires Inv(cfg, s) && !s.loaded && s.append.AIdle?
    requires s.load.LReading? || s.load.LTruncating? || s.load.LSyncingEnd? || s.load.LSyncingAll?
    ensures LoadsOn(cfg, s, LoadStep(cfg, s, NextOf(cfg, s)))
  {
    hide Inv, Load, Repaired, AfterRead, InstallMaps, Land, Cut, ByteLe, LoadsLeft;
    ScheduleSet(cfg, s);
    RawLoads(cfg, s);
    LeftHere(cfg, s);
    match s.load
    case LReading => ReadGoesOn(cfg, s);
    case LTruncating(raw) => RepairedLeft(cfg,
        s.(visible := File(raw.lines, Clean), durable := Cut(s.durable, raw.lines)), raw);
    case LSyncingEnd(raw) => RepairedLeft(cfg, FileSynced(s), raw);
    case LSyncingAll(raw) => RepairedLeft(cfg, FileSynced(s), raw);
  }

  lemma FirstStep(cfg: Config, s: State)
    requires Inv(cfg, s) && !s.loaded && s.append.AIdle?
    ensures Succeeds(NextOf(cfg, s)) && Step(cfg, s, NextOf(cfg, s)) == LoadStep(cfg, s, NextOf(cfg, s))
    ensures LoadsOn(cfg, s, LoadStep(cfg, s, NextOf(cfg, s)))
  {
    hide Inv, Load, InstallMaps, Repaired, AfterRead, Land, ByteLe, Cut;
    FirstIsUnmarked(cfg, s);
    NextIsTheLoads(cfg, s);
    if s.load.LReading? || s.load.LTruncating? || s.load.LSyncingEnd? || s.load.LSyncingAll? {
      FirstRepair(cfg, s);
    } else if s.load.LStamping? {
      StampComesOn(cfg, s);
    } else if s.load.LFinishing? {
      FirstInstall(cfg, s);
    }
  }

  lemma {:induction false} Loads(cfg: Config, s: State) returns (events: seq<Event>)
    requires Inv(cfg, s) && !s.loaded && s.append.AIdle?
    ensures |events| <= LoadsLeft(cfg, s) && forall i :: 0 <= i < |events| ==> Succeeds(events[i])
    ensures var s' := Run(cfg, s, events);
      Inv(cfg, s') && s'.loaded && !Flagged(s') && s'.append.AIdle? && Recs(s'.visible) == Recs(s.visible)
    decreases LoadsLeft(cfg, s)
  {
    hide Inv, Step, LoadStep, LoadsLeft, NextOf, Succeeds, Recs;
    FirstStep(cfg, s);
    var e := NextOf(cfg, s);
    var s' := Step(cfg, s, e).value;
    StepKeeps(cfg, s, e);
    LoadKeepsRecords(cfg, s, e);
    RunOne(cfg, s, e);
    LoadsAreLeft(cfg, s);
    if s'.loaded {
      events := [e];
    } else {
      var rest := Loads(cfg, s');
      RunOnwards(cfg, s, [e], rest);
      events := [e] + rest;
    }
  }

  lemma LoadsAreLeft(cfg: Config, s: State)
    ensures 1 <= LoadsLeft(cfg, s) <= 11
  {
  }

  /** A process that starts, over whatever file the last one left, comes to serve it: from every reachable state
      with nothing loaded, at most eleven successful steps install the reload of the file as it was found. */
  lemma FirstLoadSucceeds(cfg: Config, f: File, events: seq<Event>) returns (more: seq<Event>)
    requires cfg.schedule.Some? && Load(cfg, Content(f)).Ok?
    requires var s := Run(cfg, Start(f), events); !s.loaded && s.append.AIdle?
    ensures |more| <= 11 && forall i :: 0 <= i < |more| ==> Succeeds(more[i])
    ensures var s, s' := Run(cfg, Start(f), events), Run(cfg, Start(f), events + more);
      && Readable(s') && s'.append.AIdle?
      && Load(cfg, Content(s.visible)) == Ok(s'.view)
      && Load(cfg, Content(s'.visible)) == Ok(s'.view) && Load(cfg, Content(s'.durable)) == Ok(s'.view)
  {
    hide Inv, Run, Load, LoadsLeft, Recs;
    var s := Run(cfg, Start(f), events);
    RunKeeps(cfg, f, events);
    more := Loads(cfg, s);
    LoadsAreLeft(cfg, s);
    RunOnwards(cfg, Start(f), events, more);
    var s' := Run(cfg, Start(f), events + more);
    EstablishedIsReload(cfg, s');
    FileLoads(cfg, s);
    FileLoads(cfg, s');
  }
}

/**
  What the registration store promises, over every run: the theorems that follow from the invariant of
  `RegistrationProtocol`. In each, `f` is any file the loader accepts and `events` any run of appends,
  loads, storage failures, power losses and process deaths.
 */
module RegistrationGuarantees {
  import opened Wrappers
  import opened RegistrationLog
  import opened LogFile
  import opened RegistrationProtocol

  /** A file a power loss at this moment could leave: what is durable, and any part of the rest. */
  predicate Survivor(s: State, x: File) {
    ByteLe(s.durable, x) && ByteLe(x, s.visible)
  }

  /** An acknowledged registration is never lost: whatever a power loss leaves, now or at any later point
      of the run, the file loads, and holds the record at the leaf index the caller was given. */
  lemma AcknowledgedSurvives(cfg: Config, f: File, events: seq<Event>, x: File, r: Record)
    requires cfg.schedule.Some? && Load(cfg, Content(f)).Ok?
    requires var s := Run(cfg, Start(f), events); Survivor(s, x) && r in s.acked
    ensures Load(cfg, Content(x)).Ok? && AtItsIndex(Load(cfg, Content(x)).value, r)
  {
    var s := Run(cfg, Start(f), events);
    RunKeeps(cfg, f, events);
    DiskLoads(cfg, s.durable, x, s.visible);
    RecsBetween(cfg, s.durable, x, s.visible);
    HistoryGrows(Recs(s.durable), Recs(x), s.acked, s.answered);
  }

  /** The log never refuses itself: every file a failure can leave is accepted by the loader. */
  lemma EverySurvivorLoads(cfg: Config, f: File, events: seq<Event>, x: File)
    requires cfg.schedule.Some? && Load(cfg, Content(f)).Ok?
    requires Survivor(Run(cfg, Start(f), events), x)
    ensures Load(cfg, Content(x)).Ok?
  {
    var s := Run(cfg, Start(f), events);
    RunKeeps(cfg, f, events);
    DiskLoads(cfg, s.durable, x, s.visible);
  }

  /** So a load that has read its bytes goes on: only storage can fail it before it installs. */
  lemma LoadGoesOn(cfg: Config, f: File, events: seq<Event>, e: Event)
    requires cfg.schedule.Some? && Load(cfg, Content(f)).Ok?
    requires e in {ReadDone, Truncated, EndSynced, AllSynced} && LoadStep(cfg, Run(cfg, Start(f), events), e).Some?
    ensures Busy(LoadStep(cfg, Run(cfg, Start(f), events), e).value.load)
  {
    var s := Run(cfg, Start(f), events);
    RunKeeps(cfg, f, events);
    FileLoads(cfg, s);
    assert LoadPcOk(cfg, s.durable, s.visible, s.load);
    hide Inv, Run;
    StepGoesOn(cfg, s, e);
  }

  lemma StepGoesOn(cfg: Config, s: State, e: Event)
    requires cfg.schedule.Some? && Load(cfg, Content(s.visible)).Ok? && LoadPcOk(cfg, s.durable, s.visible, s.load)
    requires e in {ReadDone, Truncated, EndSynced, AllSynced} && LoadStep(cfg, s, e).Some?
    ensures Busy(LoadStep(cfg, s, e).value.load)
  {
    hide Load, Scan, FileSynced, Cut, Recs;
    match s.load
    case LReading => RepairGoesOn(cfg, s, s.visible);
    case LTruncating(raw) =>
      RepairGoesOn(cfg, s.(visible := File(raw.lines, Clean), durable := Cut(s.durable, raw.lines)), raw);
    case LSyncingEnd(raw) => RepairGoesOn(cfg, FileSynced(s), raw);
    case LSyncingAll(raw) => RepairGoesOn(cfg, FileSynced(s), raw);
  }

  lemma RepairGoesOn(cfg: Config, s: State, raw: File)
    requires cfg.schedule.Some? && Load(cfg, Content(raw)).Ok?
    ensures Busy(Repaired(cfg, s, raw).load) && Scan(cfg, Content(raw)).Ok?
  {
  }

  /** And then installs, as its view, exactly the reload of the file. */
  lemma InstallSucceeds(cfg: Config, f: File, events: seq<Event>)
    requires cfg.schedule.Some? && Load(cfg, Content(f)).Ok?
    requires Run(cfg, Start(f), events).load.LFinishing?
    ensures var s := Run(cfg, Start(f), events);
      var s' := InstallMaps(cfg, s, s.load.raw);
      s'.loaded && Load(cfg, Content(s.visible)) == Ok(s'.view)
  {
    var s := Run(cfg, Start(f), events);
    RunKeeps(cfg, f, events);
    FileLoads(cfg, s);
    assert RawOk(cfg, s.durable, s.visible, s.load.raw) by { assert LoadPcOk(cfg, s.durable, s.visible, s.load); }
  }

  /** No read reports a record that is not on stable storage: in every state a read can see, the view is
      the reload of a prefix of the durable records, each record where the durable index has it. */
  lemma ReadsAreDurable(cfg: Config, f: File, events: seq<Event>, r: Record)
    requires cfg.schedule.Some? && Load(cfg, Content(f)).Ok? && Run(cfg, Start(f), events).loaded
    ensures var s := Run(cfg, Start(f), events);
      && Load(cfg, Content(s.durable)).Ok?
      && s.view.seen <= Load(cfg, Content(s.durable)).value.seen
      && RecordsOf(s.view, BucketOf(r)) <= RecordsOf(Load(cfg, Content(s.durable)).value, BucketOf(r))
  {
    var s := Run(cfg, Start(f), events);
    RunKeeps(cfg, f, events);
    ByteLeRefl(s.durable);
    DiskLoads(cfg, s.durable, s.durable, s.visible);
    KnownIsDurable(s, r);
    ViewIsPrefix(s, r);
  }

  lemma ViewIsPrefix(s: State, r: Record)
    requires ViewOk(s) && s.loaded && ByteLe(s.durable, s.visible)
    ensures Load(BARE, Recs(s.durable)).Ok?
    ensures RecordsOf(s.view, BucketOf(r)) <= RecordsOf(Load(BARE, Recs(s.durable)).value, BucketOf(r))
  {
    ByteLeContent(s.durable, s.visible);
    EntriesMonotone(Content(s.durable), Content(s.visible));
    OneMoreBetween(s.known, Recs(s.durable), Recs(s.visible));
    if Recs(s.durable) != s.known {
      var x :| Recs(s.durable) == s.known + [Entry(x)] && Appendable(s.view, x);
      ReloadAfterAppend(BARE, s.known, x);
    }
  }

  /** And every read sees what was acknowledged, the proof system it was registered under included. */
  lemma ReadsSeeAcknowledged(cfg: Config, f: File, events: seq<Event>, r: Record)
    requires cfg.schedule.Some? && Load(cfg, Content(f)).Ok?
    requires var s := Run(cfg, Start(f), events); s.loaded && r in s.acked
    ensures var s := Run(cfg, Start(f), events);
      AtItsIndex(s.view, r) && HasEngine(s.view, r.season, DeclarationOf(r).engine)
  {
    var s := Run(cfg, Start(f), events);
    RunKeeps(cfg, f, events);
    LoadIsCoherent(BARE, s.known);
    EngineIsReported(s.view, r);
  }

  /** Once no append is under way, the view is flagged or complete: unflagged, it is the reload of the file
      and of the disk, so the order members were served is the order a restart rebuilds. */
  lemma SettledIsCompleteOrFlagged(cfg: Config, f: File, events: seq<Event>)
    requires cfg.schedule.Some? && Load(cfg, Content(f)).Ok?
    requires var s := Run(cfg, Start(f), events); s.loaded && s.append.AIdle?
    ensures var s := Run(cfg, Start(f), events);
      s.stale || s.unbarriered ||
      (Load(cfg, Content(s.visible)) == Ok(s.view) && Load(cfg, Content(s.durable)) == Ok(s.view))
  {
    var s := Run(cfg, Start(f), events);
    RunKeeps(cfg, f, events);
    DiskLoads(cfg, s.durable, s.durable, s.visible);
    FileLoads(cfg, s);
  }

  // ---- refinement ----------------------------------------------------------------------------------

  /** The atomic append-only set the log stands for: the index of its durable records. */
  ghost function SetOf(s: State): Index
    requires Load(BARE, Recs(s.durable)).Ok?
  {
    Load(BARE, Recs(s.durable)).value
  }

  lemma DurableDiskStep(cfg: Config, s: State, e: Event)
    requires DiskOk(cfg, s.durable, s.visible) && DiskStep(s, e).Some?
    ensures var d := Recs(DiskStep(s, e).value.durable); d == Recs(s.durable) || d == Recs(s.visible)
  {
    if e.Flush? { RecsBetween(cfg, s.durable, e.x, s.visible); }
  }

  lemma DurableAppendStep(s: State, e: Event)
    requires AppendStep(s, e).Some?
    ensures var d := AppendStep(s, e).value.durable; d == s.durable || d == s.visible
  {
  }

  lemma DurableRepaired(cfg: Config, s: State, raw: File)
    ensures Repaired(cfg, s, raw).durable == s.durable && AfterRead(cfg, s).durable == s.durable
    ensures InstallMaps(cfg, s, raw).durable == s.durable
  {
  }

  lemma DurableLoadStep(cfg: Config, s: State, e: Event)
    requires LoadStep(cfg, s, e).Some?
    ensures var d := LoadStep(cfg, s, e).value.durable;
      d == s.durable || d == s.visible || (s.load.LTruncating? && d == Cut(s.durable, s.load.raw.lines))
  {
    hide Repaired, AfterRead, InstallMaps, Cut;
    match s.load
    case LReading => DurableRepaired(cfg, s, s.visible);
    case LTruncating(raw) => DurableRepaired(cfg,
        s.(visible := File(raw.lines, Clean), durable := Cut(s.durable, raw.lines)), raw);
    case LSyncingEnd(raw) => DurableRepaired(cfg, FileSynced(s), raw);
    case LSyncingAll(raw) => DurableRepaired(cfg, FileSynced(s), raw);
    case LFinishing(raw) => DurableRepaired(cfg, s, raw);
    case _ =>
  }

  lemma DurableStep(cfg: Config, s: State, e: Event)
    requires Inv(cfg, s) && Step(cfg, s, e).Some?
    ensures var d := Recs(Step(cfg, s, e).value.durable); d == Recs(s.durable) || d == Recs(s.visible)
  {
    assert DiskOk(cfg, s.durable, s.visible) && LoadPcOk(cfg, s.durable, s.visible, s.load);
    if s.load.LTruncating? { TruncateOnDisk(cfg, s.durable, s.visible); }
    hide Inv, DiskStep, AppendStep, LoadStep;
    if DiskStep(s, e).Some? {
      DurableDiskStep(cfg, s, e);
    } else if AppendStep(s, e).Some? {
      DurableAppendStep(s, e);
    } else {
      DurableLoadStep(cfg, s, e);
    }
  }

  /** The set a step moves to is the one it was, or the one an in-memory backend would hold after
      deciding one admissible request and remembering its record. */
  ghost predicate AtomicStep(a: Index, b: Index) {
    b == a || exists r :: Appendable(a, r) && b == Remember(a, r)
  }

  /** The log refines an atomic append-only set: every step of every run, the failing ones included, is an
      atomic append or invisible. */
  lemma StepRefinesAtomicSet(cfg: Config, f: File, events: seq<Event>, e: Event)
    requires cfg.schedule.Some? && Load(cfg, Content(f)).Ok?
    requires Step(cfg, Run(cfg, Start(f), events), e).Some?
    ensures var s := Run(cfg, Start(f), events);
      var s' := Step(cfg, s, e).value;
      && Load(BARE, Recs(s.durable)).Ok? && Load(BARE, Recs(s'.durable)).Ok?
      && AtomicStep(SetOf(s), SetOf(s'))
  {
    var s := Run(cfg, Start(f), events);
    RunKeeps(cfg, f, events);
    StepKeeps(cfg, s, e);
    DurableStep(cfg, s, e);
    var s' := Step(cfg, s, e).value;
    if Recs(s'.durable) != Recs(s.durable) {
      var r :| Recs(s.visible) == Recs(s.durable) + [Entry(r)] && Appendable(SetOf(s), r);
      ReloadAfterAppend(BARE, Recs(s.durable), r);
      assert SetOf(s') == Remember(SetOf(s), r);
    }
  }

  /** Its answers are the set's answers: an acknowledged record is in it at its index, and a key refused as
      a duplicate is one it has. */
  lemma AnswersAreTheSets(cfg: Config, f: File, events: seq<Event>)
    requires cfg.schedule.Some? && Load(cfg, Content(f)).Ok?
    ensures var s := Run(cfg, Start(f), events);
      && Load(BARE, Recs(s.durable)).Ok?
      && (forall r :: r in s.acked ==> AtItsIndex(SetOf(s), r))
      && (forall k :: k in s.answered ==> k in SetOf(s).seen)
  {
    RunKeeps(cfg, f, events);
  }

  /** A step that ends the append in hand, other than by ending the process. */
  predicate Ends(cfg: Config, s: State, e: Event) {
    && !e.PowerLoss? && !e.Kill? && !s.append.AIdle?
    && Step(cfg, s, e).Some? && Step(cfg, s, e).value.append.AIdle?
  }

  /** The key of the request, or of the record in hand, that would be refused now. */
  function RefusedKey(s: State): Key
    requires !s.append.AIdle? && !s.append.AWaiting?
  {
    if s.append.AReady? then Key(s.append.d.season, s.append.d.contextHash, s.append.d.regNullifier)
    else KeyOf(s.append.job.record)
  }

  /** The view an append decides against is the set itself. */
  lemma ViewIsTheSet(cfg: Config, s: State)
    requires Inv(cfg, s) && s.append.AReady?
    ensures s.loaded && Load(BARE, Recs(s.durable)).Ok? && s.view == SetOf(s)
  {
    Established(s);
  }

  /** Whatever an append is told but its error is true of the set when it is told: the record written is
      there at its index, the key refused is one it has, and the declaration that conflicts is its own. */
  lemma RepliesAreTheSets(cfg: Config, f: File, events: seq<Event>, e: Event)
    requires cfg.schedule.Some? && Load(cfg, Content(f)).Ok? && Ends(cfg, Run(cfg, Start(f), events), e)
    ensures var s := Run(cfg, Start(f), events);
      var s' := Step(cfg, s, e).value;
      && Load(BARE, Recs(s'.durable)).Ok?
      && match ReplyTo(s)
         case Wrote(r) => AtItsIndex(SetOf(s'), r)
         case AlreadyThere => RefusedKey(s) in SetOf(s').seen
         case OtherDeclaration(declared) =>
           && s.append.AReady?
           && var d := s.append.d;
              var bucket := RecordsOf(SetOf(s'), Bucket(d.season, d.contextHash));
              |bucket| > 0 && DeclarationOf(bucket[0]) == declared != Declaration(d.engine, d.statement)
         case Failed => true
  {
    hide Inv, Run, Load, Recs;
    var s := Run(cfg, Start(f), events);
    RunKeeps(cfg, f, events);
    StepKeeps(cfg, s, e);
    EndedReply(cfg, s, e);
  }

  lemma HistoryTold(cfg: Config, s: State)
    requires Inv(cfg, s)
    ensures Load(BARE, Recs(s.durable)).Ok?
    ensures forall r :: r in s.acked ==> AtItsIndex(SetOf(s), r)
    ensures forall k :: k in s.answered ==> k in SetOf(s).seen
  {
    hide DiskOk, ViewOk, AppendOk, LoadOk, Recs, Load, AtItsIndex;
  }

  /** An append that ends is told what the history records. */
  lemma EndedStep(cfg: Config, s: State, e: Event)
    requires Ends(cfg, s, e)
    ensures var s' := Step(cfg, s, e).value;
      match ReplyTo(s)
      case Wrote(r) => r in s'.acked
      case AlreadyThere => RefusedKey(s) in s'.answered
      case OtherDeclaration(_) => s.append.AReady? && s' == s.(append := AIdle)
      case Failed => true
  {
    hide LoadStep;
    if AppendStep(s, e).None? && LoadStep(cfg, s, e).Some? && !s.append.AJoined? { LoadLeavesAppend(cfg, s, e); }
  }

  lemma LoadLeavesAppend(cfg: Config, s: State, e: Event)
    requires LoadStep(cfg, s, e).Some? && !s.append.AJoined?
    ensures LoadStep(cfg, s, e).value.append == s.append
  {
    hide Repaired, AfterRead, InstallMaps, Cut;
    match s.load
    case LReading => RepairLeavesAppend(cfg, s, s.visible);
    case LTruncating(raw) => RepairLeavesAppend(cfg,
        s.(visible := File(raw.lines, Clean), durable := Cut(s.durable, raw.lines)), raw);
    case LSyncingEnd(raw) => RepairLeavesAppend(cfg, FileSynced(s), raw);
    case LSyncingAll(raw) => RepairLeavesAppend(cfg, FileSynced(s), raw);
    case LFinishing(raw) => RepairLeavesAppend(cfg, s, raw);
    case _ =>
  }

  lemma RepairLeavesAppend(cfg: Config, s: State, raw: File)
    requires !s.append.AJoined?
    ensures Repaired(cfg, s, raw).append == s.append && AfterRead(cfg, s).append == s.append
    ensures InstallMaps(cfg, s, raw).append == s.append
  {
    hide Scan;
  }

  lemma EndedReply(cfg: Config, s: State, e: Event)
    requires Inv(cfg, s) && Ends(cfg, s, e) && Inv(cfg, Step(cfg, s, e).value)
    ensures var s' := Step(cfg, s, e).value;
      && Load(BARE, Recs(s'.durable)).Ok?
      && match ReplyTo(s)
         case Wrote(r) => AtItsIndex(SetOf(s'), r)
         case AlreadyThere => RefusedKey(s) in SetOf(s').seen
         case OtherDeclaration(declared) =>
           && s.append.AReady?
           && var d := s.append.d;
              var bucket := RecordsOf(SetOf(s'), Bucket(d.season, d.contextHash));
              |bucket| > 0 && DeclarationOf(bucket[0]) == declared != Declaration(d.engine, d.statement)
         case Failed => true
  {
    hide Inv, Step, Load, Recs, AtItsIndex, SameRegistration, FindKey;
    EndedStep(cfg, s, e);
    HistoryTold(cfg, Step(cfg, s, e).value);
    if s.append.AReady? { ViewIsTheSet(cfg, s); }
  }

  /** Durable records are never lost or reordered: whatever happens next, they stay the front of the log. */
  lemma {:induction false} DurableOnlyGrows(cfg: Config, f: File, events: seq<Event>, k: nat)
    requires cfg.schedule.Some? && Load(cfg, Content(f)).Ok? && k <= |events|
    ensures Recs(Run(cfg, Start(f), events[..k]).durable) <= Recs(Run(cfg, Start(f), events).durable)
    decreases |events|
  {
    if k == |events| {
      assert events[..k] == events;
    } else {
      var front, last := events[..|events| - 1], events[|events| - 1];
      assert front[..k] == events[..k];
      DurableOnlyGrows(cfg, f, front, k);
      var s := Run(cfg, Start(f), front);
      RunKeeps(cfg, f, front);
      if Step(cfg, s, last).Some? {
        DurableStep(cfg, s, last);
        ByteLeContent(s.durable, s.visible);
        EntriesMonotone(Content(s.durable), Content(s.visible));
      }
    }
  }
}

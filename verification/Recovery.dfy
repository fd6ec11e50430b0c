/**
  The registration log always comes back (core/registration_store.js): a view marked behind the file, at
  whatever step of a failed write or of a load, is re-established by storage that answers.
 */
module Recovery {
  import opened LogFile
  import opened RegistrationGuarantees
  import opened RegistrationLog
  import opened RegistrationProtocol
  import opened Wrappers

  /** A step in which storage, or the process itself, does what it was asked. */
  predicate Succeeds(e: Event) {
    match e
    case Closed(ok) => ok
    case BarrierDone(ok) => ok
    case StampLands(landing) => landing == Whole
    case _ => e in {Join, Resume, StartLoad, BarrierHeld, ReadDone, Truncated, TailSynced, NewlineAdded, EndSynced,
                    AllSynced, StampWritten, StampSynced, Install, ClearFlags}
  }

  /** The next of them: the append first, as far as it goes alone, then the load. */
  function NextOf(cfg: Config, s: State): Event {
    match s.append
    case AClosing(_, _) => Closed(true)
    case ABarrier(_) => BarrierDone(true)
    case AJoining(_) => Join
    case AResuming(_) => Resume
    case _ =>
      match s.load
      case LIdle => StartLoad
      case LBarrier => BarrierHeld
      case LReading => ReadDone
      case LTruncating(_) => Truncated
      case LSyncingTail(_) => TailSynced
      case LEnding(_) => NewlineAdded
      case LSyncingEnd(_) => EndSynced
      case LSyncingAll(_) => AllSynced
      case LStamping(_, base) => if s.visible == Land(base, Header(ScheduleOf(cfg)), Whole) then StampWritten
          else StampLands(Whole)
      case LSyncingStamp(_) => StampSynced
      case LFinishing(_) => Install
      case LClearing => ClearFlags
  }

  function LoadsLeft(cfg: Config, s: State): nat {
    match s.load
    case LIdle => 11
    case LBarrier => 10
    case LReading => 9
    case LTruncating(_) => 8
    case LSyncingTail(_) => 8
    case LEnding(_) => 7
    case LSyncingEnd(_) => 6
    case LSyncingAll(_) => 6
    case LStamping(_, base) => if s.visible == Land(base, Header(ScheduleOf(cfg)), Whole) then 4 else 5
    case LSyncingStamp(_) => 3
    case LFinishing(_) => 2
    case LClearing => 1
  }

  /** How many successful steps are left at most. */
  function StepsLeft(cfg: Config, s: State): nat {
    (match s.append
     case AClosing(_, _) => 48
     case ABarrier(_) => 36
     case AJoining(_) => 24
     case AResuming(_) => 12
     case _ => 0)
    + LoadsLeft(cfg, s)
  }

  /** Nothing is being written while the view is marked. */
  lemma MarkedIsNotWriting(cfg: Config, s: State)
    requires Inv(cfg, s) && s.loaded && Flagged(s)
    ensures !s.append.AReady? && !s.append.AOpening? && !Writing(s.append)
    ensures s.append.AJoined? ==> !s.load.LIdle?
  {
    hide DiskOk, ViewOk, HistoryOk, LoadOk;
  }

  lemma AppendComesOn(cfg: Config, s: State)
    requires Inv(cfg, s) && s.loaded && Flagged(s)
      && (s.append.AClosing? || s.append.ABarrier? || s.append.AJoining? || s.append.AResuming?)
    ensures var after := AppendStep(s, NextOf(cfg, s));
      DiskStep(s, NextOf(cfg, s)).None? && Succeeds(NextOf(cfg, s)) && ComesOn(cfg, s, after)
  {
    hide Inv, FindKey, SameRegistration;
  }

  /** What the bytes read, or a repaired file, lead to. */
  lemma ReadGoesOn(cfg: Config, s: State)
    requires cfg.schedule.Some? && Load(cfg, Content(s.visible)).Ok?
    ensures LoadsLeft(cfg, AfterRead(cfg, s)) < 9 && AfterRead(cfg, s).append == s.append
      && AfterRead(cfg, s).loaded == s.loaded
  {
    RepairedLeft(cfg, s, s.visible);
    hide Load, Scan, Repaired;
  }

  lemma RepairedLeft(cfg: Config, s: State, raw: File)
    requires cfg.schedule.Some? && Load(cfg, Content(raw)).Ok?
    ensures LoadsLeft(cfg, Repaired(cfg, s, raw)) < 6 && Repaired(cfg, s, raw).append == s.append
      && Repaired(cfg, s, raw).loaded == s.loaded
    ensures Scan(cfg, Content(raw)).Ok?
  {
  }

  lemma StampComesOn(cfg: Config, s: State)
    requires Inv(cfg, s) && s.load.LStamping?
    ensures ByteLe(s.visible, Land(s.load.base, Header(ScheduleOf(cfg)), Whole))
  {
    hide DiskOk, ViewOk, HistoryOk, AppendOk, RawOk, HeadersOk;
    assert LoadPcOk(cfg, s.durable, s.visible, s.load);
  }

  lemma InstallComesOn(cfg: Config, s: State)
    requires Inv(cfg, s) && s.loaded && s.load.LFinishing?
    ensures var s' := InstallMaps(cfg, s, s.load.raw); s'.load.LClearing? && s'.loaded && s'.append == s.append
  {
    hide DiskOk, ViewOk, HistoryOk, AppendOk, RawOk, InstallMaps;
    assert LoadPcOk(cfg, s.durable, s.visible, s.load);
    ScheduleSet(cfg, s);
    InstallSpelledOut(cfg, s, s.load.raw);
  }

  lemma ScheduleSet(cfg: Config, s: State)
    requires Inv(cfg, s)
    ensures cfg.schedule.Some?
  {
    hide ViewOk, HistoryOk, AppendOk, LoadOk;
  }

  /** The bytes a load holds are a file the loader accepts. */
  lemma RawLoads(cfg: Config, s: State)
    requires Inv(cfg, s)
    ensures Load(cfg, Content(s.visible)).Ok?
    ensures s.load.LTruncating? || s.load.LSyncingEnd? || s.load.LSyncingAll? ==> Load(cfg, Content(s.load.raw)).Ok?
  {
    hide ViewOk, HistoryOk, AppendOk, DiskOk, Load;
    FileLoads(cfg, s);
    assert LoadPcOk(cfg, s.durable, s.visible, s.load);
  }

  /** What the next step of a load does for a marked view. */
  ghost predicate ComesOn(cfg: Config, s: State, after: Option<State>) {
    && after.Some? && after.value.loaded && !Writing(after.value.append)
    && (Flagged(after.value) ==> StepsLeft(cfg, after.value) < StepsLeft(cfg, s))
  }

  lemma RepairComesOn(cfg: Config, s: State)
    requires Inv(cfg, s) && s.loaded && (s.append.AIdle? || s.append.AWaiting? || s.append.AJoined?)
    requires s.load.LReading? || s.load.LTruncating? || s.load.LSyncingEnd? || s.load.LSyncingAll?
    ensures ComesOn(cfg, s, LoadStep(cfg, s, NextOf(cfg, s)))
  {
    hide Inv, Load, Repaired, AfterRead, InstallMaps, Land, Cut, ByteLe, LoadsLeft;
    ScheduleSet(cfg, s);
    RawLoads(cfg, s);
    LeftHere(cfg, s);
    match s.load
    case LReading => ReadGoesOn(cfg, s);
    case LTruncating(raw) => RepairedLeft(cfg,
        s.(visible := File(raw.lines, Clean), durable := Cut(s.durable, raw.lines)), raw);
    case LSyncingEnd(raw) => RepairedLeft(cfg, FileSynced(s), raw);
    case LSyncingAll(raw) => RepairedLeft(cfg, FileSynced(s), raw);
  }

  lemma LeftHere(cfg: Config, s: State)
    ensures s.load.LReading? ==> LoadsLeft(cfg, s) == 9
    ensures s.load.LTruncating? ==> LoadsLeft(cfg, s) == 8
    ensures s.load.LSyncingEnd? || s.load.LSyncingAll? ==> LoadsLeft(cfg, s) == 6
  {
  }

  lemma StampGoesOn(cfg: Config, s: State)
    requires Inv(cfg, s) && s.loaded && (s.append.AIdle? || s.append.AWaiting? || s.append.AJoined?)
      && s.load.LStamping?
    ensures ComesOn(cfg, s, LoadStep(cfg, s, NextOf(cfg, s)))
  {
    hide Inv, Load, Land, ByteLe;
    StampComesOn(cfg, s);
  }

  lemma InstallGoesOn(cfg: Config, s: State)
    requires Inv(cfg, s) && s.loaded && (s.append.AIdle? || s.append.AWaiting? || s.append.AJoined?)
      && s.load.LFinishing?
    ensures ComesOn(cfg, s, LoadStep(cfg, s, NextOf(cfg, s)))
  {
    hide Inv, Load, InstallMaps, Land, ByteLe;
    InstallComesOn(cfg, s);
  }

  lemma LoadComesOn(cfg: Config, s: State)
    requires s.loaded && Flagged(s) && (s.append.AIdle? || s.append.AWaiting? || s.append.AJoined?)
    requires s.load.LIdle? || s.load.LBarrier? || s.load.LSyncingTail? || s.load.LEnding? || s.load.LSyncingStamp?
      || s.load.LClearing?
    ensures ComesOn(cfg, s, LoadStep(cfg, s, NextOf(cfg, s)))
  {
    hide Load, Land, ByteLe, Content;
  }

  lemma NextIsTheLoads(cfg: Config, s: State)
    requires s.append.AIdle? || s.append.AWaiting? || s.append.AJoined?
    ensures DiskStep(s, NextOf(cfg, s)).None? && AppendStep(s, NextOf(cfg, s)).None? && Succeeds(NextOf(cfg, s))
  {
  }

  lemma NextComesOn(cfg: Config, s: State)
    requires Inv(cfg, s) && s.loaded && Flagged(s)
    ensures Succeeds(NextOf(cfg, s)) && ComesOn(cfg, s, Step(cfg, s, NextOf(cfg, s)))
  {
    hide Inv, DiskStep, AppendStep, LoadStep, StepsLeft, NextOf, Succeeds;
    MarkedIsNotWriting(cfg, s);
    if s.append.AClosing? || s.append.ABarrier? || s.append.AJoining? || s.append.AResuming? {
      AppendComesOn(cfg, s);
    } else {
      NextIsTheLoads(cfg, s);
      if s.load.LReading? || s.load.LTruncating? || s.load.LSyncingEnd? || s.load.LSyncingAll? {
        RepairComesOn(cfg, s);
      } else if s.load.LStamping? {
        StampGoesOn(cfg, s);
      } else if s.load.LFinishing? {
        InstallGoesOn(cfg, s);
      } else {
        LoadComesOn(cfg, s);
      }
    }
  }

  lemma {:induction false} RunOnwards(cfg: Config, s: State, a: seq<Event>, b: seq<Event>)
    ensures Run(cfg, s, a + b) == Run(cfg, Run(cfg, s, a), b)
  {
    if |b| == 0 {
      assert a + b == a;
    } else {
      assert (a + b)[..|a + b| - 1] == a + b[..|b| - 1];
      RunOnwards(cfg, s, a, b[..|b| - 1]);
    }
  }

  lemma RunOne(cfg: Config, s: State, e: Event)
    requires Step(cfg, s, e).Some?
    ensures Run(cfg, s, []) == s && Run(cfg, s, [e]) == Step(cfg, s, e).value
  {
    hide Step;
    assert [e][..0] == [];
  }

  lemma {:induction false} Recovers(cfg: Config, s: State) returns (events: seq<Event>)
    requires Inv(cfg, s) && s.loaded && Flagged(s)
    ensures |events| <= StepsLeft(cfg, s) && forall i :: 0 <= i < |events| ==> Succeeds(events[i])
    ensures var s' := Run(cfg, s, events); Inv(cfg, s') && s'.loaded && !Flagged(s') && !Writing(s'.append)
    decreases StepsLeft(cfg, s)
  {
    hide Inv, Step, StepsLeft, NextOf, Succeeds;
    NextComesOn(cfg, s);
    var e := NextOf(cfg, s);
    var s' := Step(cfg, s, e).value;
    StepKeeps(cfg, s, e);
    RunOne(cfg, s, e);
    StepsAreLeft(cfg, s);
    if Flagged(s') {
      var rest := Recovers(cfg, s');
      RunOnwards(cfg, s, [e], rest);
      events := [e] + rest;
    } else {
      events := [e];
    }
  }

  lemma StepsAreLeft(cfg: Config, s: State)
    ensures StepsLeft(cfg, s) >= 1
  {
  }

  /** From every reachable state whose view is marked, at most 59 successful steps re-establish it: the view is
      then the reload of the file and of the disk. */
  lemma RecoveryIsReachable(cfg: Config, f: File, events: seq<Event>) returns (more: seq<Event>)
    requires cfg.schedule.Some? && Load(cfg, Content(f)).Ok?
    requires var s := Run(cfg, Start(f), events); s.loaded && Flagged(s)
    ensures |more| <= 59 && forall i :: 0 <= i < |more| ==> Succeeds(more[i])
    ensures var s := Run(cfg, Start(f), events + more);
      && s.loaded && !s.stale && !s.unbarriered
      && Load(cfg, Content(s.visible)) == Ok(s.view) && Load(cfg, Content(s.durable)) == Ok(s.view)
  {
    hide Inv, Run, Load, StepsLeft;
    var s := Run(cfg, Start(f), events);
    RunKeeps(cfg, f, events);
    more := Recovers(cfg, s);
    MostSteps(cfg, s);
    RunOnwards(cfg, Start(f), events, more);
    EstablishedIsReload(cfg, Run(cfg, Start(f), events + more));
  }

  lemma MostSteps(cfg: Config, s: State)
    ensures StepsLeft(cfg, s) <= 59
  {
  }

  lemma EstablishedIsReload(cfg: Config, s: State)
    requires Inv(cfg, s) && s.loaded && !Flagged(s) && !Writing(s.append)
    ensures Load(cfg, Content(s.visible)) == Ok(s.view) && Load(cfg, Content(s.durable)) == Ok(s.view)
  {
    hide Load, Recs, HistoryOk, AppendOk, LoadOk, HeadersOk;
    Established(s);
    FileLoads(cfg, s);
    DurableLoads(cfg, s);
  }

  lemma DurableLoads(cfg: Config, s: State)
    requires Inv(cfg, s)
    ensures Load(cfg, Content(s.durable)).Ok?
      && Load(cfg, Content(s.durable)).value == Load(BARE, Recs(s.durable)).value
    ensures Load(BARE, Recs(s.durable)).Ok?
  {
    hide Load, Recs, HistoryOk, AppendOk, LoadOk, ViewOk;
    ByteLeRefl(s.durable);
    DiskLoads(cfg, s.durable, s.durable, s.visible);
  }
}

/**
  The file backend of core/registration_store.js as a state machine with one step per await. Storage
  may fail at any step, write back on its own, lose power, or lose only the process. A schedule is
  configured and this is the file's only writer. Readers do not appear as steps: a read may happen in
  any state where the store is loaded, so what holds of `view` in every state holds of every answer.

  `known`, `acked`, `answered` and the history kept in a job are for the proof alone; no step's effect
  on the other fields depends on them.
 */
module RegistrationProtocol {
  import opened Wrappers
  import opened RegistrationLog
  import opened LogFile

  /** A write in progress: its record, and the records the view was built from when it was decided. */
  datatype Job = Job(record: Record, from: seq<Line>)

  /** Where the one append past its turn in the queue is waiting. */
  datatype AppendPc =
    | AIdle
    | AWaiting(d: Request)                   // for the view to be established
    | AReady(d: Request)                     // about to decide
    | AOpening(job: Job)
    | AWriting(job: Job, base: seq<Line>)    // base: the lines already in the file
    | ASyncing(job: Job)
    | AClosing(job: Job, failed: bool)
    | ABarrier(job: Job)                     // retrying the durability barrier
    | AJoining(job: Job)                     // barrier held; about to reconcile
    | AJoined(job: Job)                      // waiting for the shared reconciliation
    | AResuming(job: Job)                    // it succeeded

  /** The load in flight: the first one until the store is loaded, the shared reconciliation after. */
  datatype LoadPc =
    | LIdle
    | LBarrier
    | LReading
    | LTruncating(raw: File)
    | LSyncingTail(raw: File)
    | LEnding(raw: File)
    | LSyncingEnd(raw: File)
    | LSyncingAll(raw: File)
    | LStamping(raw: File, base: seq<Line>)
    | LSyncingStamp(raw: File)
    | LFinishing(raw: File)
    | LClearing                              // installed; the flags are cleared one continuation later

  datatype State = State(
    durable: File, visible: File,
    loaded: bool, view: Index, known: seq<Line>, stale: bool, unbarriered: bool,
    append: AppendPc, load: LoadPc,
    acked: set<Record>, answered: set<Key>)

  datatype Event =
    // the disk and the process
    | Flush(x: File) | PowerLoss | Kill
    // the append
    | Enqueue(d: Request) | Pass | Refused | DecideNow | Opened(ok: bool) | Lands(landing: Landing) | WriteFails
    | Written | Synced(ok: bool) | Closed(ok: bool) | BarrierDone(ok: bool) | Join | Resume
    // the load
    | StartLoad | LoadFails | BarrierHeld | ReadDone | Truncated | TailSynced | NewlineAdded | EndSynced | AllSynced
    | StampLands(landing: Landing) | StampWritten | StampSynced | Install | ClearFlags

  function Start(f: File): State {
    State(f, f, false, EMPTY, [], false, false, AIdle, LIdle, {}, {})
  }

  /** Both flags, in one synchronous step. */
  function Mark(s: State): State {
    s.(stale := true, unbarriered := true)
  }

  /** A load that throws installs nothing; a reconciliation's failure also leaves the view marked, and
      the append that joined it reports its original error. */
  function FailLoad(s: State): State {
    s.(load := LIdle, stale := s.stale || s.loaded, append := if s.append.AJoined? then AIdle else s.append)
  }

  /** The one place either flag is cleared. */
  function Cleared(s: State): State {
    s.(stale := false, unbarriered := false, load := LIdle,
       append := if s.append.AJoined? then AResuming(s.append.job) else s.append)
  }

  function FileSynced(s: State): State {
    s.(durable := s.visible)
  }

  function ScheduleOf(cfg: Config): string {
    Or(cfg.schedule, "")
  }

  // ---- steps ----------------------------------------------------------------------------------------

  function DiskStep(s: State, e: Event): Option<State> {
    match e
    case Flush(x) => if ByteLe(s.durable, x) && ByteLe(x, s.visible) then Some(s.(durable := x)) else None
    case PowerLoss => Some(Start(s.durable).(acked := s.acked, answered := s.answered))
    case Kill => Some(Start(s.visible).(durable := s.durable, acked := s.acked, answered := s.answered))
    case _ => None
  }

  function ResumeWith(s: State, job: Job): State {
    var bucket := RecordsOf(s.view, BucketOf(job.record));
    var at := FindKey(bucket, KeyOf(job.record));
    if at == |bucket| then s.(append := AIdle)
    else if SameRegistration(bucket[at], job.record) then s.(append := AIdle, acked := s.acked + {bucket[at]})
    else s.(append := AIdle, answered := s.answered + {KeyOf(job.record)})
  }

  /** What the caller of an append is told. */
  datatype Reply = Wrote(record: Record) | AlreadyThere | OtherDeclaration(declared: Declaration) | Failed

  /** What an append that the next step ends is told: nothing but its error, unless it was refused by the
      view, was closed after its sync, or is found again after the recovery. */
  function ReplyTo(s: State): Reply {
    match s.append
    case AReady(d) =>
      (match Decide(s.view, d)
       case Duplicate => AlreadyThere
       case Conflict(declared) => OtherDeclaration(declared)
       case Write(_) => Failed)
    case AClosing(job, _) => Wrote(job.record)
    case AResuming(job) =>
      var bucket := RecordsOf(s.view, BucketOf(job.record));
      var at := FindKey(bucket, KeyOf(job.record));
      if at == |bucket| then Failed else if SameRegistration(bucket[at], job.record) then Wrote(bucket[at])
          else AlreadyThere
    case _ => Failed
  }

  function AppendStep(s: State, e: Event): Option<State> {
    match (s.append, e)
    case (AIdle, Enqueue(d)) => if Admissible(d) then Some(s.(append := AWaiting(d))) else None
    case (AWaiting(d), Pass) => if s.loaded && !s.stale && !s.unbarriered then Some(s.(append := AReady(d))) else None
    // the load it was waiting for failed
    case (AWaiting(_), Refused) => if s.loaded && !s.stale && !s.unbarriered then None else Some(s.(append := AIdle))
    case (AReady(d), DecideNow) =>
      (match Decide(s.view, d)
       case Duplicate => Some(s.(append := AIdle, answered := s.answered + {KeyOf(RecordFor(d, 0))}))
       case Conflict(_) => Some(s.(append := AIdle))
       case Write(r) => Some(s.(append := AOpening(Job(r, s.known)))))
    case (AOpening(job), Opened(ok)) =>
      Some(if ok then s.(append := AWriting(job, s.visible.lines)) else Mark(s).(append := ABarrier(job)))
    case (AWriting(job, base), Lands(landing)) =>
      var v := Land(base, Entry(job.record), landing);
      if ByteLe(s.visible, v) then Some(s.(visible := v)) else None
    case (AWriting(job, base), WriteFails) => Some(Mark(s).(append := AClosing(job, true)))
    case (AWriting(job, base), Written) =>
      if s.visible == Land(base, Entry(job.record), Whole) then Some(s.(append := ASyncing(job))) else None
    case (ASyncing(job), Synced(ok)) =>
      Some(if ok
           then FileSynced(s).(view := Remember(s.view, job.record), known := s.known + [Entry(job.record)],
                               append := AClosing(job, false))
           else Mark(s).(append := AClosing(job, true)))
    case (AClosing(job, failed), Closed(ok)) =>
      Some(if ok && !failed then s.(append := AIdle, acked := s.acked + {job.record})
          else Mark(s).(append := ABarrier(job)))
    case (ABarrier(job), BarrierDone(ok)) =>
      Some(if ok then FileSynced(s).(append := AJoining(job)) else s.(append := AIdle))
    case (AJoining(job), Join) =>
      Some(s.(append := AJoined(job),
              load := if s.load != LIdle then s.load else if s.unbarriered then LBarrier else LReading))
    case (AResuming(job), Resume) => Some(ResumeWith(s, job))
    case _ => None
  }

  /** Past the repair of the tail: refuse records nobody can attribute, stamp a file that has no header,
      or go on. */
  function Repaired(cfg: Config, s: State, raw: File): State {
    var scan := Scan(cfg, Content(raw));
    if scan.Err? then FailLoad(s)
    else if scan.value.stamped then s.(load := LFinishing(raw))
    else if scan.value.index.seen != {} && !cfg.assumeSchedule then FailLoad(s)
    else s.(load := LStamping(raw, s.visible.lines))
  }

  /** What is durable of a file cut back to these lines. */
  function Cut(d: File, lines: seq<Line>): File {
    if ByteLe(d, File(lines, Clean)) then d else File(lines, Clean)
  }

  /** What the bytes just read call for. */
  function AfterRead(cfg: Config, s: State): State {
    var scan := Scan(cfg, Content(s.visible));
    if scan.Err? then FailLoad(s)
    else match s.visible.tail
         case Torn(_) => s.(load := LTruncating(s.visible))
         case Unended(_) => s.(load := LSyncingTail(s.visible))
         case Clean =>
           if scan.value.index.seen != {} then s.(load := LSyncingAll(s.visible)) else Repaired(cfg, s, s.visible)
  }

  function InstallMaps(cfg: Config, s: State, raw: File): State {
    var scan := Scan(cfg, Content(raw));
    if scan.Err? || !AllFit(scan.value.index) then FailLoad(s)
    else s.(view := InOrder(scan.value.index), known := Recs(s.visible), loaded := true,
            load := if s.loaded then LClearing else LIdle)
  }

  function LoadStep(cfg: Config, s: State, e: Event): Option<State> {
    match (s.load, e)
    case (LIdle, StartLoad) =>
      if !s.loaded then Some(s.(load := LReading))
      else if s.stale || s.unbarriered then Some(s.(load := if s.unbarriered then LBarrier else LReading))
      else None
    case (LBarrier, BarrierHeld) => Some(FileSynced(s).(load := LReading))
    case (LReading, ReadDone) => Some(AfterRead(cfg, s))
    case (LTruncating(raw), Truncated) =>
      Some(Repaired(cfg, s.(visible := File(raw.lines, Clean), durable := Cut(s.durable, raw.lines)), raw))
    case (LSyncingTail(raw), TailSynced) => Some(FileSynced(s).(load := LEnding(raw)))
    case (LEnding(raw), NewlineAdded) => Some(s.(visible := File(Content(raw), Clean), load := LSyncingEnd(raw)))
    case (LSyncingEnd(raw), EndSynced) => Some(Repaired(cfg, FileSynced(s), raw))
    case (LSyncingAll(raw), AllSynced) => Some(Repaired(cfg, FileSynced(s), raw))
    case (LStamping(raw, base), StampLands(landing)) =>
      var v := Land(base, Header(ScheduleOf(cfg)), landing);
      if ByteLe(s.visible, v) then Some(s.(visible := v)) else None
    case (LStamping(raw, base), StampWritten) =>
      if s.visible == Land(base, Header(ScheduleOf(cfg)), Whole) then Some(s.(load := LSyncingStamp(raw))) else None
    case (LSyncingStamp(raw), StampSynced) => Some(FileSynced(s).(load := LFinishing(raw)))
    case (LFinishing(raw), Install) => Some(InstallMaps(cfg, s, raw))
    case (LClearing, ClearFlags) =>
      Some(Cleared(s))
    case (LIdle, LoadFails) => None
    case (LClearing, LoadFails) => None
    case (_, LoadFails) => Some(FailLoad(s))
    case _ => None
  }

  function Step(cfg: Config, s: State, e: Event): Option<State> {
    var d := DiskStep(s, e);
    var a := AppendStep(s, e);
    if d.Some? then d else if a.Some? then a else LoadStep(cfg, s, e)
  }

  /** A run: every event that is enabled where it occurs takes effect. */
  function Run(cfg: Config, s: State, events: seq<Event>): State {
    if |events| == 0 then s
    else
      var before := Run(cfg, s, events[..|events| - 1]);
      var after := Step(cfg, before, events[|events| - 1]);
      if after.Some? then after.value else before
  }

  // ---- the invariant --------------------------------------------------------------------------------

  /** Nothing is pending anywhere: the view is the file and the file is on the disk. */
  ghost predicate Complete(s: State) {
    && s.known == Recs(s.visible) == Recs(s.durable)
    && s.visible.tail == Clean && Headed(s.visible.lines)
  }

  ghost predicate Flagged(s: State) {
    s.stale || s.unbarriered
  }

  /** The append is between opening the file for writing and learning how the sync went. */
  ghost predicate Writing(a: AppendPc) {
    a.AWriting? || a.ASyncing?
  }

  /** The view is the reload of a prefix of the durable records, at most one record behind the file, and
      holds everything ever acknowledged. */
  ghost predicate ViewOk(s: State) {
    s.loaded ==>
      && Load(BARE, s.known).Ok? && s.view == Load(BARE, s.known).value
      && s.known <= Recs(s.durable)
      && OneMore(s.known, Recs(s.visible))
      && (forall r :: r in s.acked ==> AtItsIndex(s.view, r))
      && (!Flagged(s) || s.load.LClearing? ==> Writing(s.append) || Complete(s))
  }

  /** Whatever was answered is on the disk. */
  ghost predicate HistoryOk(d: File, acked: set<Record>, answered: set<Key>) {
    && Load(BARE, Recs(d)).Ok?
    && (forall r :: r in acked ==> AtItsIndex(Load(BARE, Recs(d)).value, r))
    && (forall k :: k in answered ==> k in Load(BARE, Recs(d)).value.seen)
  }

  /** The job's record was decided against the view at the time, and it is the only thing that can have
      changed since. */
  ghost predicate JobOk(s: State, job: Job) {
    && s.loaded
    && Load(BARE, job.from).Ok? && Appendable(Load(BARE, job.from).value, job.record)
    && (s.known == job.from || s.known == job.from + [Entry(job.record)])
    && (Recs(s.visible) == job.from || Recs(s.visible) == job.from + [Entry(job.record)])
  }

  ghost predicate AppendOk(s: State) {
    match s.append
    case AIdle => true
    case AWaiting(d) => Admissible(d)
    case AReady(d) => Admissible(d) && s.loaded && !Flagged(s) && s.load.LIdle?
    case AOpening(job) => JobOk(s, job) && s.known == job.from && !Flagged(s) && s.load.LIdle?
    case AWriting(job, base) =>
      && JobOk(s, job) && s.known == job.from == Entries(base) == Recs(File(base, Clean)) && !Flagged(s)
           && s.load.LIdle?
      && Headed(base) && (s.visible.lines == base || s.visible == File(base + [Entry(job.record)], Clean))
      && (Content(s.visible) == base || Content(s.visible) == base + [Entry(job.record)])
    case ASyncing(job) =>
      && JobOk(s, job) && s.known == job.from && !Flagged(s) && s.load.LIdle?
      && Recs(s.visible) == job.from + [Entry(job.record)] && s.visible.tail == Clean && Headed(s.visible.lines)
    case AClosing(job, failed) =>
      JobOk(s, job) && (!failed ==> s.known == job.from + [Entry(job.record)] && AtItsIndex(s.view, job.record))
    case ABarrier(job) => JobOk(s, job)
    case AJoining(job) => JobOk(s, job)
    case AJoined(job) => JobOk(s, job) && !s.load.LIdle?
    case AResuming(job) => JobOk(s, job)
  }

  /** The bytes read are still what the file says, and everything in them is durable. */
  ghost predicate RawOk(cfg: Config, d: File, v: File, raw: File) {
    && Load(cfg, Content(raw)).Ok? && Load(BARE, Recs(raw)).Ok?
         && Load(cfg, Content(raw)).value == Load(BARE, Recs(raw)).value
    && Recs(raw) == Recs(v) == Recs(d)
  }

  /** What a load may rely on at each of its steps. */
  ghost predicate LoadPcOk(cfg: Config, d: File, v: File, l: LoadPc) {
    match l
    case LTruncating(raw) => v == raw && raw.tail.Torn? && RawOk(cfg, d, v, raw)
    case LSyncingTail(raw) => v == raw && raw.tail.Unended?
    case LEnding(raw) => v == raw && raw.tail.Unended? && RawOk(cfg, d, v, raw)
    case LSyncingEnd(raw) => v == File(Content(raw), Clean) && RawOk(cfg, d, v, raw)
    case LSyncingAll(raw) => v == raw && raw.tail == Clean
    case LStamping(raw, base) =>
      && RawOk(cfg, d, v, raw) && Entries(base) == Recs(v) && HeadersOk(cfg, base)
      && (v.lines == base || v == File(base + [Header(ScheduleOf(cfg))], Clean))
      && ByteLe(v, Land(base, Header(ScheduleOf(cfg)), Whole))
    case LSyncingStamp(raw) => RawOk(cfg, d, v, raw) && v.tail == Clean && Headed(v.lines)
    case LFinishing(raw) => RawOk(cfg, d, v, raw) && v.tail == Clean && Headed(v.lines)
    case _ => true
  }

  /** Between its first step and its last. */
  predicate Busy(l: LoadPc) {
    !l.LIdle? && !l.LClearing?
  }

  /** No append writes while a load is in flight, a reconciliation in flight means the view is flagged or
      the append is waiting for it, and nothing is flagged before the first load. */
  ghost predicate LoadOk(cfg: Config, s: State) {
    && (!s.load.LIdle? ==> !s.append.AReady? && !s.append.AOpening? && !Writing(s.append))
    && (!s.load.LIdle? && s.loaded ==> Flagged(s) || s.append.AJoined?)
    && (s.load.LStamping? && s.loaded ==> Flagged(s))
    && (!s.loaded ==> !s.load.LBarrier? && !s.load.LClearing? && (s.append.AIdle? || s.append.AWaiting?) && !Flagged(s))
    && LoadPcOk(cfg, s.durable, s.visible, s.load)
  }

  ghost predicate Inv(cfg: Config, s: State) {
    && DiskOk(cfg, s.durable, s.visible)
    && ViewOk(s) && HistoryOk(s.durable, s.acked, s.answered) && AppendOk(s) && LoadOk(cfg, s)
  }

  // ---- every step keeps it --------------------------------------------------------------------------

  /** Records reaching the disk never unsettle an answer already given. */
  lemma HistoryGrows(a: seq<Line>, b: seq<Line>, acked: set<Record>, answered: set<Key>)
    requires OneMore(a, b)
    requires forall r :: r in acked ==> AtItsIndex(Load(BARE, a).value, r)
    requires forall k :: k in answered ==> k in Load(BARE, a).value.seen
    ensures Load(BARE, b).Ok?
    ensures forall r :: r in acked ==> AtItsIndex(Load(BARE, b).value, r)
    ensures forall k :: k in answered ==> k in Load(BARE, b).value.seen
  {
    if b != a {
      var x :| b == a + [Entry(x)] && Appendable(Load(BARE, a).value, x);
      ReloadAfterAppend(BARE, a, x);
      forall r | r in acked ensures AtItsIndex(Load(BARE, b).value, r) {
        RememberPlaces(Load(BARE, a).value, x, r);
      }
    }
  }

  lemma FlushKeeps(cfg: Config, s: State, x: File)
    requires Inv(cfg, s) && ByteLe(s.durable, x) && ByteLe(x, s.visible)
    ensures Inv(cfg, s.(durable := x))
    ensures x == s.visible ==> Recs(x) == Recs(s.visible)
  {
    RecsBetween(cfg, s.durable, x, s.visible);
    HistoryGrows(Recs(s.durable), Recs(x), s.acked, s.answered);
    DiskFlush(cfg, s.durable, x, s.visible);
  }

  lemma SyncKeeps(cfg: Config, s: State)
    requires Inv(cfg, s)
    ensures Inv(cfg, FileSynced(s)) && Recs(FileSynced(s).durable) == Recs(s.visible)
  {
    ByteLeRefl(s.visible);
    FlushKeeps(cfg, s, s.visible);
  }

  lemma DiskStepKeeps(cfg: Config, s: State, e: Event)
    requires Inv(cfg, s) && DiskStep(s, e).Some?
    ensures Inv(cfg, DiskStep(s, e).value)
  {
    match e
    case Flush(x) => FlushKeeps(cfg, s, x);
    case PowerLoss =>
      ByteLeRefl(s.durable);
      DiskCut(cfg, s.durable, s.durable, s.visible);
    case Kill =>
  }

  /** Established and idle: nothing pending, so the durable records are the view's. */
  lemma Established(s: State)
    requires ViewOk(s) && s.loaded && !Flagged(s) && !Writing(s.append)
    ensures Complete(s)
  {
  }

  lemma DecideKeeps(cfg: Config, s: State)
    requires Inv(cfg, s) && s.append.AReady?
    ensures Inv(cfg, AppendStep(s, DecideNow).value)
  {
    Established(s);
    var d := s.append.d;
    match Decide(s.view, d) {
      case Write(r) => assert Appendable(s.view, r);
      case _ =>
    }
  }

  lemma HeadersAround(cfg: Config, base: seq<Line>, r: Record, lines: seq<Line>)
    requires HeadersOk(cfg, lines) && Headed(base) && (lines == base || lines == base + [Entry(r)])
    ensures HeadersOk(cfg, base) && HeadersOk(cfg, base + [Entry(r)])
  {
    var more := base + [Entry(r)];
    assert HeadersMatch(cfg, base) by {
      forall i | 0 <= i < |base|
        ensures !base[i].Garbled? && (base[i].Header? ==> Some(base[i].schedule) == cfg.schedule) {
        assert lines[i] == base[i];
      }
    }
    var k :| 0 <= k < |base| && base[k].Header?;
    assert more[k].Header?;
  }

  lemma RecsLanding(base: seq<Line>, line: Line, landing: Landing)
    ensures Recs(Land(base, line, landing))
         == Entries(base) + if line.Entry? && (landing.NoNewline? || landing.Whole?) then [line] else []
  {
    EntriesAppend(base, line);
  }

  lemma OneMoreLanding(d: seq<Line>, v: seq<Line>, v': seq<Line>, from: seq<Line>, r: Record)
    requires OneMore(d, v) && from <= d && v <= v' && v' <= from + [Entry(r)]
    requires Load(BARE, from).Ok? && Appendable(Load(BARE, from).value, r)
    ensures OneMore(d, v')
  {
    OneMoreLoads(d, v);
    if |v'| == |from| {
      assert v' == from && d == from;
    } else {
      assert v' == from + [Entry(r)];
      if |d| == |from| { assert d == from; } else { assert d == v'; }
    }
  }

  lemma LandsOnDisk(cfg: Config, d: File, v: File, base: seq<Line>, r: Record, landing: Landing)
    requires DiskOk(cfg, d, v) && (v.lines == base || v == File(base + [Entry(r)], Clean)) && Headed(base)
    requires Load(BARE, Entries(base)).Ok? && Appendable(Load(BARE, Entries(base)).value, r)
    requires Entries(base) <= Recs(d) && ByteLe(v, Land(base, Entry(r), landing))
    requires Content(v) == base || Content(v) == base + [Entry(r)]
    ensures DiskOk(cfg, d, Land(base, Entry(r), landing))
  {
    var line := Entry(r);
    var v' := Land(base, line, landing);
    RecsLanding(base, line, landing);
    HeadersAtTop(cfg, d, v);
    HeadersAround(cfg, base, r, Content(v));
    ByteLeContent(v, v');
    ByteLeContent(d, v);
    EntriesMonotone(Content(v), Content(v'));
    EntriesMonotone(Content(d), Content(v));
    OneMoreLanding(Recs(d), Recs(v), Recs(v'), Entries(base), r);
    hide HeadersOk, Load, Appendable;
    DiskLand(cfg, d, v, base, line, landing);
  }

  lemma HeadersAtTop(cfg: Config, d: File, v: File)
    requires DiskOk(cfg, d, v)
    ensures HeadersOk(cfg, Content(v))
  {
    ByteLeRefl(v);
  }

  lemma LandsKeeps(cfg: Config, s: State, landing: Landing)
    requires Inv(cfg, s) && s.append.AWriting?
    requires ByteLe(s.visible, Land(s.append.base, Entry(s.append.job.record), landing))
    ensures Inv(cfg, s.(visible := Land(s.append.base, Entry(s.append.job.record), landing)))
  {
    var job, base := s.append.job, s.append.base;
    EntriesAppend(base, Entry(job.record));
    LandsOnDisk(cfg, s.durable, s.visible, base, job.record, landing);
    RecsLanding(base, Entry(job.record), landing);
    LandsAside(cfg, s, landing);
    hide DiskOk, ViewOk, HistoryOk, AppendOk, LoadOk;
  }

  lemma LandsAside(cfg: Config, s: State, landing: Landing)
    requires s.append.AWriting? && ViewOk(s) && HistoryOk(s.durable, s.acked, s.answered) && AppendOk(s)
      && LoadOk(cfg, s)
    requires var v := Land(s.append.base, Entry(s.append.job.record), landing);
      Recs(v) == s.append.job.from || Recs(v) == s.append.job.from + [Entry(s.append.job.record)]
    ensures var s' := s.(visible := Land(s.append.base, Entry(s.append.job.record), landing));
      ViewOk(s') && HistoryOk(s'.durable, s'.acked, s'.answered) && AppendOk(s') && LoadOk(cfg, s')
  {
    hide Load, Recs, Entries, Appendable, AtItsIndex, HeadersOk, Headed;
  }

  lemma SyncedKeeps(cfg: Config, s: State)
    requires Inv(cfg, s) && s.append.ASyncing?
    ensures var job := s.append.job;
      Inv(cfg, FileSynced(s).(view := Remember(s.view, job.record), known := s.known + [Entry(job.record)],
                              append := AClosing(job, false)))
  {
    SyncKeeps(cfg, s);
    var job := s.append.job;
    ReloadAfterAppend(BARE, job.from, job.record);
    forall r | r in s.acked + {job.record} ensures r in s.acked ==> AtItsIndex(Remember(s.view, job.record), r) {
      RememberPlaces(s.view, job.record, r);
    }
    RememberPlaces(s.view, job.record, job.record);
  }

  /** The record found under the job's key after a reconciliation is the job's own. */
  lemma FoundIsOurs(s: State, job: Job)
    requires JobOk(s, job) && ViewOk(s) && KeyOf(job.record) in s.view.seen
    ensures s.known == job.from + [Entry(job.record)] && AtItsIndex(s.view, job.record)
    ensures var bucket := RecordsOf(s.view, BucketOf(job.record));
      var at := FindKey(bucket, KeyOf(job.record)); at < |bucket| && bucket[at] == job.record
  {
    var r, before := job.record, Load(BARE, job.from).value;
    ReloadAfterAppend(BARE, job.from, r);
    LoadIsCoherent(BARE, job.from);
    assert Load(BARE, s.known).value == s.view;
    hide Load, ViewOk, JobOk, Coherent, Appendable;
    RememberPlaces(before, r, r);
    NewKeyIsLast(before, r);
  }

  /** A remembered record is the first, and only, one of its key. */
  lemma NewKeyIsLast(ix: Index, r: Record)
    requires Coherent(ix) && Appendable(ix, r)
    ensures KeyOf(r) !in ix.seen
    ensures var bucket := RecordsOf(Remember(ix, r), BucketOf(r));
      var at := FindKey(bucket, KeyOf(r)); at < |bucket| && bucket[at] == r
  {
    DecisionSpelledOut(ix, r);
    var earlier := RecordsOf(ix, BucketOf(r));
    forall i | 0 <= i < |earlier| ensures KeyOf(earlier[i]) != KeyOf(r) {
      assert KeyOf(ix.byBucket[BucketOf(r)][i]) in ix.seen;
    }
    FoundIfThere(earlier + [r], KeyOf(r), |earlier|);
  }

  lemma KnownIsDurable(s: State, r: Record)
    requires ViewOk(s) && HistoryOk(s.durable, s.acked, s.answered) && s.loaded && ByteLe(s.durable, s.visible)
    ensures s.view.seen <= Load(BARE, Recs(s.durable)).value.seen
    ensures AtItsIndex(s.view, r) ==> AtItsIndex(Load(BARE, Recs(s.durable)).value, r)
  {
    ByteLeContent(s.durable, s.visible);
    EntriesMonotone(Content(s.durable), Content(s.visible));
    OneMoreBetween(s.known, Recs(s.durable), Recs(s.visible));
    if Recs(s.durable) != s.known {
      var x :| Recs(s.durable) == s.known + [Entry(x)] && Appendable(s.view, x);
      ReloadAfterAppend(BARE, s.known, x);
      RememberPlaces(s.view, x, r);
    }
  }

  /** The append settles with an answer about a record the view holds. */
  lemma AnswerKeeps(cfg: Config, s: State, acked: set<Record>, answered: set<Key>)
    requires Inv(cfg, s) && s.loaded && !Writing(s.append) && !s.append.AJoined?
    requires forall r :: r in acked ==> r in s.acked || AtItsIndex(s.view, r)
    requires forall k :: k in answered ==> k in s.answered || k in s.view.seen
    ensures Inv(cfg, s.(append := AIdle, acked := acked, answered := answered))
  {
    AnswersAreDurable(cfg, s, acked, answered);
    AnswerAside(cfg, s, acked, answered);
  }

  lemma AnswerAside(cfg: Config, s: State, acked: set<Record>, answered: set<Key>)
    requires Inv(cfg, s) && !Writing(s.append) && !s.append.AJoined? && HistoryOk(s.durable, acked, answered)
    requires forall r :: r in acked ==> r in s.acked || (s.loaded && AtItsIndex(s.view, r))
    ensures Inv(cfg, s.(append := AIdle, acked := acked, answered := answered))
  {
    hide DiskOk, Load, OneMore, Recs, Entries, Appendable, AtItsIndex, LoadPcOk, Headed, HistoryOk, JobOk;
  }

  lemma AnswersAreDurable(cfg: Config, s: State, acked: set<Record>, answered: set<Key>)
    requires Inv(cfg, s) && s.loaded
    requires forall r :: r in acked ==> r in s.acked || AtItsIndex(s.view, r)
    requires forall k :: k in answered ==> k in s.answered || k in s.view.seen
    ensures HistoryOk(s.durable, acked, answered)
  {
    assert ViewOk(s) && HistoryOk(s.durable, s.acked, s.answered) && ByteLe(s.durable, s.visible);
    KnownIsDurable(s, RecordFor(Request(0, "", "", "", "", ""), 0));
    hide Inv, ViewOk, ByteLe, AtItsIndex, Load, Recs;
    forall r | r in acked ensures AtItsIndex(Load(BARE, Recs(s.durable)).value, r) {
      KnownIsDurable(s, r);
    }
  }

  /** A write that failed, or may have: both flags go up with the step that learns it. */
  lemma MarkKeeps(cfg: Config, s: State, job: Job, a: AppendPc)
    requires Inv(cfg, s) && JobOk(s, job) && (a == AClosing(job, true) || a == ABarrier(job))
    requires s.append.AOpening? || s.append.AClosing? || Writing(s.append)
    ensures Inv(cfg, Mark(s).(append := a))
  {
    hide DiskOk, Load, OneMore, Recs, AtItsIndex, LoadPcOk, Headed, HistoryOk;
  }

  /** Whatever the view holds under the job's key is the job's own record, or there is nothing. */
  lemma LookupIsOurs(s: State, job: Job)
    requires JobOk(s, job) && ViewOk(s)
    ensures var bucket := RecordsOf(s.view, BucketOf(job.record));
      var at := FindKey(bucket, KeyOf(job.record));
      at < |bucket| ==> bucket[at] == job.record && AtItsIndex(s.view, job.record)
  {
    var bucket := RecordsOf(s.view, BucketOf(job.record));
    var at := FindKey(bucket, KeyOf(job.record));
    if at < |bucket| {
      LoadIsCoherent(BARE, s.known);
      assert KeyOf(s.view.byBucket[BucketOf(job.record)][at]) in s.view.seen;
      FoundIsOurs(s, job);
    }
  }

  lemma ResumeSpelledOut(s: State, job: Job) returns (acked: set<Record>)
    requires JobOk(s, job) && ViewOk(s)
    ensures acked == s.acked || (acked == s.acked + {job.record} && AtItsIndex(s.view, job.record))
    ensures ResumeWith(s, job) == s.(append := AIdle, acked := acked)
  {
    hide ViewOk, JobOk, AtItsIndex, RecordsOf, Load, Appendable;
    LookupIsOurs(s, job);
    acked := ResumeWith(s, job).acked;
  }

  lemma ResumeKeeps(cfg: Config, s: State)
    requires Inv(cfg, s) && s.append.AResuming?
    ensures Inv(cfg, ResumeWith(s, s.append.job))
  {
    JobHolds(s);
    assert s.loaded;
    var acked := ResumeSpelledOut(s, s.append.job);
    AnswerKeeps(cfg, s, acked, s.answered);
    hide Inv, JobOk, ViewOk, ResumeWith, AtItsIndex;
  }

  lemma OpenedKeeps(cfg: Config, s: State)
    requires Inv(cfg, s) && s.append.AOpening?
    ensures Inv(cfg, s.(append := AWriting(s.append.job, s.visible.lines)))
  {
    Established(s);
    assert File(s.visible.lines, Clean) == s.visible;
    hide DiskOk, Load, OneMore, AtItsIndex, LoadPcOk, HistoryOk;
  }

  lemma WrittenKeeps(cfg: Config, s: State)
    requires Inv(cfg, s) && s.append.AWriting? && s.visible == Land(s.append.base, Entry(s.append.job.record), Whole)
    ensures Inv(cfg, s.(append := ASyncing(s.append.job)))
  {
    var job, base := s.append.job, s.append.base;
    assert AppendOk(s);
    hide Inv, Appendable, Load;
    EntriesAppend(base, Entry(job.record));
    HeadedMore(base, Entry(job.record));
    assert Recs(s.visible) == Entries(base + [Entry(job.record)]);
    hide Recs, Entries, Headed;
    WrittenAside(cfg, s);
  }

  lemma WrittenAside(cfg: Config, s: State)
    requires Inv(cfg, s) && s.append.AWriting? && s.visible.tail == Clean && Headed(s.visible.lines)
    requires Recs(s.visible) == s.append.job.from + [Entry(s.append.job.record)]
    ensures Inv(cfg, s.(append := ASyncing(s.append.job)))
  {
    hide DiskOk, Load, OneMore, Recs, Entries, AtItsIndex, LoadPcOk, HistoryOk, Headed, Appendable;
  }

  lemma ClosedKeeps(cfg: Config, s: State)
    requires Inv(cfg, s) && s.append.AClosing? && !s.append.failed
    ensures Inv(cfg, s.(append := AIdle, acked := s.acked + {s.append.job.record}))
  {
    assert s.loaded && AtItsIndex(s.view, s.append.job.record);
    AnswerKeeps(cfg, s, s.acked + {s.append.job.record}, s.answered);
    hide Inv;
  }

  /** The job in hand, at every step that has one. */
  lemma JobHolds(s: State)
    requires AppendOk(s) && !s.append.AIdle? && !s.append.AWaiting? && !s.append.AReady?
    ensures JobOk(s, s.append.job)
  {
  }

  lemma BarrierKeeps(cfg: Config, s: State, ok: bool)
    requires Inv(cfg, s) && s.append.ABarrier?
    ensures Inv(cfg, if ok then FileSynced(s).(append := AJoining(s.append.job)) else s.(append := AIdle))
  {
    hide Inv;
    if ok {
      SyncKeeps(cfg, s);
      RetryMoves(cfg, FileSynced(s), AJoining(s.append.job));
    } else {
      RetryMoves(cfg, s, AIdle);
    }
  }

  lemma RetryMoves(cfg: Config, s: State, a: AppendPc)
    requires Inv(cfg, s) && s.append.ABarrier? && (a == AIdle || a == AJoining(s.append.job))
    ensures Inv(cfg, s.(append := a))
  {
    hide DiskOk, Load, OneMore, Recs, Entries, Appendable, AtItsIndex, LoadPcOk, Headed, HistoryOk;
  }

  lemma JoinKeeps(cfg: Config, s: State)
    requires Inv(cfg, s) && s.append.AJoining?
    ensures Inv(cfg, AppendStep(s, Join).value)
  {
    hide DiskOk, Load, OneMore, Recs, Entries, Appendable, AtItsIndex, Headed, HistoryOk;
  }

  lemma QueueKeeps(cfg: Config, s: State, e: Event)
    requires Inv(cfg, s) && (s.append.AIdle? || s.append.AWaiting?) && AppendStep(s, e).Some?
    ensures Inv(cfg, AppendStep(s, e).value)
  {
    hide DiskOk, Load, OneMore, Recs, Entries, Appendable, AtItsIndex, LoadPcOk, Headed, HistoryOk;
  }

  lemma AppendStepKeeps(cfg: Config, s: State, e: Event)
    requires Inv(cfg, s) && AppendStep(s, e).Some?
    ensures Inv(cfg, AppendStep(s, e).value)
  {
    hide Inv;
    match s.append
    case AIdle => QueueKeeps(cfg, s, e);
    case AWaiting(_) => QueueKeeps(cfg, s, e);
    case AReady(_) => DecideKeeps(cfg, s);
    case ABarrier(_) => BarrierKeeps(cfg, s, e.ok);
    case AJoining(_) => JoinKeeps(cfg, s);
    case AResuming(_) => ResumeKeeps(cfg, s);
    case _ => WriteStepKeeps(cfg, s, e);
  }

  /** From opening the file to closing it. */
  lemma WriteStepKeeps(cfg: Config, s: State, e: Event)
    requires Inv(cfg, s) && AppendStep(s, e).Some?
    requires s.append.AOpening? || Writing(s.append) || s.append.AClosing?
    ensures Inv(cfg, AppendStep(s, e).value)
  {
    hide Inv, ByteLe, Land, Remember;
    JobInHand(cfg, s);
    match s.append
    case AOpening(job) => if e.ok { OpenedKeeps(cfg, s); } else { MarkKeeps(cfg, s, job, ABarrier(job)); }
    case AWriting(job, _) =>
      if e.Lands? { LandsKeeps(cfg, s, e.landing); }
      else if e == Written { WrittenKeeps(cfg, s); }
      else { MarkKeeps(cfg, s, job, AClosing(job, true)); }
    case ASyncing(job) => if e.ok { SyncedKeeps(cfg, s); } else { MarkKeeps(cfg, s, job, AClosing(job, true)); }
    case AClosing(job, failed) =>
      if e.ok && !failed {
        ClosedKeeps(cfg, s);
      } else {
        MarkKeeps(cfg, s, job, ABarrier(job));
      }
  }

  lemma JobInHand(cfg: Config, s: State)
    requires Inv(cfg, s) && !s.append.AIdle? && !s.append.AWaiting? && !s.append.AReady?
    ensures JobOk(s, s.append.job)
  {
    JobHolds(s);
    hide DiskOk, ViewOk, HistoryOk, AppendOk, LoadOk, JobOk;
  }

  lemma HeadedMore(lines: seq<Line>, line: Line)
    requires Headed(lines) || line.Header?
    ensures Headed(lines + [line])
  {
    var more := lines + [line];
    if line.Header? {
      assert more[|lines|].Header?;
    } else {
      var k :| 0 <= k < |lines| && lines[k].Header?;
      assert more[k].Header?;
    }
  }

  // ---- the load ---------------------------------------------------------------------------------------

  /** No file this machine can reach is ever refused, so a load fails only because storage did. */
  lemma FileLoads(cfg: Config, s: State)
    requires Inv(cfg, s)
    ensures Load(cfg, Content(s.visible)).Ok? && Load(BARE, Recs(s.visible)).Ok?
    ensures Load(cfg, Content(s.visible)).value == Load(BARE, Recs(s.visible)).value
  {
    ByteLeRefl(s.visible);
    DiskLoads(cfg, s.durable, s.visible, s.visible);
  }

  /** A load under way may go on to any step whose reliance holds. */
  lemma LoadGoesTo(cfg: Config, s: State, l: LoadPc)
    requires Inv(cfg, s) && Busy(s.load) && Busy(l) && !l.LBarrier? && LoadPcOk(cfg, s.durable, s.visible, l)
    requires l.LStamping? && s.loaded ==> Flagged(s)
    ensures Inv(cfg, s.(load := l))
  {
    hide DiskOk, HistoryOk, LoadPcOk, Recs, Load;
  }

  /** A view that is not marked is of a file with its header. */
  lemma UnmarkedIsHeaded(cfg: Config, s: State)
    requires Inv(cfg, s) && s.load.LReading? && s.loaded && !Flagged(s)
    ensures Headed(s.visible.lines)
  {
    hide DiskOk, HistoryOk, LoadPcOk, Recs, Load, AppendOk;
    Established(s);
  }

  /** What a repaired file leads to. */
  lemma RepairedNext(cfg: Config, s: State, raw: File)
    requires DiskOk(cfg, s.durable, s.visible) && RawOk(cfg, s.durable, s.visible, raw)
    requires s.visible.tail == Clean && s.visible.lines == Content(raw)
    requires s.loaded && !Flagged(s) ==> Headed(s.visible.lines)
    ensures var s' := Repaired(cfg, s, raw);
      && (s'.load.LStamping? || s'.load.LFinishing?) && s' == s.(load := s'.load)
      && LoadPcOk(cfg, s.durable, s.visible, s'.load) && (s'.load.LStamping? && s.loaded ==> Flagged(s))
  {
    HeadersAtTop(cfg, s.durable, s.visible);
    ScanByEntries(cfg, Content(raw));
  }

  /** The state a repaired file leads to: it never fails. */
  lemma RepairedKeeps(cfg: Config, s: State, raw: File)
    requires Inv(cfg, s) && s.load.LReading? && RawOk(cfg, s.durable, s.visible, raw)
    requires s.visible.tail == Clean && s.visible.lines == Content(raw)
    ensures Inv(cfg, Repaired(cfg, s, raw))
    ensures Repaired(cfg, s, raw).load.LStamping? || Repaired(cfg, s, raw).load.LFinishing?
  {
    hide DiskOk, ViewOk, HistoryOk, AppendOk, LoadOk, RawOk, Repaired, LoadPcOk;
    if s.loaded && !Flagged(s) { UnmarkedIsHeaded(cfg, s); }
    RepairedNext(cfg, s, raw);
    LoadGoesTo(cfg, s, Repaired(cfg, s, raw).load);
  }

  /** A torn tail is no record, so every record of the file is durable. */
  lemma TornIsDurable(cfg: Config, s: State)
    requires Inv(cfg, s) && s.visible.tail.Torn?
    ensures RawOk(cfg, s.durable, s.visible, s.visible)
  {
    hide ViewOk, HistoryOk, AppendOk, LoadOk;
    FileLoads(cfg, s);
  }

  lemma ReadKeeps(cfg: Config, s: State)
    requires Inv(cfg, s) && s.load.LReading?
    ensures Inv(cfg, AfterRead(cfg, s))
  {
    hide DiskOk, ViewOk, HistoryOk, AppendOk, LoadOk, Repaired, Recs;
    FileLoads(cfg, s);
    match s.visible.tail
    case Torn(_) =>
      TornIsDurable(cfg, s);
      LoadGoesTo(cfg, s, LTruncating(s.visible));
    case Unended(_) => LoadGoesTo(cfg, s, LSyncingTail(s.visible));
    case Clean =>
      if Scan(cfg, Content(s.visible)).value.index.seen != {} {
        LoadGoesTo(cfg, s, LSyncingAll(s.visible));
      } else {
        NoRecordsToLose(cfg, s);
        RepairedKeeps(cfg, s, s.visible);
      }
  }

  /** A file with no record lines has none to force to the disk. */
  lemma NoRecordsToLose(cfg: Config, s: State)
    requires Inv(cfg, s) && Load(cfg, Content(s.visible)).Ok? && Scan(cfg, Content(s.visible)).value.index.seen == {}
    ensures Recs(s.visible) == Recs(s.durable)
  {
    ScanByEntries(cfg, Content(s.visible));
    SeenMeansEntries(Content(s.visible));
    ByteLeContent(s.durable, s.visible);
    EntriesMonotone(Content(s.durable), Content(s.visible));
  }

  /** Cutting a torn tail off loses no record. */
  lemma TruncateOnDisk(cfg: Config, d: File, v: File)
    requires DiskOk(cfg, d, v) && v.tail.Torn?
    ensures DiskOk(cfg, Cut(d, v.lines), File(v.lines, Clean))
    ensures Recs(Cut(d, v.lines)) == Recs(d) == Recs(File(v.lines, Clean))
  {
    var cut := File(v.lines, Clean);
    var d' := Cut(d, v.lines);
    ByteLeRefl(cut);
    OneMoreLoads(Recs(d), Recs(v));
    forall x | ByteLe(d', x) && ByteLe(x, cut) ensures HeadersOk(cfg, Content(x)) {
      HeadersAtTop(cfg, d, v);
      if d' == d {
        ByteLeTransitive(x, cut, v);
      } else {
        assert Content(x) == Content(v);
      }
    }
  }

  lemma TruncateKeeps(cfg: Config, s: State)
    requires Inv(cfg, s) && s.load.LTruncating?
    ensures var raw := s.load.raw;
      Inv(cfg, Repaired(cfg, s.(visible := File(raw.lines, Clean), durable := Cut(s.durable, raw.lines)), raw))
  {
    var raw := s.load.raw;
    var s' := s.(visible := File(raw.lines, Clean), durable := Cut(s.durable, raw.lines), load := LReading);
    TruncateOnDisk(cfg, s.durable, s.visible);
    TruncateAside(cfg, s, s'.durable);
    assert Content(raw) == raw.lines;
    RepairedKeeps(cfg, s', raw);
    hide Inv;
  }

  lemma TruncateAside(cfg: Config, s: State, d: File)
    requires Inv(cfg, s) && s.load.LTruncating? && Recs(d) == Recs(s.durable)
    requires Recs(File(s.visible.lines, Clean)) == Recs(s.visible)
    ensures var s' := s.(visible := File(s.visible.lines, Clean), durable := d, load := LReading);
      ViewOk(s') && HistoryOk(s'.durable, s'.acked, s'.answered) && AppendOk(s') && LoadOk(cfg, s')
          && RawOk(cfg, s'.durable, s'.visible, s.load.raw)
  {
    hide DiskOk, Load, OneMore, Recs, Entries, Appendable, AtItsIndex, HeadersOk, Headed;
  }

  lemma SyncThenKeeps(cfg: Config, s: State)
    requires Inv(cfg, s) && s.load.LSyncingTail?
    ensures Inv(cfg, FileSynced(s).(load := LEnding(s.load.raw)))
  {
    SyncKeeps(cfg, s);
    FileLoads(cfg, s);
    assert LoadPcOk(cfg, s.durable, s.visible, s.load);
    assert LoadPcOk(cfg, s.visible, s.visible, LEnding(s.load.raw));
    hide Inv, LoadPcOk;
    MoveKeeps(cfg, FileSynced(s), LEnding(s.load.raw));
  }

  lemma NewlineKeeps(cfg: Config, s: State)
    requires Inv(cfg, s) && s.load.LEnding?
    ensures var raw := s.load.raw; Inv(cfg, s.(visible := File(Content(raw), Clean), load := LSyncingEnd(raw)))
  {
    DiskEnd(cfg, s.durable, s.visible);
    var v := File(Content(s.visible), Clean);
    assert Content(v) == Content(s.visible) && Recs(v) == Recs(s.visible);
    assert LoadPcOk(cfg, s.durable, s.visible, s.load) && LoadPcOk(cfg, s.durable, v, LSyncingEnd(s.load.raw));
    hide Inv, DiskOk, LoadPcOk;
    VisibleAside(cfg, s, v, LSyncingEnd(s.load.raw));
  }

  /** A load rewrites the file without changing its records. */
  lemma VisibleAside(cfg: Config, s: State, v: File, l: LoadPc)
    requires Inv(cfg, s) && Busy(s.load) && Busy(l) && !l.LBarrier? && !l.LStamping? && Recs(v) == Recs(s.visible)
    requires s.visible.tail != Clean || v == s.visible
    requires DiskOk(cfg, s.durable, v) && LoadPcOk(cfg, s.durable, v, l)
    ensures Inv(cfg, s.(visible := v, load := l))
  {
    hide DiskOk, Load, OneMore, Recs, Entries, Appendable, AtItsIndex, HeadersOk, Headed, LoadPcOk, HistoryOk;
  }

  /** Supplying the missing newline. */
  lemma DiskEnd(cfg: Config, d: File, v: File)
    requires DiskOk(cfg, d, v) && v.tail.Unended?
    ensures DiskOk(cfg, d, File(Content(v), Clean))
  {
    var v' := File(Content(v), Clean);
    forall x | ByteLe(d, x) && ByteLe(x, v') ensures HeadersOk(cfg, Content(x)) {
      if x == v' { HeadersAtTop(cfg, d, v); } else { assert ByteLe(x, v); }
    }
    ByteLeTransitive(d, v, v');
  }

  /** What a load that syncs the file last knows about it. */
  lemma SyncingPc(cfg: Config, s: State)
    requires Inv(cfg, s) && (s.load.LSyncingEnd? || s.load.LSyncingAll?)
    ensures s.visible.tail == Clean && s.visible.lines == Content(s.load.raw)
    ensures RawOk(cfg, s.visible, s.visible, s.load.raw)
  {
    FileLoads(cfg, s);
    assert LoadPcOk(cfg, s.durable, s.visible, s.load);
    hide Inv, Load;
  }

  lemma TailDoneKeeps(cfg: Config, s: State)
    requires Inv(cfg, s) && (s.load.LSyncingEnd? || s.load.LSyncingAll?)
    ensures Inv(cfg, Repaired(cfg, FileSynced(s), s.load.raw))
  {
    hide Inv, Load, LoadPcOk, RawOk, Scan;
    SyncingPc(cfg, s);
    SyncKeeps(cfg, s);
    MoveToReading(cfg, FileSynced(s));
    RepairedKeeps(cfg, FileSynced(s).(load := LReading), s.load.raw);
  }

  lemma MoveToReading(cfg: Config, s: State)
    requires Inv(cfg, s) && Busy(s.load)
    ensures Inv(cfg, s.(load := LReading))
  {
    MoveKeeps(cfg, s, LReading);
  }

  lemma StampOnDisk(cfg: Config, d: File, v: File, base: seq<Line>, landing: Landing)
    requires DiskOk(cfg, d, v) && HeadersOk(cfg, base) && Recs(d) == Entries(base)
    requires v.lines == base || v == File(base + [Header(ScheduleOf(cfg))], Clean)
    requires ByteLe(v, Land(base, Header(ScheduleOf(cfg)), landing))
    ensures DiskOk(cfg, d, Land(base, Header(ScheduleOf(cfg)), landing))
  {
    var line := Header(ScheduleOf(cfg));
    RecsLanding(base, line, landing);
    HeadedMore(base, line);
    EntriesAppend(base, line);
    HeadersMatchMore(cfg, d, v, base);
    hide Load, Appendable, HeadersMatch;
    DiskLand(cfg, d, v, base, line, landing);
  }

  /** The stamp names the configured schedule, so it agrees with whatever the file already says. */
  lemma HeadersMatchMore(cfg: Config, d: File, v: File, base: seq<Line>)
    requires DiskOk(cfg, d, v) && HeadersOk(cfg, base)
    ensures HeadersMatch(cfg, base + [Header(ScheduleOf(cfg))])
  {
    var more := base + [Header(ScheduleOf(cfg))];
    assert cfg.schedule.Some?;
    hide DiskOk;
    forall i | 0 <= i < |more|
      ensures !more[i].Garbled? && (more[i].Header? ==> Some(more[i].schedule) == cfg.schedule) {
      if i < |base| { assert more[i] == base[i]; }
    }
  }

  lemma StampLandsKeeps(cfg: Config, s: State, landing: Landing)
    requires Inv(cfg, s) && s.load.LStamping? && ByteLe(s.visible, Land(s.load.base, Header(ScheduleOf(cfg)), landing))
    ensures Inv(cfg, s.(visible := Land(s.load.base, Header(ScheduleOf(cfg)), landing)))
  {
    StampingPc(cfg, s, landing);
    hide DiskOk, ViewOk, HistoryOk, AppendOk, LoadOk, LoadPcOk, Load, Recs, Entries, HeadersOk, ByteLe, Land;
    StampOnDisk(cfg, s.durable, s.visible, s.load.base, landing);
    StampLandsAside(cfg, s, landing);
  }

  /** What a load that is writing the header knows about the file. */
  lemma StampingPc(cfg: Config, s: State, landing: Landing)
    requires LoadOk(cfg, s) && s.load.LStamping?
    ensures var base := s.load.base;
      && Recs(s.visible) == Recs(s.durable) == Entries(base) && HeadersOk(cfg, base)
      && (s.visible.lines == base || s.visible == File(base + [Header(ScheduleOf(cfg))], Clean))
      && Recs(Land(base, Header(ScheduleOf(cfg)), landing)) == Recs(s.visible)
  {
    assert LoadPcOk(cfg, s.durable, s.visible, s.load);
    RecsLanding(s.load.base, Header(ScheduleOf(cfg)), landing);
    hide Load, Recs, Entries, HeadersOk, Land;
  }

  /** The rest of the invariant sees a header land only through the records, which it does not change. */
  lemma StampLandsAside(cfg: Config, s: State, landing: Landing)
    requires s.load.LStamping? && ViewOk(s) && HistoryOk(s.durable, s.acked, s.answered) && AppendOk(s)
      && LoadOk(cfg, s)
    requires Recs(Land(s.load.base, Header(ScheduleOf(cfg)), landing)) == Recs(s.visible)
    ensures var s' := s.(visible := Land(s.load.base, Header(ScheduleOf(cfg)), landing));
      ViewOk(s') && HistoryOk(s'.durable, s'.acked, s'.answered) && AppendOk(s') && LoadOk(cfg, s')
  {
    hide Load, OneMore, Recs, Entries, Appendable, AtItsIndex, HeadersOk;
  }

  /** A load moves on without touching anything else. */
  lemma MoveKeeps(cfg: Config, s: State, l: LoadPc)
    requires Inv(cfg, s) && Busy(s.load) && Busy(l) && !l.LBarrier? && !l.LStamping?
    requires LoadPcOk(cfg, s.durable, s.visible, l)
    ensures Inv(cfg, s.(load := l))
  {
    hide DiskOk, Load, OneMore, Recs, Entries, Appendable, AtItsIndex, HeadersOk, Headed, LoadPcOk;
  }

  lemma StampedPc(cfg: Config, d: File, v: File, raw: File, base: seq<Line>)
    requires LoadPcOk(cfg, d, v, LStamping(raw, base)) && v == Land(base, Header(ScheduleOf(cfg)), Whole)
    ensures LoadPcOk(cfg, d, v, LSyncingStamp(raw))
  {
    hide RawOk, Headed, Load, Recs, Entries, HeadersOk;
    HeadedMore(base, Header(ScheduleOf(cfg)));
  }

  lemma StampWrittenKeeps(cfg: Config, s: State)
    requires Inv(cfg, s) && s.load.LStamping? && s.visible == Land(s.load.base, Header(ScheduleOf(cfg)), Whole)
    ensures Inv(cfg, s.(load := LSyncingStamp(s.load.raw)))
  {
    assert LoadPcOk(cfg, s.durable, s.visible, s.load);
    hide Inv, LoadPcOk, Land;
    StampedPc(cfg, s.durable, s.visible, s.load.raw, s.load.base);
    MoveKeeps(cfg, s, LSyncingStamp(s.load.raw));
  }

  lemma StampSyncedKeeps(cfg: Config, s: State)
    requires Inv(cfg, s) && s.load.LSyncingStamp?
    ensures Inv(cfg, FileSynced(s).(load := LFinishing(s.load.raw)))
  {
    SyncKeeps(cfg, s);
    MoveKeeps(cfg, FileSynced(s), LFinishing(s.load.raw));
  }

  lemma InstallSpelledOut(cfg: Config, s: State, raw: File)
    requires cfg.schedule.Some? && RawOk(cfg, s.durable, s.visible, raw)
    ensures InstallMaps(cfg, s, raw)
         == s.(view := Load(BARE, Recs(s.visible)).value, known := Recs(s.visible), loaded := true,
               load := if s.loaded then LClearing else LIdle)
  {
  }

  lemma InstallKeeps(cfg: Config, s: State)
    requires Inv(cfg, s) && s.load.LFinishing?
    ensures Inv(cfg, InstallMaps(cfg, s, s.load.raw))
  {
    assert RawOk(cfg, s.durable, s.visible, s.load.raw) && s.visible.tail == Clean && Headed(s.visible.lines) by {
      assert LoadPcOk(cfg, s.durable, s.visible, s.load);
    }
    InstallSpelledOut(cfg, s, s.load.raw);
    InstallAside(cfg, s);
  }

  function Installed(s: State): State
    requires Load(BARE, Recs(s.visible)).Ok?
  {
    s.(view := Load(BARE, Recs(s.visible)).value, known := Recs(s.visible), loaded := true,
       load := if s.loaded then LClearing else LIdle)
  }

  lemma InstallAside(cfg: Config, s: State)
    requires Inv(cfg, s) && s.load.LFinishing? && s.visible.tail == Clean && Headed(s.visible.lines)
    requires Load(BARE, Recs(s.visible)).Ok? && Recs(s.visible) == Recs(s.durable)
    ensures Inv(cfg, Installed(s))
  {
    InstalledView(cfg, s);
    InstalledJob(cfg, s);
    assert DiskOk(cfg, s.durable, s.visible) && HistoryOk(s.durable, s.acked, s.answered);
    assert LoadOk(cfg, Installed(s)) by { InstalledLoad(cfg, s); }
    hide DiskOk, Load, Recs, ViewOk, AppendOk, LoadOk, HistoryOk;
  }

  lemma InstalledLoad(cfg: Config, s: State)
    requires Inv(cfg, s) && s.load.LFinishing? && Load(BARE, Recs(s.visible)).Ok?
    ensures LoadOk(cfg, Installed(s))
  {
    hide DiskOk, ViewOk, HistoryOk, JobOk, Recs, Load;
  }

  lemma InstalledView(cfg: Config, s: State)
    requires Inv(cfg, s) && s.load.LFinishing? && s.visible.tail == Clean && Headed(s.visible.lines)
    requires Load(BARE, Recs(s.visible)).Ok? && Recs(s.visible) == Recs(s.durable)
    ensures ViewOk(Installed(s))
  {
    hide DiskOk, Load, Recs, Entries, AtItsIndex, Headed, Appendable, AppendOk, LoadOk;
  }

  /** A job that already saw its record remembered finds the same view installed again. */
  lemma InstalledJob(cfg: Config, s: State)
    requires Inv(cfg, s) && s.load.LFinishing? && Load(BARE, Recs(s.visible)).Ok? && Recs(s.visible) == Recs(s.durable)
    ensures AppendOk(Installed(s))
  {
    assert ViewOk(s) && AppendOk(s) && LoadOk(cfg, s);
    hide Inv, Load, Recs, Entries, AtItsIndex, Appendable, LoadPcOk, Complete, OneMore;
    if s.append.AClosing? && !s.append.failed {
      assert s.known <= Recs(s.visible) && JobOk(s, s.append.job);
      assert Recs(s.visible) == s.known;
    }
    JobInstalled(s);
  }

  lemma JobInstalled(s: State)
    requires AppendOk(s) && !s.load.LIdle? && Load(BARE, Recs(s.visible)).Ok?
    requires !s.append.AReady? && !s.append.AOpening? && !Writing(s.append) && (s.append.AJoined? ==> s.loaded)
    requires s.append.AClosing? && !s.append.failed ==> Installed(s).view == s.view && Installed(s).known == s.known
    ensures AppendOk(Installed(s))
  {
    hide Load, Recs, Entries, AtItsIndex, Appendable;
  }

  lemma ClearKeeps(cfg: Config, s: State)
    requires Inv(cfg, s) && s.load.LClearing?
    ensures Inv(cfg, Cleared(s))
  {
    hide DiskOk, Load, OneMore, Recs, Entries, Appendable, AtItsIndex, HeadersOk, Headed;
  }

  lemma FailKeeps(cfg: Config, s: State)
    requires Inv(cfg, s) && !s.load.LIdle? && !s.load.LClearing?
    ensures Inv(cfg, FailLoad(s))
  {
  }

  lemma StartKeeps(cfg: Config, s: State)
    requires Inv(cfg, s) && s.load.LIdle? && LoadStep(cfg, s, StartLoad).Some?
    ensures Inv(cfg, LoadStep(cfg, s, StartLoad).value)
  {
    hide DiskOk, Load, OneMore, Recs, Entries, Appendable, AtItsIndex, HeadersOk, Headed;
  }

  lemma BarrierHeldKeeps(cfg: Config, s: State)
    requires Inv(cfg, s) && s.load.LBarrier?
    ensures Inv(cfg, FileSynced(s).(load := LReading))
  {
    SyncKeeps(cfg, s);
    MoveKeeps(cfg, FileSynced(s), LReading);
  }

  lemma LoadStepKeeps(cfg: Config, s: State, e: Event)
    requires Inv(cfg, s) && LoadStep(cfg, s, e).Some?
    ensures Inv(cfg, LoadStep(cfg, s, e).value)
  {
    hide Inv, AfterRead, InstallMaps, Repaired, FailLoad, FileSynced, Cleared;
    if e == LoadFails {
      FailKeeps(cfg, s);
    } else {
      match s.load
      case LIdle => StartKeeps(cfg, s);
      case LBarrier => BarrierHeldKeeps(cfg, s);
      case LReading => ReadKeeps(cfg, s);
      case LTruncating(_) => TruncateKeeps(cfg, s);
      case LSyncingTail(_) => SyncThenKeeps(cfg, s);
      case LEnding(_) => NewlineKeeps(cfg, s);
      case LSyncingEnd(_) => TailDoneKeeps(cfg, s);
      case LSyncingAll(_) => TailDoneKeeps(cfg, s);
      case LStamping(_, _) =>
        if e.StampLands? {
          StampLandsKeeps(cfg, s, e.landing);
        } else {
          StampWrittenKeeps(cfg, s);
        }
      case LSyncingStamp(_) => StampSyncedKeeps(cfg, s);
      case LFinishing(_) => InstallKeeps(cfg, s);
      case LClearing => ClearKeeps(cfg, s);
    }
  }

  lemma StepKeeps(cfg: Config, s: State, e: Event)
    requires Inv(cfg, s) && Step(cfg, s, e).Some?
    ensures Inv(cfg, Step(cfg, s, e).value)
  {
    hide Inv, DiskStep, AppendStep, LoadStep;
    if DiskStep(s, e).Some? {
      DiskStepKeeps(cfg, s, e);
    } else if AppendStep(s, e).Some? {
      AppendStepKeeps(cfg, s, e);
    } else {
      LoadStepKeeps(cfg, s, e);
    }
  }

  /** A fresh process over any file the loader accepts. */
  lemma StartHolds(cfg: Config, f: File)
    requires cfg.schedule.Some? && Load(cfg, Content(f)).Ok?
    ensures Inv(cfg, Start(f))
  {
    LoadByEntries(cfg, Content(f));
    ByteLeRefl(f);
    assert DiskOk(cfg, f, f) by {
      forall x | ByteLe(f, x) && ByteLe(x, f) ensures HeadersOk(cfg, Content(x)) {
        ByteLeContent(f, x);
        ByteLeContent(x, f);
        assert Content(x) == Content(f);
      }
    }
    hide DiskOk, Load, Recs;
  }

  /** In every run, of any length and with any failures, from any accepted file. */
  lemma {:induction false} RunKeeps(cfg: Config, f: File, events: seq<Event>)
    requires cfg.schedule.Some? && Load(cfg, Content(f)).Ok?
    ensures Inv(cfg, Run(cfg, Start(f), events))
  {
    hide Inv, Step;
    if |events| == 0 {
      StartHolds(cfg, f);
    } else {
      var front := events[..|events| - 1];
      RunKeeps(cfg, f, front);
      if Step(cfg, Run(cfg, Start(f), front), events[|events| - 1]).Some? {
        StepKeeps(cfg, Run(cfg, Start(f), front), events[|events| - 1]);
      }
    }
  }
}

/**
  The season manager running over the log itself (core/season.js over core/registration_store.js): one
  machine in which every await of a queued operation is a step, and the log takes any steps of its own in
  between. What an operation does at each step is `Season`'s; what it reads is the log's view; the write it
  waits for is the log's append. `level` is kept for the proof alone: the contexts whose last operation was
  answered, by a commit, a recovery or a first read, and whose tree no later commit has left in doubt.
 */
module SeasonOverLog {
  import opened LogFile
  import opened LogStore
  import opened RegistrationLog
  import opened Wrappers
  import G = RegistrationGuarantees
  import P = RegistrationProtocol
  import S = Season

  /** What the queue's operation in hand is waiting for. */
  datatype Op =
    | Free
    | Ensuring(season: int, context: string)
    | Recovering(season: int, context: string)
    | Materializing(d: Request, byNullifier: bool)
    | Reconciling(d: Request, byNullifier: bool)
    | Asking(d: Request)                            // whether the nullifier is spent
    | Writing(d: Request, before: Index)            // before: what the view was when the write was asked for

  datatype Joint<T> = Joint(log: P.State, cache: S.Cache<T>, op: Op, level: set<string>)

  /** What a commit meets between its last read and its write. */
  datatype Checks = Checks(season: Option<int>, regressed: bool, stale: bool, throws: bool)

  datatype Event =
    | OnLog(e: P.Event, ts: int)
    | Ensure(season: int)
    | EnsureContext(season: int, context: string)
    | Recover(season: int, context: string)
    | Commit(d: Request, byNullifier: bool)
    | ReadAnswers(ts: int, checks: Checks)
    | ReadThrows

  /** What the season sees. */
  function Seen<T>(j: Joint<T>): S.State<T> {
    S.State(j.cache, Shown(j.log))
  }

  function Start<T>(f: File): Joint<T> {
    Joint(P.Start(f), S.Cache(None, map[]), Free, {})
  }

  // ---- steps -----------------------------------------------------------------------------------------

  function Rolled<T>(scfg: S.Config<T>, j: Joint<T>, season: int): Joint<T> {
    var cache := S.Roll(scfg, Seen(j), season).state.cache;
    j.(cache := cache, level := if cache.current == j.cache.current then j.level else {})
  }

  function Built<T>(j: Joint<T>, cache: S.Cache<T>, context: string): Joint<T> {
    j.(cache := cache, op := Free, level := if context in cache.contexts then j.level + {context} else j.level)
  }

  /** From the last read on: the refusals, and the write. */
  function Proceed<T>(scfg: S.Config<T>, j: Joint<T>, d: Request, byNullifier: bool, checks: Checks): Joint<T> {
    var context := d.contextHash;
    var m := S.Meets(S.Answers(true), S.Answers(true), S.Answers(true), checks.season, checks.regressed, S.Answered, 0);
    if S.Refusal(scfg, Seen(j), d.season, context, d, byNullifier, m).Some? || checks.stale || !Admissible(d) then
      Built(j, j.cache, context)
    else if checks.throws then j.(op := Free)
    else
      match P.AppendStep(j.log, P.Enqueue(d))
      case None => j.(op := Free)
      case Some(log) => Joint(log, j.cache, Writing(d, j.log.view), j.level - {context})
  }

  /** The read in hand is answered, out of the view. */
  function Answered<T>(scfg: S.Config<T>, j: Joint<T>, ts: int, checks: Checks): Option<Joint<T>> {
    match j.op
    case Ensuring(season, context) =>
      var o := S.EnsureContext(scfg, Seen(j), season, context, S.Answers(true), ts);
      Some(if o.Threw? then j.(op := Free) else Built(j, o.state.cache, context))
    case Recovering(season, context) =>
      var o := S.RecoverMember(scfg, Seen(j), season, context, S.Answers(true), ts);
      Some(if o.Threw? then j.(op := Free) else Built(j, o.state.cache, context))
    case Materializing(d, byNullifier) =>
      var o := S.Materialize(scfg, Seen(j), d.contextHash, S.Members(j.log.view, d.season, d.contextHash), ts);
      Some(if o.Threw? then j.(op := Free) else j.(cache := o.state.cache, op := Reconciling(d, byNullifier)))
    case Reconciling(d, byNullifier) =>
      var o := S.ReconcileIfBehind(scfg, Seen(j), d.season, d.contextHash, S.Answers(true), ts);
      var j' := j.(cache := o.state.cache);
      Some(if o.Threw? then j.(op := Free) else if byNullifier then j'.(op := Asking(d))
          else Proceed(scfg, j', d, false, checks))
    case Asking(d) => Some(Proceed(scfg, j, d, true, checks))
    case _ => None
  }

  /** The append the commit waited for has ended, and the log with it stands at this state. */
  function Finish<T>(scfg: S.Config<T>, j: Joint<T>, log: P.State, ts: int): Joint<T>
    requires j.op.Writing?
  {
    var context := j.op.d.contextHash;
    match P.ReplyTo(j.log)
    case Wrote(r) =>
      if context in j.cache.contexts && r.index >= 0 then
        Joint(log, S.Mirror(scfg, S.State(j.cache, S.Store(j.op.before, None)), context, r, ts).state.cache, Free,
            j.level + {context})
      else Joint(log, j.cache, Free, j.level)
    case Failed => Joint(log, j.cache, Free, j.level)
    case _ => Joint(log, j.cache, Free, j.level + {context})
  }

  /** The log moves; the process may end with it, or the write it was asked for. */
  function LogStep<T>(cfg: Config, scfg: S.Config<T>, j: Joint<T>, e: P.Event, ts: int): Option<Joint<T>> {
    if e.Enqueue? then None
    else
      match P.Step(cfg, j.log, e)
      case None => None
      case Some(log) =>
        Some(if e.PowerLoss? || e.Kill? then Joint(log, S.Cache(None, map[]), Free, {})
             else if j.op.Writing? && log.append.AIdle? then Finish(scfg, j, log, ts)
             else j.(log := log))
  }

  function Begun<T>(scfg: S.Config<T>, j: Joint<T>, e: Event): Option<Joint<T>> {
    match e
    case Ensure(season) => Some(Rolled(scfg, j, season))
    case EnsureContext(season, context) =>
      var j' := Rolled(scfg, j, season);
      Some(if S.Roll(scfg, Seen(j), season).Threw? || context in j'.cache.contexts then j'
          else j'.(op := Ensuring(season, context)))
    case Recover(season, context) => Some(if j.cache.current != Some(season) then j
        else j.(op := Recovering(season, context)))
    case Commit(d, byNullifier) =>
      Some(if j.cache.current != Some(d.season) then j
           else j.(op := if d.contextHash in j.cache.contexts then Reconciling(d, byNullifier)
               else Materializing(d, byNullifier)))
    case _ => None
  }

  function Step<T>(cfg: Config, scfg: S.Config<T>, j: Joint<T>, e: Event): Option<Joint<T>> {
    match e
    case OnLog(e, ts) => LogStep(cfg, scfg, j, e, ts)
    case ReadAnswers(ts, checks) => if Readable(j.log) then Answered(scfg, j, ts, checks) else None
    case ReadThrows => if j.op.Free? || j.op.Writing? then None else Some(j.(op := Free))
    case _ => if j.op.Free? then Begun(scfg, j, e) else None
  }

  /** A run: every event that is enabled where it occurs takes effect. */
  function Run<T>(cfg: Config, scfg: S.Config<T>, j: Joint<T>, events: seq<Event>): Joint<T> {
    if |events| == 0 then j
    else
      var before := Run(cfg, scfg, j, events[..|events| - 1]);
      var after := Step(cfg, scfg, before, events[|events| - 1]);
      if after.Some? then after.value else before
  }

  // ---- the invariant ---------------------------------------------------------------------------------

  /** A level tree is all of its durable bucket, and a record still in doubt belongs to another. */
  ghost predicate LevelOk<T>(cache: S.Cache<T>, st: S.Store, level: set<string>) {
    forall c :: c in level ==>
      && cache.current.Some? && c in cache.contexts
      && cache.contexts[c].members == S.Members(st.index, cache.current.value, c)
      && (st.uncertain.Some? ==> BucketOf(st.uncertain.value) != Bucket(cache.current.value, c))
  }

  ghost predicate OpOk<T(!new)>(scfg: S.Config<T>, j: Joint<T>) {
    && (!j.op.Writing? ==> j.log.append.AIdle?)
    && match j.op
       case Free => true
       case Ensuring(season, context) => j.cache.current == Some(season) && context !in j.cache.contexts
       case Recovering(season, context) => j.cache.current == Some(season)
       case Materializing(d, _) => j.cache.current == Some(d.season) && d.contextHash !in j.cache.contexts
       case Reconciling(d, _) => j.cache.current == Some(d.season) && d.contextHash in j.cache.contexts
       case Asking(d) => j.cache.current == Some(d.season) && Readable(j.log)
           && S.Level(Seen(j), d.season, d.contextHash)
       case Writing(d, before) =>
         var s := S.State(j.cache, S.Store(before, None));
         && j.cache.current == Some(d.season) && Admissible(d) && WriteOk(j.log, d, before) && d.contextHash !in j.level
         && S.Inv(scfg, s) && S.Level(s, d.season, d.contextHash) && S.SizeOf(s, d.contextHash) < scfg.capacity
  }

  ghost predicate JointOk<T(!new)>(cfg: Config, scfg: S.Config<T>, j: Joint<T>) {
    P.Inv(cfg, j.log) && S.Inv(scfg, Seen(j)) && OpOk(scfg, j) && LevelOk(j.cache, Shown(j.log), j.level)
  }

  // ---- the log's steps -------------------------------------------------------------------------------

  lemma LevelMoves<T>(cache: S.Cache<T>, a: S.Store, b: S.Store, level: set<string>, m: Move)
    requires LevelOk(cache, a, level) && Moved(a, b, m)
    requires m.Raises? ==> forall c :: c in level ==>
      cache.current.Some? && BucketOf(m.record) != Bucket(cache.current.value, c)
    ensures LevelOk(cache, b, level)
  {
    if m.Settles? && m.landed && a.uncertain.Some? {
      forall c | c in level
        ensures S.Members(b.index, cache.current.value, c) == S.Members(a.index, cache.current.value, c) {
        assert RecordsOf(b.index, Bucket(cache.current.value, c)) == RecordsOf(a.index, Bucket(cache.current.value, c));
      }
    }
  }

  lemma SeasonMoves<T(!new)>(scfg: S.Config<T>, cache: S.Cache<T>, a: S.Store, b: S.Store, m: Move)
    requires S.Inv(scfg, S.State(cache, a)) && Moved(a, b, m)
    requires m.Raises? ==> S.Bounded(scfg, Remember(a.index, m.record))
    ensures S.Inv(scfg, S.State(cache, b))
  {
    hide S.Inv, S.Bounded, Appendable;
    var s := S.State(cache, a);
    match m
    case Stays =>
    case Settles(landed) =>
      S.SettleKeeps(scfg, s, landed);
      assert s.(store := S.Settle(a, landed)) == S.State(cache, b);
    case Raises(r) => S.UncertainKeeps(scfg, s, r); assert s.(store := S.Store(a.index, Some(r))) == S.State(cache, b);
  }

  /** Bytes landing are the write in hand's, whose place in the tree is free. */
  lemma RaisedRecord<T(!new)>(cfg: Config, scfg: S.Config<T>, j: Joint<T>) returns (d: Request, before: Index)
    requires P.Inv(cfg, j.log) && OpOk(scfg, j) && j.log.append.AWriting?
    ensures j.op == Writing(d, before) && j.cache.current == Some(d.season) && d.contextHash !in j.level
    ensures var r := j.log.append.job.record;
      r.index >= 0 && r == RecordFor(d, r.index) && S.Bounded(scfg, Remember(before, r)) && Shown(j.log).index == before
  {
    hide P.Inv, S.Inv, S.Bounded, Load, Remember, Shown;
    d, before := j.op.d, j.op.before;
    WritingShows(cfg, j.log, before);
    S.StaysBounded(scfg, S.State(j.cache, S.Store(before, None)), d.contextHash, j.log.append.job.record);
  }

  lemma WritingShows(cfg: Config, log: P.State, before: Index)
    requires P.Inv(cfg, log) && log.append.AWriting? && Load(BARE, log.append.job.from) == Ok(before)
    ensures Shown(log).index == before
  {
    hide P.Inv, Load;
    ShownIndex(cfg, log);
    WritingPc(cfg, log);
  }

  lemma OthersBuckets(level: set<string>, r: Record, d: Request)
    requires d.contextHash !in level && r.index >= 0 && r == RecordFor(d, r.index)
    ensures forall c :: c in level ==> BucketOf(r) != Bucket(d.season, c)
  {
  }

  /** A step of the log, on what the season knows. */
  lemma LogMoveKeeps<T(!new)>(cfg: Config, scfg: S.Config<T>, j: Joint<T>, e: P.Event)
    requires JointOk(cfg, scfg, j) && P.Step(cfg, j.log, e).Some?
    ensures var l := P.Step(cfg, j.log, e).value;
      P.Inv(cfg, l) && S.Inv(scfg, S.State(j.cache, Shown(l))) && LevelOk(j.cache, Shown(l), j.level)
  {
    hide P.Inv, P.Step, S.Inv, S.Bounded, LevelOk, Shown, Moved, OpOk;
    P.StepKeeps(cfg, j.log, e);
    var m := LogMoves(cfg, j.log, e);
    if m.Raises? {
      var d, before := RaisedRecord(cfg, scfg, j);
      OthersBuckets(j.level, m.record, d);
    }
    var l := P.Step(cfg, j.log, e).value;
    SeasonMoves(scfg, j.cache, Shown(j.log), Shown(l), m);
    LevelMoves(j.cache, Shown(j.log), Shown(l), j.level, m);
  }

  /** The process ends: the trees are gone, the log is what it left. */
  lemma DeathKeeps<T(!new)>(cfg: Config, scfg: S.Config<T>, j: Joint<T>, e: P.Event)
    requires JointOk(cfg, scfg, j) && (e.PowerLoss? || e.Kill?) && P.Step(cfg, j.log, e).Some?
    ensures JointOk(cfg, scfg, Joint(P.Step(cfg, j.log, e).value, S.Cache(None, map[]), Free, {}))
  {
    hide P.Inv, S.StoreOk, Shown, OpOk;
    LogMoveKeeps(cfg, scfg, j, e);
    DeadIsIdle(cfg, j.log, e);
    var j': Joint<T> := Joint(P.Step(cfg, j.log, e).value, S.Cache(None, map[]), Free, {});
    FreeOk(scfg, j');
  }

  lemma DeadIsIdle(cfg: Config, s: P.State, e: P.Event)
    requires (e.PowerLoss? || e.Kill?) && P.Step(cfg, s, e).Some?
    ensures P.Step(cfg, s, e).value.append.AIdle?
  {
    hide P.AppendStep, P.LoadStep;
  }

  lemma FreeOk<T(!new)>(scfg: S.Config<T>, j: Joint<T>)
    requires j.op.Free? && j.log.append.AIdle?
    ensures OpOk(scfg, j)
  {
  }

  /** The log moves while an operation waits for something else. */
  lemma OpWaits<T(!new)>(cfg: Config, scfg: S.Config<T>, j: Joint<T>, e: P.Event)
    requires JointOk(cfg, scfg, j) && P.Step(cfg, j.log, e).Some? && Ordinary(e)
    requires var l := P.Step(cfg, j.log, e).value; !j.op.Writing? || !l.append.AIdle?
    ensures OpOk(scfg, j.(log := P.Step(cfg, j.log, e).value))
  {
    hide P.Inv, P.Step, S.Inv, LevelOk, Shown, WriteOk, S.Level, Readable;
    var l := P.Step(cfg, j.log, e).value;
    match j.op
    case Asking(d) =>
      QuietStep(cfg, j.log, e);
      P.StepKeeps(cfg, j.log, e);
      ReadableAgain(cfg, j.log, l);
      assert S.Level(Seen(j.(log := l)), d.season, d.contextHash) by { assert Seen(j.(log := l)) == Seen(j); }
    case Writing(d, before) => WriteGoesOn(cfg, j.log, e, d, before);
    case _ => IdleStaysIdle(cfg, j.log, e);
  }

  lemma ReadableAgain(cfg: Config, s: P.State, s': P.State)
    requires P.Inv(cfg, s) && P.Inv(cfg, s') && Readable(s) && Readable(s') && s.append.AIdle? && s'.append.AIdle?
      && s'.view == s.view
    ensures Shown(s') == Shown(s)
  {
    ReadableIsSettled(cfg, s);
    ReadableIsSettled(cfg, s');
    hide P.Inv, Shown;
  }

  lemma WriteGoesOn(cfg: Config, s: P.State, e: P.Event, d: Request, before: Index)
    requires P.Inv(cfg, s) && WriteOk(s, d, before) && P.Step(cfg, s, e).Some? && Ordinary(e)
    ensures var s' := P.Step(cfg, s, e).value; s'.append.AIdle? || WriteOk(s', d, before)
  {
    hide P.Inv, P.Step, Load, Decide;
    if s.append.AWaiting? {
      WaitingGoesOn(cfg, s, e, d, before);
    } else if s.append.AReady? {
      ReadyGoesOn(cfg, s, e, d, before);
    } else {
      JobGoesOn(cfg, s, e, d, before);
    }
  }

  // ---- what the operations do ------------------------------------------------------------------------

  /** Other contexts only ever grow, and a level one has nothing to grow by. */
  lemma LevelStays<T(!new)>(scfg: S.Config<T>, s: S.State<T>, s': S.State<T>, level: set<string>, most: nat)
    requires LevelOk(s.cache, s.store, level) && S.AllGrew(scfg, s, s', most) && S.Inv(scfg, s') && s'.store == s.store
    ensures LevelOk(s'.cache, s.store, level)
  {
    hide S.StoreOk, S.ContextOk, S.Members;
    forall c | c in level
      ensures c in s'.cache.contexts && s'.cache.contexts[c].members == s.cache.contexts[c].members {
      assert S.Grew(scfg, s.cache.contexts[c], s'.cache.contexts[c], most);
      assert s'.cache.contexts[c].members <= S.Members(s.store.index, s.cache.current.value, c);
    }
  }

  /** One more context is level, with nothing in doubt. */
  lemma LevelMore<T>(s: S.State<T>, level: set<string>, season: int, context: string)
    requires LevelOk(s.cache, s.store, level) && s.store.uncertain.None?
    requires s.cache.current == Some(season) && (context in s.cache.contexts ==> S.Level(s, season, context))
    ensures LevelOk(s.cache, s.store, if context in s.cache.contexts then level + {context} else level)
  {
  }

  /** With nothing in doubt a read changes nothing in the store. */
  lemma ReadsLeaveStore<T(!new)>(scfg: S.Config<T>, s: S.State<T>, season: int, context: string, ts: int)
    requires s.store.uncertain.None?
    ensures S.EnsureContext(scfg, s, season, context, S.Answers(true), ts).state.store == s.store
    ensures S.RecoverMember(scfg, s, season, context, S.Answers(true), ts).state.store == s.store
    ensures S.ReconcileIfBehind(scfg, s, season, context, S.Answers(true), ts).state.store == s.store
  {
    hide S.Members, S.Build;
  }

  /** An operation that is answered: its context is level. */
  lemma BuiltOk<T(!new)>(cfg: Config, scfg: S.Config<T>, j: Joint<T>, s': S.State<T>, season: int, context: string,
                         most: nat)
    requires P.Inv(cfg, j.log) && j.log.append.AIdle? && LevelOk(j.cache, Shown(j.log), j.level)
    requires S.Inv(scfg, s') && S.AllGrew(scfg, Seen(j), s', most) && s'.store == Shown(j.log)
      && s'.store.uncertain.None?
    requires s'.cache.current == Some(season) && (context in s'.cache.contexts ==> S.Level(s', season, context))
    ensures JointOk(cfg, scfg, Built(j, s'.cache, context))
  {
    hide P.Inv, S.Inv, LevelOk, Shown, S.AllGrew, S.Level, OpOk;
    LevelStays(scfg, Seen(j), s', j.level, most);
    LevelMore(s', j.level, season, context);
    FreeOk(scfg, Built(j, s'.cache, context));
    assert Seen(Built(j, s'.cache, context)) == s';
  }

  lemma EndedOk<T(!new)>(cfg: Config, scfg: S.Config<T>, j: Joint<T>)
    requires P.Inv(cfg, j.log) && j.log.append.AIdle? && S.Inv(scfg, Seen(j)) && LevelOk(j.cache, Shown(j.log), j.level)
    ensures JointOk(cfg, scfg, j.(op := Free))
  {
    hide P.Inv, S.Inv, LevelOk, Shown, OpOk;
    FreeOk(scfg, j.(op := Free));
    assert Seen(j.(op := Free)) == Seen(j);
  }

  /** The state a read is answered in. */
  lemma ReadState<T(!new)>(cfg: Config, scfg: S.Config<T>, j: Joint<T>)
    requires JointOk(cfg, scfg, j) && Readable(j.log) && !j.op.Writing?
    ensures j.log.append.AIdle? && Shown(j.log) == S.Store(j.log.view, None)
  {
    hide P.Inv, S.Inv, LevelOk, Shown;
    ReadableIsSettled(cfg, j.log);
  }

  lemma EnsuringAnswered<T(!new)>(cfg: Config, scfg: S.Config<T>, j: Joint<T>, ts: int, checks: Checks)
    requires JointOk(cfg, scfg, j) && Readable(j.log) && j.op.Ensuring?
    ensures JointOk(cfg, scfg, Answered(scfg, j, ts, checks).value)
  {
    hide P.Inv, S.Inv, LevelOk, Shown, S.AllGrew, S.Level, S.EnsureContext, Built;
    ReadState(cfg, scfg, j);
    var season, context := j.op.season, j.op.context;
    S.EnsureContextKeeps(scfg, Seen(j), season, context, S.Answers(true), ts);
    ReadsLeaveStore(scfg, Seen(j), season, context, ts);
    var o := S.EnsureContext(scfg, Seen(j), season, context, S.Answers(true), ts);
    if o.Threw? { EndedOk(cfg, scfg, j); } else { BuiltOk(cfg, scfg, j, o.state, season, context, 0); }
  }

  lemma RecoveringAnswered<T(!new)>(cfg: Config, scfg: S.Config<T>, j: Joint<T>, ts: int, checks: Checks)
    requires JointOk(cfg, scfg, j) && Readable(j.log) && j.op.Recovering?
    ensures JointOk(cfg, scfg, Answered(scfg, j, ts, checks).value)
  {
    hide P.Inv, S.Inv, LevelOk, Shown, S.Grew, S.RecoverMember, Built;
    ReadState(cfg, scfg, j);
    var season, context := j.op.season, j.op.context;
    S.RecoverKeeps(scfg, Seen(j), season, context, S.Answers(true), ts);
    ReadsLeaveStore(scfg, Seen(j), season, context, ts);
    var o := S.RecoverMember(scfg, Seen(j), season, context, S.Answers(true), ts);
    if o.Threw? { EndedOk(cfg, scfg, j); } else { BuiltOk(cfg, scfg, j, o.state, season, context, 1); }
  }

  lemma MaterializingAnswered<T(!new)>(cfg: Config, scfg: S.Config<T>, j: Joint<T>, ts: int, checks: Checks)
    requires JointOk(cfg, scfg, j) && Readable(j.log) && j.op.Materializing?
    ensures JointOk(cfg, scfg, Answered(scfg, j, ts, checks).value)
  {
    hide P.Inv, S.Inv, LevelOk, Shown, S.Grew, S.Materialize;
    ReadState(cfg, scfg, j);
    var d := j.op.d;
    S.MaterializeKeeps(scfg, Seen(j), d.contextHash, ts);
    var o := S.Materialize(scfg, Seen(j), d.contextHash, S.Members(j.log.view, d.season, d.contextHash), ts);
    LevelStays(scfg, Seen(j), o.state, j.level, 0);
    assert Seen(Answered(scfg, j, ts, checks).value) == o.state;
  }

  /** From the last read on, with the tree level. */
  lemma ProceedKeeps<T(!new)>(cfg: Config, scfg: S.Config<T>, j: Joint<T>, d: Request, byNullifier: bool,
                              checks: Checks)
    requires P.Inv(cfg, j.log) && S.Inv(scfg, Seen(j)) && LevelOk(j.cache, Shown(j.log), j.level)
    requires j.log.append.AIdle? && Readable(j.log) && Shown(j.log) == S.Store(j.log.view, None)
    requires j.cache.current == Some(d.season) && S.Level(Seen(j), d.season, d.contextHash)
    ensures JointOk(cfg, scfg, Proceed(scfg, j, d, byNullifier, checks))
  {
    hide P.Inv, S.Inv, LevelOk, Shown, S.AllGrew, S.Level, OpOk, Built, Admissible;
    NothingGrew(scfg, Seen(j));
    BuiltOk(cfg, scfg, j, Seen(j), d.season, d.contextHash, 0);
    EndedOk(cfg, scfg, j);
    EnqueuedOk(cfg, scfg, j, d);
  }

  lemma NothingGrew<T(!new)>(scfg: S.Config<T>, s: S.State<T>)
    requires S.Inv(scfg, s)
    ensures S.AllGrew(scfg, s, s, 0)
  {
    hide S.Inv, S.AllGrew;
    S.NoneGrew(scfg, s, s, 0);
  }

  /** The write is in the log's hands, and its context out of the level ones until it is answered. */
  lemma EnqueuedOk<T(!new)>(cfg: Config, scfg: S.Config<T>, j: Joint<T>, d: Request)
    requires P.Inv(cfg, j.log) && S.Inv(scfg, Seen(j)) && LevelOk(j.cache, Shown(j.log), j.level)
    requires j.log.append.AIdle? && Readable(j.log) && Shown(j.log) == S.Store(j.log.view, None)
    requires j.cache.current == Some(d.season) && S.Level(Seen(j), d.season, d.contextHash)
    ensures Admissible(d) && S.SizeOf(Seen(j), d.contextHash) < scfg.capacity ==>
      JointOk(cfg, scfg,
          Joint(P.AppendStep(j.log, P.Enqueue(d)).value, j.cache, Writing(d, j.log.view), j.level - {d.contextHash}))
  {
    hide P.Inv, S.Inv, Shown, S.Level, Admissible;
    if Admissible(d) && S.SizeOf(Seen(j), d.contextHash) < scfg.capacity {
      P.QueueKeeps(cfg, j.log, P.Enqueue(d));
      SameRecords(j.log, P.AppendStep(j.log, P.Enqueue(d)).value);
      assert Seen(j) == S.State(j.cache, S.Store(j.log.view, None));
    }
  }

  /** The reconcile that every commit starts with. */
  lemma ReconciledOk<T(!new)>(cfg: Config, scfg: S.Config<T>, j: Joint<T>, ts: int)
    requires JointOk(cfg, scfg, j) && Readable(j.log) && j.op.Reconciling?
    ensures var d := j.op.d;
      var o := S.ReconcileIfBehind(scfg, Seen(j), d.season, d.contextHash, S.Answers(true), ts);
      && o.Done? && o.state.store == Shown(j.log) == S.Store(j.log.view, None) && j.log.append.AIdle?
      && S.Inv(scfg, o.state) && o.state.cache.current == Some(d.season) && S.Level(o.state, d.season, d.contextHash)
      && LevelOk(o.state.cache, Shown(j.log), j.level)
  {
    hide P.Inv, S.Inv, LevelOk, Shown, S.Grew, S.ReconcileIfBehind, S.Level;
    ReadState(cfg, scfg, j);
    var d := j.op.d;
    S.ReconcileKeeps(scfg, Seen(j), d.season, d.contextHash, S.Answers(true), ts);
    ReadsLeaveStore(scfg, Seen(j), d.season, d.contextHash, ts);
    LevelStays(scfg, Seen(j), S.ReconcileIfBehind(scfg, Seen(j), d.season, d.contextHash, S.Answers(true), ts).state,
        j.level, 1);
  }

  lemma ReconcilingAnswered<T(!new)>(cfg: Config, scfg: S.Config<T>, j: Joint<T>, ts: int, checks: Checks)
    requires JointOk(cfg, scfg, j) && Readable(j.log) && j.op.Reconciling?
    ensures JointOk(cfg, scfg, Answered(scfg, j, ts, checks).value)
  {
    hide P.Inv, S.Inv, LevelOk, Shown, S.ReconcileIfBehind, S.Level, Proceed;
    ReconciledOk(cfg, scfg, j, ts);
    var d := j.op.d;
    var o := S.ReconcileIfBehind(scfg, Seen(j), d.season, d.contextHash, S.Answers(true), ts);
    var j' := j.(cache := o.state.cache);
    assert Seen(j') == o.state;
    if j.op.byNullifier {
      assert Seen(j'.(op := Asking(d))) == o.state;
    } else {
      ProceedKeeps(cfg, scfg, j', d, false, checks);
    }
  }

  lemma AnsweredKeeps<T(!new)>(cfg: Config, scfg: S.Config<T>, j: Joint<T>, ts: int, checks: Checks)
    requires JointOk(cfg, scfg, j) && Readable(j.log) && Answered(scfg, j, ts, checks).Some?
    ensures JointOk(cfg, scfg, Answered(scfg, j, ts, checks).value)
  {
    hide P.Inv, S.Inv, LevelOk, Shown, S.Level, Proceed, Built, WriteOk;
    match j.op
    case Ensuring(_, _) => EnsuringAnswered(cfg, scfg, j, ts, checks);
    case Recovering(_, _) => RecoveringAnswered(cfg, scfg, j, ts, checks);
    case Materializing(_, _) => MaterializingAnswered(cfg, scfg, j, ts, checks);
    case Reconciling(_, _) => ReconcilingAnswered(cfg, scfg, j, ts, checks);
    case Asking(d) =>
      ReadState(cfg, scfg, j);
      ProceedKeeps(cfg, scfg, j, d, true, checks);
  }

  // ---- the end of a write ----------------------------------------------------------------------------

  lemma MirrorElsewhere<T(!new)>(scfg: S.Config<T>, s: S.State<T>, context: string, r: Record, ts: int)
    requires context in s.cache.contexts && r.index >= 0
    ensures var cache := S.Mirror(scfg, s, context, r, ts).state.cache;
      && cache.current == s.cache.current
      && forall c :: c != context ==>
           (c in cache.contexts <==> c in s.cache.contexts)
               && (c in cache.contexts ==> cache.contexts[c] == s.cache.contexts[c])
  {
    hide S.Build;
  }

  lemma LevelElsewhere<T>(a: S.Cache<T>, b: S.Cache<T>, st: S.Store, level: set<string>, context: string)
    requires LevelOk(a, st, level) && b.current == a.current && st.uncertain.None? && b.current.Some?
    requires forall c :: c != context ==>
      (c in b.contexts <==> c in a.contexts) && (c in b.contexts ==> b.contexts[c] == a.contexts[c])
    requires context in b.contexts && b.contexts[context].members == S.Members(st.index, b.current.value, context)
    ensures LevelOk(b, st, level + {context})
  {
  }

  /** The record is durable and in the view, and the tree takes it at the place the log gave it. */
  lemma WrittenKeeps<T(!new)>(cfg: Config, scfg: S.Config<T>, j: Joint<T>, log: P.State, r: Record, ts: int)
    requires OpOk(scfg, j) && j.op.Writing? && log.append.AIdle? && P.Inv(cfg, log)
      && LevelOk(j.cache, Shown(log), j.level)
    requires Decide(j.op.before, j.op.d) == Write(r) && Shown(log) == S.Store(Remember(j.op.before, r), None)
    ensures var context := j.op.d.contextHash;
      && context in j.cache.contexts && r.index >= 0
      && var o := S.Mirror(scfg, S.State(j.cache, S.Store(j.op.before, None)), context, r, ts);
         && JointOk(cfg, scfg, Joint(log, o.state.cache, Free, j.level + {context}))
         && o.Done? && o.state.store == Shown(log) && S.Settled(scfg, o.state, context, j.op.d, o.answer)
  {
    hide P.Inv, S.Inv, LevelOk, Shown, WriteOk, S.Mirror, Remember, Admissible, S.AllGrew;
    var d, before := j.op.d, j.op.before;
    var context := d.contextHash;
    var s := S.State(j.cache, S.Store(before, None));
    assert Appendable(before, r) && r == RecordFor(d, r.index);
    S.MirrorKeeps(scfg, s, context, r, ts);
    RememberPlaces(before, r, r);
    MirrorElsewhere(scfg, s, context, r, ts);
    var o := S.Mirror(scfg, s, context, r, ts);
    LevelElsewhere(j.cache, o.state.cache, Shown(log), j.level, context);
    var j' := Joint(log, o.state.cache, Free, j.level + {context});
    FreeOk(scfg, j');
    assert Seen(j') == o.state;
  }

  /** Nothing was written: the tree is still the bucket it was. */
  lemma RefusedKeeps<T(!new)>(cfg: Config, scfg: S.Config<T>, j: Joint<T>, log: P.State)
    requires OpOk(scfg, j) && j.op.Writing? && log.append.AIdle? && P.Inv(cfg, log)
      && LevelOk(j.cache, Shown(log), j.level)
    requires Shown(log) == S.Store(j.op.before, None)
    ensures JointOk(cfg, scfg, Joint(log, j.cache, Free, j.level + {j.op.d.contextHash}))
  {
    hide P.Inv, S.Inv, Shown, WriteOk;
    var j' := Joint(log, j.cache, Free, j.level + {j.op.d.contextHash});
    assert Seen(j') == S.State(j.cache, S.Store(j.op.before, None));
    FreeOk(scfg, j');
  }

  lemma FinishKeeps<T(!new)>(cfg: Config, scfg: S.Config<T>, j: Joint<T>, e: P.Event, ts: int)
    requires JointOk(cfg, scfg, j) && j.op.Writing? && Ordinary(e)
    requires P.Step(cfg, j.log, e).Some? && P.Step(cfg, j.log, e).value.append.AIdle?
    ensures JointOk(cfg, scfg, Finish(scfg, j, P.Step(cfg, j.log, e).value, ts))
  {
    hide P.Inv, P.Step, S.Inv, LevelOk, Shown, S.Mirror, P.ReplyTo, Remember, S.Level, Decide, S.Settled;
    var d, before, log := j.op.d, j.op.before, P.Step(cfg, j.log, e).value;
    LogMoveKeeps(cfg, scfg, j, e);
    match P.ReplyTo(j.log)
    case Wrote(r) =>
      WrittenIsShown(cfg, j.log, e, d, before);
      WrittenKeeps(cfg, scfg, j, log, r, ts);
    case Failed => FreeOk(scfg, Joint(log, j.cache, Free, j.level));
    case _ =>
      RefusedIsShown(cfg, j.log, e, d, before);
      RefusedKeeps(cfg, scfg, j, log);
  }

  // ---- every run -------------------------------------------------------------------------------------

  lemma LogStepKeeps<T(!new)>(cfg: Config, scfg: S.Config<T>, j: Joint<T>, e: P.Event, ts: int)
    requires JointOk(cfg, scfg, j) && LogStep(cfg, scfg, j, e, ts).Some?
    ensures JointOk(cfg, scfg, LogStep(cfg, scfg, j, e, ts).value)
  {
    hide P.Inv, P.Step, S.Inv, LevelOk, Shown, OpOk, Finish;
    var log := P.Step(cfg, j.log, e).value;
    if e.PowerLoss? || e.Kill? {
      DeathKeeps(cfg, scfg, j, e);
    } else if j.op.Writing? && log.append.AIdle? {
      FinishKeeps(cfg, scfg, j, e, ts);
    } else {
      LogMoveKeeps(cfg, scfg, j, e);
      OpWaits(cfg, scfg, j, e);
    }
  }

  lemma RolledOk<T(!new)>(cfg: Config, scfg: S.Config<T>, j: Joint<T>, season: int)
    requires JointOk(cfg, scfg, j) && j.op.Free?
    ensures JointOk(cfg, scfg, Rolled(scfg, j, season))
    ensures S.Roll(scfg, Seen(j), season).Done? ==> Rolled(scfg, j, season).cache.current == Some(season)
  {
    hide P.Inv, S.Inv, Shown;
    S.RollKeeps(scfg, Seen(j), season);
    assert Seen(Rolled(scfg, j, season)) == S.Roll(scfg, Seen(j), season).state;
  }

  lemma BegunKeeps<T(!new)>(cfg: Config, scfg: S.Config<T>, j: Joint<T>, e: Event)
    requires JointOk(cfg, scfg, j) && j.op.Free? && Begun(scfg, j, e).Some?
    ensures JointOk(cfg, scfg, Begun(scfg, j, e).value)
  {
    hide P.Inv, S.Inv, Shown, S.Roll, Rolled, LevelOk;
    match e
    case Ensure(season) => RolledOk(cfg, scfg, j, season);
    case EnsureContext(season, context) =>
      RolledOk(cfg, scfg, j, season);
      RolledStaysFree(scfg, j, season);
      SeenOp(Rolled(scfg, j, season), Ensuring(season, context));
    case Recover(season, context) => SeenOp(j, Recovering(season, context));
    case Commit(d, byNullifier) =>
      SeenOp(j, Reconciling(d, byNullifier));
      SeenOp(j, Materializing(d, byNullifier));
  }

  lemma RolledStaysFree<T(!new)>(scfg: S.Config<T>, j: Joint<T>, season: int)
    ensures Rolled(scfg, j, season).op == j.op && Rolled(scfg, j, season).log == j.log
  {
  }

  lemma SeenOp<T(!new)>(j: Joint<T>, op: Op)
    ensures Seen(j.(op := op)) == Seen(j)
  {
  }

  lemma StepKeeps<T(!new)>(cfg: Config, scfg: S.Config<T>, j: Joint<T>, e: Event)
    requires JointOk(cfg, scfg, j) && Step(cfg, scfg, j, e).Some?
    ensures JointOk(cfg, scfg, Step(cfg, scfg, j, e).value)
  {
    hide P.Inv, S.Inv, Shown, LevelOk, LogStep, Answered, Begun;
    match e
    case OnLog(le, ts) => LogStepKeeps(cfg, scfg, j, le, ts);
    case ReadAnswers(ts, checks) => AnsweredKeeps(cfg, scfg, j, ts, checks);
    case ReadThrows => EndedOk(cfg, scfg, j);
    case _ => BegunKeeps(cfg, scfg, j, e);
  }

  /** A process starting over a file whose buckets fit their trees. */
  ghost predicate Fits<T(!new)>(cfg: Config, scfg: S.Config<T>, f: File) {
    cfg.schedule.Some? && Load(cfg, Content(f)).Ok? && S.Bounded(scfg, Load(cfg, Content(f)).value)
  }

  lemma StartOk<T(!new)>(cfg: Config, scfg: S.Config<T>, f: File)
    requires Fits(cfg, scfg, f)
    ensures JointOk(cfg, scfg, Start(f))
  {
    hide P.Inv, Load, S.Bounded, Entries, Content, Shown;
    P.StartHolds(cfg, f);
    LoadByEntries(cfg, Content(f));
    ShownAtStart(f);
  }

  lemma ShownAtStart(f: File)
    requires Load(BARE, Recs(f)).Ok?
    ensures Shown(P.Start(f)) == S.Store(Load(BARE, Recs(f)).value, None)
  {
    hide Load, Recs;
  }

  /** In every run of the two together: the log's invariant, the season's over what the log shows, and every
      level tree the whole of its durable bucket. */
  lemma {:induction false} RunKeeps<T(!new)>(cfg: Config, scfg: S.Config<T>, f: File, events: seq<Event>)
    requires Fits(cfg, scfg, f)
    ensures JointOk(cfg, scfg, Run(cfg, scfg, Start(f), events))
  {
    hide JointOk, Step, Fits;
    if |events| == 0 {
      StartOk(cfg, scfg, f);
    } else {
      var front := events[..|events| - 1];
      RunKeeps(cfg, scfg, f, front);
      var j := Run(cfg, scfg, Start(f), front);
      if Step(cfg, scfg, j, events[|events| - 1]).Some? { StepKeeps(cfg, scfg, j, events[|events| - 1]); }
    }
  }

  // ---- every run is a run of the season alone -----------------------------------------------------------

  lemma {:induction false} SeasonRunTwice<T>(scfg: S.Config<T>, s: S.State<T>, a: seq<S.Event>, b: seq<S.Event>)
    ensures S.Run(scfg, s, a + b) == S.Run(scfg, S.Run(scfg, s, a), b)
  {
    if |b| == 0 {
      assert a + b == a;
    } else {
      assert (a + b)[..|a + b| - 1] == a + b[..|b| - 1];
      SeasonRunTwice(scfg, s, a, b[..|b| - 1]);
    }
  }

  lemma SeasonRunOne<T>(scfg: S.Config<T>, s: S.State<T>, e: S.Event)
    ensures S.Run(scfg, s, []) == s && S.Run(scfg, s, [e]) == S.Step(scfg, s, e)
  {
    assert [e][..0] == [];
  }

  /** What a commit meets that stops at its first throwing await, or at its write. */
  function StoppedAt(reconcile: S.Access, has: S.Access, write: S.WriteOutcome, ts: int): S.Meets {
    S.Meets(S.Answers(true), reconcile, has, None, false, write, ts)
  }

  /** A record raised is a commit that threw after its write. */
  lemma RaiseIsCommit<T(!new)>(scfg: S.Config<T>, s: S.State<T>, d: Request, r: Record)
    requires s.store.uncertain.None? && s.cache.current == Some(d.season) && S.Level(s, d.season, d.contextHash)
    requires S.SizeOf(s, d.contextHash) < scfg.capacity && Admissible(d) && Decide(s.store.index, d) == Write(r)
    ensures S.Step(scfg, s, S.DoCommit(d, false, StoppedAt(S.Answers(true), S.Answers(true), S.FailedAfter, 0)))
         == S.State(s.cache, S.Store(s.store.index, Some(r)))
  {
    hide S.Members, Decide, Admissible, S.Build;
  }

  /** A tree that takes the record it wrote is a recovery of it. */
  lemma MirrorIsRecovery<T(!new)>(scfg: S.Config<T>, s: S.State<T>, d: Request, r: Record, ts: int)
    requires s.store.uncertain.None? && s.cache.current == Some(d.season) && S.Level(s, d.season, d.contextHash)
    requires r.index == S.SizeOf(s, d.contextHash) < scfg.capacity && r.season == d.season
      && r.contextHash == d.contextHash
    ensures r.index >= 0
      && S.Step(scfg, S.State(s.cache, S.Store(Remember(s.store.index, r), None)),
           S.DoRecover(d.season, d.contextHash, S.Answers(true), ts))
         == S.Mirror(scfg, s, d.contextHash, r, ts).state
  {
    hide S.Members, Remember, S.Build;
    S.MembersGrow(s.store.index, r, d.season, d.contextHash);
  }

  lemma MaterializeIsCommit<T(!new)>(scfg: S.Config<T>, s: S.State<T>, d: Request, ts: int)
    requires s.store.uncertain.None? && s.cache.current == Some(d.season) && d.contextHash !in s.cache.contexts
    ensures S.Step(scfg, s, S.DoCommit(d, false, StoppedAt(S.Throws, S.Answers(true), S.Stale, ts)))
         == S.Materialize(scfg, s, d.contextHash, S.Members(s.store.index, d.season, d.contextHash), ts).state
  {
    hide S.Members, S.Build;
  }

  lemma ReconcileIsCommit<T(!new)>(scfg: S.Config<T>, s: S.State<T>, d: Request, ts: int)
    requires s.cache.current == Some(d.season) && d.contextHash in s.cache.contexts
    ensures S.Step(scfg, s, S.DoCommit(d, true, StoppedAt(S.Answers(true), S.Throws, S.Stale, ts)))
         == S.ReconcileIfBehind(scfg, s, d.season, d.contextHash, S.Answers(true), ts).state
  {
    hide S.ReconcileIfBehind;
  }

  /** What the log does to the store is what a season's events may do to it. */
  lemma MoveIsSeason<T(!new)>(cfg: Config, scfg: S.Config<T>, j: Joint<T>, e: P.Event) returns (evs: seq<S.Event>)
    requires JointOk(cfg, scfg, j) && P.Step(cfg, j.log, e).Some?
    ensures S.State(j.cache, Shown(P.Step(cfg, j.log, e).value)) == S.Run(scfg, Seen(j), evs)
  {
    hide P.Inv, P.Step, S.Inv, LevelOk, Shown, S.Step, S.Run;
    var m := LogMoves(cfg, j.log, e);
    SeasonRunOne(scfg, Seen(j), S.Restart);
    evs := [];
    match m
    case Stays =>
    case Settles(landed) =>
      evs := [S.StoreRead(landed)];
      SeasonRunOne(scfg, Seen(j), S.StoreRead(landed));
      ReadIsSettle(scfg, Seen(j), landed);
    case Raises(r) =>
      var d, before := RaisedRecord(cfg, scfg, j);
      RaisedFrom(cfg, scfg, j);
      var event := S.DoCommit(d, false, StoppedAt(S.Answers(true), S.Answers(true), S.FailedAfter, 0));
      evs := [event];
      SeasonRunOne(scfg, Seen(j), event);
      RaiseIsCommit(scfg, Seen(j), d, r);
  }

  lemma ReadIsSettle<T>(scfg: S.Config<T>, s: S.State<T>, landed: bool)
    ensures S.Step(scfg, s, S.StoreRead(landed)) == S.State(s.cache, S.Settle(s.store, landed))
  {
  }

  lemma RaisedFrom<T(!new)>(cfg: Config, scfg: S.Config<T>, j: Joint<T>)
    requires JointOk(cfg, scfg, j) && j.op.Writing? && j.log.append.AWriting? && Shown(j.log).index == j.op.before
    ensures var d := j.op.d;
      && Admissible(d) && Decide(j.op.before, d) == Write(j.log.append.job.record)
      && (Shown(j.log).uncertain.None? ==>
           S.Level(Seen(j), d.season, d.contextHash) && S.SizeOf(Seen(j), d.contextHash) < scfg.capacity)
  {
    hide P.Inv, S.Inv, LevelOk, Shown, Admissible, Decide;
    if Shown(j.log).uncertain.None? { assert Seen(j) == S.State(j.cache, S.Store(j.op.before, None)); }
  }

  lemma DeathIsSeason<T(!new)>(cfg: Config, scfg: S.Config<T>, j: Joint<T>, e: P.Event) returns (evs: seq<S.Event>)
    requires JointOk(cfg, scfg, j) && P.Step(cfg, j.log, e).Some?
    ensures S.State(S.Cache(None, map[]), Shown(P.Step(cfg, j.log, e).value)) == S.Run(scfg, Seen(j), evs)
  {
    hide P.Inv, P.Step, S.Inv, LevelOk, Shown, S.Run, OpOk;
    var moved := MoveIsSeason(cfg, scfg, j, e);
    evs := moved + [S.Restart];
    SeasonRunTwice(scfg, Seen(j), moved, [S.Restart]);
    SeasonRunOne(scfg, S.Run(scfg, Seen(j), moved), S.Restart);
  }

  lemma FinishIsSeason<T(!new)>(cfg: Config, scfg: S.Config<T>, j: Joint<T>, e: P.Event, ts: int)
    returns (evs: seq<S.Event>)
    requires JointOk(cfg, scfg, j) && j.op.Writing? && Ordinary(e)
    requires P.Step(cfg, j.log, e).Some? && P.Step(cfg, j.log, e).value.append.AIdle?
    ensures Seen(Finish(scfg, j, P.Step(cfg, j.log, e).value, ts)) == S.Run(scfg, Seen(j), evs)
  {
    hide P.Inv, P.Step, S.Inv, LevelOk, Shown, S.Mirror, P.ReplyTo, Remember, S.Step, S.Run, S.Level, Decide;
    var log := P.Step(cfg, j.log, e).value;
    evs := MoveIsSeason(cfg, scfg, j, e);
    if P.ReplyTo(j.log).Wrote? {
      WrittenIsShown(cfg, j.log, e, j.op.d, j.op.before);
      LogMoveKeeps(cfg, scfg, j, e);
      var r := P.ReplyTo(j.log).record;
      WrittenKeeps(cfg, scfg, j, log, r, ts);
      var event := WrittenIsRecovery(scfg, j, r, ts);
      SeasonRunTwice(scfg, Seen(j), evs, [event]);
      SeasonRunOne(scfg, S.Run(scfg, Seen(j), evs), event);
      evs := evs + [event];
    }
  }

  lemma WrittenIsRecovery<T(!new)>(scfg: S.Config<T>, j: Joint<T>, r: Record, ts: int) returns (event: S.Event)
    requires OpOk(scfg, j) && j.op.Writing? && Decide(j.op.before, j.op.d) == Write(r)
    ensures j.op.d.contextHash in j.cache.contexts && r.index >= 0
    ensures S.Step(scfg, S.State(j.cache, S.Store(Remember(j.op.before, r), None)), event)
         == S.Mirror(scfg, S.State(j.cache, S.Store(j.op.before, None)), j.op.d.contextHash, r, ts).state
  {
    hide S.Mirror, Remember, S.Step, WriteOk, Admissible;
    var d, s := j.op.d, S.State(j.cache, S.Store(j.op.before, None));
    event := S.DoRecover(d.season, d.contextHash, S.Answers(true), ts);
    assert Appendable(j.op.before, r);
    S.NextPlace(scfg, s, d.contextHash, r);
    MirrorIsRecovery(scfg, s, d, r, ts);
  }

  lemma LogStepIsSeason<T(!new)>(cfg: Config, scfg: S.Config<T>, j: Joint<T>, e: P.Event, ts: int)
    returns (evs: seq<S.Event>)
    requires JointOk(cfg, scfg, j) && LogStep(cfg, scfg, j, e, ts).Some?
    ensures Seen(LogStep(cfg, scfg, j, e, ts).value) == S.Run(scfg, Seen(j), evs)
  {
    hide P.Inv, P.Step, S.Inv, LevelOk, Shown, OpOk, Finish, S.Run;
    if e.PowerLoss? || e.Kill? {
      evs := DeathIsSeason(cfg, scfg, j, e);
    } else if j.op.Writing? && P.Step(cfg, j.log, e).value.append.AIdle? {
      evs := FinishIsSeason(cfg, scfg, j, e, ts);
    } else {
      evs := MoveIsSeason(cfg, scfg, j, e);
    }
  }

  lemma ProceedSeen<T(!new)>(scfg: S.Config<T>, j: Joint<T>, d: Request, byNullifier: bool, checks: Checks)
    requires j.log.append.AIdle?
    ensures Seen(Proceed(scfg, j, d, byNullifier, checks)) == Seen(j)
  {
    hide S.Refusal, Shown;
    if P.AppendStep(j.log, P.Enqueue(d)).Some? { SameRecords(j.log, P.AppendStep(j.log, P.Enqueue(d)).value); }
  }

  /** Every read is one of the season's operations, or a commit stopped after it. */
  lemma AnsweredIsSeason<T(!new)>(cfg: Config, scfg: S.Config<T>, j: Joint<T>, ts: int, checks: Checks)
    returns (evs: seq<S.Event>)
    requires JointOk(cfg, scfg, j) && Readable(j.log) && Answered(scfg, j, ts, checks).Some?
    ensures Seen(Answered(scfg, j, ts, checks).value) == S.Run(scfg, Seen(j), evs)
  {
    hide P.Inv, S.Inv, LevelOk, Shown, S.Level, Proceed, S.Run, S.ReconcileIfBehind, S.Materialize, S.EnsureContext,
         S.RecoverMember, WriteOk, S.Commit;
    evs := [];
    SeasonRunOne(scfg, Seen(j), S.Restart);
    if !j.op.Writing? { ReadState(cfg, scfg, j); }
    match j.op
    case Ensuring(season, context) =>
      ReadsLeaveStore(scfg, Seen(j), season, context, ts);
      if S.EnsureContext(scfg, Seen(j), season, context, S.Answers(true), ts).Done? {
        evs := [S.DoEnsureContext(season, context, S.Answers(true), ts)];
        SeasonRunOne(scfg, Seen(j), evs[0]);
      }
    case Recovering(season, context) =>
      ReadsLeaveStore(scfg, Seen(j), season, context, ts);
      if S.RecoverMember(scfg, Seen(j), season, context, S.Answers(true), ts).Done? {
        evs := [S.DoRecover(season, context, S.Answers(true), ts)];
        SeasonRunOne(scfg, Seen(j), evs[0]);
      }
    case Materializing(d, _) =>
      MaterializeIsCommit(scfg, Seen(j), d, ts);
      MaterializeLeavesStore(scfg, Seen(j), d.contextHash, S.Members(j.log.view, d.season, d.contextHash), ts);
      if S.Materialize(scfg, Seen(j), d.contextHash, S.Members(j.log.view, d.season, d.contextHash), ts).Done? {
        evs := [S.DoCommit(d, false, StoppedAt(S.Throws, S.Answers(true), S.Stale, ts))];
        SeasonRunOne(scfg, Seen(j), evs[0]);
      }
    case Reconciling(d, byNullifier) =>
      ReconcileIsCommit(scfg, Seen(j), d, ts);
      ReadsLeaveStore(scfg, Seen(j), d.season, d.contextHash, ts);
      var o := S.ReconcileIfBehind(scfg, Seen(j), d.season, d.contextHash, S.Answers(true), ts);
      if o.Done? {
        ProceedSeen(scfg, j.(cache := o.state.cache), d, byNullifier, checks);
        evs := [S.DoCommit(d, true, StoppedAt(S.Answers(true), S.Throws, S.Stale, ts))];
        SeasonRunOne(scfg, Seen(j), evs[0]);
      }
    case Asking(d) => ProceedSeen(scfg, j, d, true, checks);
  }

  lemma MaterializeLeavesStore<T(!new)>(scfg: S.Config<T>, s: S.State<T>, context: string, members: seq<string>,
                                        ts: int)
    ensures S.Materialize(scfg, s, context, members, ts).state.store == s.store
  {
  }

  lemma BegunIsSeason<T(!new)>(scfg: S.Config<T>, j: Joint<T>, e: Event) returns (evs: seq<S.Event>)
    requires Begun(scfg, j, e).Some?
    ensures Seen(Begun(scfg, j, e).value) == S.Run(scfg, Seen(j), evs)
  {
    hide Shown, S.Run;
    evs := if e.Ensure? || e.EnsureContext? then [S.DoEnsure(e.season)] else [];
    SeasonRunOne(scfg, Seen(j), S.DoEnsure(if e.Ensure? || e.EnsureContext? then e.season else 0));
  }

  lemma StepIsSeason<T(!new)>(cfg: Config, scfg: S.Config<T>, j: Joint<T>, e: Event) returns (evs: seq<S.Event>)
    requires JointOk(cfg, scfg, j) && Step(cfg, scfg, j, e).Some?
    ensures Seen(Step(cfg, scfg, j, e).value) == S.Run(scfg, Seen(j), evs)
  {
    hide JointOk, Shown, LogStep, Answered, Begun, S.Run;
    match e
    case OnLog(le, ts) => evs := LogStepIsSeason(cfg, scfg, j, le, ts);
    case ReadAnswers(ts, checks) => evs := AnsweredIsSeason(cfg, scfg, j, ts, checks);
    case ReadThrows => evs := []; SeasonRunOne(scfg, Seen(j), S.Restart);
    case _ => evs := BegunIsSeason(scfg, j, e);
  }

  /** However the two interleave, await by await, with any failure of the log or the process: what the season
      holds and sees is what some run of its whole operations over a store would leave. */
  lemma {:induction false} RunIsSeason<T(!new)>(cfg: Config, scfg: S.Config<T>, f: File, events: seq<Event>)
    returns (evs: seq<S.Event>)
    requires Fits(cfg, scfg, f)
    ensures Seen(Run(cfg, scfg, Start(f), events)) == S.Run(scfg, S.Start(Load(cfg, Content(f)).value), evs)
  {
    hide JointOk, Step, Shown, S.Run, S.Bounded, Load;
    var s := S.Start(Load(cfg, Content(f)).value);
    if |events| == 0 {
      evs := [];
      LoadByEntries(cfg, Content(f));
      ShownAtStart(f);
      SeasonRunOne(scfg, s, S.Restart);
    } else {
      var front := events[..|events| - 1];
      evs := RunIsSeason(cfg, scfg, f, front);
      RunKeeps(cfg, scfg, f, front);
      var j := Run(cfg, scfg, Start(f), front);
      if Step(cfg, scfg, j, events[|events| - 1]).Some? {
        var more := StepIsSeason(cfg, scfg, j, events[|events| - 1]);
        SeasonRunTwice(scfg, s, evs, more);
        evs := evs + more;
      }
    }
  }
}

/**
  What the queue's commits do to the log (core/season.js over core/registration_store.js), said of the request's
  own fields: which of them reach the write, what is written for them, and what they are told otherwise.
 */
module QueuedCommits {
  import opened LogFile
  import opened LogStore
  import opened RegistrationAnswers
  import opened RegistrationLog
  import opened SeasonOverLog
  import opened Wrappers
  import G = RegistrationGuarantees
  import P = RegistrationProtocol
  import S = Season

  /** None of the reasons a commit has to stop before its write. */
  predicate MayWrite(members: nat, capacity: nat, d: Request, checks: Checks) {
    && members < capacity && (checks.season.None? || checks.season == Some(d.season)) && !checks.regressed
    && !checks.stale && !checks.throws && Admissible(d)
  }

  lemma ViewCoherent(cfg: Config, s: P.State)
    requires P.Inv(cfg, s) && s.loaded
    ensures Coherent(s.view)
  {
    hide DiskOk, P.HistoryOk, P.AppendOk, P.LoadOk, Recs, Load, Coherent;
    LoadIsCoherent(BARE, s.known);
  }

  /** The refusals, of a tree level with the view. */
  lemma ProceedsExactlyWhen<T(!new)>(scfg: S.Config<T>, j: Joint<T>, d: Request, byNullifier: bool, checks: Checks)
    requires j.log.append.AIdle? && Coherent(j.log.view) && Shown(j.log) == S.Store(j.log.view, None)
    requires S.Level(Seen(j), d.season, d.contextHash)
    ensures var j', n := Proceed(scfg, j, d, byNullifier, checks), |Peers(j.log.view, d)|;
      && (j'.op.Writing? <==> !(byNullifier && Spent(j.log.view, d)) && MayWrite(n, scfg.capacity, d, checks))
      && (j'.op.Writing? ==> j' == Joint(j.log.(append := P.AWaiting(d)), j.cache, Writing(d, j.log.view),
                                         j.level - {d.contextHash}))
      && (!j'.op.Writing? ==> j'.log == j.log && j'.cache == j.cache && j'.op.Free?)
  {
    hide Shown, Coherent, Spent, Admissible;
    SpentIsSeen(j.log.view, d);
  }

  /** A commit reaches its write from its last read, exactly when nothing refuses it: its season is still the
      clock's, the clock has not regressed, its anchor is not too old, it is well formed, the tree has room, and
      its nullifier, where it was asked for, is not spent. Otherwise the log is left as it was. */
  lemma WritesExactlyWhen<T(!new)>(cfg: Config, scfg: S.Config<T>, j: Joint<T>, ts: int, checks: Checks)
    requires JointOk(cfg, scfg, j) && Readable(j.log)
    requires j.op.Asking? || (j.op.Reconciling? && !j.op.byNullifier)
    ensures var d, after := j.op.d, Step(cfg, scfg, j, ReadAnswers(ts, checks));
      var n := |Peers(j.log.view, d)|;
      && after.Some?
      && (after.value.op.Writing? <==>
            !(j.op.Asking? && Spent(j.log.view, d)) && MayWrite(n, scfg.capacity, d, checks))
      && (after.value.op.Writing? ==>
            && after.value.op == Writing(d, j.log.view)
            && after.value.log == j.log.(append := P.AWaiting(d)))
      && (!after.value.op.Writing? ==> after.value.log == j.log && after.value.op.Free?)
  {
    hide P.Inv, S.Inv, LevelOk, Shown, S.Level, Coherent, Spent, MayWrite, Proceed, S.ReconcileIfBehind, Peers, WriteOk;
    ReadState(cfg, scfg, j);
    ViewCoherent(cfg, j.log);
    var d := j.op.d;
    if j.op.Asking? {
      ProceedsExactlyWhen(scfg, j, d, true, checks);
    } else {
      ReconciledOk(cfg, scfg, j, ts);
      var o := S.ReconcileIfBehind(scfg, Seen(j), d.season, d.contextHash, S.Answers(true), ts);
      var j' := j.(cache := o.state.cache);
      assert Seen(j') == o.state;
      ProceedsExactlyWhen(scfg, j', d, false, checks);
    }
  }

  /** And in no other way. */
  lemma OnlyReadsLeadToWrites<T(!new)>(cfg: Config, scfg: S.Config<T>, j: Joint<T>, e: Event)
    requires Step(cfg, scfg, j, e).Some? && Step(cfg, scfg, j, e).value.op.Writing? && !j.op.Writing?
    ensures e.ReadAnswers? && Readable(j.log) && (j.op.Asking? || (j.op.Reconciling? && !j.op.byNullifier))
  {
    hide S.Refusal, P.Step, S.EnsureContext, S.RecoverMember, S.Materialize, S.ReconcileIfBehind, S.Roll, Admissible;
  }

  lemma BeforeCoherent(cfg: Config, s: P.State, d: Request, before: Index)
    requires P.Inv(cfg, s) && WriteOk(s, d, before)
    ensures Coherent(before)
  {
    hide P.Inv, Load, Coherent, Decide;
    if s.append.AWaiting? || s.append.AReady? {
      ViewCoherent(cfg, s);
    } else {
      LoadIsCoherent(BARE, s.append.job.from);
    }
  }

  /** A record that is written is the request, at the next place of its season and context; there it joins the
      durable records as their last, and the tree as its last leaf. */
  lemma WrittenJoins<T(!new)>(cfg: Config, scfg: S.Config<T>, j: Joint<T>, e: P.Event, ts: int)
    requires JointOk(cfg, scfg, j) && j.op.Writing? && G.Ends(cfg, j.log, e) && P.ReplyTo(j.log).Wrote?
    ensures var d, before, r := j.op.d, j.op.before, P.ReplyTo(j.log).record;
      var after := Step(cfg, scfg, j, OnLog(e, ts));
      && IsRequest(r, d, |Peers(before, d)|) && !Spent(before, d)
      && after.Some? && after.value.op.Free? && Shown(after.value.log) == S.Store(Remember(before, r), None)
      && Peers(Shown(after.value.log).index, d) == Peers(before, d) + [r]
      && d.contextHash in after.value.cache.contexts && d.contextHash in after.value.level
      && after.value.cache.contexts[d.contextHash].members
         == S.Commitments(Peers(before, d)) + [d.commitment]
  {
    hide P.Inv, P.Step, S.Inv, LevelOk, Shown, S.Mirror, P.ReplyTo, Remember, S.Level, Decide, S.Settled, Coherent,
      Peers, Spent, WriteOk, Finish, JointOk, G.Ends;
    var d, before, r := j.op.d, j.op.before, P.ReplyTo(j.log).record;
    WritingParts(cfg, scfg, j);
    EndsParts(cfg, j.log, e);
    WrittenIsShown(cfg, j.log, e, d, before);
    BeforeCoherent(cfg, j.log, d, before);
    DecidesAsPromised(before, d);
    WritesTheRequest(before, d);
    LogMoveKeeps(cfg, scfg, j, e);
    var log := P.Step(cfg, j.log, e).value;
    WrittenKeeps(cfg, scfg, j, log, r, ts);
    MirroredMembers(scfg, j, r, ts);
    FinishWritten(scfg, j, log, ts);
    StepEnds(cfg, scfg, j, e, ts);
  }

  lemma WritingParts<T(!new)>(cfg: Config, scfg: S.Config<T>, j: Joint<T>)
    requires JointOk(cfg, scfg, j) && j.op.Writing?
    ensures P.Inv(cfg, j.log) && OpOk(scfg, j) && WriteOk(j.log, j.op.d, j.op.before)
    ensures S.Level(S.State(j.cache, S.Store(j.op.before, None)), j.op.d.season, j.op.d.contextHash)
  {
    hide P.Inv, S.Inv, LevelOk, Shown, WriteOk;
  }

  lemma EndsParts(cfg: Config, s: P.State, e: P.Event)
    requires G.Ends(cfg, s, e)
    ensures P.Step(cfg, s, e).Some? && P.Step(cfg, s, e).value.append.AIdle? && Ordinary(e)
  {
    hide P.AfterRead, P.Repaired, P.InstallMaps, P.ResumeWith;
  }

  lemma MirroredMembers<T>(scfg: S.Config<T>, j: Joint<T>, r: Record, ts: int)
    requires j.op.Writing?
    requires S.Level(S.State(j.cache, S.Store(j.op.before, None)), j.op.d.season, j.op.d.contextHash)
    requires IsRequest(r, j.op.d, |Peers(j.op.before, j.op.d)|)
    ensures var d, before := j.op.d, j.op.before;
      && d.contextHash in j.cache.contexts && r.index >= 0
      && var cache := S.Mirror(scfg, S.State(j.cache, S.Store(before, None)), d.contextHash, r, ts).state.cache;
         && d.contextHash in cache.contexts
         && cache.contexts[d.contextHash].members == S.Commitments(Peers(before, d)) + [d.commitment]
  {
  }

  lemma FinishWritten<T>(scfg: S.Config<T>, j: Joint<T>, log: P.State, ts: int)
    requires j.op.Writing? && P.ReplyTo(j.log).Wrote?
    requires var r := P.ReplyTo(j.log).record; j.op.d.contextHash in j.cache.contexts && r.index >= 0
    ensures var r := P.ReplyTo(j.log).record;
      Finish(scfg, j, log, ts)
      == Joint(log, S.Mirror(scfg, S.State(j.cache, S.Store(j.op.before, None)), j.op.d.contextHash, r, ts).state.cache,
           Free, j.level + {j.op.d.contextHash})
  {
    hide P.ReplyTo, S.Mirror;
  }

  lemma StepEnds<T>(cfg: Config, scfg: S.Config<T>, j: Joint<T>, e: P.Event, ts: int)
    requires j.op.Writing? && P.Step(cfg, j.log, e).Some? && P.Step(cfg, j.log, e).value.append.AIdle? && Ordinary(e)
    ensures Step(cfg, scfg, j, OnLog(e, ts)) == Some(Finish(scfg, j, P.Step(cfg, j.log, e).value, ts))
  {
    hide P.Step, Finish;
  }

  /** A refusal by the log is told exactly as its records have it, and leaves records and tree as they were. */
  lemma RefusedAsTold<T(!new)>(cfg: Config, scfg: S.Config<T>, j: Joint<T>, e: P.Event, ts: int)
    requires JointOk(cfg, scfg, j) && j.op.Writing? && G.Ends(cfg, j.log, e)
    requires P.ReplyTo(j.log).AlreadyThere? || P.ReplyTo(j.log).OtherDeclaration?
    ensures var d, before := j.op.d, j.op.before;
      var declared := Declared(before, d);
      var after := Step(cfg, scfg, j, OnLog(e, ts));
      && (P.ReplyTo(j.log).AlreadyThere? <==> Spent(before, d))
      && (P.ReplyTo(j.log).OtherDeclaration? ==>
            !Spent(before, d) && declared.Some? && declared.value != Declaration(d.engine, d.statement))
      && after.Some? && after.value.op.Free? && after.value.cache == j.cache && d.contextHash in after.value.level
      && Shown(after.value.log) == S.Store(before, None)
  {
    hide P.Inv, P.Step, S.Inv, LevelOk, Shown, P.ReplyTo, Decide, Coherent, Peers, Spent, WriteOk, Declared, JointOk,
      G.Ends, S.Level;
    WritingParts(cfg, scfg, j);
    EndsParts(cfg, j.log, e);
    RefusedIsShown(cfg, j.log, e, j.op.d, j.op.before);
    BeforeCoherent(cfg, j.log, j.op.d, j.op.before);
    DecidesAsPromised(j.op.before, j.op.d);
    StepEnds(cfg, scfg, j, e, ts);
  }
}

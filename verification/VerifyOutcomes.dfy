/**
  How a verify comes to its answer (core/verifier.js, verifyMembership): which answer each check gives, that a verify
  nothing refuses is granted, and that in every run a grant is the end of one of three sequences of awaits, every
  one of them answered and the proof valid.
 */
module VerifyOutcomes {
  import opened MembershipVerify
  import opened TimeGuard
  import opened Wrappers

  // ---- what a check says -----------------------------------------------------------------------------------

  /** The period a verify was made for still holds: no reading was ever below another, and neither the epoch, nor
      in the two-tier mode the season or the tree it is for, has moved on. */
  predicate StillIn(cfg: Config, marks: Marks, task: Task, now: int, sameStore: bool)
    requires ValidConfig(cfg)
  {
    && !ObservedBoth(cfg.schedule, marks, now).regressed && now < (task.tag.epoch + 1) * cfg.schedule.epochSeconds
    && (cfg.twoTier ==> PeriodOf(cfg.schedule, Season, now) == task.season && sameStore)
  }

  /** A check lets the verify go on exactly when the period still holds and, until the nullifier is spent, the root
      is still accepted: to the spend, to the question whose claim it was, or to the grant. Nothing else grants. */
  lemma ChecksExactlyWhen(cfg: Config, s: State, id: nat, now: int, sameStore: bool, recent: bool)
    requires ValidConfig(cfg) && id in s.tasks && s.tasks[id].pc in {Checking(false), Checking(true), Spent(false),
        Spent(true), LastCheck}
    ensures var task, s' := s.tasks[id], After(cfg, s, CheckDone(id, now, sameStore, recent));
      var goesOn := StillIn(cfg, s.marks, task, now, sameStore) && (task.pc.Checking? ==> recent);
      && id in s'.tasks && s'.claims == s.claims
      && (s'.tasks[id].pc == Spending <==> goesOn && task.pc == Checking(false))
      && (s'.tasks[id].pc == OwningAfter <==> goesOn && task.pc == Spent(true))
      && (s'.tasks[id].pc == Granted <==> goesOn && task.pc in {Checking(true), Spent(false), LastCheck})
      && (s'.tasks[id].pc == Finished <==> !goesOn)
      && s'.grants == s.grants + if s'.tasks[id].pc == Granted then {(task.tag, task.account)} else {}
  {
  }

  lemma GrantsOnlyAtChecks(cfg: Config, s: State, e: Event)
    requires ValidConfig(cfg) && After(cfg, s, e).grants != s.grants
    ensures e.CheckDone? && e.id in s.tasks && s.tasks[e.id].pc in {Checking(true), Spent(false), LastCheck}
  {
  }

  /** A grant lasts exactly as long as the periods it was made in: its epoch and, in the two-tier mode, its season. */
  lemma GrantLastsExactly(cfg: Config, task: Task, now: int)
    requires ValidConfig(cfg)
    ensures now < GrantExpiresAt(cfg, task)
       <==> PeriodOf(cfg.schedule, Epoch, now) <= task.tag.epoch
            && (cfg.twoTier ==> PeriodOf(cfg.schedule, Season, now) <= task.season)
  {
    PeriodEnds(cfg.schedule.epochSeconds, now, task.tag.epoch);
    PeriodEnds(cfg.schedule.seasonSeconds, now, task.season);
  }

  lemma PeriodEnds(length: int, now: int, period: int)
    requires length > 0
    ensures now < (period + 1) * length <==> now / length <= period
  {
    var q := now / length;
    assert now == length * q + now % length;
    if q <= period {
      Monotone(length, q + 1, period + 1);
    } else {
      Monotone(length, period + 1, q);
    }
  }

  /** Every await may answer either way, a claim may be recorded though the store fails, and the clock may read
      anything. */
  lemma AnyAnswerMayCome(cfg: Config, s: State, id: nat, ok: bool, landed: bool, now: int)
    requires ValidConfig(cfg) && id in s.tasks
    ensures s.tasks[id].pc == Arrived ==> Step(cfg, s, HasDone(id, ok)).Some?
    ensures s.tasks[id].pc in {Owning, OwningAfter} ==> Step(cfg, s, GetDone(id, ok)).Some?
    ensures s.tasks[id].pc.Proving? ==> Step(cfg, s, ProofDone(id, ok)).Some?
    ensures s.tasks[id].pc.Checking? || s.tasks[id].pc.Spent? || s.tasks[id].pc.LastCheck? ==>
      forall sameStore, recent :: Step(cfg, s, CheckDone(id, now, sameStore, recent)).Some?
    ensures s.tasks[id].pc == Spending ==>
      var after := Step(cfg, s, AddDone(id, ok, landed));
      after.Some? && (ok || landed ==> s.tasks[id].tag in after.value.claims)
      && (!ok && !landed ==> after.value.claims == s.claims)
    ensures Step(cfg, s, Restarts).Some? && Step(cfg, s, Restarts).value == s.(tasks := map[])
  {
    hide StillCurrent, ObservedBoth;
  }

  // ---- a verify that nothing refuses -------------------------------------------------------------------------

  /** Two readings neither of which is below an earlier one. */
  lemma FirstUnregressed(sch: Schedule, marks: Marks, a: int, b: int)
    requires ValidSchedule(sch) && !ObservedBoth(sch, ObservedBoth(sch, marks, a), b).regressed
    ensures !ObservedBoth(sch, marks, a).regressed
  {
    UnregressedIsHighest(sch, ObservedBoth(sch, marks, a), b);
  }

  /** A first claim is granted: on an unspent tag, with a valid proof, in its own period, and the spend recorded. A
      root that ages out during the spend does not take the grant back. */
  lemma FirstClaimIsGranted(cfg: Config, s: State, id: nat, tag: Tag, account: string, season: int, a: int, b: int,
                            recent: bool)
    requires ValidConfig(cfg) && account != "" && id !in s.tasks && tag !in s.claims
    requires !ObservedBoth(cfg.schedule, ObservedBoth(cfg.schedule, s.marks, a), b).regressed
    requires var end := (tag.epoch + 1) * cfg.schedule.epochSeconds; a < end && b < end
    requires cfg.twoTier ==>
      PeriodOf(cfg.schedule, Season, a) == season && PeriodOf(cfg.schedule, Season, b) == season
    ensures var events := [Arrive(id, tag, account, season, a, true), HasDone(id, true), ProofDone(id, true),
                           CheckDone(id, a, true, true), AddDone(id, true, true), CheckDone(id, b, true, recent)];
      var s' := Run(cfg, s, events);
      && s'.grants == s.grants + {(tag, account)} && s'.claims == s.claims[tag := account]
      && id in s'.tasks && s'.tasks[id].pc == Granted
  {
    hide Run, After, ObservedBoth;
    FirstUnregressed(cfg.schedule, s.marks, a, b);
    var task := Task(tag, account, season, Arrived);
    var s3 := s.(tasks := s.tasks[id := task.(pc := Checking(false))]);
    ToTheSpend(cfg, s, id, task, a);
    FromTheSpend(cfg, s3, id, a, b, recent);
    RunSix(cfg, s, Arrive(id, tag, account, season, a, true), HasDone(id, true), ProofDone(id, true),
        CheckDone(id, a, true, true), AddDone(id, true, true), CheckDone(id, b, true, recent));
  }

  lemma ToTheSpend(cfg: Config, s: State, id: nat, task: Task, now: int)
    requires ValidConfig(cfg) && task.pc == Arrived && task.account != "" && id !in s.tasks && task.tag !in s.claims
    requires now < (task.tag.epoch + 1) * cfg.schedule.epochSeconds
    ensures var s1 := After(cfg, s, Arrive(id, task.tag, task.account, task.season, now, true));
      After(cfg, After(cfg, s1, HasDone(id, true)), ProofDone(id, true))
      == s.(tasks := s.tasks[id := task.(pc := Checking(false))])
  {
    var s1 := s.(tasks := s.tasks[id := task]);
    assert After(cfg, s, Arrive(id, task.tag, task.account, task.season, now, true)) == s1;
    assert After(cfg, s1, HasDone(id, true)) == Put(s1, id, task, Proving(false));
  }

  lemma FromTheSpend(cfg: Config, s: State, id: nat, a: int, b: int, recent: bool)
    requires ValidConfig(cfg) && id in s.tasks && s.tasks[id].pc == Checking(false) && s.tasks[id].tag !in s.claims
    requires StillIn(cfg, s.marks, s.tasks[id], a, true)
    requires StillIn(cfg, ObservedBoth(cfg.schedule, s.marks, a), s.tasks[id], b, true)
    ensures var task, spending := s.tasks[id], After(cfg, s, CheckDone(id, a, true, true));
      var s' := After(cfg, After(cfg, spending, AddDone(id, true, true)), CheckDone(id, b, true, recent));
      && s'.grants == s.grants + {(task.tag, task.account)} && s'.claims == s.claims[task.tag := task.account]
      && id in s'.tasks && s'.tasks[id].pc == Granted
  {
    hide ObservedBoth;
    var task := s.tasks[id];
    var marked := s.(marks := ObservedBoth(cfg.schedule, s.marks, a));
    var claimed := marked.(claims := s.claims[task.tag := task.account]);
    assert After(cfg, s, CheckDone(id, a, true, true)) == Put(marked, id, task, Spending);
    assert After(cfg, Put(marked, id, task, Spending), AddDone(id, true, true)) == Put(claimed, id, task, Spent(false));
  }

  lemma RunSix(cfg: Config, s: State, a: Event, b: Event, c: Event, d: Event, e: Event, f: Event)
    requires ValidConfig(cfg)
    ensures Run(cfg, s, [a, b, c, d, e, f])
         == After(cfg, After(cfg, After(cfg, After(cfg, After(cfg, After(cfg, s, a), b), c), d), e), f)
  {
    hide After;
    assert [a][..0] == [] && [a, b][..1] == [a];
    assert Run(cfg, s, [a]) == After(cfg, s, a);
    assert [a] + [b] == [a, b] && [a, b] + [c] == [a, b, c] && [a, b, c] + [d] == [a, b, c, d];
    assert [a, b, c, d] + [e] == [a, b, c, d, e] && [a, b, c, d, e] + [f] == [a, b, c, d, e, f];
    RunMore(cfg, s, [a], b);
    RunMore(cfg, s, [a, b], c);
    RunMore(cfg, s, [a, b, c], d);
    RunMore(cfg, s, [a, b, c, d], e);
    RunMore(cfg, s, [a, b, c, d, e], f);
  }

  lemma RunMore(cfg: Config, s: State, events: seq<Event>, e: Event)
    requires ValidConfig(cfg)
    ensures Run(cfg, s, events + [e]) == After(cfg, Run(cfg, s, events), e)
  {
    hide After;
    assert (events + [e])[..|events|] == events;
  }

  /** So is one whose spend lost the race to an earlier claim of the same account. */
  lemma RaceWithOneselfIsGranted(cfg: Config, s: State, id: nat, a: int, b: int, recent: bool, recentLast: bool)
    requires ValidConfig(cfg) && id in s.tasks && s.tasks[id].pc == Spending && Owns(s, s.tasks[id])
    requires StillIn(cfg, s.marks, s.tasks[id], a, true)
    requires StillIn(cfg, ObservedBoth(cfg.schedule, s.marks, a), s.tasks[id], b, true)
    ensures var task := s.tasks[id];
      var lost := After(cfg, After(cfg, s, AddDone(id, true, true)), CheckDone(id, a, true, recent));
      var owned := After(cfg, lost, GetDone(id, true));
      && lost.claims == s.claims && lost.tasks[id].pc == OwningAfter
      && After(cfg, owned, CheckDone(id, b, true, recentLast)).grants == s.grants + {(task.tag, task.account)}
  {
    hide ObservedBoth;
    var task := s.tasks[id];
    var marked := s.(marks := ObservedBoth(cfg.schedule, s.marks, a));
    assert After(cfg, s, AddDone(id, true, true)) == Put(s, id, task, Spent(true));
    assert After(cfg, Put(s, id, task, Spent(true)), CheckDone(id, a, true, recent)) == Put(marked, id, task,
        OwningAfter);
    assert After(cfg, Put(marked, id, task, OwningAfter), GetDone(id, true)) == Put(marked, id, task, LastCheck);
  }

  // ---- every grant has its path --------------------------------------------------------------------------------

  /** An await of a verify that answered as it must for the verify to go on. */
  datatype Await = Admitted | Asked | Compared | Proved | Checked | Recorded

  function Answered(e: Event): Option<Await> {
    match e
    case Arrive(_, _, _, _, _, passes) => if passes then Some(Admitted) else None
    case HasDone(_, ok) => if ok then Some(Asked) else None
    case GetDone(_, ok) => if ok then Some(Compared) else None
    case ProofDone(_, valid) => if valid then Some(Proved) else None
    case CheckDone(_, _, _, _) => Some(Checked)
    case AddDone(_, ok, _) => if ok then Some(Recorded) else None
    case _ => None
  }

  function IdOf(e: Event): Option<nat> {
    match e
    case Arrive(id, _, _, _, _, _) => Some(id)
    case HasDone(id, _) => Some(id)
    case GetDone(id, _) => Some(id)
    case ProofDone(id, _) => Some(id)
    case CheckDone(id, _, _, _) => Some(id)
    case AddDone(id, _, _) => Some(id)
    case _ => None
  }

  /** The verify's own events so far, from its arrival. */
  function Path(cfg: Config, s: State, events: seq<Event>, id: nat): seq<Event>
    requires ValidConfig(cfg)
  {
    if |events| == 0 then []
    else
      var front, e := events[..|events| - 1], events[|events| - 1];
      var path := Path(cfg, s, front, id);
      if e.Restarts? then []
      else if IdOf(e) == Some(id) && Step(cfg, Run(cfg, s, front), e).Some? then path + [e] else path
  }

  predicate Shaped(path: seq<Event>, shape: seq<Await>) {
    |path| == |shape| && forall i :: 0 <= i < |path| ==> Answered(path[i]) == Some(shape[i])
  }

  const REGRANT := [Admitted, Asked, Compared, Proved, Checked]
  const CLAIM := [Admitted, Asked, Proved, Checked, Recorded, Checked]
  const RACE := [Admitted, Asked, Proved, Checked, Recorded, Checked, Compared, Checked]

  /** The awaits a verify has behind it at each of its waits. */
  predicate Behind(pc: Pc, path: seq<Event>) {
    match pc
    case Arrived => Shaped(path, REGRANT[..1])
    case Owning => Shaped(path, REGRANT[..2])
    case Proving(regrant) => Shaped(path, if regrant then REGRANT[..3] else CLAIM[..2])
    case Checking(regrant) => Shaped(path, if regrant then REGRANT[..4] else CLAIM[..3])
    case Spending => Shaped(path, CLAIM[..4])
    case Spent(_) => Shaped(path, CLAIM[..5])
    case OwningAfter => Shaped(path, RACE[..6])
    case LastCheck => Shaped(path, RACE[..7])
    case Granted => Shaped(path, REGRANT) || Shaped(path, CLAIM) || Shaped(path, RACE)
    case Finished => true
  }

  /** A verify in flight is the one that arrived, with these awaits behind it. */
  ghost predicate OnPath(task: Task, path: seq<Event>) {
    && |path| > 0 && path[0].Arrive? && path[0].passes && path[0].tag == task.tag && path[0].account == task.account
    && path[0].season == task.season && task.account != "" && Behind(task.pc, path)
  }

  ghost predicate AllOnPath(cfg: Config, s: State, events: seq<Event>)
    requires ValidConfig(cfg)
  {
    forall id {:trigger Path(cfg, s, events, id)} ::
      if id in Run(cfg, s, events).tasks then OnPath(Run(cfg, s, events).tasks[id], Path(cfg, s, events, id))
      else Path(cfg, s, events, id) == []
  }

  /** One more await. */
  lemma ShapedMore(path: seq<Event>, e: Event, shape: seq<Await>, k: nat)
    requires k < |shape| && Shaped(path, shape[..k]) && Answered(e) == Some(shape[k])
    ensures Shaped(path + [e], shape[..k + 1])
  {
    assert shape[..k + 1] == shape[..k] + [shape[k]];
  }

  lemma CheckOnPath(cfg: Config, s: State, e: Event, id: nat, path: seq<Event>)
    requires ValidConfig(cfg) && e.CheckDone? && e.id == id && Step(cfg, s, e).Some? && id in s.tasks
    requires OnPath(s.tasks[id], path)
    ensures var s' := Step(cfg, s, e).value; id in s'.tasks && OnPath(s'.tasks[id], path + [e])
  {
    hide StillCurrent, ObservedBoth, Shaped;
    assert CLAIM == RACE[..6] && CLAIM[..6] == CLAIM && REGRANT[..5] == REGRANT && RACE[..8] == RACE;
    if s.tasks[id].pc == Checking(true) { ShapedMore(path, e, REGRANT, 4); }
    if s.tasks[id].pc == Checking(false) { ShapedMore(path, e, CLAIM, 3); }
    if s.tasks[id].pc.Spent? { ShapedMore(path, e, CLAIM, 5); }
    if s.tasks[id].pc == LastCheck { ShapedMore(path, e, RACE, 7); }
  }

  lemma StepOnPath(cfg: Config, s: State, e: Event, id: nat, path: seq<Event>)
    requires ValidConfig(cfg) && IdOf(e) == Some(id) && Step(cfg, s, e).Some?
    requires if id in s.tasks then OnPath(s.tasks[id], path) else path == []
    ensures var s' := Step(cfg, s, e).value; id in s'.tasks && OnPath(s'.tasks[id], path + [e])
  {
    hide StillCurrent, ObservedBoth, Shaped;
    assert REGRANT[..2] == CLAIM[..2];
    match e
    case Arrive(_, _, _, _, _, _) => FirstOnPath(e);
    case HasDone(_, ok) => if ok { ShapedMore(path, e, REGRANT, 1); }
    case GetDone(_, ok) =>
      if ok && s.tasks[id].pc == Owning { ShapedMore(path, e, REGRANT, 2); }
      if ok && s.tasks[id].pc == OwningAfter { ShapedMore(path, e, RACE, 6); }
    case ProofDone(_, valid) =>
      if valid && s.tasks[id].pc.regrant { ShapedMore(path, e, REGRANT, 3); }
      if valid && !s.tasks[id].pc.regrant { ShapedMore(path, e, CLAIM, 2); }
    case CheckDone(_, _, _, _) => CheckOnPath(cfg, s, e, id, path);
    case AddDone(_, ok, _) => if ok { ShapedMore(path, e, CLAIM, 4); }
  }

  lemma FirstOnPath(e: Event)
    requires e.Arrive? && e.passes
    ensures Shaped([] + [e], REGRANT[..1])
  {
  }

  /** An event is of one verify only; a restart ends them all. */
  lemma OtherTasks(cfg: Config, s: State, e: Event, id: nat)
    requires ValidConfig(cfg) && Step(cfg, s, e).Some? && IdOf(e) != Some(id)
    ensures var s' := Step(cfg, s, e).value;
      if e.Restarts? then s'.tasks == map[]
      else (id in s'.tasks <==> id in s.tasks) && (id in s.tasks ==> s'.tasks[id] == s.tasks[id])
  {
    hide StillCurrent, ObservedBoth;
  }

  lemma {:induction false} RunOnPath(cfg: Config, marks: Marks, claims: map<Tag, string>, events: seq<Event>)
    requires ValidConfig(cfg)
    ensures AllOnPath(cfg, Begin(marks, claims), events)
  {
    hide Step, OnPath, IdOf;
    var s := Begin(marks, claims);
    if |events| > 0 {
      var front, e := events[..|events| - 1], events[|events| - 1];
      RunOnPath(cfg, marks, claims, front);
      var before := Run(cfg, s, front);
      RestartsRun(cfg, before);
      forall id
        ensures if id in Run(cfg, s, events).tasks then OnPath(Run(cfg, s, events).tasks[id], Path(cfg, s, events, id))
          else Path(cfg, s, events, id) == []
      {
        assert if id in before.tasks then OnPath(before.tasks[id], Path(cfg, s, front, id))
          else Path(cfg, s, front, id) == [];
        if Step(cfg, before, e).Some? {
          if IdOf(e) == Some(id) {
            StepOnPath(cfg, before, e, id, Path(cfg, s, front, id));
            IdIsNoRestart(e);
          } else {
            OtherTasks(cfg, before, e, id);
          }
        }
      }
    }
  }

  lemma IdIsNoRestart(e: Event)
    ensures IdOf(e).Some? ==> !e.Restarts?
  {
  }

  lemma RestartsRun(cfg: Config, s: State)
    requires ValidConfig(cfg)
    ensures Step(cfg, s, Restarts).Some?
  {
  }

  /** Every grant, in every run, was given at some point to a verify for that tag and account whose every await
      answered: admitted by the policy, the spent set asked, the proof valid, and the period checked after each; as
      a first claim it recorded, as a race it lost to itself, or as a re-grant of a claim it owned. */
  lemma {:induction false} GrantsHavePaths(cfg: Config, marks: Marks, claims: map<Tag, string>, events: seq<Event>,
                                           g: (Tag, string)) returns (k: nat, id: nat)
    requires ValidConfig(cfg) && g in Run(cfg, Begin(marks, claims), events).grants
    ensures k <= |events|
    ensures var path := Path(cfg, Begin(marks, claims), events[..k], id);
      && (Shaped(path, REGRANT) || Shaped(path, CLAIM) || Shaped(path, RACE))
      && path[0].Arrive? && path[0].passes && (path[0].tag, path[0].account) == g && g.1 != ""
  {
    hide Path, Shaped;
    var s := Begin(marks, claims);
    var front, e := events[..|events| - 1], events[|events| - 1];
    var before := Run(cfg, s, front);
    if g in before.grants {
      k, id := GrantsHavePaths(cfg, marks, claims, front, g);
      assert front[..k] == events[..k];
    } else {
      RunOnPath(cfg, marks, claims, events);
      k := |events|;
      id := GrantedNow(cfg, before, e, g);
      assert events[..k] == events;
      assert OnPath(Run(cfg, s, events).tasks[id], Path(cfg, s, events, id));
    }
  }

  lemma GrantedNow(cfg: Config, s: State, e: Event, g: (Tag, string)) returns (id: nat)
    requires ValidConfig(cfg) && g !in s.grants && g in After(cfg, s, e).grants
    ensures var s' := After(cfg, s, e);
      id in s'.tasks && s'.tasks[id].pc == Granted && (s'.tasks[id].tag, s'.tasks[id].account) == g
  {
    GrantsOnlyAtChecks(cfg, s, e);
    id := e.id;
  }

  /** Nor is a tag spent by anything less: a claim on record that was not there from the start was made by a verify
      for that tag and account, admitted, asked, proved and checked. */
  lemma {:induction false} ClaimsHavePaths(cfg: Config, marks: Marks, claims: map<Tag, string>, events: seq<Event>,
                                           tag: Tag) returns (k: nat, id: nat)
    requires ValidConfig(cfg) && tag in Run(cfg, Begin(marks, claims), events).claims
    requires tag !in claims || claims[tag] != Run(cfg, Begin(marks, claims), events).claims[tag]
    ensures k <= |events|
    ensures var path := Path(cfg, Begin(marks, claims), events[..k], id);
      && Shaped(path, CLAIM[..4]) && path[0].Arrive? && path[0].tag == tag
      && path[0].account == Run(cfg, Begin(marks, claims), events).claims[tag]
  {
    hide Path, Shaped;
    var s := Begin(marks, claims);
    var front, e := events[..|events| - 1], events[|events| - 1];
    var before := Run(cfg, s, front);
    if tag in before.claims && before.claims[tag] == Run(cfg, s, events).claims[tag] {
      k, id := ClaimsHavePaths(cfg, marks, claims, front, tag);
      assert front[..k] == events[..k];
    } else {
      RunOnPath(cfg, marks, claims, front);
      k := |front|;
      id := ClaimedNow(cfg, before, e, tag);
      assert events[..k] == front;
      assert OnPath(before.tasks[id], Path(cfg, s, front, id));
    }
  }

  lemma ClaimedNow(cfg: Config, s: State, e: Event, tag: Tag) returns (id: nat)
    requires ValidConfig(cfg) && tag in After(cfg, s, e).claims
    requires tag !in s.claims || s.claims[tag] != After(cfg, s, e).claims[tag]
    ensures id in s.tasks && s.tasks[id].pc == Spending && s.tasks[id].tag == tag
      && s.tasks[id].account == After(cfg, s, e).claims[tag]
  {
    hide StillCurrent, ObservedBoth;
    assert e.AddDone?;
    id := e.id;
  }
}

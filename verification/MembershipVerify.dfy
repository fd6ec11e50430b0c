/**
  Membership verification over time (core/verifier.js, verifyMembership; core/gateway.js, the verify
  handler and the pruning of spent claims; core/nullifier_sqlite.js): any number of verifies racing on a
  spent set that is pruned by epoch, while the clock moves arbitrarily and the process restarts. One
  step per await; one clock reading per step; writes of the clock marks succeed.
 */
module MembershipVerify {
  import opened Wrappers
  import opened TimeGuard

  /** What a spent claim is keyed by. */
  datatype Tag = Tag(epoch: int, context: string, nullifier: string)

  datatype Config = Config(schedule: Schedule, retain: int, twoTier: bool)

  predicate ValidConfig(cfg: Config) {
    ValidSchedule(cfg.schedule) && cfg.retain >= 1
  }

  // ---- the spent set ---------------------------------------------------------------------------------

  /** Claims from epochs that are not older than the cutoff. */
  function Pruned(claims: map<Tag, string>, cutoff: int): map<Tag, string> {
    map tag | tag in claims && tag.epoch >= cutoff :: claims[tag]
  }

  /** The first claim for a tag stays. */
  function Claimed(claims: map<Tag, string>, tag: Tag, account: string): map<Tag, string> {
    if tag in claims then claims else claims[tag := account]
  }

  /** The SQLite claims table. */
  class ClaimStore {
    var claims: map<Tag, string>

    constructor (claims: map<Tag, string>)
      ensures this.claims == claims
    {
      this.claims := claims;
    }

    method Has(tag: Tag) returns (found: bool)
      ensures found <==> tag in claims
    {
      found := tag in claims;
    }

    method Get(tag: Tag) returns (account: Option<string>)
      ensures account == if tag in claims then Some(claims[tag]) else None
    {
      account := if tag in claims then Some(claims[tag]) else None;
    }

    /** A second claim for the tag changes nothing. */
    method Add(tag: Tag, account: string) returns (duplicate: bool)
      modifies this
      ensures duplicate <==> tag in old(claims)
      ensures claims == Claimed(old(claims), tag, account) && tag in claims
      ensures forall t :: t in old(claims) ==> t in claims && claims[t] == old(claims)[t]
    {
      duplicate := tag in claims;
      if !duplicate { claims := claims[tag := account]; }
    }

    /** Exactly the claims of earlier epochs go, the rest as they were, and the answer is how many went. */
    method Prune(cutoff: int) returns (removed: nat)
      modifies this
      ensures claims == Pruned(old(claims), cutoff)
      ensures forall t :: t in claims <==> t in old(claims) && t.epoch >= cutoff
      ensures forall t :: t in claims ==> claims[t] == old(claims)[t]
      ensures removed + |claims| == |old(claims)|
    {
      var before := claims;
      claims := map tag | tag in before && tag.epoch >= cutoff :: before[tag];
      removed := |before.Keys - claims.Keys|;
      KeptAndGone(before, claims);
    }
  }

  lemma KeptAndGone<K, V>(all: map<K, V>, kept: map<K, V>)
    requires kept.Keys <= all.Keys
    ensures |all.Keys - kept.Keys| + |kept| == |all|
  {
    assert |all.Keys| == |all| && |kept.Keys| == |kept|;
    assert all.Keys == (all.Keys - kept.Keys) + kept.Keys;
  }

  // ---- verifies --------------------------------------------------------------------------------------

  /** What the verify is waiting for next. */
  datatype Pc =
    | Arrived                    // the spent-set read that rejects a replay before the proof
    | Owning                     // whose claim it is
    | Proving(regrant: bool)
    | Checking(regrant: bool)    // is the period still current, before the spend or the re-grant
    | Spending
    | Spent(duplicate: bool)     // the same question, after the spend
    | OwningAfter
    | LastCheck
    | Granted
    | Finished

  datatype Task = Task(tag: Tag, account: string, season: int, pc: Pc)

  /** grants is what has been answered ok, for the proof alone. */
  datatype State = State(marks: Marks, claims: map<Tag, string>, tasks: map<nat, Task>, grants: set<(Tag, string)>)

  datatype Verdict = Current | ClockRegressed | EpochOver | SeasonOver | StaleRoot

  /** The gateway's stillCurrent, after it has observed both periods. sameStore: the root store held since
      the start is still the context's; recent: it still accepts the root. */
  function StillCurrent(cfg: Config, after: Marks, task: Task, now: int, sameStore: bool, recent: bool): Verdict
    requires ValidConfig(cfg)
  {
    if after.regressed then ClockRegressed
    else if now >= (task.tag.epoch + 1) * cfg.schedule.epochSeconds then EpochOver
    else if cfg.twoTier && (PeriodOf(cfg.schedule, Season, now) != task.season || !sameStore) then SeasonOver
    else if !recent then StaleRoot
    else Current
  }

  datatype Event =
    | Arrive(id: nat, tag: Tag, account: string, season: int, now: int, passes: bool)  // passes: the policy checks
    | HasDone(id: nat, ok: bool)
    | GetDone(id: nat, ok: bool)
    | ProofDone(id: nat, valid: bool)
    | CheckDone(id: nat, now: int, sameStore: bool, recent: bool)
    | AddDone(id: nat, ok: bool, landed: bool)     // a throwing add may or may not have landed
    | Observes(kind: Kind, now: int)               // any other request or timer asking the time
    | Prunes(now: int)
    | Restarts

  function Put(s: State, id: nat, task: Task, pc: Pc): State {
    s.(tasks := s.tasks[id := task.(pc := pc)])
  }

  function Grant(s: State, id: nat, task: Task): State {
    Put(s, id, task, Granted).(grants := s.grants + {(task.tag, task.account)})
  }

  function Owns(s: State, task: Task): bool {
    task.tag in s.claims && s.claims[task.tag] == task.account
  }

  /** Where the answer leads. Past the spend, a root that aged out no longer refuses. */
  function Next(pc: Pc, verdict: Verdict): Pc {
    match pc
    case Checking(regrant) => if verdict != Current then Finished else if regrant then Granted else Spending
    case Spent(duplicate) => if verdict !in {Current, StaleRoot} then Finished else if duplicate then OwningAfter
        else Granted
    case LastCheck => if verdict !in {Current, StaleRoot} then Finished else Granted
    case _ => pc
  }

  predicate Waits(s: State, id: nat, pcs: set<Pc>) {
    id in s.tasks && s.tasks[id].pc in pcs
  }

  function TaskStep(cfg: Config, s: State, e: Event): Option<State>
    requires ValidConfig(cfg)
  {
    match e
    case HasDone(id, ok) =>
      if !Waits(s, id, {Arrived}) then None
      else
        var task := s.tasks[id];
        Some(Put(s, id, task, if !ok then Finished else if task.tag in s.claims then Owning else Proving(false)))
    case GetDone(id, ok) =>
      if !Waits(s, id, {Owning, OwningAfter}) then None
      else
        var task := s.tasks[id];
        Some(Put(s, id, task, if !ok || !Owns(s, task) then Finished else if task.pc == Owning then Proving(true)
            else LastCheck))
    case ProofDone(id, valid) =>
      if !Waits(s, id, {Proving(false), Proving(true)}) then None
      else
        var task := s.tasks[id];
        Some(Put(s, id, task, if valid then Checking(task.pc.regrant) else Finished))
    case CheckDone(id, now, sameStore, recent) =>
      if !Waits(s, id, {Checking(false), Checking(true), Spent(false), Spent(true), LastCheck}) then None
      else
        var after := ObservedBoth(cfg.schedule, s.marks, now);
        var task := s.tasks[id];
        var next := Next(task.pc, StillCurrent(cfg, after, task, now, sameStore, recent));
        Some(if next == Granted then Grant(s.(marks := after), id, task) else Put(s.(marks := after), id, task, next))
    case AddDone(id, ok, landed) =>
      if !Waits(s, id, {Spending}) then None
      else
        var task := s.tasks[id];
        var duplicate := task.tag in s.claims;
        var s' := if !ok && !landed then s else s.(claims := Claimed(s.claims, task.tag, task.account));
        Some(Put(s', id, task, if ok then Spent(duplicate) else Finished))
    case _ => None
  }

  function Step(cfg: Config, s: State, e: Event): Option<State>
    requires ValidConfig(cfg)
  {
    match e
    case Arrive(id, tag, account, season, now, passes) =>
      if id in s.tasks || !passes || account == "" || now >= (tag.epoch + 1) * cfg.schedule.epochSeconds then None
      else Some(s.(tasks := s.tasks[id := Task(tag, account, season, Arrived)]))
    case Observes(kind, now) => Some(s.(marks := Observed(s.marks, kind, PeriodOf(cfg.schedule, kind, now))))
    case Prunes(now) =>
      var value := PeriodOf(cfg.schedule, Epoch, now);
      Some(s.(marks := Observed(s.marks, Epoch, value), claims := Pruned(s.claims, value - cfg.retain)))
    case Restarts => Some(s.(tasks := map[]))
    case _ => TaskStep(cfg, s, e)
  }

  /** An event that is not enabled does nothing. */
  function After(cfg: Config, s: State, e: Event): State
    requires ValidConfig(cfg)
  {
    var s' := Step(cfg, s, e);
    if s'.Some? then s'.value else s
  }

  function Run(cfg: Config, s: State, events: seq<Event>): State
    requires ValidConfig(cfg)
  {
    if |events| == 0 then s else After(cfg, Run(cfg, s, events[..|events| - 1]), events[|events| - 1])
  }

  // ---- the invariant ---------------------------------------------------------------------------------

  /** The claim is on record for this account, or its epoch is so far behind the highest one seen that no
      verify for it can pass again. */
  predicate Held(s: State, tag: Tag, account: string) {
    || (tag in s.claims && s.claims[tag] == account)
    || (s.marks.epoch.Some? && s.marks.epoch.value >= tag.epoch + 2)
  }

  /** The steps that only a claim of the task's own leads to. */
  predicate Owner(pc: Pc) {
    pc in {Proving(true), Checking(true), Spent(false), LastCheck}
  }

  ghost predicate Inv(s: State) {
    && (forall g {:trigger g in s.grants} :: g in s.grants ==> Held(s, g.0, g.1))
    && (forall id {:trigger s.tasks[id]} :: id in s.tasks && Owner(s.tasks[id].pc) ==>
         Held(s, s.tasks[id].tag, s.tasks[id].account))
    && (forall g, h {:trigger g in s.grants, h in s.grants} :: g in s.grants && h in s.grants && g.0 == h.0 ==> g == h)
  }

  /** Claims only disappear with their epoch far behind; marks only rise. */
  predicate Keeps(s: State, s': State) {
    && NotBefore(s.marks, s'.marks)
    && forall tag :: tag in s.claims ==>
         || (tag in s'.claims && s'.claims[tag] == s.claims[tag])
         || (s'.marks.epoch.Some? && s'.marks.epoch.value >= tag.epoch + 2)
  }

  lemma HeldStays(s: State, s': State, tag: Tag, account: string)
    requires Keeps(s, s') && Held(s, tag, account)
    ensures Held(s', tag, account)
  {
  }

  /** A step that grants nothing and puts no task where only an owner may be. */
  lemma QuietKeeps(s: State, s': State)
    requires Inv(s) && Keeps(s, s') && s'.grants == s.grants
    requires forall id {:trigger s'.tasks[id]} :: id in s'.tasks && Owner(s'.tasks[id].pc) ==>
      Held(s', s'.tasks[id].tag, s'.tasks[id].account) || (id in s.tasks && s'.tasks[id] == s.tasks[id])
    ensures Inv(s')
  {
    forall g | g in s'.grants ensures Held(s', g.0, g.1) {
      HeldStays(s, s', g.0, g.1);
    }
    forall id | id in s'.tasks && Owner(s'.tasks[id].pc) ensures Held(s', s'.tasks[id].tag, s'.tasks[id].account) {
      if id in s.tasks && s'.tasks[id] == s.tasks[id] { HeldStays(s, s', s.tasks[id].tag, s.tasks[id].account); }
    }
  }

  lemma EpochNotOver(es: int, now: int, epoch: int)
    requires es > 0 && now < (epoch + 1) * es
    ensures now / es <= epoch
  {
    var q := now / es;
    assert now == es * q + now % es;
    if q > epoch { Monotone(es, epoch + 1, q); }
  }

  lemma Monotone(es: int, a: int, b: int)
    requires es > 0 && a <= b
    ensures es * a <= es * b
  {
  }

  /** A verdict that may still grant says the highest epoch ever seen is not past the task's. */
  lemma GrantableMeansNotPast(cfg: Config, s: State, task: Task, now: int, sameStore: bool, recent: bool)
    requires ValidConfig(cfg)
    requires StillCurrent(cfg, ObservedBoth(cfg.schedule, s.marks, now), task, now, sameStore, recent)
             in {Current, StaleRoot}
    ensures var after := ObservedBoth(cfg.schedule, s.marks, now);
      after.epoch.Some? && after.epoch.value <= task.tag.epoch && !after.regressed
  {
    UnregressedIsHighest(cfg.schedule, s.marks, now);
    EpochNotOver(cfg.schedule.epochSeconds, now, task.tag.epoch);
  }

  /** The grant itself: at this moment the claim can only be on record, and for one account. */
  lemma GrantKeeps(s: State, id: nat, task: Task)
    requires Inv(s) && Held(s, task.tag, task.account)
    requires s.marks.epoch.Some? && s.marks.epoch.value <= task.tag.epoch
    ensures Inv(Grant(s, id, task))
  {
    var s' := Grant(s, id, task);
    forall g | g in s.grants && g.0 == task.tag ensures g.1 == task.account {
      assert Held(s, g.0, g.1);
    }
    forall g, h | g in s'.grants && h in s'.grants && g.0 == h.0 ensures g == h {
      assert g in s.grants || g == (task.tag, task.account);
      assert h in s.grants || h == (task.tag, task.account);
    }
    forall g | g in s'.grants ensures Held(s', g.0, g.1) {
      assert g in s.grants || g == (task.tag, task.account);
    }
  }

  lemma CheckKeeps(cfg: Config, s: State, id: nat, now: int, sameStore: bool, recent: bool)
    requires ValidConfig(cfg) && Inv(s) && TaskStep(cfg, s, CheckDone(id, now, sameStore, recent)).Some?
    ensures Inv(TaskStep(cfg, s, CheckDone(id, now, sameStore, recent)).value)
  {
    var task := s.tasks[id];
    var after := ObservedBoth(cfg.schedule, s.marks, now);
    var verdict := StillCurrent(cfg, after, task, now, sameStore, recent);
    UnregressedIsHighest(cfg.schedule, s.marks, now);
    var s1 := s.(marks := after);
    QuietKeeps(s, s1);
    var next := Next(task.pc, verdict);
    if next == Granted {
      GrantableMeansNotPast(cfg, s, task, now, sameStore, recent);
      GrantKeeps(s1, id, task);
    } else {
      MoveKeeps(s1, id, task, next);
    }
  }

  lemma MoveKeeps(s: State, id: nat, task: Task, pc: Pc)
    requires Inv(s) && !Owner(pc)
    ensures Inv(Put(s, id, task, pc))
  {
    QuietKeeps(s, Put(s, id, task, pc));
  }

  lemma StepKeeps(cfg: Config, s: State, e: Event)
    requires ValidConfig(cfg) && Inv(s) && Step(cfg, s, e).Some?
    ensures Inv(Step(cfg, s, e).value)
  {
    match e
    case CheckDone(id, now, sameStore, recent) => CheckKeeps(cfg, s, id, now, sameStore, recent);
    case Observes(kind, now) =>
      ObservingMovesForward(s.marks, kind, PeriodOf(cfg.schedule, kind, now));
      QuietKeeps(s, Step(cfg, s, e).value);
    case Prunes(now) =>
      ObservingMovesForward(s.marks, Epoch, PeriodOf(cfg.schedule, Epoch, now));
      QuietKeeps(s, Step(cfg, s, e).value);
    case _ => QuietKeeps(s, Step(cfg, s, e).value);
  }

  /** A gateway starting over any durable marks and claims. */
  function Begin(marks: Marks, claims: map<Tag, string>): State {
    State(marks, claims, map[], {})
  }

  lemma {:induction false} RunKeeps(cfg: Config, s: State, events: seq<Event>)
    requires ValidConfig(cfg) && Inv(s)
    ensures Inv(Run(cfg, s, events))
  {
    if |events| > 0 {
      var front, last := events[..|events| - 1], events[|events| - 1];
      RunKeeps(cfg, s, front);
      if Step(cfg, Run(cfg, s, front), last).Some? { StepKeeps(cfg, Run(cfg, s, front), last); }
    }
  }

  /** One voting key, one account: over every interleaving of verifies with each other, with pruning, with
      any movement of the clock and with restarts, all grants for one (epoch, context, nullifier) go to a
      single account. */
  lemma OneAccountPerTag(cfg: Config, marks: Marks, claims: map<Tag, string>, events: seq<Event>, tag: Tag, a: string,
                         b: string)
    requires ValidConfig(cfg)
    requires var s := Run(cfg, Begin(marks, claims), events); (tag, a) in s.grants && (tag, b) in s.grants
    ensures a == b
  {
    RunKeeps(cfg, Begin(marks, claims), events);
  }

  /** And to the account the claim was already recorded for, when there was one. */
  lemma ClaimantIsGranted(cfg: Config, marks: Marks, claims: map<Tag, string>, events: seq<Event>, tag: Tag, a: string)
    requires ValidConfig(cfg) && tag in claims && (tag, a) in Run(cfg, Begin(marks, claims), events).grants
    ensures a == claims[tag]
  {
    // The claim as a grant made before the run started.
    var s := Begin(marks, claims).(grants := {(tag, claims[tag])});
    assert s == Begin(marks, claims).(grants := Begin(marks, claims).grants + s.grants);
    MoreGrants(cfg, Begin(marks, claims), s.grants, events);
    RunKeeps(cfg, s, events);
    var ours, first := (tag, a), (tag, claims[tag]);
    assert ours in Run(cfg, s, events).grants && first in Run(cfg, s, events).grants;
  }

  /** The record of grants guides no step. */
  lemma {:induction false} MoreGrants(cfg: Config, s: State, extra: set<(Tag, string)>, events: seq<Event>)
    requires ValidConfig(cfg)
    ensures Run(cfg, s.(grants := s.grants + extra), events)
      == Run(cfg, s, events).(grants := Run(cfg, s, events).grants + extra)
  {
    if |events| > 0 {
      var front, last := events[..|events| - 1], events[|events| - 1];
      MoreGrants(cfg, s, extra, front);
      MoreGrantsStep(cfg, Run(cfg, s, front), extra, last);
    }
  }

  lemma MoreGrantsStep(cfg: Config, s: State, extra: set<(Tag, string)>, e: Event)
    requires ValidConfig(cfg)
    ensures var more := Step(cfg, s.(grants := s.grants + extra), e);
      match Step(cfg, s, e)
      case None => more.None?
      case Some(t) => more == Some(t.(grants := t.grants + extra))
  {
    if id :| id in s.tasks && e.CheckDone? && e.id == id {
      var g := {(s.tasks[id].tag, s.tasks[id].account)};
      assert (s.grants + extra) + g == (s.grants + g) + extra;
    }
  }

  // ---- when a grant can be given ----------------------------------------------------------------------

  /** The source's expiry: the end of the epoch, and in the two-tier mode of the season if that is sooner. */
  function GrantExpiresAt(cfg: Config, task: Task): int {
    var epochEnd := (task.tag.epoch + 1) * cfg.schedule.epochSeconds;
    var seasonEnd := (task.season + 1) * cfg.schedule.seasonSeconds;
    if cfg.twoTier && seasonEnd < epochEnd then seasonEnd else epochEnd
  }

  lemma SeasonNotOver(ss: int, now: int)
    requires ss > 0
    ensures now < (now / ss + 1) * ss
  {
    assert now == ss * (now / ss) + now % ss;
    assert (now / ss + 1) * ss == ss * (now / ss) + ss;
  }

  /** Every grant is made at a time before it expires, on a clock that has never been seen to step back,
      and in the highest epoch ever observed. */
  lemma GrantIsInTime(cfg: Config, s: State, id: nat, now: int, sameStore: bool, recent: bool)
    requires ValidConfig(cfg) && Step(cfg, s, CheckDone(id, now, sameStore, recent)).Some?
    requires Step(cfg, s, CheckDone(id, now, sameStore, recent)).value.grants != s.grants
    ensures now < GrantExpiresAt(cfg, s.tasks[id])
    ensures var m := Step(cfg, s, CheckDone(id, now, sameStore, recent)).value.marks;
      !m.regressed && m.epoch == Some(PeriodOf(cfg.schedule, Epoch, now)) && m.epoch.value <= s.tasks[id].tag.epoch
  {
    UnregressedIsHighest(cfg.schedule, s.marks, now);
    GrantableMeansNotPast(cfg, s, s.tasks[id], now, sameStore, recent);
    SeasonNotOver(cfg.schedule.seasonSeconds, now);
  }

  lemma {:induction false} MarksOnlyRise(cfg: Config, s: State, events: seq<Event>)
    requires ValidConfig(cfg)
    ensures NotBefore(s.marks, Run(cfg, s, events).marks)
  {
    if |events| > 0 {
      var front, last := events[..|events| - 1], events[|events| - 1];
      MarksOnlyRise(cfg, s, front);
      var before := Run(cfg, s, front);
      match last {
        case CheckDone(_, now, _, _) => UnregressedIsHighest(cfg.schedule, before.marks, now);
        case Observes(kind, now) => ObservingMovesForward(before.marks, kind, PeriodOf(cfg.schedule, kind, now));
        case Prunes(now) => ObservingMovesForward(before.marks, Epoch, PeriodOf(cfg.schedule, Epoch, now));
        case _ =>
      }
    }
  }

  /** Once a backward step has been seen, nothing is ever granted again, restarts included. */
  lemma {:induction false} RegressionStopsGrants(cfg: Config, s: State, events: seq<Event>)
    requires ValidConfig(cfg) && s.marks.regressed
    ensures Run(cfg, s, events).grants == s.grants
  {
    if |events| > 0 {
      var front, last := events[..|events| - 1], events[|events| - 1];
      RegressionStopsGrants(cfg, s, front);
      MarksOnlyRise(cfg, s, front);
      var before := Run(cfg, s, front);
      if last.CheckDone? && Step(cfg, before, last).Some? {
        UnregressedIsHighest(cfg.schedule, before.marks, last.now);
      }
    }
  }

  /** The other direction: an account whose claim is on record, because an earlier answer was lost, is
      granted again by a fresh verify while its epoch lasts. */
  lemma LostAnswerIsRecovered(cfg: Config, s: State, id: nat, tag: Tag, account: string, season: int, now: int)
    requires ValidConfig(cfg) && account != "" && id !in s.tasks
    requires tag in s.claims && s.claims[tag] == account
    requires !ObservedBoth(cfg.schedule, s.marks, now).regressed && now < (tag.epoch + 1) * cfg.schedule.epochSeconds
    requires cfg.twoTier ==> PeriodOf(cfg.schedule, Season, now) == season
    ensures var arrived := After(cfg, s, Arrive(id, tag, account, season, now, true));
      var owned := After(cfg, After(cfg, arrived, HasDone(id, true)), GetDone(id, true));
      var proved := After(cfg, owned, ProofDone(id, true));
      (tag, account) in After(cfg, proved, CheckDone(id, now, true, true)).grants
  {
    var arrived := After(cfg, s, Arrive(id, tag, account, season, now, true));
    var found := After(cfg, arrived, HasDone(id, true));
    assert found == Put(arrived, id, arrived.tasks[id], Owning);
    var owned := After(cfg, found, GetDone(id, true));
    assert owned == Put(arrived, id, arrived.tasks[id], Proving(true));
    var proved := After(cfg, owned, ProofDone(id, true));
    assert proved == Put(arrived, id, arrived.tasks[id], Checking(true));
  }
}

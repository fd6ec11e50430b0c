/**
  The grant ledger (adapters/common/grant_ledger.js) as a state machine with one step per stretch between
  awaits. The database is durable at the point of call; the platform is not: a call in flight may have
  any partial effect inside the targets of its record before it settles either way, and the process may
  die at any await. One process holds the ledger, and one member's operations run one at a time.

  Stated contracts of the adapter: `revoke` returning normally has removed its targets; a failing
  `apply` that reports `mutated === false` has sent nothing; nothing lands after the process has died.
 */
module GrantLedger {
  import opened Wrappers
  import opened GrantTargets

  datatype Row = Row(record: Record, rev: nat)

  /** What the member's current operation is waiting for, always a platform call. */
  datatype Pc =
    | Idle
    | Migrating(record: Record, prev: Record, orphan: Record, covered: bool)  // revoking what a renewal orphans
    | Applying(record: Record, prior: Option<Record>, rev: nat, touched: bool) // touched: something was sent
    | Compensating(record: Record, rev: nat)                                  // taking a first grant back
    | Sweeping(record: Record, rev: nat)
    | Admitting(record: Record)

  /** live: the targets the platform currently gives the member. */
  datatype Member = Member(row: Option<Row>, live: set<Target>, pc: Pc)

  /** The highest time ever observed, and whether a reading has ever been below it. */
  datatype Clock = Clock(mark: Option<int>, regressed: bool)

  datatype Ledger = Ledger(clock: Clock, revSeq: nat, members: map<string, Member>)

  function Of(l: Ledger, u: string): Member {
    if u in l.members then l.members[u] else Member(None, {}, Idle)
  }

  function With(l: Ledger, u: string, m: Member): Ledger {
    l.(members := l.members[u := m])
  }

  // ---- the guarded clock -----------------------------------------------------------------------------

  /** The time every expiry decision uses: the reading, raised to the highest ever observed. */
  function Floor(c: Clock, t: int): int {
    if c.mark.None? || t > c.mark.value then t else c.mark.value
  }

  function Sampled(c: Clock, t: int): Clock {
    if c.mark.None? || t > c.mark.value then c.(mark := Some(t))
    else c.(regressed := c.regressed || t < c.mark.value)
  }

  /** One sample, written down before anything is decided on it. */
  function Observe(l: Ledger, t: int): Ledger {
    l.(clock := Sampled(l.clock, t))
  }

  // ---- rows ------------------------------------------------------------------------------------------

  /** A write takes the next revision; a failed one leaves the row as it was. */
  function PutRow(l: Ledger, u: string, record: Record, ok: bool): Ledger {
    var l' := l.(revSeq := l.revSeq + 1);
    if ok then With(l', u, Of(l, u).(row := Some(Row(record, l.revSeq + 1)))) else l'
  }

  /** The conditional delete: only the row at this revision goes. */
  function DeleteAt(m: Member, rev: nat): Member {
    if m.row.Some? && m.row.value.rev == rev then m.(row := None) else m
  }

  // ---- the operations --------------------------------------------------------------------------------

  datatype Event =
    | Begin(u: string, record: Record, t: int, putOk: bool)   // grant, up to its first platform call
    | SweepStart(u: string, t: int)
    | AdmitStart(u: string, t: int, matches: bool)
    | Effect(u: string, live: set<Target>)                    // the call in flight does something
    | Succeeds(u: string, putOk: bool)                        // the call returns; any write that follows it
    | Fails(u: string, mutated: bool, putOk: bool)            // the call throws; any write that follows it
    | Reads(t: int)                                           // live(), and sweep's own sample
    | Removed(u: string, gone: set<Target>)                   // a moderator takes access away
    | Restart(t: int)                                         // the process dies and another opens the ledger
    | ResetClock(t: int)                                      // the same, with the operator's clock reset

  /** The targets the call in flight may touch. */
  function Reach(pc: Pc): set<Target> {
    match pc
    case Idle => {}
    case Migrating(_, _, orphan, _) => Names(orphan)
    case Applying(record, _, _, _) => Names(record)
    case Compensating(record, _) => Names(record)
    case Sweeping(record, _) => Names(record)
    case Admitting(record) => Names(record)
  }

  /** The last write of a grant, and the call that follows it. */
  function PersistThenApply(l: Ledger, u: string, record: Record, prev: Option<Record>, putOk: bool): Ledger {
    var l' := PutRow(l, u, record, putOk);
    With(l', u, Of(l', u).(pc := if putOk then Applying(record, prev, l'.revSeq, false) else Idle))
  }

  function BeginGrant(p: Policy, l: Ledger, u: string, record: Record, putOk: bool): Ledger {
    var m := Of(l, u);
    var prev := if m.row.Some? then Some(m.row.value.record) else None;
    var orphan := if prev.Some? then p.orphaned(prev.value, record) else None;
    if orphan.None? then PersistThenApply(l, u, record, prev, putOk)
    else
      var cover := p.covering(record, orphan.value);
      if cover.None? then With(l, u, m.(pc := Migrating(record, prev.value, orphan.value, false)))
      else
        var l' := PutRow(l, u, cover.value, putOk);
        With(l', u, Of(l', u).(pc := if putOk then Migrating(record, prev.value, orphan.value, true) else Idle))
  }

  function Succeed(l: Ledger, u: string, putOk: bool): Ledger {
    var m := Of(l, u);
    match m.pc
    case Idle => l
    case Migrating(record, prev, orphan, _) =>
      PersistThenApply(With(l, u, m.(live := m.live - Names(orphan))), u, record, Some(prev), putOk)
    case Applying(record, _, _, _) => With(l, u, m.(live := m.live + Names(record), pc := Idle))
    case Compensating(record, rev) => With(l, u, DeleteAt(m.(live := m.live - Names(record), pc := Idle), rev))
    case Sweeping(record, rev) => With(l, u, DeleteAt(m.(live := m.live - Names(record), pc := Idle), rev))
    case Admitting(_) => With(l, u, m.(pc := Idle))
  }

  function Fail(p: Policy, l: Ledger, u: string, mutated: bool, putOk: bool): Ledger {
    var m := Of(l, u);
    match m.pc
    case Migrating(_, prev, _, covered) =>
      var l' := if covered then PutRow(l, u, prev, putOk) else l;
      With(l', u, Of(l', u).(pc := Idle))
    case Applying(record, prior, rev, _) =>
      if prior.Some? then With(l, u, m.(pc := Idle))
      else if !mutated then With(l, u, DeleteAt(m.(pc := Idle), rev))
      else With(l, u, m.(pc := if p.repairs then Idle else Compensating(record, rev)))
    case _ => With(l, u, m.(pc := Idle))
  }

  predicate Passed(floor: int, r: Record) {
    r.expiresAt.Some? && floor >= r.expiresAt.value
  }

  function Died(l: Ledger): Ledger {
    l.(members := map u | u in l.members :: l.members[u].(pc := Idle))
  }

  /** None when the event cannot happen here. */
  function Step(p: Policy, l: Ledger, e: Event): Option<Ledger> {
    match e
    case Begin(u, record, t, putOk) =>
      if Of(l, u).pc != Idle || !IsValidRecord(record) then None
      else
        var l' := Observe(l, t);
        Some(if Passed(Floor(l.clock, t), record) then l' else BeginGrant(p, l', u, record, putOk))
    case SweepStart(u, t) =>
      var m := Of(l, u);
      if m.pc != Idle then None
      else
        var l' := Observe(l, t);
        Some(if m.row.None? || !Passed(Floor(l.clock, t), m.row.value.record) then l'
             else With(l', u, m.(pc := Sweeping(m.row.value.record, m.row.value.rev))))
    case AdmitStart(u, t, matches) =>
      var m := Of(l, u);
      if m.pc != Idle then None
      else
        var l' := Observe(l, t);
        Some(if m.row.None? || Passed(Floor(l.clock, t), m.row.value.record) || !matches then l'
             else With(l', u, m.(pc := Admitting(m.row.value.record))))
    case Effect(u, live) =>
      var m := Of(l, u);
      if m.pc == Idle || live - Reach(m.pc) != m.live - Reach(m.pc) then None
      else Some(With(l, u, m.(live := live, pc := if m.pc.Applying? then m.pc.(touched := true) else m.pc)))
    case Succeeds(u, putOk) => if Of(l, u).pc == Idle then None else Some(Succeed(l, u, putOk))
    case Fails(u, mutated, putOk) =>
      var m := Of(l, u);
      if m.pc == Idle || (m.pc.Applying? && m.pc.touched && !mutated) then None else Some(Fail(p, l, u, mutated, putOk))
    case Reads(t) => Some(Observe(l, t))
    case Removed(u, gone) => Some(With(l, u, Of(l, u).(live := Of(l, u).live - gone)))
    case Restart(t) => Some(Observe(Died(l), t))
    case ResetClock(t) => Some(Observe(Died(l).(clock := Clock(None, false)), t))
  }

  function Run(p: Policy, l: Ledger, events: seq<Event>): Ledger {
    if |events| == 0 then l
    else
      var before := Run(p, l, events[..|events| - 1]);
      var after := Step(p, before, events[|events| - 1]);
      if after.Some? then after.value else before
  }

  // ---- coverage --------------------------------------------------------------------------------------

  function Named(m: Member): set<Target> {
    if m.row.Some? then Names(m.row.value.record) else {}
  }

  /** The promise: whatever the member can reach, their row names. */
  predicate Covered(m: Member) {
    m.live <= Named(m)
  }

  /** What each await leaves true besides coverage. */
  ghost predicate PcOk(p: Policy, m: Member) {
    match m.pc
    case Idle => true
    case Migrating(record, prev, orphan, covered) =>
      && m.row.Some? && p.orphaned(prev, record) == Some(orphan) && Lawful(p, prev, record)
      && m.live <= Names(prev)
      && if covered then Names(record) + Names(orphan) <= Named(m) else m.row.value.record == prev
    case Applying(record, prior, rev, touched) =>
      m.row == Some(Row(record, rev)) && (prior.None? && !touched ==> m.live == {})
    case Compensating(record, rev) => m.row == Some(Row(record, rev))
    case Sweeping(record, rev) => m.row == Some(Row(record, rev))
    case Admitting(record) => m.row.Some? && m.row.value.record == record
  }


  /** A grant over what the member's row names. */
  ghost predicate LawfulOver(p: Policy, m: Member, record: Record) {
    m.row.Some? ==> Lawful(p, m.row.value.record, record)
  }

  /** If the event starts a grant, the two laws hold of it over the row it meets. */
  ghost predicate LawfulAt(p: Policy, l: Ledger, e: Event) {
    e.Begin? && Step(p, l, e).Some? && !Passed(Floor(l.clock, e.t), e.record) ==> LawfulOver(p, Of(l, e.u), e.record)
  }

  /** So in every state of the run. */
  ghost predicate LawfulRun(p: Policy, l: Ledger, events: seq<Event>) {
    forall k :: 0 <= k < |events| ==> LawfulAt(p, Run(p, l, events[..k]), events[k])
  }

  ghost predicate MemberOk(p: Policy, m: Member, revSeq: nat) {
    Covered(m) && PcOk(p, m) && (m.row.Some? ==> m.row.value.rev <= revSeq)
  }

  ghost predicate Inv(p: Policy, l: Ledger) {
    forall u {:trigger l.members[u]} :: u in l.members ==> MemberOk(p, l.members[u], l.revSeq)
  }

  // ---- every step keeps it ---------------------------------------------------------------------------

  lemma WithKeeps(p: Policy, l: Ledger, u: string, m: Member)
    requires Inv(p, l) && MemberOk(p, m, l.revSeq)
    ensures Inv(p, With(l, u, m))
  {
  }

  lemma OfIsOk(p: Policy, l: Ledger, u: string)
    requires Inv(p, l)
    ensures MemberOk(p, Of(l, u), l.revSeq)
  {
  }

  lemma BumpKeeps(p: Policy, l: Ledger)
    requires Inv(p, l)
    ensures Inv(p, l.(revSeq := l.revSeq + 1))
  {
  }

  /** The write covers whatever the new record names, whether or not it lands. */
  lemma PersistKeeps(p: Policy, l: Ledger, u: string, record: Record, prior: Option<Record>, putOk: bool)
    requires Inv(p, l)
    requires Of(l, u).live <= Names(record) && (prior.None? ==> Of(l, u).live == {})
    ensures Inv(p, PersistThenApply(l, u, record, prior, putOk))
  {
    OfIsOk(p, l, u);
    BumpKeeps(p, l);
    var l1 := l.(revSeq := l.revSeq + 1);
    var m := Of(l, u);
    if putOk {
      var m' := m.(row := Some(Row(record, l.revSeq + 1)), pc := Applying(record, prior, l.revSeq + 1, false));
      WithKeeps(p, l1, u, m');
      assert PersistThenApply(l, u, record, prior, putOk) == With(l1, u, m');
    } else {
      WithKeeps(p, l1, u, m.(pc := Idle));
      assert PersistThenApply(l, u, record, prior, putOk) == With(l1, u, m.(pc := Idle));
    }
  }

  lemma BeginKeeps(p: Policy, l: Ledger, u: string, record: Record, putOk: bool)
    requires Inv(p, l) && Of(l, u).pc == Idle && LawfulOver(p, Of(l, u), record)
    ensures Inv(p, BeginGrant(p, l, u, record, putOk))
  {
    OfIsOk(p, l, u);
    var m := Of(l, u);
    var prev := if m.row.Some? then Some(m.row.value.record) else None;
    var orphan := if prev.Some? then p.orphaned(prev.value, record) else None;
    if orphan.None? {
      PersistKeeps(p, l, u, record, prev, putOk);
    } else {
      var cover := p.covering(record, orphan.value);
      if cover.None? {
        WithKeeps(p, l, u, m.(pc := Migrating(record, prev.value, orphan.value, false)));
      } else {
        BumpKeeps(p, l);
        var l1 := l.(revSeq := l.revSeq + 1);
        if putOk {
          var m' := m.(row := Some(Row(cover.value, l.revSeq + 1)),
              pc := Migrating(record, prev.value, orphan.value, true));
          assert Covered(m');
          WithKeeps(p, l1, u, m');
          assert BeginGrant(p, l, u, record, putOk) == With(l1, u, m');
        } else {
          WithKeeps(p, l1, u, m);
          assert BeginGrant(p, l, u, record, putOk) == With(l1, u, m);
        }
      }
    }
  }

  lemma SucceedKeeps(p: Policy, l: Ledger, u: string, putOk: bool)
    requires Inv(p, l)
    ensures Inv(p, Succeed(l, u, putOk))
  {
    OfIsOk(p, l, u);
    var m := Of(l, u);
    match m.pc
    case Migrating(record, prev, orphan, _) =>
      var m' := m.(live := m.live - Names(orphan));
      WithKeeps(p, l, u, m');
      PersistKeeps(p, With(l, u, m'), u, record, Some(prev), putOk);
    case Applying(record, _, _, _) => WithKeeps(p, l, u, m.(live := m.live + Names(record), pc := Idle));
    case Compensating(record, rev) =>
      WithKeeps(p, l, u, DeleteAt(m.(live := m.live - Names(record), pc := Idle), rev));
    case Sweeping(record, rev) =>
      WithKeeps(p, l, u, DeleteAt(m.(live := m.live - Names(record), pc := Idle), rev));
    case Admitting(_) => WithKeeps(p, l, u, m.(pc := Idle));
    case Idle =>
  }

  lemma FailKeeps(p: Policy, l: Ledger, u: string, mutated: bool, putOk: bool)
    requires Inv(p, l) && Of(l, u).pc != Idle
    requires Of(l, u).pc.Applying? && Of(l, u).pc.touched ==> mutated
    ensures Inv(p, Fail(p, l, u, mutated, putOk))
  {
    OfIsOk(p, l, u);
    var m := Of(l, u);
    match m.pc
    case Migrating(_, prev, _, covered) =>
      if covered {
        BumpKeeps(p, l);
        var l1 := l.(revSeq := l.revSeq + 1);
        var m' := if putOk then m.(row := Some(Row(prev, l.revSeq + 1)), pc := Idle) else m.(pc := Idle);
        WithKeeps(p, l1, u, m');
        assert Fail(p, l, u, mutated, putOk) == With(l1, u, m');
      } else {
        WithKeeps(p, l, u, m.(pc := Idle));
      }
    case Applying(record, prior, rev, _) =>
      if prior.Some? {
        WithKeeps(p, l, u, m.(pc := Idle));
      } else if !mutated {
        WithKeeps(p, l, u, DeleteAt(m.(pc := Idle), rev));
      } else {
        WithKeeps(p, l, u, m.(pc := if p.repairs then Idle else Compensating(record, rev)));
      }
    case _ => WithKeeps(p, l, u, m.(pc := Idle));
  }

  lemma ObserveKeeps(p: Policy, l: Ledger, t: int)
    requires Inv(p, l)
    ensures Inv(p, Observe(l, t)) && forall u :: Of(Observe(l, t), u) == Of(l, u)
  {
  }

  /** One step keeps coverage if the grant it starts, when it starts one, is lawful over the row it meets. */
  lemma StepKeeps(p: Policy, l: Ledger, e: Event)
    requires Inv(p, l) && Step(p, l, e).Some? && LawfulAt(p, l, e)
    ensures Inv(p, Step(p, l, e).value)
  {
    match e
    case Begin(u, record, t, putOk) =>
      ObserveKeeps(p, l, t);
      if !Passed(Floor(l.clock, t), record) { BeginKeeps(p, Observe(l, t), u, record, putOk); }
    case SweepStart(u, t) =>
      ObserveKeeps(p, l, t);
      OfIsOk(p, l, u);
      var m := Of(l, u);
      if m.row.Some? { WithKeeps(p, Observe(l, t), u, m.(pc := Sweeping(m.row.value.record, m.row.value.rev))); }
    case AdmitStart(u, t, _) =>
      ObserveKeeps(p, l, t);
      OfIsOk(p, l, u);
      var m := Of(l, u);
      if m.row.Some? { WithKeeps(p, Observe(l, t), u, m.(pc := Admitting(m.row.value.record))); }
    case Effect(u, live) =>
      OfIsOk(p, l, u);
      EffectKeeps(p, Of(l, u), live, l.revSeq);
      var m := Of(l, u);
      WithKeeps(p, l, u, m.(live := live, pc := if m.pc.Applying? then m.pc.(touched := true) else m.pc));
    case Succeeds(u, putOk) => SucceedKeeps(p, l, u, putOk);
    case Fails(u, mutated, putOk) => FailKeeps(p, l, u, mutated, putOk);
    case Reads(t) => ObserveKeeps(p, l, t);
    case Removed(u, gone) =>
      OfIsOk(p, l, u);
      WithKeeps(p, l, u, Of(l, u).(live := Of(l, u).live - gone));
    case Restart(t) => ObserveKeeps(p, Died(l), t);
    case ResetClock(t) => ObserveKeeps(p, Died(l).(clock := Clock(None, false)), t);
  }

  /** A partial effect stays inside what the row names. */
  lemma EffectKeeps(p: Policy, m: Member, live: set<Target>, revSeq: nat)
    requires MemberOk(p, m, revSeq) && live - Reach(m.pc) == m.live - Reach(m.pc)
    ensures MemberOk(p, m.(live := live, pc := if m.pc.Applying? then m.pc.(touched := true) else m.pc), revSeq)
  {
    forall t | t in live ensures t in Reach(m.pc) || t in m.live {
      assert t in live - Reach(m.pc) <==> t in m.live - Reach(m.pc);
    }
  }

  lemma {:induction false} RunKeeps(p: Policy, l: Ledger, events: seq<Event>)
    requires Inv(p, l) && LawfulRun(p, l, events)
    ensures Inv(p, Run(p, l, events))
  {
    hide Inv, Step, LawfulAt;
    if |events| > 0 {
      var front, last := events[..|events| - 1], events[|events| - 1];
      assert forall k :: 0 <= k < |front| ==> front[..k] == events[..k];
      RunKeeps(p, l, front);
      if Step(p, Run(p, l, front), last).Some? { StepKeeps(p, Run(p, l, front), last); }
    }
  }

  /** A ledger between operations, whose rows cover what is live. */
  ghost predicate Fresh(l: Ledger) {
    forall u {:trigger l.members[u]} :: u in l.members ==>
      && l.members[u].pc == Idle && Covered(l.members[u])
      && (l.members[u].row.Some? ==> l.members[u].row.value.rev <= l.revSeq)
  }

  /** Coverage, over every run: grants, renewals, sweeps and admissions of any number of members, with
      every platform call failing or half done, every write failing, and the process dying at any await,
      leave every live target named by its member's row. */
  lemma EveryLiveTargetIsNamed(p: Policy, l: Ledger, events: seq<Event>, u: string)
    requires Fresh(l) && LawfulRun(p, l, events)
    ensures Of(Run(p, l, events), u).live <= Named(Of(Run(p, l, events), u))
  {
    hide Inv, Run, Fresh;
    FreshHolds(p, l);
    RunKeeps(p, l, events);
    OfIsOk(p, Run(p, l, events), u);
  }

  lemma FreshHolds(p: Policy, l: Ledger)
    requires Fresh(l)
    ensures Inv(p, l)
  {
  }

  // ---- which runs are lawful --------------------------------------------------------------------------

  /** A class of records closed under renewal, on which the adapter's two laws hold. */
  ghost predicate Closed(p: Policy, good: Record -> bool) {
    forall prev, next {:trigger Lawful(p, prev, next)} :: good(prev) && good(next) ==>
      && Lawful(p, prev, next)
      && forall orphan :: p.orphaned(prev, next) == Some(orphan) && p.covering(next, orphan).Some? ==>
           good(p.covering(next, orphan).value)
  }

  /** Every record the member has or is being given is of the class. */
  ghost predicate GoodMember(good: Record -> bool, m: Member) {
    && (m.row.Some? ==> good(m.row.value.record))
    && match m.pc
       case Migrating(record, prev, _, _) => good(record) && good(prev)
       case _ => true
  }

  ghost predicate Good(good: Record -> bool, l: Ledger) {
    forall u :: GoodMember(good, Of(l, u))
  }

  /** The covering record of the renewal the event starts is of the class. */
  ghost predicate GoodAt(p: Policy, good: Record -> bool, l: Ledger, e: Event) {
    e.Begin? && Step(p, l, e).Some? ==>
      && good(e.record)
      && forall orphan ::
           Of(l, e.u).row.Some? && p.orphaned(Of(l, e.u).row.value.record, e.record) == Some(orphan)
           && p.covering(e.record, orphan).Some? ==>
           good(p.covering(e.record, orphan).value)
  }

  lemma GoodStep(p: Policy, good: Record -> bool, l: Ledger, e: Event)
    requires Good(good, l) && Step(p, l, e).Some? && GoodAt(p, good, l, e)
    ensures Good(good, Step(p, l, e).value)
  {
    var l' := Step(p, l, e).value;
    forall u ensures GoodMember(good, Of(l', u)) {
      assert GoodMember(good, Of(l, u));
      OthersAside(p, l, e, u);
    }
  }

  /** A step touches one member's row; a death, nobody's. */
  lemma OthersAside(p: Policy, l: Ledger, e: Event, u: string)
    requires Step(p, l, e).Some?
    ensures var m, m' := Of(l, u), Of(Step(p, l, e).value, u);
      (m'.row == m.row && (m'.pc == m.pc || m'.pc == Idle)) || (!e.Reads? && !e.Restart? && !e.ResetClock? && e.u == u)
  {
  }

  lemma ClosedAt(p: Policy, good: Record -> bool, l: Ledger, e: Event)
    requires Good(good, l) && Closed(p, good) && (e.Begin? ==> good(e.record))
    ensures GoodAt(p, good, l, e) && LawfulAt(p, l, e)
  {
    if e.Begin? {
      assert GoodMember(good, Of(l, e.u));
      var row := Of(l, e.u).row;
      assert row.Some? ==> Lawful(p, row.value.record, e.record);
    }
  }

  /** Grants of a closed class are lawful wherever they are made. */
  lemma {:induction false} ClosedRunsAreLawful(p: Policy, good: Record -> bool, l: Ledger, events: seq<Event>)
    requires Good(good, l) && Closed(p, good) && forall i :: 0 <= i < |events| && events[i].Begin? ==>
      good(events[i].record)
    ensures Good(good, Run(p, l, events)) && LawfulRun(p, l, events)
  {
    hide Step;
    if |events| > 0 {
      var front, last := events[..|events| - 1], events[|events| - 1];
      ClosedRunsAreLawful(p, good, l, front);
      var before := Run(p, l, front);
      ClosedAt(p, good, before, last);
      if Step(p, before, last).Some? { GoodStep(p, good, before, last); }
      forall k | 0 <= k < |events| ensures LawfulAt(p, Run(p, l, events[..k]), events[k]) {
        if k < |front| { assert front[..k] == events[..k] && front[k] == events[k]; }
      }
    }
  }

  predicate ChannelGrant(r: Record) {
    IsValidRecord(r) && r.mode == Channel
  }

  lemma UnionIsValid(record: Record, orphan: Record)
    requires ChannelGrant(record) && orphan.mode == Channel && forall c :: c in orphan.channels ==> c != ""
    ensures ChannelGrant(CoveringTargets(record, orphan))
  {
    var all := CoveringTargets(record, orphan).channels;
    assert record.channels[0] in all;
    forall i | 0 <= i < |all| ensures all[i] != "" {
      assert all[i] in all;
      if all[i] in record.channels { var k :| 0 <= k < |record.channels| && record.channels[k] == all[i]; }
    }
  }

  /** Discord's channel grants are such a class. */
  lemma DiscordChannelsAreClosed()
    ensures Closed(DiscordPolicy(), ChannelGrant)
  {
    var p := DiscordPolicy();
    forall prev, next | ChannelGrant(prev) && ChannelGrant(next)
      ensures Lawful(p, prev, next)
      ensures forall orphan :: p.orphaned(prev, next) == Some(orphan) ==> ChannelGrant(p.covering(next, orphan).value)
    {
      DiscordIsLawfulExactlyWhenRenewable(prev, next);
      if p.orphaned(prev, next).Some? {
        var orphan := p.orphaned(prev, next).value;
        forall c | c in orphan.channels ensures c != "" {
          assert c in prev.channels;
          var k :| 0 <= k < |prev.channels| && prev.channels[k] == c;
        }
        UnionIsValid(next, orphan);
      }
    }
  }

  /** So are grants to one chat or room, where no covering record exists and the old order is used. */
  lemma SinglePlacesAreClosed()
    ensures Closed(SinglePlacePolicy(), ChannelGrant)
  {
    forall prev, next | ChannelGrant(prev) && ChannelGrant(next) ensures Lawful(SinglePlacePolicy(), prev, next) {
      SinglePlaceIsLawful(prev, next);
    }
  }

  /** A renewal a Discord caller can check: nothing is orphaned of what the row names, or both are channels. */
  predicate RenewableAt(l: Ledger, e: Event) {
    e.Begin? && Of(l, e.u).row.Some? ==> Renewable(Of(l, e.u).row.value.record, e.record)
  }

  lemma RenewableIsLawful(l: Ledger, e: Event)
    requires Good(IsValidRecord, l) && RenewableAt(l, e)
    ensures GoodAt(DiscordPolicy(), IsValidRecord, l, e) && LawfulAt(DiscordPolicy(), l, e)
  {
    var p := DiscordPolicy();
    if e.Begin? && Step(p, l, e).Some? && Of(l, e.u).row.Some? {
      assert GoodMember(IsValidRecord, Of(l, e.u));
      var prev := Of(l, e.u).row.value.record;
      DiscordIsLawfulExactlyWhenRenewable(prev, e.record);
      if p.orphaned(prev, e.record).Some? { CoverIsValid(prev, e.record); }
    }
  }

  lemma CoverIsValid(prev: Record, next: Record)
    requires IsValidRecord(prev) && IsValidRecord(next) && ExtraTargets(prev, Some(next)).Some? && Renewable(prev, next)
    ensures ChannelGrant(CoveringTargets(next, ExtraTargets(prev, Some(next)).value))
  {
    var orphan := ExtraTargets(prev, Some(next)).value;
    forall c | c in orphan.channels ensures c != "" {
      assert c in prev.channels;
      var k :| 0 <= k < |prev.channels| && prev.channels[k] == c;
    }
    UnionIsValid(next, orphan);
  }

  /** For Discord, every run whose renewals are each of that kind over the row they meet is covered, role and
      channel grants alike. */
  lemma {:induction false} DiscordRunsAreLawful(l: Ledger, events: seq<Event>)
    requires Good(IsValidRecord, l)
    requires forall k :: 0 <= k < |events| ==> RenewableAt(Run(DiscordPolicy(), l, events[..k]), events[k])
    ensures Good(IsValidRecord, Run(DiscordPolicy(), l, events)) && LawfulRun(DiscordPolicy(), l, events)
  {
    hide Step, RenewableAt, LawfulAt, GoodAt;
    var p := DiscordPolicy();
    if |events| > 0 {
      var front, last := events[..|events| - 1], events[|events| - 1];
      assert forall k :: 0 <= k < |front| ==> front[..k] == events[..k] && front[k] == events[k];
      DiscordRunsAreLawful(l, front);
      var before := Run(p, l, front);
      RenewableIsLawful(before, last);
      if Step(p, before, last).Some? { GoodStep(p, IsValidRecord, before, last); }
      forall k | 0 <= k < |events| ensures LawfulAt(p, Run(p, l, events[..k]), events[k]) {
        if k < |front| { assert front[..k] == events[..k] && front[k] == events[k]; }
      }
    }
  }

  // ---- where coverage fails ---------------------------------------------------------------------------

  /** Exactly which renewals keep coverage for Discord, in any ledger: with all of a member's grant live, the
      row the renewal writes first covers it if and only if nothing is orphaned or both grants are channels.
      A role change writes the new role's row while the old role is still held. */
  lemma DiscordRenewalCoversExactlyWhen(l: Ledger, u: string, next: Record, t: int)
    requires var m := Of(l, u);
      m.row.Some? && IsValidRecord(m.row.value.record) && m.live == Names(m.row.value.record) && m.pc == Idle
    requires IsValidRecord(next) && !Passed(Floor(l.clock, t), next)
    ensures var after := Step(DiscordPolicy(), l, Begin(u, next, t, true));
      after.Some? && (Covered(Of(after.value, u)) <==> Renewable(Of(l, u).row.value.record, next))
  {
    var prev := Of(l, u).row.value.record;
    CoversExactlyWhenRenewable(prev, next);
    ExtraIsDifference(prev, next);
  }

  /** The member with this row, holding all of it. */
  function Holding(prev: Record): Ledger {
    Ledger(Clock(None, false), 1, map["member" := Member(Some(Row(prev, 1)), Names(prev), Idle)])
  }

  /** One such run: dying before the old role is taken away leaves it held, with a row that names another. */
  lemma RoleChangeLosesTrack()
    ensures var was, next := Record(Role, [], "old", Some(100)), Record(Role, [], "next", Some(100));
      var m := Of(Run(DiscordPolicy(), Holding(was), [Begin("member", next, 1, true), Restart(2)]), "member");
      RoleTarget("old") in m.live && m.row == Some(Row(next, 2)) && !Covered(m)
  {
    var was, next := Record(Role, [], "old", Some(100)), Record(Role, [], "next", Some(100));
    var p, l := DiscordPolicy(), Holding(was);
    var e, f := Begin("member", next, 1, true), Restart(2);
    assert Run(p, l, []) == l && [e][..0] == [] && [e, f][..1] == [e];
    var l1 := Step(p, l, e).value;
    assert Run(p, l, [e]) == l1;
    assert "member" in l1.members && Of(l1, "member").row == Some(Row(next, 2));
    assert Run(p, l, [e, f]) == Step(p, l1, f).value;
    assert RoleTarget("old") !in Names(next);
  }

  // ---- what coverage buys -----------------------------------------------------------------------------

  /** Because the row names everything live, a sweep that completes leaves nothing: no access, no row. */
  lemma SweepLeavesNothing(p: Policy, l: Ledger, events: seq<Event>, u: string, putOk: bool)
    requires Fresh(l) && LawfulRun(p, l, events)
    requires var pc := Of(Run(p, l, events), u).pc; pc.Sweeping? || pc.Compensating?
    ensures Of(Succeed(Run(p, l, events), u, putOk), u) == Member(None, {}, Idle)
  {
    hide Inv, Run, Fresh;
    FreshHolds(p, l);
    RunKeeps(p, l, events);
    OfIsOk(p, Run(p, l, events), u);
  }

  /** An admission in flight is always to a target the member's row still names. */
  lemma {:induction false} AdmissionIsTracked(p: Policy, l: Ledger, events: seq<Event>, u: string)
    requires Fresh(l) && LawfulRun(p, l, events)
    requires Of(Run(p, l, events), u).pc.Admitting?
    ensures var m := Of(Run(p, l, events), u);
      m.row.Some? && m.row.value.record == m.pc.record && Reach(m.pc) == Named(m)
  {
    hide Inv, Run, Fresh;
    FreshHolds(p, l);
    RunKeeps(p, l, events);
    OfIsOk(p, Run(p, l, events), u);
  }

  // ---- time never runs backwards ----------------------------------------------------------------------

  /** What live() answers. */
  predicate LiveAt(l: Ledger, u: string, t: int) {
    var row := Of(l, u).row;
    row.Some? && !Passed(Floor(l.clock, t), row.value.record)
  }

  lemma MarkStep(p: Policy, l: Ledger, e: Event)
    requires Step(p, l, e).Some? && !e.ResetClock? && l.clock.mark.Some?
    ensures var c := Step(p, l, e).value.clock; c.mark.Some? && c.mark.value >= l.clock.mark.value
  {
    if e.Begin? { BeginKeepsClock(p, Observe(l, e.t), e.u, e.record, e.putOk); }
  }

  lemma BeginKeepsClock(p: Policy, l: Ledger, u: string, record: Record, putOk: bool)
    ensures BeginGrant(p, l, u, record, putOk).clock == l.clock
  {
  }

  lemma {:induction false} MarkNeverFalls(p: Policy, l: Ledger, events: seq<Event>)
    requires l.clock.mark.Some? && forall i :: 0 <= i < |events| ==> !events[i].ResetClock?
    ensures var c := Run(p, l, events).clock; c.mark.Some? && c.mark.value >= l.clock.mark.value
  {
    if |events| > 0 {
      var front, last := events[..|events| - 1], events[|events| - 1];
      MarkNeverFalls(p, l, front);
      if Step(p, Run(p, l, front), last).Some? { MarkStep(p, Run(p, l, front), last); }
    }
  }

  /** A deadline once judged passed stays passed: whatever happens afterwards short of the operator's
      reset, restarts and any clock readings included, no decision treats it as live again. The grant is
      refused with nothing changed, the admission does not start, live() is false, and the sweep takes
      the access back. */
  lemma {:induction false} DeadlineIsFinal(p: Policy, l: Ledger, judgedAt: int, r: Record, events: seq<Event>,
                                           u: string, t: int)
    requires Passed(Floor(l.clock, judgedAt), r)
    requires forall i :: 0 <= i < |events| ==> !events[i].ResetClock?
    ensures var l' := Run(p, Observe(l, judgedAt), events);
      && Passed(Floor(l'.clock, t), r)
      && (forall putOk :: Step(p, l', Begin(u, r, t, putOk)).Some? ==>
           Step(p, l', Begin(u, r, t, putOk)).value == Observe(l', t))
      && (Of(l', u).row.Some? && Of(l', u).row.value.record == r ==>
            && !LiveAt(l', u, t)
            && forall matches :: Step(p, l', AdmitStart(u, t, matches)).Some? ==>
                 Step(p, l', AdmitStart(u, t, matches)).value == Observe(l', t))
      && (Of(l', u).row.Some? && Of(l', u).row.value.record == r && Of(l', u).pc == Idle ==>
            Of(Step(p, l', SweepStart(u, t)).value, u).pc == Sweeping(r, Of(l', u).row.value.rev))
  {
    MarkNeverFalls(p, Observe(l, judgedAt), events);
  }

  // ---- the table the rows are in ----------------------------------------------------------------------

  const MAX_SAFE_INTEGER: int := 0x1f_ffff_ffff_ffff

  /** The grants table with its revision counter and clock row, each written at the point of call. */
  class GrantTable {
    var rows: map<string, Row>
    var revSeq: Option<int>
    var clock: Clock

    /** The counter is above every revision in the table. */
    ghost predicate Seeded()
      reads this
    {
      revSeq.Some? && revSeq.value >= 0 && forall u {:trigger rows[u]} :: u in rows ==> rows[u].rev <= revSeq.value
    }

    /** The table is this ledger's: its rows, its counter and its clock. */
    ghost predicate Holds(l: Ledger)
      reads this
    {
      && revSeq == Some(l.revSeq) && clock == l.clock
      && forall u :: (if u in rows then Some(rows[u]) else None) == Of(l, u).row
    }

    constructor (rows: map<string, Row>, revSeq: Option<int>, clock: Clock)
      ensures this.rows == rows && this.revSeq == revSeq && this.clock == clock
    {
      this.rows, this.revSeq, this.clock := rows, revSeq, clock;
    }

    /** Never lowered, and raised above whatever an older build left in the rows; a malformed counter is
        refused rather than restarted. */
    method SeedRevSeq() returns (ok: bool)
      modifies this`revSeq
      ensures ok <==> old(revSeq).None? || 0 <= old(revSeq).value <= MAX_SAFE_INTEGER
      ensures ok ==> Seeded() && (old(revSeq).Some? ==> revSeq.value >= old(revSeq).value)
      ensures !ok ==> revSeq == old(revSeq)
    {
      var highest := 0;
      var todo := rows.Keys;
      while todo != {}
        invariant todo <= rows.Keys && highest >= 0
        invariant forall u :: u in rows && u !in todo ==> rows[u].rev <= highest
        decreases |todo|
      {
        var u :| u in todo;
        if rows[u].rev > highest { highest := rows[u].rev; }
        todo := todo - {u};
      }
      if revSeq.None? {
        revSeq := Some(highest);
      } else if revSeq.value < 0 || revSeq.value > MAX_SAFE_INTEGER {
        return false;
      } else if revSeq.value < highest {
        revSeq := Some(highest);
      }
      ok := true;
    }

    /** The revision returned belongs to no row, now or before; and the table stays the ledger's. */
    method Put(u: string, record: Record, ghost l: Ledger) returns (rev: nat)
      requires Seeded()
      modifies this`rows, this`revSeq
      ensures Seeded() && rows == old(rows)[u := Row(record, rev)]
      ensures rev > old(revSeq).value && forall v :: v in old(rows) ==> old(rows)[v].rev < rev
      ensures old(Holds(l)) ==> Holds(PutRow(l, u, record, true))
    {
      rev := revSeq.value + 1;
      revSeq := Some(rev);
      rows := rows[u := Row(record, rev)];
    }

    /** Only the row the caller read goes; and the table stays the ledger's. */
    method Delete(u: string, rev: nat, ghost l: Ledger) returns (changes: nat)
      requires Seeded()
      modifies this`rows
      ensures Seeded()
      ensures (changes == 1 && u in old(rows) && old(rows)[u].rev == rev && rows == old(rows) - {u})
           || (changes == 0 && (u !in old(rows) || old(rows)[u].rev != rev) && rows == old(rows))
      ensures old(Holds(l)) ==> Holds(With(l, u, DeleteAt(Of(l, u), rev)))
    {
      if u in rows && rows[u].rev == rev {
        rows := rows - {u};
        return 1;
      }
      changes := 0;
    }

    /** The sample returned is the one written down; and the table stays the ledger's. */
    method ObserveClock(t: int, ghost l: Ledger) returns (wall: int, floor: int)
      modifies this`clock
      ensures wall == t && floor == Floor(old(clock), t) && clock == Sampled(old(clock), t)
      ensures clock.mark == Some(floor) && floor >= wall
      ensures old(clock).mark.Some? ==> floor >= old(clock).mark.value
      ensures old(Holds(l)) ==> Holds(Observe(l, t))
    {
      if clock.mark.None? || t > clock.mark.value {
        clock := clock.(mark := Some(t));
        return t, t;
      }
      if t < clock.mark.value && !clock.regressed { clock := clock.(regressed := true); }
      return t, clock.mark.value;
    }
  }
}

/**
  What a grant leaves behind, however it ends (adapters/common/grant_ledger.js): the record the member's row names
  after each ending, said of the record asked for and the one that was there before; and, over runs, that nobody
  is held past the deadline of a grant that names what they hold.
 */
module GrantOutcomes {
  import opened GrantLedger
  import opened GrantTargets
  import opened Wrappers

  function RecordOf(m: Member): Option<Record> {
    if m.row.Some? then Some(m.row.value.record) else None
  }

  /** The deadline has passed at this time or at an earlier one observed. */
  predicate Expired(c: Clock, t: int, r: Record) {
    r.expiresAt.Some? && (r.expiresAt.value <= t || (c.mark.Some? && r.expiresAt.value <= c.mark.value))
  }

  // ---- which operations start -----------------------------------------------------------------------------

  /** A grant is refused exactly when its deadline has passed, and then nothing is written but the time. */
  lemma GrantsExactlyWhen(p: Policy, l: Ledger, u: string, record: Record, t: int, putOk: bool)
    requires Of(l, u).pc == Idle && IsValidRecord(record)
    ensures var after := Step(p, l, Begin(u, record, t, putOk));
      && after.Some?
      && (Expired(l.clock, t, record) ==> after.value.members == l.members && after.value.revSeq == l.revSeq)
      && (!Expired(l.clock, t, record) && putOk ==> Of(after.value, u).pc != Idle)
  {
  }

  /** A sweep takes back exactly what has expired, and a member is live, and admitted, exactly under a row that has
      not. */
  lemma SweepsExactlyWhen(p: Policy, l: Ledger, u: string, t: int, matches: bool)
    requires Of(l, u).pc == Idle
    ensures var m, swept, admitted := Of(l, u), Step(p, l, SweepStart(u, t)), Step(p, l, AdmitStart(u, t, matches));
      && swept.Some? && admitted.Some?
      && (LiveAt(l, u, t) <==> m.row.Some? && !Expired(l.clock, t, m.row.value.record))
      && (Of(swept.value, u).pc.Sweeping? <==> m.row.Some? && Expired(l.clock, t, m.row.value.record))
      && (Of(swept.value, u).pc.Sweeping? ==> Reach(Of(swept.value, u).pc) == Named(m))
      && (Of(admitted.value, u).pc.Admitting? <==>
            m.row.Some? && !Expired(l.clock, t, m.row.value.record) && matches)
      && (!Of(swept.value, u).pc.Sweeping? ==> swept.value.members == l.members)
      && (!Of(admitted.value, u).pc.Admitting? ==> admitted.value.members == l.members)
  {
  }

  /** What may go wrong, at any await: the call in flight does anything within its record's targets, or fails, having
      sent something or nothing unless it is known to have sent something, with any write after it failing too; and
      the process dies. */
  lemma AnythingMayFail(p: Policy, l: Ledger, u: string, live: set<Target>, mutated: bool, putOk: bool, t: int)
    requires Of(l, u).pc != Idle && live - Reach(Of(l, u).pc) == Of(l, u).live - Reach(Of(l, u).pc)
    ensures Step(p, l, Effect(u, live)).Some? && Of(Step(p, l, Effect(u, live)).value, u).live == live
    ensures Step(p, l, Fails(u, mutated, putOk)).None? ==> Of(l, u).pc.Applying? && Of(l, u).pc.touched && !mutated
    ensures var died := Step(p, l, Restart(t));
      && died.Some? && Of(died.value, u) == Of(l, u).(pc := Idle)
      && died.value.clock.mark.Some? && died.value.clock.mark.value >= t
      && (l.clock.mark.Some? ==> died.value.clock.mark.value >= l.clock.mark.value)
  {
  }

  // ---- a grant in hand -------------------------------------------------------------------------------------

  /** The member's operation in hand is the grant of this record, over a row that named `was`. */
  ghost predicate Carries(p: Policy, was: Option<Record>, record: Record, m: Member) {
    match m.pc
    case Migrating(r, prev, orphan, covered) =>
      && r == record && was == Some(prev) && p.orphaned(prev, record) == Some(orphan)
      && covered == p.covering(record, orphan).Some?
      && RecordOf(m) == if covered then p.covering(record, orphan) else was
    case Applying(r, prior, rev, _) => r == record && prior == was && m.row == Some(Row(record, rev))
    case Compensating(r, rev) => r == record && was.None? && m.row == Some(Row(record, rev)) && !p.repairs
    case _ => false
  }

  /** A grant begins with its migration if it orphans anything, and with its own record otherwise; if its first write
      fails it leaves the member as they were. */
  lemma BeginsAs(p: Policy, l: Ledger, u: string, record: Record, t: int, putOk: bool)
    requires Of(l, u).pc == Idle && IsValidRecord(record) && !Expired(l.clock, t, record)
    ensures var m, after := Of(l, u), Step(p, l, Begin(u, record, t, putOk));
      && after.Some?
      && var m' := Of(after.value, u);
         && m'.live == m.live
         && (m'.pc == Idle ==> !putOk && m' == m)
         && (m'.pc != Idle ==> Carries(p, RecordOf(m), record, m'))
         && (m'.pc.Migrating? ==> m.row.Some? && p.orphaned(m.row.value.record, record).Some?)
         && (m'.pc.Applying? ==> m.row.None? || p.orphaned(m.row.value.record, record).None?)
  {
  }

  /** Until the member's operation ends it stays that grant. */
  lemma CarriesOn(p: Policy, l: Ledger, u: string, was: Option<Record>, record: Record, e: Event)
    requires Carries(p, was, record, Of(l, u)) && Step(p, l, e).Some?
    ensures var m' := Of(Step(p, l, e).value, u); m'.pc == Idle || Carries(p, was, record, m')
  {
    hide IsValidRecord, Names;
    match e
    case Succeeds(v, _) =>
    case Fails(v, _, _) =>
    case _ => OthersAside(p, l, e, u);
  }

  /** What the ending e of the grant of a record, over a row that named `was`, makes of the member m. */
  ghost predicate EndsAs(p: Policy, was: Option<Record>, record: Record, m: Member, e: Event, m': Member) {
    if e.Restart? || e.ResetClock? then m'.row == m.row && m'.live == m.live
    else
      match m.pc
      case Migrating(_, _, orphan, covered) =>
        if e.Fails? then
          m'.live == m.live && RecordOf(m') == if covered && !e.putOk then RecordOf(m) else was
        else m'.live == m.live - Names(orphan) && RecordOf(m') == RecordOf(m)
      case Applying(_, _, _, _) =>
        if e.Succeeds? then m'.live == m.live + Names(record) && RecordOf(m') == Some(record)
        else e.Fails? && m'.live == m.live
             && RecordOf(m') == if was.None? && !e.mutated then None else Some(record)
      case _ =>
        if e.Succeeds? then m'.live == m.live - Names(record) && RecordOf(m') == None
        else m'.live == m.live && RecordOf(m') == Some(record)
  }

  lemma EndsSo(p: Policy, l: Ledger, u: string, was: Option<Record>, record: Record, e: Event)
    requires Carries(p, was, record, Of(l, u)) && Step(p, l, e).Some? && Of(Step(p, l, e).value, u).pc == Idle
    ensures EndsAs(p, was, record, Of(l, u), e, Of(Step(p, l, e).value, u))
    ensures e.Restart? || e.ResetClock? || ((e.Succeeds? || e.Fails?) && e.u == u)
  {
    hide IsValidRecord, Names;
  }

  /** The grant begun at this event is still in hand. */
  predicate InHand(p: Policy, l: Ledger, events: seq<Event>, at: nat, u: string) {
    && at < |events| && events[at].Begin? && events[at].u == u
    && Of(Run(p, l, events[..at]), u).pc == Idle && IsValidRecord(events[at].record)
    && !Expired(Run(p, l, events[..at]).clock, events[at].t, events[at].record)
    && forall k :: at < k <= |events| ==> Of(Run(p, l, events[..k]), u).pc != Idle
  }

  lemma RunLast(p: Policy, l: Ledger, events: seq<Event>)
    requires |events| > 0
    ensures var before := Run(p, l, events[..|events| - 1]);
      var after := Step(p, before, events[|events| - 1]);
      Run(p, l, events) == if after.Some? then after.value else before
  {
  }

  lemma {:induction false} CarriedSince(p: Policy, l: Ledger, events: seq<Event>, at: nat, u: string)
    requires InHand(p, l, events, at, u)
    ensures Carries(p, RecordOf(Of(Run(p, l, events[..at]), u)), events[at].record, Of(Run(p, l, events), u))
  {
    hide Step, Run, Carries, Expired, IsValidRecord;
    var front, last := events[..|events| - 1], events[|events| - 1];
    var before := Run(p, l, front);
    RunLast(p, l, events);
    assert events[..|events|] == events;
    if at == |front| {
      assert events[..at] == front;
      BeginsAs(p, before, u, last.record, last.t, last.putOk);
    } else {
      assert forall k :: 0 <= k <= |front| ==> front[..k] == events[..k];
      CarriedSince(p, l, front, at, u);
      if Step(p, before, last).Some? {
        CarriesOn(p, before, u, RecordOf(Of(Run(p, l, events[..at]), u)), events[at].record, last);
      }
    }
  }

  /** However a grant ends, whatever else happened meanwhile: a migration that fails leaves the row as it was before
      the grant, deadline and all, unless the write that puts it back fails too; a first grant that sent nothing
      leaves no row, nor does one whose access was taken back; and every other ending leaves the record granted. */
  lemma GrantEnds(p: Policy, l: Ledger, events: seq<Event>, at: nat, u: string, e: Event)
    requires InHand(p, l, events, at, u)
    requires var s := Run(p, l, events); Step(p, s, e).Some? && Of(Step(p, s, e).value, u).pc == Idle
    ensures var was, s := RecordOf(Of(Run(p, l, events[..at]), u)), Run(p, l, events);
      EndsAs(p, was, events[at].record, Of(s, u), e, Of(Step(p, s, e).value, u))
  {
    hide Step, Run, Carries, EndsAs;
    CarriedSince(p, l, events, at, u);
    EndsSo(p, Run(p, l, events), u, RecordOf(Of(Run(p, l, events[..at]), u)), events[at].record, e);
  }

  // ---- calls that return ------------------------------------------------------------------------------------

  lemma RunTwo(p: Policy, l: Ledger, e: Event, f: Event)
    requires Step(p, l, e).Some? && Step(p, Step(p, l, e).value, f).Some?
    ensures Run(p, l, [e, f]) == Step(p, Step(p, l, e).value, f).value
  {
    hide Step;
    assert [e, f][..1] == [e] && [e][..0] == [];
    assert Run(p, l, [e]) == Step(p, l, e).value;
  }

  lemma RunThree(p: Policy, l: Ledger, e: Event, f: Event, g: Event)
    requires Step(p, l, e).Some? && Step(p, Step(p, l, e).value, f).Some?
    requires Step(p, Step(p, Step(p, l, e).value, f).value, g).Some?
    ensures Run(p, l, [e, f, g]) == Step(p, Step(p, Step(p, l, e).value, f).value, g).value
  {
    hide Step;
    RunTwo(p, l, e, f);
    assert [e, f, g][..2] == [e, f];
  }

  /** A first grant whose calls return: the row is the record, and everything it names is live. */
  lemma FirstGrantSucceeds(p: Policy, l: Ledger, u: string, record: Record, t: int)
    requires Of(l, u) == Member(None, {}, Idle) && IsValidRecord(record) && !Expired(l.clock, t, record)
    ensures var m := Of(Run(p, l, [Begin(u, record, t, true), Succeeds(u, true)]), u);
      m.pc == Idle && RecordOf(m) == Some(record) && m.live == Names(record)
  {
    hide Names, IsValidRecord, Run;
    RunTwo(p, l, Begin(u, record, t, true), Succeeds(u, true));
  }

  /** And a renewal: whatever the prior grant gave is exchanged for exactly what the new one names. */
  lemma RenewalSucceeds(p: Policy, l: Ledger, u: string, next: Record, t: int)
    requires var m := Of(l, u);
      m.row.Some? && m.live == Names(m.row.value.record) && m.pc == Idle && Lawful(p, m.row.value.record, next)
    requires IsValidRecord(next) && !Expired(l.clock, t, next)
    ensures var begin, done := Begin(u, next, t, true), Succeeds(u, true);
      var renewed := if p.orphaned(Of(l, u).row.value.record, next).None? then [begin, done] else [begin, done, done];
      var m := Of(Run(p, l, renewed), u);
      m.pc == Idle && RecordOf(m) == Some(next) && m.live == Names(next)
  {
    hide Names, IsValidRecord, Run;
    var begin, done := Begin(u, next, t, true), Succeeds(u, true);
    var l1 := Step(p, l, begin).value;
    var l2 := Step(p, l1, done).value;
    if p.orphaned(Of(l, u).row.value.record, next).None? {
      RunTwo(p, l, begin, done);
      assert Names(Of(l, u).row.value.record) + Names(next) == Names(next);
    } else {
      RunThree(p, l, begin, done, done);
      var was, orphan := Names(Of(l, u).row.value.record), Names(p.orphaned(Of(l, u).row.value.record, next).value);
      assert Of(l2, u).live == was - orphan;
      assert was - orphan + Names(next) == Names(next);
    }
  }

  // ---- over runs: held under the deadline of a grant that names it ---------------------------------------

  /** Neither the part a renewal orphans nor the record that covers a migration changes a deadline. */
  ghost predicate KeepsDeadlines(p: Policy) {
    && (forall prev, next {:trigger p.orphaned(prev, next)} :: p.orphaned(prev, next).Some? ==>
          p.orphaned(prev, next).value.expiresAt == prev.expiresAt)
    && (forall next, orphan {:trigger p.covering(next, orphan)} :: p.covering(next, orphan).Some? ==>
          p.covering(next, orphan).value.expiresAt == next.expiresAt)
  }

  /** Both adapters are such; and of the two Discord's alone finishes an uncertain grant later instead of taking it
      back. */
  lemma PoliciesKeepDeadlines()
    ensures KeepsDeadlines(DiscordPolicy()) && KeepsDeadlines(SinglePlacePolicy())
    ensures DiscordPolicy().repairs && !SinglePlacePolicy().repairs
  {
  }

  /** A grant comes into force when its own record is written, or when its migration has been made, the covering row
      standing for it. */
  function InForceBy(before: Member, after: Member, e: Event, u: string): set<Record> {
    if after.pc.Applying? then {after.pc.record}
    else if e.Succeeds? && e.u == u && before.pc.Migrating? && before.pc.covered then {before.pc.record}
    else {}
  }

  /** Every record ever in force for the member: the one they started with, and the grants made since. */
  function InForce(p: Policy, l: Ledger, events: seq<Event>, u: string): set<Record> {
    if |events| == 0 then (if Of(l, u).row.Some? then {Of(l, u).row.value.record} else {})
    else
      var front, e := events[..|events| - 1], events[|events| - 1];
      InForce(p, l, front, u) + InForceBy(Of(Run(p, l, front), u), Of(Run(p, l, events), u), e, u)
  }

  /** What the member holds is named by a record in force, with this deadline. */
  ghost predicate HeldUnder(m: Member, deadline: Option<int>, inForce: set<Record>) {
    exists r :: r in inForce && r.expiresAt == deadline && m.live <= Names(r)
  }

  ghost predicate TimelyMember(m: Member, inForce: set<Record>) {
    && (Covering(m) ==> HeldUnder(m, m.pc.prev.expiresAt, inForce))
    && (m.row.Some? && !(Covering(m)) ==> HeldUnder(m, m.row.value.record.expiresAt, inForce))
    && (Covering(m) ==>
          m.row.Some? && m.row.value.record.expiresAt == m.pc.record.expiresAt)
  }

  /** What the theorem allows of a step: a call that takes access back only takes it back; the write that puts a prior
      record back does not fail; the process does not die while a covering record stands in for a migration; and an
      admission is not made by a covering record that a failed write left standing. */
  ghost predicate Allowed(p: Policy, start: Ledger, before: seq<Event>, e: Event) {
    var l := Run(p, start, before);
    match e
    case Effect(u, live) => Of(l, u).pc.Applying? || Of(l, u).pc.Admitting? || live <= Of(l, u).live
    case AdmitStart(u, _, _) => Of(l, u).row.Some? ==> Of(l, u).row.value.record in InForce(p, start, before, u)
    case Fails(u, _, putOk) => !(Covering(Of(l, u)) && !putOk)
    case Restart(_) => forall u :: !Covering(Of(l, u))
    case ResetClock(_) => forall u :: !Covering(Of(l, u))
    case _ => true
  }

  /** A covering record stands in for the member's migration. */
  predicate Covering(m: Member) {
    m.pc.Migrating? && m.pc.covered
  }

  ghost predicate AllowedRun(p: Policy, l: Ledger, events: seq<Event>) {
    forall k :: 0 <= k < |events| ==> Allowed(p, l, events[..k], events[k])
  }

  /** An admission in hand is by a record in force. */
  ghost predicate AdmitsOnly(m: Member, inForce: set<Record>) {
    m.pc.Admitting? ==> m.row.Some? && m.row.value.record in inForce
  }

  /** The same, as one step of one member meets it. */
  ghost predicate AllowedHere(l: Ledger, e: Event, u: string, inForce: set<Record>) {
    match e
    case Effect(v, live) => v == u ==> Of(l, u).pc.Applying? || Of(l, u).pc.Admitting? || live <= Of(l, u).live
    case AdmitStart(v, _, _) => v == u && Of(l, u).row.Some? ==> Of(l, u).row.value.record in inForce
    case Fails(v, _, putOk) => v == u ==> !(Covering(Of(l, u)) && !putOk)
    case Restart(_) => !Covering(Of(l, u))
    case ResetClock(_) => !Covering(Of(l, u))
    case _ => true
  }

  lemma HeldLess(m: Member, m': Member, deadline: Option<int>, inForce: set<Record>, more: set<Record>)
    requires HeldUnder(m, deadline, inForce) && m'.live <= m.live && inForce <= more
    ensures HeldUnder(m', deadline, more)
  {
    var r :| r in inForce && r.expiresAt == deadline && m.live <= Names(r);
    assert m'.live <= Names(r);
  }

  lemma HeldBy(m: Member, r: Record, inForce: set<Record>)
    requires r in inForce && m.live <= Names(r)
    ensures HeldUnder(m, r.expiresAt, inForce)
  {
  }

  /** A member whose row and operation are as they were, holding no more. */
  lemma SameTimely(m: Member, m': Member, inForce: set<Record>, more: set<Record>)
    requires TimelyMember(m, inForce) && inForce <= more && m'.live <= m.live && RecordOf(m') == RecordOf(m)
    requires (Covering(m')) == (Covering(m))
    requires Covering(m') ==> m'.pc == m.pc
    ensures TimelyMember(m', more)
  {
    hide HeldUnder;
    if Covering(m) { HeldLess(m, m', m.pc.prev.expiresAt, inForce, more); }
    if m.row.Some? && !(Covering(m)) {
      HeldLess(m, m', m.row.value.record.expiresAt, inForce, more);
    }
  }

  /** A member whose row is a record in force, and names what they hold. */
  lemma RowTimely(m: Member, inForce: set<Record>)
    requires m.row.Some? && m.row.value.record in inForce && m.live <= Named(m) && !(Covering(m))
    ensures TimelyMember(m, inForce)
  {
    HeldBy(m, m.row.value.record, inForce);
  }

  lemma BeginTimely(p: Policy, l: Ledger, e: Event, inForce: set<Record>)
    requires e.Begin? && Step(p, l, e).Some? && KeepsDeadlines(p) && MemberOk(p, Of(l, e.u), l.revSeq)
    requires TimelyMember(Of(l, e.u), inForce)
    ensures var m' := Of(Step(p, l, e).value, e.u);
      && m'.live == Of(l, e.u).live
      && (m'.pc.Applying? ==> m'.row.Some? && m'.row.value.record == m'.pc.record)
      && (!m'.pc.Applying? ==> TimelyMember(m', inForce) && !m'.pc.Admitting?)
  {
    hide HeldUnder, IsValidRecord, Lawful, Names, PcOk, Covered;
    var m, m' := Of(l, e.u), Of(Step(p, l, e).value, e.u);
    BeginSpelledOut(p, l, e);
    if Covering(m') {
      HeldLess(m, m', m.row.value.record.expiresAt, inForce, inForce);
    } else if !m'.pc.Applying? {
      SameTimely(m, m', inForce, inForce);
    }
  }

  lemma BeginSpelledOut(p: Policy, l: Ledger, e: Event)
    requires e.Begin? && Step(p, l, e).Some?
    ensures var m, m' := Of(l, e.u), Of(Step(p, l, e).value, e.u);
      && m.pc == Idle && m'.live == m.live
      && match m'.pc
         case Applying(record, _, _, _) => m'.row.Some? && m'.row.value.record == record
         case Migrating(record, prev, orphan, covered) =>
           && m.row.Some? && prev == m.row.value.record
           && if covered then p.covering(record, orphan).Some? && m'.row.Some?
                              && m'.row.value.record == p.covering(record, orphan).value
              else m'.row == m.row
         case Idle => m'.row == m.row
         case _ => false
  {
    hide IsValidRecord, Names;
  }

  lemma SucceedTimely(p: Policy, l: Ledger, e: Event, inForce: set<Record>)
    requires e.Succeeds? && Step(p, l, e).Some? && KeepsDeadlines(p)
    requires MemberOk(p, Of(l, e.u), l.revSeq) && TimelyMember(Of(l, e.u), inForce)
    ensures var m, m' := Of(l, e.u), Of(Step(p, l, e).value, e.u);
      && (m'.pc.Applying? ==> m'.row.Some? && m'.row.value.record == m'.pc.record)
      && (!m'.pc.Applying? && !m.pc.Applying? ==>
            TimelyMember(m', inForce + InForceBy(m, m', e, e.u)) && !m'.pc.Admitting?)
      && (m.pc.Applying? ==> m'.row == m.row && m'.pc == Idle && m.row.Some? && m.row.value.record == m.pc.record)
  {
    hide HeldUnder, IsValidRecord, Names;
    var m, m' := Of(l, e.u), Of(Step(p, l, e).value, e.u);
    var more := inForce + InForceBy(m, m', e, e.u);
    match m.pc
    case Migrating(record, prev, orphan, covered) =>
      if !e.putOk {
        if covered {
          LeftIsNamed(p, m);
          HeldBy(m', record, more);
        } else {
          SameTimely(m, m', inForce, more);
        }
      }
    case Applying(_, _, _, _) =>
    case Compensating(_, _) => if m'.row.Some? { SameTimely(m, m', inForce, more); }
    case Sweeping(_, _) => if m'.row.Some? { SameTimely(m, m', inForce, more); }
    case Admitting(_) => SameTimely(m, m', inForce, more);
  }

  /** What a made migration leaves is named by the new record. */
  lemma LeftIsNamed(p: Policy, m: Member)
    requires m.pc.Migrating? && PcOk(p, m)
    ensures m.live - Names(m.pc.orphan) <= Names(m.pc.record)
  {
  }

  lemma FailTimely(p: Policy, l: Ledger, e: Event, inForce: set<Record>)
    requires e.Fails? && Step(p, l, e).Some? && AllowedHere(l, e, e.u, inForce)
    requires MemberOk(p, Of(l, e.u), l.revSeq) && TimelyMember(Of(l, e.u), inForce)
    ensures TimelyMember(Of(Step(p, l, e).value, e.u), inForce) && !Of(Step(p, l, e).value, e.u).pc.Admitting?
    ensures !Of(Step(p, l, e).value, e.u).pc.Applying?
  {
    hide HeldUnder, IsValidRecord, Names, Lawful;
    var m, m' := Of(l, e.u), Of(Step(p, l, e).value, e.u);
    if Covering(m) {
      HeldLess(m, m', m.pc.prev.expiresAt, inForce, inForce);
    } else if m'.row.Some? {
      SameTimely(m, m', inForce, inForce);
    }
  }

  lemma EffectTimely(p: Policy, l: Ledger, e: Event, inForce: set<Record>)
    requires e.Effect? && Step(p, l, e).Some? && AllowedHere(l, e, e.u, inForce)
    requires MemberOk(p, Of(l, e.u), l.revSeq) && TimelyMember(Of(l, e.u), inForce) && AdmitsOnly(Of(l, e.u), inForce)
    requires Of(l, e.u).pc.Applying? ==> Of(l, e.u).pc.record in inForce
    ensures TimelyMember(Of(Step(p, l, e).value, e.u), inForce)
    ensures var m, m' := Of(l, e.u), Of(Step(p, l, e).value, e.u);
      m'.row == m.row && (if m.pc.Applying? then m'.pc == m.pc.(touched := true) else m'.pc == m.pc)
  {
    hide HeldUnder, IsValidRecord, Lawful;
    var m, m' := Of(l, e.u), Of(Step(p, l, e).value, e.u);
    if m.pc.Applying? || m.pc.Admitting? {
      EffectKeeps(p, m, e.live, l.revSeq);
      RowTimely(m', inForce);
    } else {
      SameTimely(m, m', inForce, inForce);
    }
  }

  /** The operation in hand is applying only a record in force. */
  ghost predicate AppliesOnly(m: Member, inForce: set<Record>) {
    m.pc.Applying? ==> m.pc.record in inForce && m.row.Some? && m.row.value.record == m.pc.record
  }

  ghost predicate AllTimely(m: Member, inForce: set<Record>) {
    TimelyMember(m, inForce) && AdmitsOnly(m, inForce) && AppliesOnly(m, inForce)
  }

  lemma StepTimely(p: Policy, l: Ledger, e: Event, u: string, inForce: set<Record>)
    requires Inv(p, l) && KeepsDeadlines(p) && AllowedHere(l, e, u, inForce) && AllTimely(Of(l, u), inForce)
    requires Step(p, l, e).Some? && Inv(p, Step(p, l, e).value)
    ensures var m, m' := Of(l, u), Of(Step(p, l, e).value, u);
      AllTimely(m', inForce + InForceBy(m, m', e, u))
  {
    hide Inv, TimelyMember, PcOk, Step, KeepsDeadlines;
    var m, m' := Of(l, u), Of(Step(p, l, e).value, u);
    var more := inForce + InForceBy(m, m', e, u);
    OfIsOk(p, l, u);
    OfIsOk(p, Step(p, l, e).value, u);
    if e.Begin? && e.u == u {
      BeginTimely(p, l, e, inForce);
      if m'.pc.Applying? { RowTimely(m', more); } else { SameTimely(m', m', inForce, more); }
    } else if e.Succeeds? && e.u == u {
      SucceedTimely(p, l, e, inForce);
      if m'.pc.Applying? || m.pc.Applying? { RowTimely(m', more); }
    } else if e.Fails? && e.u == u {
      FailTimely(p, l, e, inForce);
      SameTimely(m', m', inForce, more);
    } else if e.Effect? && e.u == u {
      EffectTimely(p, l, e, inForce);
      SameTimely(m', m', inForce, more);
    } else {
      OtherStep(p, l, e, u, inForce);
      SameTimely(m, m', inForce, more);
    }
  }

  /** The steps that write no row and send nothing for the member. */
  lemma OtherStep(p: Policy, l: Ledger, e: Event, u: string, inForce: set<Record>)
    requires Step(p, l, e).Some? && AllowedHere(l, e, u, inForce)
    requires !((e.Begin? || e.Succeeds? || e.Fails? || e.Effect?) && e.u == u)
    ensures var m, m' := Of(l, u), Of(Step(p, l, e).value, u);
      && m'.row == m.row && m'.live <= m.live
      && (m'.pc == m.pc || (m'.pc == Idle && !(Covering(m)))
          || (m.pc == Idle && m'.pc.Sweeping?)
          || (m.pc == Idle && m'.pc.Admitting? && m.row.Some? && m.row.value.record in inForce))
  {
    hide IsValidRecord, Names;
  }

  lemma {:induction false} RunTimely(p: Policy, l: Ledger, events: seq<Event>, u: string)
    requires Fresh(l) && LawfulRun(p, l, events) && KeepsDeadlines(p) && AllowedRun(p, l, events)
    ensures AllTimely(Of(Run(p, l, events), u), InForce(p, l, events, u))
  {
    hide Inv, Step, LawfulAt, Allowed, AllowedHere, Run, Fresh, KeepsDeadlines, AllTimely;
    if |events| == 0 {
      StartTimely(p, l, u);
    } else {
      var front, e := events[..|events| - 1], events[|events| - 1];
      assert forall k :: 0 <= k < |front| ==> front[..k] == events[..k];
      RunTimely(p, l, front, u);
      FreshHolds(p, l);
      RunKeeps(p, l, front);
      RunKeeps(p, l, events);
      RunLast(p, l, events);
      var s := Run(p, l, front);
      assert events[..|front|] == front;
      if Step(p, s, e).Some? {
        AllowedForOne(p, l, front, e, u);
        StepTimely(p, s, e, u, InForce(p, l, front, u));
      } else {
        StillTimely(Of(s, u), InForce(p, l, front, u), InForce(p, l, events, u));
      }
    }
  }

  lemma AllowedForOne(p: Policy, l: Ledger, before: seq<Event>, e: Event, u: string)
    requires Allowed(p, l, before, e)
    ensures AllowedHere(Run(p, l, before), e, u, InForce(p, l, before, u))
  {
    hide Run, InForce;
  }

  lemma StillTimely(m: Member, inForce: set<Record>, more: set<Record>)
    requires AllTimely(m, inForce) && inForce <= more
    ensures AllTimely(m, more)
  {
    hide TimelyMember;
    SameTimely(m, m, inForce, more);
  }

  lemma StartTimely(p: Policy, l: Ledger, u: string)
    requires Fresh(l)
    ensures AllTimely(Of(Run(p, l, []), u), InForce(p, l, [], u))
  {
    var m := Of(l, u);
    if m.row.Some? { RowTimely(m, InForce(p, l, [], u)); }
  }

  /** Nobody is held past a grant's deadline: outside a migration under way, whatever a member holds is named by one
      grant made for them, and the row that keeps it has that grant's deadline, no later. */
  lemma NoneHeldPastTheirGrant(p: Policy, l: Ledger, events: seq<Event>, u: string) returns (r: Record)
    requires Fresh(l) && LawfulRun(p, l, events) && KeepsDeadlines(p) && AllowedRun(p, l, events)
    requires var m := Of(Run(p, l, events), u); m.live != {} && !m.pc.Migrating?
    ensures var m := Of(Run(p, l, events), u);
      && r in InForce(p, l, events, u) && m.live <= Names(r)
      && m.row.Some? && m.row.value.record.expiresAt == r.expiresAt
  {
    hide Run, InForce, Fresh;
    RunTimely(p, l, events, u);
    EveryLiveTargetIsNamed(p, l, events, u);
    var m := Of(Run(p, l, events), u);
    r :| r in InForce(p, l, events, u) && r.expiresAt == m.row.value.record.expiresAt && m.live <= Names(r);
  }

  // ---- where it fails -----------------------------------------------------------------------------------------

  /** Something the member holds is named by no grant in force as late as their row's deadline. */
  ghost predicate HeldPast(p: Policy, l: Ledger, events: seq<Event>, u: string, t: Target) {
    var m := Of(Run(p, l, events), u);
    && t in m.live && m.row.Some? && m.row.value.record.expiresAt.Some?
    && forall r :: r in InForce(p, l, events, u) && t in Names(r) ==>
         r.expiresAt.Some? && r.expiresAt.value < m.row.value.record.expiresAt.value
  }

  const EARLIER := Record(Channel, ["a"], "", Some(100))
  const LATER := Record(Channel, ["b"], "", Some(200))

  /** The covering record of the renewal from the one to the other. */
  lemma CoverOfBoth() returns (cover: Record)
    ensures DiscordPolicy().orphaned(EARLIER, LATER) == Some(EARLIER)
    ensures DiscordPolicy().covering(LATER, EARLIER) == Some(cover) && cover.expiresAt == Some(200)
    ensures Names(EARLIER) == {ChannelTarget("a")} && Names(LATER) == {ChannelTarget("b")}
    ensures Names(cover) == {ChannelTarget("a"), ChannelTarget("b")}
  {
    cover := CoveringTargets(LATER, EARLIER);
    assert Missing(["a"], ["b"]) == ["a"] by { assert ["a"][1..] == []; }
    CoverNamesBoth(LATER, EARLIER);
    assert ChannelTarget("a") in Names(EARLIER) && ChannelTarget("b") in Names(LATER);
  }

  /** The renewal, as far as its covering row. */
  lemma Renewing() returns (cover: Record, l1: Ledger)
    ensures var p, l := DiscordPolicy(), Holding(EARLIER);
      && Step(p, l, Begin("member", LATER, 1, true)) == Some(l1)
      && Of(l1, "member") == Member(Some(Row(cover, 2)), {ChannelTarget("a")}, Migrating(LATER, EARLIER, EARLIER, true))
      && cover.expiresAt == Some(200) && Names(cover) == {ChannelTarget("a"), ChannelTarget("b")}
      && Run(p, l, [Begin("member", LATER, 1, true)]) == l1
      && InForce(p, l, [Begin("member", LATER, 1, true)], "member") == {EARLIER}
  {
    hide Names, CoveringTargets, ExtraTargets;
    cover := CoverOfBoth();
    var p, l, e := DiscordPolicy(), Holding(EARLIER), Begin("member", LATER, 1, true);
    l1 := Step(p, l, e).value;
    assert [e][..0] == [] && Run(p, l, []) == l && InForce(p, l, [], "member") == {EARLIER};
    assert Run(p, l, [e]) == l1;
  }

  /** The restoring write fails, or the process dies: the covering row outlives the grant of what it still holds. */
  lemma FailedRestoreOutlives()
    ensures var p, l, begin := DiscordPolicy(), Holding(EARLIER), Begin("member", LATER, 1, true);
      && HeldPast(p, l, [begin, Fails("member", true, false)], "member", ChannelTarget("a"))
      && HeldPast(p, l, [begin, Restart(2)], "member", ChannelTarget("a"))
  {
    hide Names, CoveringTargets, ExtraTargets;
    var cover, l1 := Renewing();
    var c := CoverOfBoth();
    var p, l, begin := DiscordPolicy(), Holding(EARLIER), Begin("member", LATER, 1, true);
    var failed, died := [begin, Fails("member", true, false)], [begin, Restart(2)];
    assert failed[..1] == [begin] && died[..1] == [begin];
    assert InForce(p, l, failed, "member") == {EARLIER} && InForce(p, l, died, "member") == {EARLIER};
  }

  /** The orphan taken away, the final write failed: the covering row is left, over nothing. */
  lemma LeftCovering() returns (cover: Record, l2: Ledger)
    ensures var p, l, u := DiscordPolicy(), Holding(EARLIER), "member";
      var events := [Begin(u, LATER, 1, true), Succeeds(u, false)];
      && Run(p, l, events) == l2 && Of(l2, u) == Member(Some(Row(cover, 2)), {}, Idle)
      && l2.clock == Clock(Some(1), false)
      && cover.expiresAt == Some(200) && ChannelTarget("a") in Names(cover)
      && InForce(p, l, events, u) == {EARLIER, LATER}
  {
    hide Names, CoveringTargets, ExtraTargets;
    var l1: Ledger;
    cover, l1 := Renewing();
    var c := CoverOfBoth();
    var p, l, u := DiscordPolicy(), Holding(EARLIER), "member";
    var begin, done := Begin(u, LATER, 1, true), Succeeds(u, false);
    l2 := Step(p, l1, done).value;
    assert [begin, done][..1] == [begin];
    assert Run(p, l, [begin, done]) == l2;
  }

  /** The final write fails, and an admission by the covering row gives the orphan back. */
  lemma AdmissionByTheCoverOutlives()
    ensures var p, l, u := DiscordPolicy(), Holding(EARLIER), "member";
      var admit, effect := AdmitStart(u, 2, true), Effect(u, {ChannelTarget("a")});
      HeldPast(p, l, [Begin(u, LATER, 1, true), Succeeds(u, false), admit, effect], u, ChannelTarget("a"))
  {
    hide Names, CoveringTargets, ExtraTargets, DiscordPolicy;
    var cover, l2 := LeftCovering();
    var c := CoverOfBoth();
    var p, l, u := DiscordPolicy(), Holding(EARLIER), "member";
    var begin, done, admit := Begin(u, LATER, 1, true), Succeeds(u, false), AdmitStart(u, 2, true);
    var effect := Effect(u, {ChannelTarget("a")});
    assert [begin, done, admit][..2] == [begin, done] && [begin, done, admit, effect][..3] == [begin, done, admit];
    var l3 := Step(p, l2, admit).value;
    assert Of(l3, u).pc == Admitting(cover) && Run(p, l, [begin, done, admit]) == l3;
    assert InForce(p, l, [begin, done, admit], u) == {EARLIER, LATER};
    assert InForce(p, l, [begin, done, admit, effect], u) == {EARLIER, LATER};
  }
}

/**
  Guarded periods (core/time_guard.js): the highest epoch and season ever observed, kept on disk, and a
  sticky note that the clock has been seen to step backwards.
 */
module TimeGuard {
  import opened Wrappers

  datatype Kind = Epoch | Season

  datatype Schedule = Schedule(epochSeconds: int, seasonSeconds: int)

  predicate ValidSchedule(s: Schedule) {
    s.epochSeconds > 0 && s.seasonSeconds > 0
  }

  /** The period of a kind at a time: rounded down, as for negative times too. */
  function PeriodOf(s: Schedule, kind: Kind, now: int): int
    requires ValidSchedule(s)
  {
    if kind == Epoch then now / s.epochSeconds else now / s.seasonSeconds
  }

  datatype Marks = Marks(epoch: Option<int>, season: Option<int>, regressed: bool)

  const FRESH := Marks(None, None, false)

  function MarkOf(m: Marks, kind: Kind): Option<int> {
    if kind == Epoch then m.epoch else m.season
  }

  function WithMark(m: Marks, kind: Kind, value: int): Marks {
    if kind == Epoch then m.(epoch := Some(value)) else m.(season := Some(value))
  }

  /** Advancing moves the mark, standing still is fine, going backwards is noted and moves nothing. */
  function Observed(m: Marks, kind: Kind, value: int): Marks {
    var mark := MarkOf(m, kind);
    if mark.None? || value > mark.value then WithMark(m, kind, value)
    else m.(regressed := m.regressed || value < mark.value)
  }

  /** Both periods of one clock reading. */
  function ObservedBoth(s: Schedule, m: Marks, now: int): Marks
    requires ValidSchedule(s)
  {
    Observed(Observed(m, Epoch, PeriodOf(s, Epoch, now)), Season, PeriodOf(s, Season, now))
  }

  /** At least the marks of m, and at least as regressed. */
  predicate NotBefore(m: Marks, later: Marks) {
    && (m.epoch.Some? ==> later.epoch.Some? && later.epoch.value >= m.epoch.value)
    && (m.season.Some? ==> later.season.Some? && later.season.value >= m.season.value)
    && (m.regressed ==> later.regressed)
  }

  lemma ObservingMovesForward(m: Marks, kind: Kind, value: int)
    ensures NotBefore(m, Observed(m, kind, value))
    ensures MarkOf(Observed(m, kind, value), kind).Some? && MarkOf(Observed(m, kind, value), kind).value >= value
    ensures !Observed(m, kind, value).regressed ==> MarkOf(Observed(m, kind, value), kind) == Some(value)
  {
  }

  /** What an unregressed pair of observations establishes: the reading is the highest of either period
      ever seen, so everything that was done at a higher one is ruled out. */
  lemma UnregressedIsHighest(s: Schedule, m: Marks, now: int)
    requires ValidSchedule(s)
    ensures var after := ObservedBoth(s, m, now);
      && NotBefore(m, after)
      && (!after.regressed ==>
           after.epoch == Some(PeriodOf(s, Epoch, now)) && after.season == Some(PeriodOf(s, Season, now)))
  {
    var first := Observed(m, Epoch, PeriodOf(s, Epoch, now));
    ObservingMovesForward(m, Epoch, PeriodOf(s, Epoch, now));
    ObservingMovesForward(first, Season, PeriodOf(s, Season, now));
  }

  // ---- over all readings -----------------------------------------------------------------------------

  datatype Reading = Reading(kind: Kind, value: int)

  function AfterAll(readings: seq<Reading>): Marks {
    if |readings| == 0 then FRESH
    else
      var last := readings[|readings| - 1];
      Observed(AfterAll(readings[..|readings| - 1]), last.kind, last.value)
  }

  /** Some reading is below an earlier one of its kind. */
  predicate StepsBack(readings: seq<Reading>) {
    exists i, j | 0 <= i < j < |readings| ::
      readings[i].kind == readings[j].kind && readings[j].value < readings[i].value
  }

  /** value is the highest reading of its kind. */
  predicate Highest(readings: seq<Reading>, kind: Kind, value: int) {
    && Reading(kind, value) in readings
    && forall i :: 0 <= i < |readings| && readings[i].kind == kind ==> readings[i].value <= value
  }

  /** What the marks say of everything ever read: each is the highest of its kind, and a regression is noted exactly
      when some reading was below an earlier one. */
  lemma {:induction false} MarksSayExactly(readings: seq<Reading>, kind: Kind)
    ensures AfterAll(readings).regressed <==> StepsBack(readings)
    ensures match MarkOf(AfterAll(readings), kind)
            case None => forall i :: 0 <= i < |readings| ==> readings[i].kind != kind
            case Some(value) => Highest(readings, kind, value)
  {
    hide StepsBack, Highest;
    if |readings| > 0 {
      var front, last := readings[..|readings| - 1], readings[|readings| - 1];
      MarksSayExactly(front, kind);
      MarksSayExactly(front, last.kind);
      assert readings == front + [last];
      StepsBackMore(front, last, MarkOf(AfterAll(front), last.kind));
      HighestMore(front, last, kind, MarkOf(AfterAll(front), kind));
    } else {
      NoReadings();
    }
  }

  lemma NoReadings()
    ensures !StepsBack([])
  {
  }

  lemma HighestMore(front: seq<Reading>, last: Reading, kind: Kind, before: Option<int>)
    requires match before
             case None => forall i :: 0 <= i < |front| ==> front[i].kind != kind
             case Some(value) => Highest(front, kind, value)
    ensures kind != last.kind && before.Some? ==> Highest(front + [last], kind, before.value)
    ensures kind != last.kind && before.None? ==>
      forall i :: 0 <= i < |front| + 1 ==> (front + [last])[i].kind != kind
    ensures kind == last.kind ==>
      Highest(front + [last], kind,
          if before.None? || last.value > before.value then last.value else before.value)
  {
    var all := front + [last];
    assert all[|front|] == last;
    if before.Some? { assert Reading(kind, before.value) in all; }
  }

  lemma StepsBackMore(front: seq<Reading>, last: Reading, before: Option<int>)
    requires match before
             case None => forall i :: 0 <= i < |front| ==> front[i].kind != last.kind
             case Some(value) => Highest(front, last.kind, value)
    ensures StepsBack(front + [last]) <==> StepsBack(front) || (before.Some? && last.value < before.value)
  {
    if before.Some? { assert exists i :: 0 <= i < |front| && front[i] == Reading(last.kind, before.value); }
    var all := front + [last];
    if StepsBack(front) {
      var i, j :| 0 <= i < j < |front| && front[i].kind == front[j].kind && front[j].value < front[i].value;
      assert all[i] == front[i] && all[j] == front[j];
    }
    if i :| 0 <= i < |front| && front[i].kind == last.kind && last.value < front[i].value {
      assert all[i] == front[i] && all[|front|] == last;
    }
  }

  // ---- the file --------------------------------------------------------------------------------------

  /** What the marks file holds: nothing, something unreadable, or marks under some schedule, none when one of
      them is present and not an integer. */
  datatype Saved = Absent | Unreadable | Malformed | Written(schedule: Schedule, marks: Option<Marks>)

  class Guard {
    const schedule: Schedule
    const durable: bool           // false: no path, marks live in memory only
    var marks: Marks
    var saved: Saved

    /** With a path, what a restart would load is what is in memory. */
    ghost predicate Valid()
      reads this
    {
      && ValidSchedule(schedule)
      && (durable ==> saved == Written(schedule, Some(marks))
                      || (marks == FRESH && LoadOf(saved, schedule) == Some(FRESH)))
    }

    /** What a new process makes of a file: marks of another numbering are not comparable and start afresh,
        whatever they are; anything it cannot read refuses. */
    static function LoadOf(saved: Saved, schedule: Schedule): Option<Marks> {
      match saved
      case Absent => Some(FRESH)
      case Written(s, m) => if s == schedule then m else Some(FRESH)
      case _ => None
    }

    constructor (schedule: Schedule, durable: bool, saved: Saved)
      requires ValidSchedule(schedule) && (durable ==> LoadOf(saved, schedule).Some?)
      ensures Valid() && this.schedule == schedule && this.durable == durable
      ensures marks == if durable then LoadOf(saved, schedule).value else FRESH
    {
      this.schedule, this.durable, this.saved := schedule, durable, saved;
      marks := FRESH;
      new;
      if durable && saved.Written? && saved.schedule == schedule { marks := saved.marks.value; }
    }

    /** A process starting: none if the file refuses it. */
    static method Open(schedule: Schedule, durable: bool, saved: Saved) returns (guard: Option<Guard>)
      requires ValidSchedule(schedule)
      ensures guard.None? <==> durable && LoadOf(saved, schedule).None?
      ensures guard.Some? ==>
        && guard.value.Valid() && guard.value.schedule == schedule && guard.value.durable == durable
        && guard.value.marks == if durable then LoadOf(saved, schedule).value else FRESH
    {
      if durable && LoadOf(saved, schedule).None? { return None; }
      var started := new Guard(schedule, durable, saved);
      guard := Some(started);
    }

    method Persist()
      requires ValidSchedule(schedule)
      modifies this`saved
      ensures durable ==> saved == Written(schedule, Some(marks))
    {
      if durable { saved := Written(schedule, Some(marks)); }
    }

    /** Returns the period asked for, not the mark; and leaves nothing in memory that a restart would not
        find. */
    method Observe(kind: Kind, now: int) returns (value: int)
      requires Valid()
      modifies this
      ensures Valid()
      ensures value == PeriodOf(schedule, kind, now) && marks == Observed(old(marks), kind, value)
    {
      value := PeriodOf(schedule, kind, now);
      var mark := MarkOf(marks, kind);
      if mark.None? || value > mark.value {
        marks := WithMark(marks, kind, value);
        Persist();
      } else if value < mark.value && !marks.regressed {
        marks := marks.(regressed := true);
        Persist();
      }
    }
  }
}

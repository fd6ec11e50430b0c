/**
  What a grant record names, and the two algebras the ledger is given (adapters/discord/grant_ledger.js,
  and the single-target rule of the Telegram and Matrix adapters). The ledger's coverage rests on two
  laws of them; for Discord they hold under an exact condition.
 */
module GrantTargets {
  import opened Wrappers

  datatype Mode = Channel | Role

  /** expiresAt is absent when it is not a finite number. */
  datatype Record = Record(mode: Mode, channels: seq<string>, roleId: string, expiresAt: Option<int>)

  datatype Target = ChannelTarget(id: string) | RoleTarget(id: string)

  /** Everything the record authorizes. */
  function Names(r: Record): set<Target> {
    match r.mode
    case Channel => set c | c in r.channels :: ChannelTarget(c)
    case Role => if r.roleId == "" then {} else {RoleTarget(r.roleId)}
  }

  predicate IsValidRecord(r: Record) {
    && r.expiresAt.Some?
    && match r.mode
       case Channel => |r.channels| > 0 && forall i :: 0 <= i < |r.channels| ==> r.channels[i] != ""
       case Role => r.roleId != ""
  }

  function Missing(a: seq<string>, b: seq<string>): (r: seq<string>)
    ensures forall c :: c in r <==> c in a && c !in b
  {
    if |a| == 0 then [] else (if a[0] in b then [] else [a[0]]) + Missing(a[1..], b)
  }

  /** The targets of a that b does not carry, or none. */
  function ExtraTargets(a: Record, b: Option<Record>): Option<Record> {
    match a.mode
    case Channel =>
      var left := Missing(a.channels, if b.Some? && b.value.mode == Channel then b.value.channels else []);
      if |left| > 0 then Some(a.(channels := left, roleId := "")) else None
    case Role =>
      if a.roleId != "" && !(b.Some? && b.value.mode == Role && b.value.roleId == a.roleId)
      then Some(a.(channels := [])) else None
  }

  /** Channels joined without repetition, first occurrences first. */
  function Union(a: seq<string>, b: seq<string>): (r: seq<string>)
    ensures forall c :: c in r <==> c in a || c in b
    ensures forall i, j :: 0 <= i < j < |r| ==> r[i] != r[j]
  {
    assert (a + b)[..|a + b|] == a + b;
    UnionUpTo(a + b, |a + b|)
  }

  function UnionUpTo(s: seq<string>, k: nat): (r: seq<string>)
    requires k <= |s|
    ensures forall c :: c in r <==> c in s[..k]
    ensures forall i, j :: 0 <= i < j < |r| ==> r[i] != r[j]
  {
    if k == 0 then []
    else
      var before := UnionUpTo(s, k - 1);
      assert s[..k] == s[..k - 1] + [s[k - 1]];
      if s[k - 1] in before then before else before + [s[k - 1]]
  }

  function CoveringTargets(record: Record, orphan: Record): Record {
    if record.mode != Channel || orphan.mode != Channel then record
    else record.(channels := Union(record.channels, orphan.channels))
  }

  /** What a renewal orphans is exactly the difference of what the two records name. */
  lemma ExtraIsDifference(a: Record, b: Record)
    requires IsValidRecord(a) && IsValidRecord(b)
    ensures match ExtraTargets(a, Some(b))
            case None => Names(a) <= Names(b)
            case Some(extra) => Names(extra) == Names(a) - Names(b) && Names(extra) != {}
  {
    if a.mode == Channel {
      var covered := if b.mode == Channel then b.channels else [];
      var left := Missing(a.channels, covered);
      if |left| == 0 {
        forall c | c in a.channels ensures c in covered {
          assert c in left <==> c !in covered;
        }
      } else {
        var extra := ExtraTargets(a, Some(b)).value;
        assert ChannelTarget(left[0]) in Names(extra);
        forall t ensures t in Names(extra) <==> t in Names(a) && t !in Names(b) {
          if t.ChannelTarget? {
            assert t in Names(extra) <==> t.id in left;
          }
        }
      }
    }
  }

  lemma CoverNamesBoth(record: Record, orphan: Record)
    requires record.mode == Channel && orphan.mode == Channel
    ensures Names(CoveringTargets(record, orphan)) == Names(record) + Names(orphan)
  {
    forall t ensures t in Names(CoveringTargets(record, orphan)) <==> t in Names(record) || t in Names(orphan) {
    }
  }

  /** A renewal a caller can check before making it: nothing is orphaned, or both grants are channels. */
  predicate Renewable(prev: Record, next: Record) {
    ExtraTargets(prev, Some(next)).None? || (prev.mode == Channel && next.mode == Channel)
  }

  /** The covering record names everything the prior grant did if and only if the renewal is of that
      kind; a role change, or a change of mode, gets the new record alone. */
  lemma CoversExactlyWhenRenewable(prev: Record, next: Record)
    requires IsValidRecord(prev) && IsValidRecord(next)
    ensures var orphan := ExtraTargets(prev, Some(next));
      Renewable(prev, next)
      <==> Names(prev) <= Names(if orphan.Some? then CoveringTargets(next, orphan.value) else next)
  {
    ExtraIsDifference(prev, next);
    var orphan := ExtraTargets(prev, Some(next));
    if orphan.Some? {
      if prev.mode == Channel && next.mode == Channel {
        CoverNamesBoth(next, orphan.value);
      } else {
        var t :| t in Names(orphan.value);
        assert t in Names(prev) && t !in Names(next);
      }
    }
  }

  // ---- what the ledger asks of an adapter ----------------------------------------------------------

  /** The adapter-specific parts of the ledger: what a renewal orphans, a record naming both grants when
      the record's shape can express one, and whether a pass reapplies access from a kept record. */
  datatype Policy = Policy(orphaned: (Record, Record) -> Option<Record>, covering: (Record, Record) -> Option<Record>,
      repairs: bool)

  /** The two laws, for one renewal: what is orphaned is part of the prior grant and all of it that the
      new one does not carry; and a covering record names both. */
  ghost predicate Lawful(p: Policy, prev: Record, next: Record) {
    match p.orphaned(prev, next)
    case None => Names(prev) <= Names(next)
    case Some(orphan) =>
      && Names(prev) - Names(next) <= Names(orphan) <= Names(prev)
      && (p.covering(next, orphan).Some? ==> Names(next) + Names(orphan) <= Names(p.covering(next, orphan).value))
  }

  function DiscordPolicy(): Policy {
    Policy((prev: Record, next: Record) => ExtraTargets(prev, Some(next)),
           (record: Record, orphan: Record) => Some(CoveringTargets(record, orphan)), true)
  }

  /** One chat or room a record: a different one orphans the whole prior grant, and no record can name
      two. */
  function SinglePlacePolicy(): Policy {
    Policy((prev: Record, next: Record) => if prev.channels == next.channels then None else Some(prev),
           (record: Record, orphan: Record) => None, false)
  }

  lemma DiscordIsLawfulExactlyWhenRenewable(prev: Record, next: Record)
    requires IsValidRecord(prev) && IsValidRecord(next)
    ensures Lawful(DiscordPolicy(), prev, next) <==> Renewable(prev, next)
  {
    ExtraIsDifference(prev, next);
    CoversExactlyWhenRenewable(prev, next);
    var orphan := ExtraTargets(prev, Some(next));
    if orphan.Some? && prev.mode == Channel && next.mode == Channel { CoverNamesBoth(next, orphan.value); }
  }

  /** A renewal that only moves the deadline takes nothing away first. */
  lemma ExtendingOrphansNothing(prev: Record, until: int)
    requires IsValidRecord(prev)
    ensures DiscordPolicy().orphaned(prev, prev.(expiresAt := Some(until))).None?
    ensures SinglePlacePolicy().orphaned(prev, prev.(expiresAt := Some(until))).None?
  {
    ExtraIsDifference(prev, prev.(expiresAt := Some(until)));
    assert Names(prev.(expiresAt := Some(until))) == Names(prev);
  }

  lemma SinglePlaceIsLawful(prev: Record, next: Record)
    requires prev.mode == Channel && next.mode == Channel
    ensures Lawful(SinglePlacePolicy(), prev, next)
  {
  }
}

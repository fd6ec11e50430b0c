/**
  The bytes an oracle signs (common/oracle_sig.js, snapshotMessage): the fields of a snapshot, in the form
  its version selects, joined by newlines and encoded as UTF-8. What two equal messages say about two
  snapshots is proved exactly.
 */
module SnapshotMessage {
  import opened Wrappers
  import opened Bytes
  import opened Text

  const MAX_SAFE_INTEGER: int := 0x1f_ffff_ffff_ffff

  /** A snapshot's version as the source may find it. */
  datatype Version = Absent | Number(n: int) | Other

  /** Text fields are what String() makes of them; height, depth and ts are absent when they are not
      numbers, and shaRoot and order when they are not strings. */
  datatype Snapshot = Snapshot(version: Version, height: Option<int>, blockHash: Option<text>, depth: Option<int>,
                               root: text, shaRoot: Option<text>, order: Option<text>, chainlocked: bool,
                               ts: Option<int>)

  datatype MessageError = UnsupportedVersion | NoShaRoot | NoOrder | NotChainlocked | UnsafeInteger | NewlineInField

  function SnapshotVersion(o: Snapshot): Result<int, MessageError> {
    match o.version
    case Absent => Ok(1)
    case Number(n) => if n in {1, 2, 3} then Ok(n) else Err(UnsupportedVersion)
    case Other => Err(UnsupportedVersion)
  }

  /** "mno-oracle-snapshot-v" and the version's digit. */
  function Domain(version: int): text
    requires version in {1, 2, 3}
  {
    [109, 110, 111, 45, 111, 114, 97, 99, 108, 101, 45, 115, 110, 97, 112, 115, 104, 111, 116, 45, 118] + [48 + version]
  }

  function FrameSafe(t: text): (r: Result<text, MessageError>)
    ensures r.Ok? ==> r.value == t && NEWLINE !in r.value
  {
    if NEWLINE in t then Err(NewlineInField) else Ok(t)
  }

  function FrameInt(n: Option<int>): (r: Result<text, MessageError>)
    ensures r.Ok? ==> NEWLINE !in r.value
  {
    if n.Some? && -MAX_SAFE_INTEGER <= n.value <= MAX_SAFE_INTEGER then
      DecimalIsPlain(n.value);
      Ok(Decimal(n.value))
    else Err(UnsafeInteger)
  }

  function OrEmpty(t: Option<text>): text {
    if t.Some? then t.value else []
  }

  /** The fields in their order, framed, or the first that cannot be. */
  function Framed(fields: seq<Result<text, MessageError>>): (r: Result<seq<text>, MessageError>)
    ensures r.Ok? ==> |r.value| == |fields| && forall i :: 0 <= i < |fields| ==> fields[i] == Ok(r.value[i])
  {
    if |fields| == 0 then Ok([])
    else if fields[0].Err? then Err(fields[0].error)
    else
      var rest := Framed(fields[1..]);
      if rest.Err? then rest else Ok([fields[0].value] + rest.value)
  }

  function Plain(t: text): Result<text, MessageError> {
    Ok(t)
  }

  function FieldsOf(o: Snapshot, version: int): seq<Result<text, MessageError>>
    requires version in {1, 2, 3}
  {
    if version == 3 then
      [Plain(Domain(3)), Plain([51]), FrameInt(o.height), FrameSafe(OrEmpty(o.blockHash)), FrameInt(o.depth),
       FrameSafe(o.root), FrameSafe(OrEmpty(o.shaRoot)), FrameSafe(OrEmpty(o.order)), Plain([49]), FrameInt(o.ts)]
    else if version == 2 then
      [Plain(Domain(2)), Plain([50]), FrameInt(o.height), FrameSafe(OrEmpty(o.blockHash)), FrameInt(o.depth),
       FrameSafe(o.root), FrameSafe(OrEmpty(o.shaRoot)), FrameInt(o.ts)]
    else
      [Plain(Domain(1)), FrameInt(o.height), FrameSafe(OrEmpty(o.blockHash)), FrameInt(o.depth), FrameSafe(o.root),
       FrameInt(o.ts)]
  }

  /** What a version asks for before any field is framed. */
  function Missing(o: Snapshot, version: int): Option<MessageError> {
    if version >= 2 && o.shaRoot.None? then Some(NoShaRoot)
    else if version == 3 && (o.order.None? || o.order == Some([])) then Some(NoOrder)
    else if version == 3 && !o.chainlocked then Some(NotChainlocked)
    else None
  }

  function MessageFields(o: Snapshot): Result<seq<text>, MessageError> {
    var version := SnapshotVersion(o);
    if version.Err? then Err(version.error)
    else
      var missing := Missing(o, version.value);
      if missing.Some? then Err(missing.value) else Framed(FieldsOf(o, version.value))
  }

  function Joined(fields: seq<text>): text {
    if |fields| == 0 then [] else if |fields| == 1 then fields[0] else fields[0] + [NEWLINE] + Joined(fields[1..])
  }

  function Message(o: Snapshot): Result<seq<byte>, MessageError> {
    var fields := MessageFields(o);
    if fields.Err? then Err(fields.error) else Ok(Encoded(Joined(fields.value)))
  }

  // ---- taking a message apart --------------------------------------------------------------------------

  predicate NoNewlines(fields: seq<text>) {
    forall i :: 0 <= i < |fields| ==> NEWLINE !in fields[i]
  }

  lemma FirstNewline(a: seq<scalar>, rest: seq<scalar>)
    requires NEWLINE !in a
    ensures var whole := a + [NEWLINE] + rest; whole[|a|] == NEWLINE && forall i :: 0 <= i < |a| ==> whole[i] != NEWLINE
  {
  }

  lemma CutAtNewline(a: seq<scalar>, b: seq<scalar>, restA: seq<scalar>, restB: seq<scalar>)
    requires NEWLINE !in a && NEWLINE !in b && a + [NEWLINE] + restA == b + [NEWLINE] + restB
    ensures a == b && restA == restB
  {
    var whole := a + [NEWLINE] + restA;
    FirstNewline(a, restA);
    FirstNewline(b, restB);
    assert |a| == |b|;
    assert a == whole[..|a|] && b == whole[..|b|];
    assert restA == whole[|a| + 1..] && restB == whole[|b| + 1..];
  }

  lemma NoCut(a: seq<scalar>, b: seq<scalar>, rest: seq<scalar>)
    requires NEWLINE !in a
    ensures a != b + [NEWLINE] + rest
  {
    var whole := b + [NEWLINE] + rest;
    assert whole[|b|] == NEWLINE;
    assert NEWLINE in whole;
  }

  /** Newlines cut the encoded message where they cut the fields: equal texts have field for field the same
      scalar values. */
  lemma {:induction false} FieldsAlike(a: seq<text>, b: seq<text>)
    requires |a| > 0 && |b| > 0 && NoNewlines(a) && NoNewlines(b)
    ensures Scalars(Joined(a)) == Scalars(Joined(b)) <==>
      |a| == |b| && forall i :: 0 <= i < |a| ==> Scalars(a[i]) == Scalars(b[i])
  {
    NoNewScalars(a[0]);
    NoNewScalars(b[0]);
    if |a| > 1 { ScalarsAcrossNewline(a[0], Joined(a[1..])); }
    if |b| > 1 { ScalarsAcrossNewline(b[0], Joined(b[1..])); }
    if |a| == 1 && |b| > 1 {
      NoCut(Scalars(a[0]), Scalars(b[0]), Scalars(Joined(b[1..])));
    } else if |b| == 1 && |a| > 1 {
      NoCut(Scalars(b[0]), Scalars(a[0]), Scalars(Joined(a[1..])));
    } else if |a| > 1 {
      FieldsAlike(a[1..], b[1..]);
      if Scalars(Joined(a)) == Scalars(Joined(b)) {
        CutAtNewline(Scalars(a[0]), Scalars(b[0]), Scalars(Joined(a[1..])), Scalars(Joined(b[1..])));
      }
      ShiftFields(a, b);
    }
  }

  lemma ShiftFields(a: seq<text>, b: seq<text>)
    requires |a| > 0 && |b| > 0
    ensures (|a| == |b| && forall i :: 0 <= i < |a| ==> Scalars(a[i]) == Scalars(b[i]))
       <==> (Scalars(a[0]) == Scalars(b[0]) && |a[1..]| == |b[1..]| && forall i :: 0 <= i < |a[1..]| ==>
           Scalars(a[1..][i]) == Scalars(b[1..][i]))
  {
    if Scalars(a[0]) == Scalars(b[0]) && |a[1..]| == |b[1..]| && forall i :: 0 <= i < |a[1..]| ==>
        Scalars(a[1..][i]) == Scalars(b[1..][i]) {
      forall i | 0 <= i < |a| ensures Scalars(a[i]) == Scalars(b[i]) {
        if i > 0 { assert a[1..][i - 1] == a[i] && b[1..][i - 1] == b[i]; }
      }
    }
  }

  // ---- what equal messages mean -------------------------------------------------------------------------

  /** The same snapshot in everything that is signed, text compared by its scalar values and an absent block
      hash read as empty. */
  predicate SameSigned(a: Snapshot, b: Snapshot)
    requires SnapshotVersion(a).Ok? && SnapshotVersion(b).Ok?
  {
    var v := SnapshotVersion(a).value;
    && SnapshotVersion(b).value == v
    && a.height == b.height && a.depth == b.depth && a.ts == b.ts
    && Scalars(OrEmpty(a.blockHash)) == Scalars(OrEmpty(b.blockHash)) && Scalars(a.root) == Scalars(b.root)
    && (v >= 2 ==> Scalars(OrEmpty(a.shaRoot)) == Scalars(OrEmpty(b.shaRoot)))
    && (v == 3 ==> Scalars(OrEmpty(a.order)) == Scalars(OrEmpty(b.order)))
  }

  lemma DomainsDiffer(v: int, w: int)
    requires v in {1, 2, 3} && w in {1, 2, 3} && Scalars(Domain(v)) == Scalars(Domain(w))
    ensures v == w
  {
    PlainScalars(Domain(v));
    PlainScalars(Domain(w));
    assert Domain(v)[21] == 48 + v && Domain(w)[21] == 48 + w;
  }

  /** What each framed field is. */
  predicate Spelled(o: Snapshot, x: seq<text>, v: int) {
    match v
    case 1 =>
      && |x| == 6 && x[0] == Domain(1) && FrameInt(o.height) == Ok(x[1]) && FrameSafe(OrEmpty(o.blockHash)) == Ok(x[2])
      && FrameInt(o.depth) == Ok(x[3]) && FrameSafe(o.root) == Ok(x[4]) && FrameInt(o.ts) == Ok(x[5])
    case 2 =>
      && |x| == 8 && x[0] == Domain(2) && x[1] == [50] && FrameInt(o.height) == Ok(x[2])
           && FrameSafe(OrEmpty(o.blockHash)) == Ok(x[3])
      && FrameInt(o.depth) == Ok(x[4]) && FrameSafe(o.root) == Ok(x[5]) && FrameSafe(OrEmpty(o.shaRoot)) == Ok(x[6])
           && FrameInt(o.ts) == Ok(x[7])
    case 3 =>
      && |x| == 10 && x[0] == Domain(3) && x[1] == [51] && FrameInt(o.height) == Ok(x[2])
           && FrameSafe(OrEmpty(o.blockHash)) == Ok(x[3])
      && FrameInt(o.depth) == Ok(x[4]) && FrameSafe(o.root) == Ok(x[5]) && FrameSafe(OrEmpty(o.shaRoot)) == Ok(x[6])
           && FrameSafe(OrEmpty(o.order)) == Ok(x[7])
      && x[8] == [49] && FrameInt(o.ts) == Ok(x[9])
    case _ => false
  }

  lemma FieldsSpelledOut(o: Snapshot, x: seq<text>, v: int)
    requires v in {1, 2, 3} && Framed(FieldsOf(o, v)) == Ok(x)
    ensures Spelled(o, x, v)
  {
    var f := FieldsOf(o, v);
    hide Domain, Framed, Decimal;
    assert f[0] == Ok(x[0]) && f[1] == Ok(x[1]) && f[2] == Ok(x[2]) && f[3] == Ok(x[3]) && f[4] == Ok(x[4])
        && f[5] == Ok(x[5]);
    if v == 2 { assert f[6] == Ok(x[6]) && f[7] == Ok(x[7]); }
    if v == 3 { assert f[6] == Ok(x[6]) && f[7] == Ok(x[7]) && f[8] == Ok(x[8]) && f[9] == Ok(x[9]); }
  }

  lemma DomainIsClean(v: int)
    requires v in {1, 2, 3}
    ensures NEWLINE !in Domain(v)
  {
    forall i | 0 <= i < |Domain(v)| ensures Domain(v)[i] != NEWLINE {}
  }

  lemma NoNewlinesAppend(a: seq<text>, b: seq<text>)
    requires NoNewlines(a) && NoNewlines(b)
    ensures NoNewlines(a + b)
  {
  }

  lemma Clean2(x: text, y: text)
    requires NEWLINE !in x && NEWLINE !in y
    ensures NoNewlines([x, y])
  {
  }

  lemma FirstSix(x: seq<text>)
    requires |x| >= 6 && NEWLINE !in x[0] && NEWLINE !in x[1] && NEWLINE !in x[2] && NEWLINE !in x[3]
      && NEWLINE !in x[4] && NEWLINE !in x[5]
    ensures NoNewlines(x[..6])
  {
    Clean2(x[0], x[1]);
    Clean2(x[2], x[3]);
    Clean2(x[4], x[5]);
    NoNewlinesAppend([x[0], x[1]], [x[2], x[3]]);
    NoNewlinesAppend([x[0], x[1]] + [x[2], x[3]], [x[4], x[5]]);
    assert x[..6] == [x[0], x[1]] + [x[2], x[3]] + [x[4], x[5]];
  }

  lemma SpelledIsClean(o: Snapshot, x: seq<text>, v: int)
    requires v in {1, 2, 3} && Spelled(o, x, v)
    ensures NoNewlines(x) && |x| > 0
  {
    DomainIsClean(v);
    hide Domain, FrameInt, FrameSafe, NoNewlines;
    FirstSix(x);
    if v == 1 {
      assert x[..6] == x;
    } else {
      Clean2(x[6], x[7]);
      NoNewlinesAppend(x[..6], [x[6], x[7]]);
      assert x[..8] == x[..6] + [x[6], x[7]];
      if v == 2 {
        assert x[..8] == x;
      } else {
        Clean2(x[8], x[9]);
        NoNewlinesAppend(x[..8], [x[8], x[9]]);
        assert x == x[..8] + [x[8], x[9]];
      }
    }
  }

  lemma FieldsHaveNoNewlines(o: Snapshot)
    requires MessageFields(o).Ok?
    ensures NoNewlines(MessageFields(o).value) && |MessageFields(o).value| > 0
  {
    FieldsSpelledOut(o, MessageFields(o).value, SnapshotVersion(o).value);
    SpelledIsClean(o, MessageFields(o).value, SnapshotVersion(o).value);
  }

  lemma IntsAlike(a: Option<int>, b: Option<int>)
    requires FrameInt(a).Ok? && FrameInt(b).Ok?
    ensures Scalars(FrameInt(a).value) == Scalars(FrameInt(b).value) <==> a == b
  {
    DecimalIsPlain(a.value);
    DecimalIsPlain(b.value);
    if Decimal(a.value) == Decimal(b.value) { DecimalInjective(a.value, b.value); }
  }

  /** Field for field the same scalar values. */
  predicate Alike(x: seq<text>, y: seq<text>) {
    |x| == |y| && forall i :: 0 <= i < |x| ==> Scalars(x[i]) == Scalars(y[i])
  }

  lemma Alike6(x: seq<text>, y: seq<text>)
    requires |x| == |y| == 6 && x[0] == y[0]
    ensures Alike(x, y) <==>
      && Scalars(x[1]) == Scalars(y[1]) && Scalars(x[2]) == Scalars(y[2]) && Scalars(x[3]) == Scalars(y[3])
      && Scalars(x[4]) == Scalars(y[4]) && Scalars(x[5]) == Scalars(y[5])
  {
    hide Scalars;
  }

  lemma Alike8(x: seq<text>, y: seq<text>)
    requires |x| == |y| == 8 && x[0] == y[0] && x[1] == y[1]
    ensures Alike(x, y) <==>
      && Scalars(x[2]) == Scalars(y[2]) && Scalars(x[3]) == Scalars(y[3]) && Scalars(x[4]) == Scalars(y[4])
      && Scalars(x[5]) == Scalars(y[5]) && Scalars(x[6]) == Scalars(y[6]) && Scalars(x[7]) == Scalars(y[7])
  {
    hide Scalars;
  }

  lemma Alike10(x: seq<text>, y: seq<text>)
    requires |x| == |y| == 10 && x[0] == y[0] && x[1] == y[1] && x[8] == y[8]
    ensures Alike(x, y) <==>
      && Scalars(x[2]) == Scalars(y[2]) && Scalars(x[3]) == Scalars(y[3]) && Scalars(x[4]) == Scalars(y[4])
      && Scalars(x[5]) == Scalars(y[5]) && Scalars(x[6]) == Scalars(y[6]) && Scalars(x[7]) == Scalars(y[7])
      && Scalars(x[9]) == Scalars(y[9])
  {
    hide Scalars;
  }

  lemma FieldByField(a: Snapshot, b: Snapshot)
    requires MessageFields(a).Ok? && MessageFields(b).Ok? && SnapshotVersion(a).value == SnapshotVersion(b).value
    ensures Alike(MessageFields(a).value, MessageFields(b).value) <==> SameSigned(a, b)
  {
    var x, y := MessageFields(a).value, MessageFields(b).value;
    var v := SnapshotVersion(a).value;
    FieldsSpelledOut(a, x, v);
    FieldsSpelledOut(b, y, v);
    IntsAlike(a.height, b.height);
    IntsAlike(a.depth, b.depth);
    IntsAlike(a.ts, b.ts);
    hide FieldsOf, Framed, Domain, Scalars, Alike, FrameInt;
    if v == 1 { Alike6(x, y); } else if v == 2 { Alike8(x, y); } else { Alike10(x, y); }
  }

  lemma MessagesAreFields(a: Snapshot, b: Snapshot)
    requires Message(a).Ok? && Message(b).Ok?
    ensures Message(a) == Message(b) <==> Alike(MessageFields(a).value, MessageFields(b).value)
  {
    FieldsHaveNoNewlines(a);
    FieldsHaveNoNewlines(b);
    hide Scalars, Joined, Encoded, NoNewlines, MessageFields;
    EncodedAlike(Joined(MessageFields(a).value), Joined(MessageFields(b).value));
    FieldsAlike(MessageFields(a).value, MessageFields(b).value);
  }

  lemma AlikeMeansSameVersion(a: Snapshot, b: Snapshot)
    requires MessageFields(a).Ok? && MessageFields(b).Ok? && Alike(MessageFields(a).value, MessageFields(b).value)
    ensures SnapshotVersion(a) == SnapshotVersion(b)
  {
    var x, y := MessageFields(a).value, MessageFields(b).value;
    var v, w := SnapshotVersion(a).value, SnapshotVersion(b).value;
    FieldsSpelledOut(a, x, v);
    FieldsSpelledOut(b, y, w);
    hide Domain, Framed, FieldsOf, FrameInt, FrameSafe;
    assert x[0] == Domain(v) && y[0] == Domain(w) && Scalars(x[0]) == Scalars(y[0]);
    DomainsDiffer(v, w);
  }

  /** Exactly what a signed message binds: two snapshots have the same bytes if and only if they have the same
      version and agree in every signed field, across all three forms. */
  lemma MessagesAgreeExactlyWhen(a: Snapshot, b: Snapshot)
    requires Message(a).Ok? && Message(b).Ok?
    ensures Message(a) == Message(b) <==> SameSigned(a, b)
  {
    MessagesAreFields(a, b);
    hide MessageFields, Alike, Encoded, Joined, Scalars;
    if Alike(MessageFields(a).value, MessageFields(b).value) { AlikeMeansSameVersion(a, b); }
    if SnapshotVersion(a) == SnapshotVersion(b) { FieldByField(a, b); }
  }

  /** So over text with no lone surrogates, which every value the schema admits is, equal messages are equal
      fields. */
  lemma WellFormedFieldsAreBound(a: Snapshot, b: Snapshot)
    requires Message(a).Ok? && Message(a) == Message(b)
    requires WellFormed(OrEmpty(a.blockHash)) && WellFormed(OrEmpty(b.blockHash)) && WellFormed(a.root)
      && WellFormed(b.root)
    requires WellFormed(OrEmpty(a.shaRoot)) && WellFormed(OrEmpty(b.shaRoot)) && WellFormed(OrEmpty(a.order))
      && WellFormed(OrEmpty(b.order))
    ensures SnapshotVersion(a) == SnapshotVersion(b) && a.height == b.height && a.depth == b.depth && a.ts == b.ts
    ensures OrEmpty(a.blockHash) == OrEmpty(b.blockHash) && a.root == b.root
    ensures SnapshotVersion(a).value >= 2 ==> a.shaRoot == b.shaRoot
    ensures SnapshotVersion(a).value == 3 ==> a.order == b.order && a.chainlocked && b.chainlocked
  {
    MessagesAgreeExactlyWhen(a, b);
    UnitsReadBack(OrEmpty(a.blockHash));
    UnitsReadBack(OrEmpty(b.blockHash));
    UnitsReadBack(a.root);
    UnitsReadBack(b.root);
    UnitsReadBack(OrEmpty(a.shaRoot));
    UnitsReadBack(OrEmpty(b.shaRoot));
    UnitsReadBack(OrEmpty(a.order));
    UnitsReadBack(OrEmpty(b.order));
  }

  /** Without that, two different fields can be signed by the same bytes: a root that is a lone surrogate and
      one that is the replacement character. */
  lemma LoneSurrogateIsNotBound()
    ensures var a := Snapshot(Absent, Some(1), None, Some(2), [0xd800], None, None, false, Some(3));
      var b := a.(root := [0xfffd]);
      Message(a).Ok? && Message(a) == Message(b) && a.root != b.root
  {
    var a := Snapshot(Absent, Some(1), None, Some(2), [0xd800], None, None, false, Some(3));
    var b := a.(root := [0xfffd]);
    assert Scalars([0xd800]) == [0xfffd] + Scalars([]) && Scalars([0xfffd]) == [0xfffd] + Scalars([]) by {
      assert [0xd800][1..] == [] && [0xfffd][1..] == [];
    }
    FramesV1(a);
    FramesV1(b);
    MessagesAgreeExactlyWhen(a, b);
  }

  lemma FramesV1(o: Snapshot)
    requires o.version == Absent && FrameInt(o.height).Ok? && FrameInt(o.depth).Ok? && FrameInt(o.ts).Ok?
    requires NEWLINE !in OrEmpty(o.blockHash) && NEWLINE !in o.root
    ensures Message(o).Ok?
  {
    AllFramed(FieldsOf(o, 1));
  }

  lemma {:induction false} AllFramed(fields: seq<Result<text, MessageError>>)
    requires forall i :: 0 <= i < |fields| ==> fields[i].Ok?
    ensures Framed(fields).Ok?
  {
    if |fields| > 0 {
      AllFramed(fields[1..]);
    }
  }
}

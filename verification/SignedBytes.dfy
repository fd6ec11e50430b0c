/**
  The signed bytes of a snapshot, line by line (common/oracle_sig.js, snapshotMessage), and when there are any:
  what each version's message is, said without the fields' own framing.
 */
module SignedBytes {
  import opened Bytes
  import opened SnapshotMessage
  import opened Text
  import opened Wrappers

  /** An ASCII literal's bytes. */
  function Ascii(s: string): (r: seq<byte>)
    requires forall i :: 0 <= i < |s| ==> s[i] < 128 as char
    ensures |r| == |s| && forall i :: 0 <= i < |s| ==> r[i] == s[i] as int
  {
    seq(|s|, i requires 0 <= i < |s| => s[i] as int)
  }

  /** Byte strings with a newline between any two. */
  ghost function Lines(parts: seq<seq<byte>>): seq<byte> {
    if |parts| == 0 then [] else if |parts| == 1 then parts[0] else parts[0] + [10] + Lines(parts[1..])
  }

  // ---- numbers and text ------------------------------------------------------------------------------

  /** The number a string of decimal digits is. */
  ghost function NumberOf(s: seq<byte>): int {
    if |s| == 0 then 0 else 10 * NumberOf(s[..|s| - 1]) + (s[|s| - 1] as int - 48)
  }

  lemma {:induction false} PlainEncoded(s: text)
    requires forall i :: 0 <= i < |s| ==> s[i] < 0x80
    ensures Encoded(s) == s
  {
    PlainScalars(s);
    PlainUtf8(s);
  }

  lemma {:induction false} PlainUtf8(s: seq<scalar>)
    requires forall i :: 0 <= i < |s| ==> s[i] < 0x80
    ensures Utf8(s) == s
  {
    if |s| > 0 {
      PlainUtf8(s[1..]);
      assert s == [s[0]] + s[1..];
    }
  }

  lemma {:induction false} DigitsAreNumber(n: nat)
    ensures forall i :: 0 <= i < |Digits(n)| ==> 48 <= Digits(n)[i] <= 57
    ensures NumberOf(Digits(n)) == n && (n > 0 ==> Digits(n)[0] != 48)
  {
    var d := Digits(n);
    if n < 10 {
      assert d[..0] == [];
      assert NumberOf(d) == 10 * NumberOf(d[..0]) + (d[0] - 48);
    } else {
      DigitsAreNumber(n / 10);
      assert d[..|d| - 1] == Digits(n / 10);
    }
  }

  /** A number as signed: a minus if it is negative, and the decimal digits of its size without leading zeros. */
  ghost predicate Spells(s: seq<byte>, n: int) {
    var digits := if n < 0 && |s| > 0 then s[1..] else s;
    && (n < 0 ==> |s| > 0 && s[0] == 45)
    && |digits| > 0 && (forall i :: 0 <= i < |digits| ==> 48 <= digits[i] <= 57) && (n != 0 ==> digits[0] != 48)
    && NumberOf(digits) == if n < 0 then -n else n
  }

  lemma DecimalSpells(n: int)
    ensures Spells(Encoded(Decimal(n)), n)
  {
    PlainEncoded(Decimal(n));
    DigitsAreNumber(if n < 0 then -n else n);
    if n < 0 { assert Decimal(n)[1..] == Digits(-n); }
  }

  // ---- joining ---------------------------------------------------------------------------------------

  lemma {:induction false} Utf8Append(a: seq<scalar>, b: seq<scalar>)
    ensures Utf8(a + b) == Utf8(a) + Utf8(b)
  {
    if |a| == 0 {
      assert a + b == b;
    } else {
      assert (a + b)[1..] == a[1..] + b;
      Utf8Append(a[1..], b);
    }
  }

  lemma EncodedAcross(a: text, b: text)
    ensures Encoded(a + [NEWLINE] + b) == Encoded(a) + [10] + Encoded(b)
  {
    ScalarsAcrossNewline(a, b);
    Utf8Append(Scalars(a) + [NEWLINE], Scalars(b));
    Utf8Append(Scalars(a), [NEWLINE]);
    assert Utf8([NEWLINE]) == [10] by { assert [NEWLINE][1..] == [] && Utf8([]) == []; }
  }

  ghost function EncodedEach(fields: seq<text>): seq<seq<byte>> {
    seq(|fields|, i requires 0 <= i < |fields| => Encoded(fields[i]))
  }

  lemma {:induction false} JoinedLines(fields: seq<text>)
    ensures Encoded(SnapshotMessage.Joined(fields)) == Lines(EncodedEach(fields))
  {
    var parts := EncodedEach(fields);
    if |fields| > 1 {
      assert parts[1..] == EncodedEach(fields[1..]);
      JoinedLines(fields[1..]);
      EncodedAcross(fields[0], SnapshotMessage.Joined(fields[1..]));
    }
  }

  // ---- the message -----------------------------------------------------------------------------------

  lemma DomainPrefix()
    ensures Ascii("mno-oracle-snapshot-v")
         == [109, 110, 111, 45, 111, 114, 97, 99, 108, 101, 45, 115, 110, 97, 112, 115, 104, 111, 116, 45, 118]
  {
    var s := "mno-oracle-snapshot-v";
    assert s[0] == 'm' && s[1] == 'n' && s[2] == 'o' && s[3] == '-' && s[4] == 'o' && s[5] == 'r' && s[6] == 'a';
    assert s[7] == 'c' && s[8] == 'l' && s[9] == 'e' && s[10] == '-' && s[11] == 's' && s[12] == 'n' && s[13] == 'a';
    assert s[14] == 'p' && s[15] == 's' && s[16] == 'h' && s[17] == 'o' && s[18] == 't' && s[19] == '-' && s[20] == 'v';
  }

  lemma AsciiAppend(s: string, c: char)
    requires (forall i :: 0 <= i < |s| ==> s[i] < 128 as char) && c < 128 as char
    ensures Ascii(s + [c]) == Ascii(s) + [c as int]
  {
  }

  lemma DomainBytes(v: int)
    requires v in {1, 2, 3}
    ensures v == 1 ==> Encoded(Domain(v)) == Ascii("mno-oracle-snapshot-v1")
    ensures v == 2 ==> Encoded(Domain(v)) == Ascii("mno-oracle-snapshot-v2")
    ensures v == 3 ==> Encoded(Domain(v)) == Ascii("mno-oracle-snapshot-v3")
  {
    hide Ascii;
    PlainEncoded(Domain(v));
    DomainPrefix();
    AsciiAppend("mno-oracle-snapshot-v", '1');
    AsciiAppend("mno-oracle-snapshot-v", '2');
    AsciiAppend("mno-oracle-snapshot-v", '3');
    assert "mno-oracle-snapshot-v" + ['1'] == "mno-oracle-snapshot-v1";
    assert "mno-oracle-snapshot-v" + ['2'] == "mno-oracle-snapshot-v2";
    assert "mno-oracle-snapshot-v" + ['3'] == "mno-oracle-snapshot-v3";
  }

  predicate SafeInteger(n: Option<int>) {
    n.Some? && -0x1f_ffff_ffff_ffff <= n.value <= 0x1f_ffff_ffff_ffff
  }

  /** When a snapshot can be signed at all. */
  ghost predicate Signable(o: Snapshot, v: int) {
    && (v == 1 ==> o.version in {Absent, Number(1)}) && (v != 1 ==> o.version == Number(v)) && v in {1, 2, 3}
    && (v >= 2 ==> o.shaRoot.Some?)
    && (v == 3 ==> o.order.Some? && o.order.value != [] && o.chainlocked)
    && SafeInteger(o.height) && SafeInteger(o.depth) && SafeInteger(o.ts)
    && (o.blockHash.Some? ==> NEWLINE !in o.blockHash.value) && NEWLINE !in o.root
    && (v >= 2 ==> NEWLINE !in o.shaRoot.value) && (v == 3 ==> NEWLINE !in o.order.value)
  }

  /** The lines of the message, in their order. */
  ghost function LinesOf(o: Snapshot, v: int, height: seq<byte>, depth: seq<byte>, ts: seq<byte>): seq<seq<byte>>
    requires Signable(o, v)
  {
    var block := if o.blockHash.Some? then Encoded(o.blockHash.value) else [];
    if v == 1 then [Ascii("mno-oracle-snapshot-v1"), height, block, depth, Encoded(o.root), ts]
    else if v == 2 then
      [Ascii("mno-oracle-snapshot-v2"), Ascii("2"), height, block, depth, Encoded(o.root), Encoded(o.shaRoot.value), ts]
    else
      [Ascii("mno-oracle-snapshot-v3"), Ascii("3"), height, block, depth, Encoded(o.root), Encoded(o.shaRoot.value),
       Encoded(o.order.value), Ascii("1"), ts]
  }

  lemma SafeFramed(n: Option<int>)
    ensures FrameInt(n).Ok? <==> SafeInteger(n)
    ensures SafeInteger(n) ==> FrameInt(n) == Ok(Decimal(n.value))
  {
  }

  lemma TextFramed(t: text)
    ensures FrameSafe(t) == if NEWLINE in t then Err(NewlineInField) else Ok(t)
  {
  }

  /** Each field as it is framed. */
  lemma FieldsAre(o: Snapshot, v: int)
    requires Signable(o, v)
    ensures var f := FieldsOf(o, v);
      var block := if o.blockHash.Some? then o.blockHash.value else [];
      var height, depth, ts := Decimal(o.height.value), Decimal(o.depth.value), Decimal(o.ts.value);
      && (v == 1 ==> f == [Ok(Domain(1)), Ok(height), Ok(block), Ok(depth), Ok(o.root), Ok(ts)])
      && (v == 2 ==> f == [Ok(Domain(2)), Ok([50]), Ok(height), Ok(block), Ok(depth), Ok(o.root), Ok(o.shaRoot.value),
                           Ok(ts)])
      && (v == 3 ==> f == [Ok(Domain(3)), Ok([51]), Ok(height), Ok(block), Ok(depth), Ok(o.root), Ok(o.shaRoot.value),
                           Ok(o.order.value), Ok([49]), Ok(ts)])
  {
    hide Domain, Decimal, FrameInt, FrameSafe, SafeInteger;
    SafeFramed(o.height);
    SafeFramed(o.depth);
    SafeFramed(o.ts);
    TextFramed(OrEmpty(o.blockHash));
    TextFramed(o.root);
    TextFramed(OrEmpty(o.shaRoot));
    TextFramed(OrEmpty(o.order));
  }

  lemma FieldsSigned(o: Snapshot, v: int) returns (x: seq<text>)
    requires Signable(o, v)
    ensures Message(o) == Ok(Encoded(SnapshotMessage.Joined(x))) && |x| == |FieldsOf(o, v)|
    ensures forall i :: 0 <= i < |x| ==> FieldsOf(o, v)[i] == Ok(x[i])
  {
    hide Domain, Decimal, FrameInt, FrameSafe, SafeInteger, Encoded, SnapshotMessage.Joined;
    FieldsAre(o, v);
    AllFramed(FieldsOf(o, v));
    x := Framed(FieldsOf(o, v)).value;
  }

  lemma LiteralLines()
    ensures Encoded([49]) == Ascii("1") && Encoded([50]) == Ascii("2") && Encoded([51]) == Ascii("3")
    ensures Encoded([]) == []
  {
    PlainEncoded([49]);
    PlainEncoded([50]);
    PlainEncoded([51]);
    assert Ascii("1") == [49] && Ascii("2") == [50] && Ascii("3") == [51];
  }

  lemma LinesSigned(o: Snapshot, v: int, x: seq<text>)
    requires Signable(o, v) && |x| == |FieldsOf(o, v)|
    requires forall i :: 0 <= i < |x| ==> FieldsOf(o, v)[i] == Ok(x[i])
    ensures var height, depth := Encoded(Decimal(o.height.value)), Encoded(Decimal(o.depth.value));
      EncodedEach(x) == LinesOf(o, v, height, depth, Encoded(Decimal(o.ts.value)))
  {
    hide Encoded, Domain, Decimal, Ascii, SafeInteger, FieldsOf;
    DomainBytes(v);
    LiteralLines();
    FieldsAre(o, v);
    var f := FieldsOf(o, v);
    assert f[0] == Ok(x[0]) && f[1] == Ok(x[1]) && f[2] == Ok(x[2]) && f[3] == Ok(x[3]) && f[4] == Ok(x[4])
        && f[5] == Ok(x[5]);
    if v >= 2 { assert f[6] == Ok(x[6]) && f[7] == Ok(x[7]); }
    if v == 3 { assert f[8] == Ok(x[8]) && f[9] == Ok(x[9]); }
  }

  /** The bytes of a signable snapshot are these lines in this order, each number spelled in decimal, an absent block
      hash an empty line. */
  lemma MessageIs(o: Snapshot, v: int) returns (height: seq<byte>, depth: seq<byte>, ts: seq<byte>)
    requires Signable(o, v)
    ensures Spells(height, o.height.value) && Spells(depth, o.depth.value) && Spells(ts, o.ts.value)
    ensures Message(o) == Ok(Lines(LinesOf(o, v, height, depth, ts)))
  {
    hide Encoded, Decimal, Spells, Lines, LinesOf, SnapshotMessage.Joined, Message;
    var x := FieldsSigned(o, v);
    LinesSigned(o, v, x);
    JoinedLines(x);
    height, depth := Encoded(Decimal(o.height.value)), Encoded(Decimal(o.depth.value));
    ts := Encoded(Decimal(o.ts.value));
    DecimalSpells(o.height.value);
    DecimalSpells(o.depth.value);
    DecimalSpells(o.ts.value);
  }

  lemma {:induction false} FramedMeansAll(fields: seq<Result<text, MessageError>>)
    ensures Framed(fields).Ok? ==> forall i :: 0 <= i < |fields| ==> fields[i].Ok?
  {
    if |fields| > 0 && Framed(fields).Ok? {
      FramedMeansAll(fields[1..]);
      assert fields == [fields[0]] + fields[1..];
    }
  }

  /** And a snapshot has such bytes exactly when its version is known and it has what the version asks for, every
      number is safe and no text has a newline. */
  lemma SignableExactlyWhen(o: Snapshot)
    ensures Message(o).Ok? <==> exists v :: Signable(o, v)
  {
    if v :| Signable(o, v) { var x := FieldsSigned(o, v); }
    if Message(o).Ok? {
      var v := SnapshotVersion(o).value;
      var f := FieldsOf(o, v);
      FramedMeansAll(f);
      assert f[1].Ok? && f[2].Ok? && f[3].Ok? && f[4].Ok? && f[5].Ok?;
      if v >= 2 { assert f[6].Ok? && f[7].Ok?; }
      if v == 3 { assert f[9].Ok?; }
      assert Signable(o, v);
    }
  }
}

/**
  JavaScript text and its UTF-8 bytes: strings are UTF-16 code units, and encoding one first replaces every
  lone surrogate by U+FFFD. So the bytes determine the scalar values and no more.
 */
module Text {
  import opened Wrappers
  import opened Bytes

  type unit = x: int | 0 <= x < 0x1_0000
  type scalar = x: int | 0 <= x < 0x11_0000
  type text = seq<unit>

  predicate High(u: unit) {
    0xd800 <= u < 0xdc00
  }

  predicate Low(u: unit) {
    0xdc00 <= u < 0xe000
  }

  /** The scalar values of a string, a lone surrogate reading as the replacement character. */
  function Scalars(s: text): seq<scalar> {
    if |s| == 0 then []
    else if High(s[0]) && |s| > 1 && Low(s[1])
        then [0x1_0000 + (s[0] - 0xd800) * 0x400 + (s[1] - 0xdc00)] + Scalars(s[2..])
    else if High(s[0]) || Low(s[0]) then [0xfffd] + Scalars(s[1..])
    else [s[0]] + Scalars(s[1..])
  }

  /** Every surrogate is half of a pair. */
  predicate WellFormed(s: text) {
    |s| == 0
    || (High(s[0]) && |s| > 1 && Low(s[1]) && WellFormed(s[2..]))
    || (!High(s[0]) && !Low(s[0]) && WellFormed(s[1..]))
  }

  function UnitsOf(c: scalar): text {
    if c < 0x1_0000 then [c] else [0xd800 + (c - 0x1_0000) / 0x400, 0xdc00 + (c - 0x1_0000) % 0x400]
  }

  function Units(s: seq<scalar>): text {
    if |s| == 0 then [] else UnitsOf(s[0]) + Units(s[1..])
  }

  /** A well-formed string can be read back from its scalar values. */
  lemma {:induction false} UnitsReadBack(s: text)
    requires WellFormed(s)
    ensures Units(Scalars(s)) == s
    decreases |s|
  {
    if |s| > 0 {
      var rest := Scalars(s)[1..];
      if High(s[0]) {
        UnitsReadBack(s[2..]);
        assert rest == Scalars(s[2..]);
        assert s == [s[0], s[1]] + s[2..];
      } else {
        UnitsReadBack(s[1..]);
        assert rest == Scalars(s[1..]);
        assert s == [s[0]] + s[1..];
      }
    }
  }

  // ---- newlines --------------------------------------------------------------------------------------

  const NEWLINE: unit := 10

  lemma {:induction false} ScalarsAcrossNewline(a: text, b: text)
    ensures Scalars(a + [NEWLINE] + b) == Scalars(a) + [NEWLINE] + Scalars(b)
    decreases |a|
  {
    var s := a + [NEWLINE] + b;
    if |a| == 0 {
      assert s[1..] == b;
    } else if High(a[0]) && |a| > 1 && Low(a[1]) {
      assert s[2..] == a[2..] + [NEWLINE] + b;
      ScalarsAcrossNewline(a[2..], b);
    } else {
      assert s[1..] == a[1..] + [NEWLINE] + b;
      assert |a| == 1 ==> s[1] == NEWLINE;
      ScalarsAcrossNewline(a[1..], b);
    }
  }

  lemma {:induction false} NoNewScalars(s: text)
    requires NEWLINE !in s
    ensures NEWLINE !in Scalars(s)
    decreases |s|
  {
    if |s| > 0 {
      assert s[0] != NEWLINE;
      if High(s[0]) && |s| > 1 && Low(s[1]) { NoNewScalars(s[2..]); } else { NoNewScalars(s[1..]); }
    }
  }

  // ---- UTF-8 -----------------------------------------------------------------------------------------

  function Utf8Of(c: scalar): (r: seq<byte>)
    ensures |r| >= 1
  {
    if c < 0x80 then [c]
    else if c < 0x800 then [0xc0 + c / 64, 0x80 + c % 64]
    else if c < 0x1_0000 then [0xe0 + c / 4096, 0x80 + c / 64 % 64, 0x80 + c % 64]
    else [0xf0 + c / 262144, 0x80 + c / 4096 % 64, 0x80 + c / 64 % 64, 0x80 + c % 64]
  }

  function Utf8(s: seq<scalar>): seq<byte> {
    if |s| == 0 then [] else Utf8Of(s[0]) + Utf8(s[1..])
  }

  /** The first byte says how long a character is, and the rest what it is. */
  function FirstScalar(b: seq<int>): int {
    if |b| >= 1 && b[0] < 0x80 then b[0]
    else if |b| >= 2 && b[0] < 0xe0 then (b[0] - 0xc0) * 64 + (b[1] - 0x80)
    else if |b| >= 3 && b[0] < 0xf0 then (b[0] - 0xe0) * 4096 + (b[1] - 0x80) * 64 + (b[2] - 0x80)
    else if |b| >= 4 then (b[0] - 0xf0) * 262144 + (b[1] - 0x80) * 4096 + (b[2] - 0x80) * 64 + (b[3] - 0x80)
    else -1
  }

  lemma Digits64(c: int)
    requires 0 <= c
    ensures c == c / 64 * 64 + c % 64 && c / 4096 == c / 64 / 64 && c / 262144 == c / 4096 / 64
    ensures c / 64 == c / 4096 * 64 + c / 64 % 64 && c / 4096 == c / 262144 * 64 + c / 4096 % 64
  {
  }

  lemma FirstScalarReads(c: scalar, rest: seq<byte>)
    ensures FirstScalar(Utf8Of(c) + rest) == c
  {
    var b := Utf8Of(c) + rest;
    Digits64(c);
    if c < 0x80 {
      assert b[0] == c;
    } else if c < 0x800 {
      assert b[0] == 0xc0 + c / 64 && b[1] == 0x80 + c % 64;
    } else if c < 0x1_0000 {
      assert b[0] == 0xe0 + c / 4096 && b[1] == 0x80 + c / 64 % 64 && b[2] == 0x80 + c % 64;
    } else {
      assert b[0] == 0xf0 + c / 262144 && b[1] == 0x80 + c / 4096 % 64 && b[2] == 0x80 + c / 64 % 64
          && b[3] == 0x80 + c % 64;
    }
  }

  lemma {:induction false} Utf8IsInjective(a: seq<scalar>, b: seq<scalar>)
    requires Utf8(a) == Utf8(b)
    ensures a == b
  {
    if |a| > 0 && |b| > 0 {
      FirstScalarReads(a[0], Utf8(a[1..]));
      FirstScalarReads(b[0], Utf8(b[1..]));
      SplitEqual(Utf8Of(a[0]), Utf8(a[1..]), Utf8Of(b[0]), Utf8(b[1..]));
      Utf8IsInjective(a[1..], b[1..]);
      assert a == [a[0]] + a[1..] && b == [b[0]] + b[1..];
    }
  }

  /** Buffer.from(s, "utf8"). */
  function Encoded(s: text): seq<byte> {
    Utf8(Scalars(s))
  }

  /** Two strings encode alike exactly when they have the same scalar values. */
  lemma EncodedAlike(a: text, b: text)
    ensures Encoded(a) == Encoded(b) <==> Scalars(a) == Scalars(b)
  {
    if Encoded(a) == Encoded(b) { Utf8IsInjective(Scalars(a), Scalars(b)); }
  }

  // ---- decimals --------------------------------------------------------------------------------------

  function Digits(n: nat): (r: text)
    ensures |r| > 0 && (|r| == 1 <==> n < 10) && forall i :: 0 <= i < |r| ==> 48 <= r[i] < 58
  {
    if n < 10 then [48 + n] else Digits(n / 10) + [48 + n % 10]
  }

  /** String(n) for an integer. */
  function Decimal(n: int): (r: text)
    ensures |r| > 0 && (r[0] == 45 <==> n < 0)
  {
    if n < 0 then [45] + Digits(-n) else Digits(n)
  }

  lemma {:induction false} DigitsInjective(a: nat, b: nat)
    requires Digits(a) == Digits(b)
    ensures a == b
  {
    if a >= 10 && b >= 10 {
      SplitLast(Digits(a / 10), 48 + a % 10, Digits(b / 10), 48 + b % 10);
      DigitsInjective(a / 10, b / 10);
    }
  }

  lemma SplitLast(a: text, x: unit, b: text, y: unit)
    requires a + [x] == b + [y]
    ensures a == b && x == y
  {
    assert |a| == |b|;
    SplitEqual(a, [x], b, [y]);
  }

  lemma DecimalInjective(a: int, b: int)
    requires Decimal(a) == Decimal(b)
    ensures a == b
  {
    if a < 0 && b < 0 {
      SplitEqual([45], Digits(-a), [45], Digits(-b));
      DigitsInjective(-a, -b);
    } else if a >= 0 && b >= 0 {
      DigitsInjective(a, b);
    }
  }

  /** Text below the surrogates is its own scalar values. */
  lemma {:induction false} PlainScalars(s: text)
    requires forall i :: 0 <= i < |s| ==> s[i] < 0xd800
    ensures Scalars(s) == s
  {
    if |s| > 0 {
      PlainScalars(s[1..]);
      assert s == [s[0]] + s[1..];
    }
  }

  lemma DecimalIsPlain(n: int)
    ensures Scalars(Decimal(n)) == Decimal(n) && NEWLINE !in Decimal(n)
  {
    PlainScalars(Decimal(n));
  }
}

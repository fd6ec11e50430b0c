/** Bytes, fixed-width little-endian integers, and the two ways the code base reads hex. */
module Bytes {
  import opened Wrappers

  type byte = x: int | 0 <= x < 256

  function Power256(k: nat): (r: nat)
    ensures r > 0
  {
    if k == 0 then 1 else 256 * Power256(k - 1)
  }

  /** n in exactly k bytes, least significant first; n is cut to that width. */
  function LittleEndian(n: nat, k: nat): (r: seq<byte>)
    ensures |r| == k
  {
    if k == 0 then [] else [n % 256] + LittleEndian(n / 256, k - 1)
  }

  function FromLittleEndian(b: seq<byte>): nat {
    if |b| == 0 then 0 else b[0] + 256 * FromLittleEndian(b[1..])
  }

  lemma {:induction false} LittleEndianReads(n: nat, k: nat)
    requires n < Power256(k)
    ensures FromLittleEndian(LittleEndian(n, k)) == n
  {
    if k > 0 {
      LittleEndianReads(n / 256, k - 1);
      assert LittleEndian(n, k)[1..] == LittleEndian(n / 256, k - 1);
    }
  }

  lemma LowDigit(b: byte, w: nat)
    ensures (b + 256 * w) % 256 == b && (b + 256 * w) / 256 == w
  {
  }

  lemma {:induction false} LittleEndianWrites(b: seq<byte>)
    ensures FromLittleEndian(b) < Power256(|b|)
    ensures LittleEndian(FromLittleEndian(b), |b|) == b
  {
    if |b| > 0 {
      LittleEndianWrites(b[1..]);
      LowDigit(b[0], FromLittleEndian(b[1..]));
      assert b == [b[0]] + b[1..];
    }
  }

  function Reverse<T>(b: seq<T>): (r: seq<T>)
    ensures |r| == |b|
    ensures forall i :: 0 <= i < |b| ==> r[i] == b[|b| - 1 - i]
  {
    if |b| == 0 then [] else Reverse(b[1..]) + [b[0]]
  }

  lemma ReverseInjective<T>(a: seq<T>, b: seq<T>)
    requires Reverse(a) == Reverse(b)
    ensures a == b
  {
    assert |a| == |b| by { assert |Reverse(a)| == |Reverse(b)|; }
    forall i | 0 <= i < |a| ensures a[i] == b[i] {
      assert Reverse(a)[|a| - 1 - i] == a[i] && Reverse(b)[|b| - 1 - i] == b[i];
    }
  }

  /** Equal concatenations whose first parts have one length agree part by part. */
  lemma SplitEqual<T>(a: seq<T>, a': seq<T>, b: seq<T>, b': seq<T>)
    requires a + a' == b + b' && |a| == |b|
    ensures a == b && a' == b'
  {
    assert a == (a + a')[..|a|] && b == (b + b')[..|b|];
    assert a' == (a + a')[|a|..] && b' == (b + b')[|b|..];
  }

  // ---- digests -----------------------------------------------------------------------------------

  type Digest = d: seq<byte> | |d| == 32 witness seq(32, _ => 0)

  const ZERO_DIGEST: Digest := seq(32, _ => 0)

  function Joined(l: seq<byte>, r: seq<byte>): seq<byte> {
    l + r
  }

  /** The hash of an inner node: both children, concatenated. */
  function NodeHash(sha: seq<byte> -> Digest): (Digest, Digest) -> Digest {
    (l: Digest, r: Digest) => sha(Joined(l, r))
  }

  // ---- hex ---------------------------------------------------------------------------------------

  function HexDigit(c: char): Option<nat> {
    if '0' <= c <= '9' then Some(c as int - '0' as int)
    else if 'a' <= c <= 'f' then Some(c as int - 'a' as int + 10)
    else if 'A' <= c <= 'F' then Some(c as int - 'A' as int + 10)
    else None
  }

  lemma HexDigitRange(c: char)
    ensures HexDigit(c).Some? ==> HexDigit(c).value < 16
  {
  }

  /** Node's lenient decoder: it stops at the first pair it cannot read. */
  function LenientHex(s: string): seq<byte> {
    if |s| < 2 || HexDigit(s[0]) == None || HexDigit(s[1]) == None then []
    else
      HexDigitRange(s[0]);
      HexDigitRange(s[1]);
      [16 * HexDigit(s[0]).value + HexDigit(s[1]).value] + LenientHex(s[2..])
  }

  predicate AllHex(s: string) {
    forall i :: 0 <= i < |s| ==> HexDigit(s[i]).Some?
  }

  lemma {:induction false} StrictHexLength(s: string)
    requires AllHex(s) && |s| % 2 == 0
    ensures 2 * |LenientHex(s)| == |s|
    decreases |s|
  {
    if |s| > 0 {
      StrictHexLength(s[2..]);
    }
  }

  /** Exactly n bytes of hex or a refusal, the check both commitment modules make before decoding. */
  function FixedHex(s: string, n: nat): (r: Option<seq<byte>>)
    ensures r.Some? <==> |s| == 2 * n && AllHex(s)
    ensures r.Some? ==> |r.value| == n && r.value == LenientHex(s)
  {
    if |s| == 2 * n && AllHex(s) then
      StrictHexLength(s);
      Some(LenientHex(s))
    else None
  }
}

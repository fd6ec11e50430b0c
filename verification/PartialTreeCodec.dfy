/**
  The bytes of a partial Merkle tree (oracle/dml_commitment.js, Reader and partialMerkleTree): count,
  hashes, packed flags. What is proved is canonicity: the accepted byte strings are exactly the
  encodings of the trees that fit, one each.
 */
module PartialTreeCodec {
  import opened Wrappers
  import opened Bytes
  import opened PaddedTree
  import opened OddMerkle
  import opened PartialTree
  import opened Lists
  import L = ListCommitments

  const MAX_SAFE_INTEGER: nat := 0x1f_ffff_ffff_ffff
  const MAX_TREE_TRANSACTIONS: nat := 0x100_0000

  datatype ParseError =
    Truncated | WideVarint | HugeVarint | NoTransactions | TooManyTransactions | TooManyFlags
    | Walk(error: WalkError) | HashesUnused | FlagsUnused | DirtyPadding | TrailingBytes

  // ---- numbers -----------------------------------------------------------------------------------

  function Varint(v: nat): (r: seq<byte>)
    ensures |r| >= 1
  {
    if v < 0xfd then [v]
    else if v <= 0xffff then [0xfd] + LittleEndian(v, 2)
    else if v <= 0xffff_ffff then [0xfe] + LittleEndian(v, 4)
    else [0xff] + LittleEndian(v, 8)
  }

  function ReadNumber(s: seq<byte>, k: nat): Result<(nat, seq<byte>), ParseError> {
    if |s| < k then Err(Truncated) else Ok((FromLittleEndian(s[..k]), s[k..]))
  }

  /** A varint in its shortest form, below 2^53. */
  function ReadVarint(s: seq<byte>): Result<(nat, seq<byte>), ParseError> {
    if |s| == 0 then Err(Truncated)
    else if s[0] < 0xfd then Ok((s[0], s[1..]))
    else
      var v := ReadNumber(s[1..], if s[0] == 0xfd then 2 else if s[0] == 0xfe then 4 else 8);
      if v.Err? then v
      else if v.value.0 < (if s[0] == 0xfd then 0xfd else if s[0] == 0xfe then 0x1_0000 else 0x1_0000_0000)
      then Err(WideVarint)
      else if v.value.0 > MAX_SAFE_INTEGER then Err(HugeVarint)
      else v
  }

  lemma Widths()
    ensures Power256(2) == 0x1_0000 && Power256(4) == 0x1_0000_0000 && Power256(8) == 0x1_0000_0000_0000_0000
  {
    assert Power256(1) == 256 * Power256(0);
    assert Power256(2) == 256 * Power256(1);
    assert Power256(3) == 256 * Power256(2);
    assert Power256(4) == 256 * Power256(3);
    assert Power256(5) == 256 * Power256(4);
    assert Power256(6) == 256 * Power256(5);
    assert Power256(7) == 256 * Power256(6);
    assert Power256(8) == 256 * Power256(7);
  }

  lemma NumberReadsBack(v: nat, k: nat, rest: seq<byte>)
    requires v < Power256(k)
    ensures ReadNumber(LittleEndian(v, k) + rest, k) == Ok((v, rest))
  {
    var s := LittleEndian(v, k) + rest;
    assert s[..k] == LittleEndian(v, k) && s[k..] == rest;
    LittleEndianReads(v, k);
  }

  lemma NumberWasWritten(s: seq<byte>, k: nat)
    requires k <= |s|
    ensures var v := FromLittleEndian(s[..k]); v < Power256(k) && s == LittleEndian(v, k) + s[k..]
  {
    LittleEndianWrites(s[..k]);
  }

  /** One form for each number: what is read is the number's own encoding and nothing else. */
  lemma VarintIsCanonical(s: seq<byte>)
    requires ReadVarint(s).Ok?
    ensures var r := ReadVarint(s).value; r.0 <= MAX_SAFE_INTEGER && s == Varint(r.0) + r.1
  {
    Widths();
    if s[0] >= 0xfd {
      var k := if s[0] == 0xfd then 2 else if s[0] == 0xfe then 4 else 8;
      NumberWasWritten(s[1..], k);
      assert s == [s[0]] + s[1..];
      assert s == ([s[0]] + LittleEndian(FromLittleEndian(s[1..][..k]), k)) + s[1..][k..];
    }
  }

  lemma VarintReadsBack(v: nat, rest: seq<byte>)
    requires v <= MAX_SAFE_INTEGER
    ensures ReadVarint(Varint(v) + rest) == Ok((v, rest))
  {
    Widths();
    var s := Varint(v) + rest;
    if v >= 0xfd {
      var k := if v <= 0xffff then 2 else if v <= 0xffff_ffff then 4 else 8;
      assert s[1..] == LittleEndian(v, k) + rest;
      NumberReadsBack(v, k, rest);
    } else {
      assert s[1..] == rest;
    }
  }

  // ---- hashes ------------------------------------------------------------------------------------

  function Concat(hashes: seq<Digest>): (r: seq<byte>)
    ensures |r| == 32 * |hashes|
  {
    if |hashes| == 0 then [] else hashes[0] + Concat(hashes[1..])
  }

  /** k digests, and the rest. */
  function ReadHashes(s: seq<byte>, k: nat): (r: Result<(seq<Digest>, seq<byte>), ParseError>)
    ensures r.Ok? ==> |r.value.0| == k && s == Concat(r.value.0) + r.value.1
    decreases k
  {
    if k == 0 then Ok(([], s))
    else if |s| < 32 then Err(Truncated)
    else
      var more := ReadHashes(s[32..], k - 1);
      if more.Err? then more
      else
        var first: Digest := s[..32];
        var all := [first] + more.value.0;
        assert all[1..] == more.value.0;
        assert s == first + s[32..] == Concat(all) + more.value.1;
        Ok((all, more.value.1))
  }

  lemma {:induction false} HashesReadBack(hashes: seq<Digest>, rest: seq<byte>)
    ensures ReadHashes(Concat(hashes) + rest, |hashes|) == Ok((hashes, rest))
    decreases |hashes|
  {
    var s := Concat(hashes) + rest;
    if |hashes| > 0 {
      assert s[..32] == hashes[0] && s[32..] == Concat(hashes[1..]) + rest;
      HashesReadBack(hashes[1..], rest);
      assert hashes == [hashes[0]] + hashes[1..];
    } else {
      assert s == rest;
    }
  }

  // ---- flags -------------------------------------------------------------------------------------

  /** The number whose bits, least significant first, these are. */
  function BitsValue(bits: seq<bool>): nat {
    if |bits| == 0 then 0 else (if bits[0] then 1 else 0) + 2 * BitsValue(bits[1..])
  }

  /** The k least significant bits of v. */
  function BitsOf(v: nat, k: nat): (r: seq<bool>)
    ensures |r| == k
  {
    if k == 0 then [] else [v % 2 == 1] + BitsOf(v / 2, k - 1)
  }

  predicate AllClear(bits: seq<bool>) {
    forall i :: 0 <= i < |bits| ==> !bits[i]
  }

  lemma {:induction false} BitsRoundTrip(bits: seq<bool>, k: nat)
    requires |bits| <= k
    ensures BitsValue(bits) < Pow2(k)
    ensures BitsOf(BitsValue(bits), k)[..|bits|] == bits && AllClear(BitsOf(BitsValue(bits), k)[|bits|..])
  {
    if |bits| > 0 {
      BitsRoundTrip(bits[1..], k - 1);
      var v := BitsValue(bits);
      assert v / 2 == BitsValue(bits[1..]) && (v % 2 == 1) == bits[0];
      assert bits == [bits[0]] + bits[1..];
      assert BitsOf(v, k)[|bits|..] == BitsOf(v / 2, k - 1)[|bits| - 1..];
    } else if k > 0 {
      BitsRoundTrip(bits, k - 1);
    }
  }

  lemma CutPastFirst(bit: bool, rest: seq<bool>, at: nat)
    requires 0 < at <= |rest| + 1
    ensures ([bit] + rest)[at..] == rest[at - 1..]
    ensures ([bit] + rest)[..at][0] == bit && ([bit] + rest)[..at][1..] == rest[..at - 1]
  {
  }

  lemma {:induction false} ValueRoundTrip(v: nat, k: nat, used: nat)
    requires v < Pow2(k) && used <= k && AllClear(BitsOf(v, k)[used..])
    ensures BitsValue(BitsOf(v, k)[..used]) == v
  {
    if k > 0 {
      var b, rest := BitsOf(v, k), BitsOf(v / 2, k - 1);
      if used > 0 {
        CutPastFirst(v % 2 == 1, rest, used);
        ValueRoundTrip(v / 2, k - 1, used - 1);
      } else {
        assert b[0..] == b && rest[0..] == rest;
        assert !b[0] && forall i :: 0 <= i < |rest| ==> rest[i] == b[i + 1];
        ValueRoundTrip(v / 2, k - 1, 0);
      }
    }
  }

  /** Eight flags to a byte, the last byte padded with zeros. */
  function Pack(bits: seq<bool>): (r: seq<byte>)
    ensures |r| == (|bits| + 7) / 8
  {
    if |bits| == 0 then []
    else
      var k := if |bits| < 8 then |bits| else 8;
      assert Pow2(8) == 256 by { assert Pow2(4) == 16 && Pow2(8) == 16 * Pow2(4); }
      BitsRoundTrip(bits[..k], 8);
      [BitsValue(bits[..k])] + Pack(bits[k..])
  }

  function Unpack(flags: seq<byte>): (r: seq<bool>)
    ensures |r| == 8 * |flags|
  {
    if |flags| == 0 then [] else BitsOf(flags[0], 8) + Unpack(flags[1..])
  }

  lemma {:induction false} BitOf(v: nat, k: nat, j: nat)
    requires j < k
    ensures BitsOf(v, k)[j] == (Shift(v, j) % 2 == 1)
    decreases k
  {
    if j > 0 {
      BitOf(v / 2, k - 1, j - 1);
      ShiftAdd(v, 1, j - 1);
      assert Shift(v, 1) == Shift(v, 0) / 2;
    }
  }

  /** The source reads flag i as (flags[i >> 3] >> (i & 7)) & 1. */
  lemma {:induction false} FlagAt(flags: seq<byte>, i: nat)
    requires i < 8 * |flags|
    ensures Unpack(flags)[i] == (Shift(flags[i / 8], i % 8) % 2 == 1)
  {
    if i < 8 {
      BitOf(flags[0], 8, i);
    } else {
      FlagAt(flags[1..], i - 8);
      assert (i - 8) / 8 == i / 8 - 1 && (i - 8) % 8 == i % 8;
    }
  }

  lemma {:induction false} PackReadsBack(bits: seq<bool>)
    ensures Unpack(Pack(bits))[..|bits|] == bits && AllClear(Unpack(Pack(bits))[|bits|..])
    decreases |bits|
  {
    if |bits| > 0 {
      var k := if |bits| < 8 then |bits| else 8;
      assert Pow2(8) == 256 by { assert Pow2(4) == 16 && Pow2(8) == 16 * Pow2(4); }
      BitsRoundTrip(bits[..k], 8);
      PackReadsBack(bits[k..]);
      var first, more := BitsOf(BitsValue(bits[..k]), 8), Unpack(Pack(bits[k..]));
      assert Pack(bits)[1..] == Pack(bits[k..]);
      assert Unpack(Pack(bits)) == first + more;
      assert bits == bits[..k] + bits[k..];
      if k < 8 {
        assert bits[k..] == [] && more == [];
        assert (first + more)[|bits|..] == first[k..];
      } else {
        assert first[..8] == first;
        assert (first + more)[|bits|..] == more[|bits| - 8..];
      }
    }
  }

  /** The first byte of flags whose slack is clean, and what is left for the rest. */
  lemma FirstFlags(flags: seq<byte>, used: nat)
    requires |flags| > 0 && (used + 7) / 8 == |flags| && AllClear(Unpack(flags)[used..])
    ensures var k := if used < 8 then used else 8;
      && AllClear(BitsOf(flags[0], 8)[k..]) && AllClear(Unpack(flags[1..])[used - k..])
      && Unpack(flags)[..used] == BitsOf(flags[0], 8)[..k] + Unpack(flags[1..])[..used - k]
  {
    var k := if used < 8 then used else 8;
    var first, more := BitsOf(flags[0], 8), Unpack(flags[1..]);
    assert Unpack(flags) == first + more;
    hide BitsOf, Unpack;
    CutJoined(first, more, used, k);
  }

  lemma CutJoined(a: seq<bool>, b: seq<bool>, at: nat, k: nat)
    requires at <= |a| + |b| && k == (if at < |a| then at else |a|) && (at < |a| ==> b == []) && AllClear((a + b)[at..])
    ensures AllClear(a[k..]) && AllClear(b[at - k..]) && (a + b)[..at] == a[..k] + b[..at - k]
  {
    if at < |a| {
      assert a + b == a && b[at - k..] == [] && b[..at - k] == [];
    } else {
      assert (a + b)[at..] == b[at - k..] && a[k..] == [];
    }
  }

  lemma Byte256()
    ensures Pow2(8) == 256
  {
    assert Pow2(4) == 16 && Pow2(8) == 16 * Pow2(4);
  }

  /** Flags that fill their last byte and leave it clean past the bits used pack back to themselves. */
  lemma {:induction false} FlagsWerePacked(flags: seq<byte>, used: nat)
    requires (used + 7) / 8 == |flags| && AllClear(Unpack(flags)[used..])
    ensures Pack(Unpack(flags)[..used]) == flags
    decreases |flags|
  {
    if |flags| > 0 {
      var k := if used < 8 then used else 8;
      var first, rest := BitsOf(flags[0], 8)[..k], Unpack(flags[1..])[..used - k];
      FirstFlags(flags, used);
      Byte256();
      ValueRoundTrip(flags[0], 8, k);
      FlagsWerePacked(flags[1..], used - k);
      hide Unpack, BitsOf, BitsValue;
      assert (first + rest)[..k] == first && (first + rest)[k..] == rest;
      assert flags == [flags[0]] + flags[1..];
    }
  }

  // ---- the frame ---------------------------------------------------------------------------------

  datatype Frame = Frame(n: nat, hashes: seq<Digest>, flags: seq<byte>)

  function FrameBytes(f: Frame): seq<byte> {
    LittleEndian(f.n, 4) + (Varint(|f.hashes|) + (Concat(f.hashes) + (Varint(|f.flags|) + f.flags)))
  }

  /** ceil((2n + 64) / 8). */
  function MaxFlagBytes(n: nat): nat {
    (2 * n + 64 + 7) / 8
  }

  predicate FrameFits(f: Frame) {
    0 < f.n <= MAX_TREE_TRANSACTIONS && |f.hashes| <= MAX_SAFE_INTEGER && |f.flags| <= MaxFlagBytes(f.n)
  }

  function ReadFlags(n: nat, s: seq<byte>): Result<(seq<byte>, seq<byte>), ParseError> {
    var declared := ReadVarint(s);
    if declared.Err? then Err(declared.error)
    else if declared.value.0 > MaxFlagBytes(n) then Err(TooManyFlags)
    else if |declared.value.1| < declared.value.0 then Err(Truncated)
    else Ok((declared.value.1[..declared.value.0], declared.value.1[declared.value.0..]))
  }

  function ReadFrame(s: seq<byte>): Result<(Frame, seq<byte>), ParseError> {
    var n := ReadNumber(s, 4);
    if n.Err? then Err(n.error)
    else if n.value.0 == 0 then Err(NoTransactions)
    else if n.value.0 > MAX_TREE_TRANSACTIONS then Err(TooManyTransactions)
    else
      var count := ReadVarint(n.value.1);
      if count.Err? then Err(count.error)
      else
        var hashes := ReadHashes(count.value.1, count.value.0);
        if hashes.Err? then Err(hashes.error)
        else
          var flags := ReadFlags(n.value.0, hashes.value.1);
          if flags.Err? then Err(flags.error)
          else Ok((Frame(n.value.0, hashes.value.0, flags.value.0), flags.value.1))
  }

  lemma FlagsReadBack(n: nat, flags: seq<byte>, rest: seq<byte>)
    requires n <= MAX_TREE_TRANSACTIONS && |flags| <= MaxFlagBytes(n)
    ensures ReadFlags(n, Varint(|flags|) + flags + rest) == Ok((flags, rest))
  {
    assert Varint(|flags|) + flags + rest == Varint(|flags|) + (flags + rest);
    VarintReadsBack(|flags|, flags + rest);
  }

  lemma FrameReadsBack(f: Frame, rest: seq<byte>)
    requires FrameFits(f)
    ensures ReadFrame(FrameBytes(f) + rest) == Ok((f, rest))
  {
    Widths();
    var tail3 := Varint(|f.flags|) + f.flags + rest;
    var tail2 := Concat(f.hashes) + tail3;
    var tail1 := Varint(|f.hashes|) + tail2;
    assert FrameBytes(f) + rest == LittleEndian(f.n, 4) + tail1;
    NumberReadsBack(f.n, 4, tail1);
    VarintReadsBack(|f.hashes|, tail2);
    HashesReadBack(f.hashes, tail3);
    FlagsReadBack(f.n, f.flags, rest);
  }

  lemma FlagsWereWritten(n: nat, s: seq<byte>)
    requires ReadFlags(n, s).Ok?
    ensures var r := ReadFlags(n, s).value; |r.0| <= MaxFlagBytes(n) && s == Varint(|r.0|) + r.0 + r.1
  {
    VarintIsCanonical(s);
    var declared := ReadVarint(s).value;
    assert declared.1 == declared.1[..declared.0] + declared.1[declared.0..];
  }

  lemma FrameWasWritten(s: seq<byte>)
    requires ReadFrame(s).Ok?
    ensures var r := ReadFrame(s).value; FrameFits(r.0) && s == FrameBytes(r.0) + r.1
  {
    NumberWasWritten(s, 4);
    var n := ReadNumber(s, 4).value;
    var count := ReadVarint(n.1).value;
    var hashes := ReadHashes(count.1, count.0).value;
    var flags := ReadFlags(n.0, hashes.1).value;
    VarintIsCanonical(n.1);
    FlagsWereWritten(n.0, hashes.1);
    Reassociate(LittleEndian(n.0, 4), Varint(count.0), Concat(hashes.0), Varint(|flags.0|), flags.0, flags.1);
  }

  lemma Reassociate(a: seq<byte>, b: seq<byte>, c: seq<byte>, d: seq<byte>, e: seq<byte>, f: seq<byte>)
    ensures a + (b + (c + (d + e + f))) == (a + (b + (c + (d + e)))) + f
  {
  }

  // ---- the whole proof ---------------------------------------------------------------------------

  datatype Proof = Proof(root: Digest, matched: seq<(Digest, nat)>, nTransactions: nat)

  function Conclude(sha: seq<byte> -> Digest, f: Frame, p: Parsed<Digest>, rest: seq<byte>): Result<Proof, ParseError> {
    var total := 8 * |f.flags|;
    if p.hashes != [] then Err(HashesUnused)
    else if |p.bits| > total || (total - |p.bits| + 7) / 8 != |f.flags| then Err(FlagsUnused)
    else if !AllClear(p.bits) then Err(DirtyPadding)
    else if rest != [] then Err(TrailingBytes)
    else Ok(Proof(BranchRoot(NodeHash(sha), p.tree), Matches(p.tree, 0), f.n))
  }

  /** The walk over a frame, and the four checks that everything was used. */
  function ParseFrame(sha: seq<byte> -> Digest, f: Frame, rest: seq<byte>): Result<Proof, ParseError> {
    var d := Decode(f.n, Height(f.n), 0, Unpack(f.flags), f.hashes);
    if d.Err? then Err(Walk(d.error)) else Conclude(sha, f, d.value, rest)
  }

  /** The parser as a function of the bytes. */
  function Parse(sha: seq<byte> -> Digest, s: seq<byte>): Result<Proof, ParseError> {
    var frame := ReadFrame(s);
    if frame.Err? then Err(frame.error) else ParseFrame(sha, frame.value.0, frame.value.1)
  }

  /** The one encoding of a tree over n transactions. */
  function Encoding(n: nat, t: Branch<Digest>): seq<byte> {
    FrameBytes(Frame(n, Hashes(t), Pack(Bits(t))))
  }

  /** t is a tree over n transactions the parser is willing to read. */
  predicate Readable(n: nat, t: Branch<Digest>) {
    0 < n <= MAX_TREE_TRANSACTIONS && Fits(n, Height(n), 0, t)
  }

  function ProofOf(sha: seq<byte> -> Digest, n: nat, t: Branch<Digest>): Proof {
    Proof(BranchRoot(NodeHash(sha), t), Matches(t, 0), n)
  }

  lemma HeightBound(n: nat)
    requires 0 < n <= MAX_TREE_TRANSACTIONS
    ensures Height(n) <= 24
  {
    assert Pow2(24) == 0x100_0000 by {
      assert Pow2(6) == 64 && Pow2(12) == 64 * Pow2(6) && Pow2(18) == 64 * Pow2(12) && Pow2(24) == 64 * Pow2(18);
    }
    WidthOne(n, 24);
    HeightIsLeast(n);
  }

  /** Every tree that fits is read back from its encoding: the bounds the parser sets on counts and
      flags never refuse one. */
  lemma EncodingIsAccepted(sha: seq<byte> -> Digest, n: nat, t: Branch<Digest>)
    requires Readable(n, t)
    ensures Parse(sha, Encoding(n, t)) == Ok(ProofOf(sha, n, t))
  {
    EncodedFrame(n, t);
    EncodedTree(n, t);
  }

  lemma EncodedFrame(n: nat, t: Branch<Digest>)
    requires Readable(n, t)
    ensures ReadFrame(Encoding(n, t)) == Ok((Frame(n, Hashes(t), Pack(Bits(t))), []))
  {
    var f := Frame(n, Hashes(t), Pack(Bits(t)));
    VisitBound(n, t);
    HeightBound(n);
    FrameReadsBack(f, []);
    assert FrameBytes(f) + [] == FrameBytes(f);
  }

  lemma EncodedTree(n: nat, t: Branch<Digest>)
    requires Readable(n, t)
    ensures var flags := Unpack(Pack(Bits(t)));
      && AllClear(flags[|Bits(t)|..])
      && Decode(n, Height(n), 0, flags, Hashes(t)) == Ok(Parsed(t, flags[|Bits(t)|..], []))
  {
    PackReadsBack(Bits(t));
    var flags := Unpack(Pack(Bits(t)));
    var padding := flags[|Bits(t)|..];
    assert flags == Bits(t) + padding && Hashes(t) == Hashes(t) + [];
    DecodeReadsBack(n, Height(n), 0, t, padding, []);
  }

  /** And nothing else is accepted: whatever parses is, byte for byte, the encoding of the tree it was
      parsed as. */
  lemma AcceptedBytesAreCanonical(sha: seq<byte> -> Digest, s: seq<byte>) returns (n: nat, t: Branch<Digest>)
    requires Parse(sha, s).Ok?
    ensures Readable(n, t) && s == Encoding(n, t) && Parse(sha, s) == Ok(ProofOf(sha, n, t))
  {
    FrameWasWritten(s);
    var f, rest := ReadFrame(s).value.0, ReadFrame(s).value.1;
    var p := Decode(f.n, Height(f.n), 0, Unpack(f.flags), f.hashes).value;
    n, t := f.n, p.tree;
    var used := |Bits(t)|;
    assert Unpack(f.flags)[..used] == Bits(t) && Unpack(f.flags)[used..] == p.bits;
    FlagsWerePacked(f.flags, used);
    assert f == Frame(n, Hashes(t), Pack(Bits(t)));
    assert FrameBytes(f) + [] == FrameBytes(f);
  }

  /** No two accepted byte strings carry one tree, and no byte string carries two. */
  lemma EncodingIsInjective(n: nat, t: Branch<Digest>, m: nat, u: Branch<Digest>)
    requires Readable(n, t) && Readable(m, u) && Encoding(n, t) == Encoding(m, u)
    ensures n == m && t == u
  {
    EncodedFrame(n, t);
    EncodedFrame(m, u);
    EncodedTree(n, t);
    EncodedTree(m, u);
  }

  /** End to end: the honest bytes for any list of up to 2^24 transactions and any match set parse to
      the block's root and exactly the marked transactions with their positions. */
  lemma HonestBytesParse(sha: seq<byte> -> Digest, s: seq<Digest>, marks: set<nat>)
    requires 0 < |s| <= MAX_TREE_TRANSACTIONS
    ensures Parse(sha, Encoding(|s|, HonestTree(NodeHash(sha), s, marks)))
         == Ok(Proof(TxRoot(NodeHash(sha), s), Keep(marks, Indexed(s)), |s|))
  {
    HonestEncodingRoundTrips(NodeHash(sha), s, marks);
    HeightIsLeast(|s|);
    EncodingIsAccepted(sha, |s|, HonestTree(NodeHash(sha), s, marks));
  }

  /** The tree an accepted byte string is the encoding of. */
  ghost function ParsedTree(s: seq<byte>): Branch<Digest>
    requires ReadFrame(s).Ok?
    requires var f := ReadFrame(s).value.0; Decode(f.n, Height(f.n), 0, Unpack(f.flags), f.hashes).Ok?
  {
    var f := ReadFrame(s).value.0;
    Decode(f.n, Height(f.n), 0, Unpack(f.flags), f.hashes).value.tree
  }

  /** Conversely, bytes from anyone: if they parse to the root of a block with the claimed number of
      transactions, every marked pair is that block's, unless two of the pairs hashed on either side
      collide. */
  lemma AcceptedBytesMarkTrueTransactions(sha: seq<byte> -> Digest, s: seq<byte>, block: seq<Digest>)
    requires |block| > 0 && Parse(sha, s).Ok?
    requires Parse(sha, s).value.nTransactions == |block|
    requires Parse(sha, s).value.root == TxRoot(NodeHash(sha), block)
    requires CollisionFree(NodeHash(sha), RootHashed(NodeHash(sha), block) + BranchHashed(NodeHash(sha), ParsedTree(s)))
    ensures AllTrue(block, Parse(sha, s).value.matched)
  {
    var f := ReadFrame(s).value.0;
    AcceptedTreeMarksTrueLeaves(NodeHash(sha), block, Unpack(f.flags), f.hashes);
  }

  /** Every byte string hashed to compare a block's transactions, one more, and the tree these bytes are. */
  ghost function Compared(sha: seq<byte> -> Digest, s: seq<byte>, txs: seq<seq<byte>>,
                          coinbase: seq<byte>): set<seq<byte>>
    requires |txs| > 0 && Parse(sha, s).Ok?
  {
    var pairs := RootHashed(NodeHash(sha), Map(sha, txs)) + BranchHashed(NodeHash(sha), ParsedTree(s));
    (set t | t in txs) + {coinbase} + (set p | p in pairs :: Joined(p.0, p.1))
  }

  lemma ComparedPairs(sha: seq<byte> -> Digest, s: seq<byte>, txs: seq<seq<byte>>, coinbase: seq<byte>)
    returns (pairs: set<(Digest, Digest)>)
    requires |txs| > 0 && Parse(sha, s).Ok?
    ensures pairs == RootHashed(NodeHash(sha), Map(sha, txs)) + BranchHashed(NodeHash(sha), ParsedTree(s))
    ensures forall p :: p in pairs ==> Joined(p.0, p.1) in Compared(sha, s, txs, coinbase)
    ensures forall m :: m in txs ==> m in Compared(sha, s, txs, coinbase)
    ensures txs[0] in Compared(sha, s, txs, coinbase) && coinbase in Compared(sha, s, txs, coinbase)
    ensures |Map(sha, txs)| == |txs| && Map(sha, txs)[0] == sha(txs[0])
  {
    hide RootHashed, BranchHashed, Decode, ReadFrame, Map;
    pairs := RootHashed(NodeHash(sha), Map(sha, txs)) + BranchHashed(NodeHash(sha), ParsedTree(s));
  }

  /** The check that makes a transaction the coinbase. Bytes from anyone that parse to a block's root, whatever
      number of transactions they claim: if they mark a transaction at position 0, it is the block's first,
      unless two of the strings hashed collide or a transaction has the length of two digests. */
  lemma CoinbaseIsFirst(sha: seq<byte> -> Digest, s: seq<byte>, txs: seq<seq<byte>>, coinbase: seq<byte>)
    requires |txs| > 0 && Parse(sha, s).Ok? && Parse(sha, s).value.root == TxRoot(NodeHash(sha), Map(sha, txs))
    requires (sha(coinbase), 0) in Parse(sha, s).value.matched
    requires L.NotNodeSized(txs) && |coinbase| != 64 && L.NoCollision(sha, Compared(sha, s, txs, coinbase))
    ensures coinbase == txs[0]
  {
    hide *;
    var hashed, block := Compared(sha, s, txs, coinbase), Map(sha, txs);
    var pairs := ComparedPairs(sha, s, txs, coinbase);
    L.PairsDoNotCollide(sha, pairs, hashed);
    L.LeavesAreNotNodes(sha, txs, pairs, hashed);
    OneIsNoNode(sha, coinbase, pairs, hashed);
    AcceptedBytesAreTrueWithin(sha, s, block);
    FirstOf(sha, block, Parse(sha, s).value.matched, pairs, sha(coinbase));
    SameMessage(sha, coinbase, txs[0], hashed);
  }

  lemma OneIsNoNode(sha: seq<byte> -> Digest, m: seq<byte>, pairs: set<(Digest, Digest)>, hashed: set<seq<byte>>)
    requires L.NoCollision(sha, hashed) && |m| != 64 && m in hashed && forall p :: p in pairs ==>
      Joined(p.0, p.1) in hashed
    ensures NoDigest(NodeHash(sha), sha(m), pairs)
  {
    forall p | p in pairs ensures sha(m) != NodeHash(sha)(p.0, p.1) {
      assert |Joined(p.0, p.1)| == 64;
    }
  }

  lemma FirstOf(sha: seq<byte> -> Digest, block: seq<Digest>, marked: seq<(Digest, nat)>, pairs: set<(Digest, Digest)>,
                x: Digest)
    requires |block| > 0 && TrueWithin(NodeHash(sha), block, marked, pairs) && NoDigest(NodeHash(sha), x, pairs)
      && (x, 0) in marked
    ensures x == block[0]
  {
    hide NoDigest;
    var k :| 0 <= k < |marked| && marked[k] == (x, 0);
    assert marked[k].0 == x;
  }

  lemma SameMessage(sha: seq<byte> -> Digest, a: seq<byte>, b: seq<byte>, hashed: set<seq<byte>>)
    requires L.NoCollision(sha, hashed) && a in hashed && b in hashed && sha(a) == sha(b)
    ensures a == b
  {
  }

  lemma AcceptedBytesAreTrueWithin(sha: seq<byte> -> Digest, s: seq<byte>, block: seq<Digest>)
    requires |block| > 0 && Parse(sha, s).Ok? && Parse(sha, s).value.root == TxRoot(NodeHash(sha), block)
    requires var pairs := RootHashed(NodeHash(sha), block) + BranchHashed(NodeHash(sha), ParsedTree(s));
      CollisionFree(NodeHash(sha), pairs) && Separated(NodeHash(sha), block, pairs)
    ensures TrueWithin(NodeHash(sha), block, Parse(sha, s).value.matched,
                       RootHashed(NodeHash(sha), block) + BranchHashed(NodeHash(sha), ParsedTree(s)))
  {
    hide TrueWithin, CollisionFree, Separated, RootHashed, BranchHashed, TxRoot;
    var f := ReadFrame(s).value.0;
    AcceptedTreeIsTrueWithin(NodeHash(sha), block, f.n, Unpack(f.flags), f.hashes);
  }

  // ---- the source's cursor and loops --------------------------------------------------------------

  class Reader {
    const buf: seq<byte>
    var at: nat

    ghost predicate Valid()
      reads this
    {
      at <= |buf|
    }

    ghost function Rest(): seq<byte>
      reads this
      requires Valid()
    {
      buf[at..]
    }

    constructor (buf: seq<byte>)
      ensures Valid() && this.buf == buf && Rest() == buf
    {
      this.buf, at := buf, 0;
    }

    method Number(k: nat) returns (r: Result<nat, ParseError>)
      requires Valid()
      modifies this
      ensures Valid()
      ensures var spec := ReadNumber(old(Rest()), k);
        if spec.Err? then r == Err(spec.error) else r == Ok(spec.value.0) && Rest() == spec.value.1
    {
      if at + k > |buf| { return Err(Truncated); }
      assert buf[at..][..k] == buf[at..at + k];
      r := Ok(FromLittleEndian(buf[at..at + k]));
      at := at + k;
    }

    method Take(k: nat) returns (r: Result<seq<byte>, ParseError>)
      requires Valid()
      modifies this
      ensures Valid()
      ensures r == if |old(Rest())| < k then Err(Truncated) else Ok(old(Rest())[..k])
      ensures r.Ok? ==> Rest() == old(Rest())[k..]
    {
      if at + k > |buf| { return Err(Truncated); }
      assert buf[at..][..k] == buf[at..at + k];
      r := Ok(buf[at..at + k]);
      at := at + k;
    }

    method ReadVarintNext() returns (r: Result<nat, ParseError>)
      requires Valid()
      modifies this
      ensures Valid()
      ensures var spec := ReadVarint(old(Rest()));
        if spec.Err? then r == Err(spec.error) else r == Ok(spec.value.0) && Rest() == spec.value.1
    {
      if at >= |buf| { return Err(Truncated); }
      var first := buf[at];
      at := at + 1;
      assert old(Rest())[1..] == Rest();
      if first < 0xfd { return Ok(first); }
      if first == 0xfd {
        r := Number(2);
        if r.Ok? && r.value < 0xfd { return Err(WideVarint); }
      } else if first == 0xfe {
        r := Number(4);
        if r.Ok? && r.value <= 0xffff { return Err(WideVarint); }
      } else {
        r := Number(8);
        if r.Ok? && r.value <= 0xffff_ffff { return Err(WideVarint); }
        if r.Ok? && r.value > MAX_SAFE_INTEGER { return Err(HugeVarint); }
      }
      Widths();
      if old(Rest())[0] == 0xfd && |old(Rest())[1..]| >= 2 { NumberWasWritten(old(Rest())[1..], 2); }
      if old(Rest())[0] == 0xfe && |old(Rest())[1..]| >= 4 { NumberWasWritten(old(Rest())[1..], 4); }
    }

    method TakeHashes(k: nat) returns (r: Result<seq<Digest>, ParseError>)
      requires Valid()
      modifies this
      ensures Valid()
      ensures var spec := ReadHashes(old(Rest()), k);
        if spec.Err? then r == Err(spec.error) else r == Ok(spec.value.0) && Rest() == spec.value.1
    {
      hide ReadHashes;
      var hashes: seq<Digest> := [];
      ghost var whole := ReadHashes(Rest(), k);
      HashesDone(whole, Rest());
      for i := 0 to k
        invariant Valid() && whole == Prepend(hashes, ReadHashes(Rest(), k - i))
      {
        NextHash(hashes, Rest(), k - i);
        var next := Take(32);
        if next.Err? { return Err(next.error); }
        hashes := hashes + [next.value];
      }
      HashesDone(whole, Rest());
      assert hashes + [] == hashes;
      r := Ok(hashes);
    }
  }

  ghost function Prepend(hashes: seq<Digest>, r: Result<(seq<Digest>, seq<byte>), ParseError>)
    : Result<(seq<Digest>, seq<byte>), ParseError>
  {
    if r.Err? then r else Ok((hashes + r.value.0, r.value.1))
  }

  lemma HashesDone(r: Result<(seq<Digest>, seq<byte>), ParseError>, rest: seq<byte>)
    ensures Prepend([], r) == r && ReadHashes(rest, 0) == Ok(([], rest))
  {
    assert r.Ok? ==> [] + r.value.0 == r.value.0;
  }

  lemma NextHash(hashes: seq<Digest>, s: seq<byte>, k: nat)
    requires k > 0
    ensures Prepend(hashes, ReadHashes(s, k))
         == if |s| < 32 then Err(Truncated) else Prepend(hashes + [s[..32]], ReadHashes(s[32..], k - 1))
  {
    if |s| >= 32 && ReadHashes(s[32..], k - 1).Ok? {
      var more := ReadHashes(s[32..], k - 1).value.0;
      assert hashes + ([s[..32]] + more) == hashes + [s[..32]] + more;
    }
  }

  method PartialMerkleTree(sha: seq<byte> -> Digest, hex: string) returns (r: Result<Proof, ParseError>)
    ensures r == Parse(sha, LenientHex(hex))
  {
    hide ReadNumber, ReadVarint, ReadHashes, ParseFrame, LenientHex;
    var reader := new Reader(LenientHex(hex));
    var n := reader.Number(4);
    if n.Err? { return Err(n.error); }
    if n.value == 0 { return Err(NoTransactions); }
    if n.value > MAX_TREE_TRANSACTIONS { return Err(TooManyTransactions); }
    var count := reader.ReadVarintNext();
    if count.Err? { return Err(count.error); }
    var hashes := reader.TakeHashes(count.value);
    if hashes.Err? { return Err(hashes.error); }
    var declared := reader.ReadVarintNext();
    if declared.Err? { return Err(declared.error); }
    if declared.value > MaxFlagBytes(n.value) { return Err(TooManyFlags); }
    var flags := reader.Take(declared.value);
    if flags.Err? { return Err(flags.error); }
    r := WalkAndConclude(sha, Frame(n.value, hashes.value, flags.value), reader.buf[reader.at..]);
  }

  method WalkAndConclude(sha: seq<byte> -> Digest, f: Frame, rest: seq<byte>) returns (r: Result<Proof, ParseError>)
    requires f.n > 0
    ensures r == ParseFrame(sha, f, rest)
  {
    var height := TreeHeight(f.n);
    var walker := new Walker(NodeHash(sha), f.n, Unpack(f.flags), f.hashes);
    var root := walker.Walk(height, 0);
    if root.Err? { return Err(Walk(root.error)); }
    if walker.hashesUsed != |f.hashes| { return Err(HashesUnused); }
    if (walker.bitsUsed + 7) / 8 != |f.flags| { return Err(FlagsUnused); }
    if !AllClear(walker.bits[walker.bitsUsed..]) { return Err(DirtyPadding); }
    if rest != [] { return Err(TrailingBytes); }
    r := Ok(Proof(root.value, walker.matched, f.n));
  }
}

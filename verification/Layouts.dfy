/**
  What the hashed, signed and parsed bytes are, place by place (oracle/dml_commitment.js,
  oracle/quorum_commitment.js, common/oracle_sig.js). Elsewhere the serializations are proved to lose nothing;
  here they are pinned: which half of a node's preimage is which child, at which offset an entry keeps which
  field and which way round, what precedes what in a partial tree's bytes and in a signed message.
 */
module Layouts {
  import opened Bytes
  import opened Lists
  import opened ListCommitments
  import opened OddMerkle
  import opened PaddedTree
  import opened PartialTree
  import opened Sorting
  import opened Wrappers
  import PC = PartialTreeCodec

  // ---- bytes -----------------------------------------------------------------------------------------

  /** The number a byte string is, the first byte the least significant. */
  lemma {:induction false} LittleEndianAt(n: nat, k: nat, i: nat)
    requires i < k
    ensures LittleEndian(n, k)[i] == n / Power256(i) % 256
  {
    if i == 0 {
      assert Power256(0) == 1;
    } else {
      LittleEndianAt(n / 256, k - 1, i - 1);
      DivideTwice(n, Power256(i - 1));
    }
  }

  lemma DivideTwice(n: nat, d: nat)
    requires d > 0
    ensures n / 256 / d == n / (256 * d)
  {
    var q, r := n / (256 * d), n % (256 * d);
    assert n == (256 * d) * q + r;
    var a, b := r / 256, r % 256;
    assert r == 256 * a + b && a < d;
    assert n == 256 * (d * q + a) + b;
    assert n / 256 == d * q + a;
    assert (d * q + a) / d == q by { QuotientOf(d * q + a, d, q, a); }
  }

  lemma QuotientOf(n: nat, d: nat, q: nat, r: nat)
    requires d > 0 && n == d * q + r && r < d
    ensures n / d == q
  {
    assert d * (n / d) + n % d == d * q + r;
    TimesAtLeast(d, n / d, q + 1);
    TimesAtLeast(d, q, n / d + 1);
  }

  lemma TimesAtLeast(d: nat, a: nat, b: nat)
    ensures a >= b ==> d * a >= d * b
  {
  }

  lemma U16At(v: int)
    requires 0 <= v <= 0xffff
    ensures LittleEndian(v, 2) == [v % 256, v / 256]
  {
    assert LittleEndian(v / 256, 1) == [v / 256 % 256];
  }

  lemma U32At(v: int)
    requires 0 <= v < 0x1_0000_0000
    ensures LittleEndian(v, 4) == [v % 256, v / 256 % 256, v / 0x1_0000 % 256, v / 0x100_0000]
  {
    assert Power256(1) == 256 * Power256(0) && Power256(2) == 256 * Power256(1) && Power256(3) == 256 * Power256(2);
    var b := LittleEndian(v, 4);
    LittleEndianAt(v, 4, 0);
    LittleEndianAt(v, 4, 1);
    LittleEndianAt(v, 4, 2);
    LittleEndianAt(v, 4, 3);
    assert b == [b[0], b[1], b[2], b[3]];
  }

  /** Byte i of a hex string is its characters 2i and 2i + 1, the first the high half. */
  lemma {:induction false} HexAt(s: string, i: nat)
    requires AllHex(s) && |s| % 2 == 0 && 2 * i + 1 < |s|
    ensures i < |LenientHex(s)|
    ensures LenientHex(s)[i] == 16 * HexDigit(s[2 * i]).value + HexDigit(s[2 * i + 1]).value
  {
    StrictHexLength(s);
    if i > 0 { HexAt(s[2..], i - 1); }
  }

  lemma HexDigits()
    ensures HexDigit('0') == Some(0) && HexDigit('9') == Some(9) && HexDigit('a') == HexDigit('A') == Some(10)
    ensures HexDigit('f') == HexDigit('F') == Some(15)
  {
  }

  // ---- nodes -----------------------------------------------------------------------------------------

  /** The hash of an inner node is the hash of 64 bytes, the left child's digest the first half of them. */
  lemma NodeHashOfHalves(sha: seq<byte> -> Digest, m: seq<byte>)
    requires |m| == 64
    ensures NodeHash(sha)(m[..32], m[32..]) == sha(m)
  {
    var l: Digest, r: Digest := m[..32], m[32..];
    assert Bytes.Joined(l, r) == m;
  }

  /** So two leaves, the first first. */
  lemma RootOfTwo(sha: seq<byte> -> Digest, a: Digest, b: Digest, m: seq<byte>)
    requires |m| == 64 && m[..32] == a && m[32..] == b
    ensures TxRoot(NodeHash(sha), [a, b]) == sha(m)
  {
    NodeHashOfHalves(sha, m);
    assert Height(2) == 1 + Height(1);
    assert TxNode(NodeHash(sha), [a, b], 1, 0) == NodeHash(sha)(a, b);
  }

  /** And every node above: the first 32 bytes hashed are the left node's digest, and the last the right one's,
      or the left one's again where there is none. */
  lemma NodeOfTwo(sha: seq<byte> -> Digest, s: seq<Digest>, l: nat, i: nat, m: seq<byte>)
    requires i < Width(|s|, l + 1) && |m| == 64 && 2 * i < Width(|s|, l)
    requires m[..32] == TxNode(NodeHash(sha), s, l, 2 * i)
    requires m[32..] == if 2 * i + 1 < Width(|s|, l) then TxNode(NodeHash(sha), s, l, 2 * i + 1)
                        else TxNode(NodeHash(sha), s, l, 2 * i)
    ensures TxNode(NodeHash(sha), s, l + 1, i) == sha(m)
  {
    NodeHashOfHalves(sha, m);
  }

  /** What the parser returns for a tree with two children. */
  lemma ParsedRootOfTwo(sha: seq<byte> -> Digest, s: seq<byte>, m: seq<byte>)
    requires PC.Parse(sha, s).Ok? && PC.ParsedTree(s).Fork? && |m| == 64
    requires m[..32] == BranchRoot(NodeHash(sha), PC.ParsedTree(s).left)
    requires m[32..] == BranchRoot(NodeHash(sha), PC.ParsedTree(s).right)
    ensures PC.Parse(sha, s).value.root == sha(m)
  {
    NodeHashOfHalves(sha, m);
  }

  // ---- order -----------------------------------------------------------------------------------------

  /** memcmp: the first byte that differs decides, and a proper prefix comes first. */
  ghost predicate Before(a: seq<byte>, b: seq<byte>) {
    exists k: nat :: k <= |a| && k < |b| && a[..k] == b[..k] && (k == |a| || a[k] < b[k])
  }

  lemma {:induction false} LexIsBefore(a: seq<byte>, b: seq<byte>)
    requires LexLe(a, b) && a != b
    ensures Before(a, b)
  {
    if |a| == 0 {
      assert a[..0] == b[..0];
    } else if a[0] < b[0] {
      assert a[..0] == b[..0];
    } else {
      assert a == [a[0]] + a[1..] && b == [b[0]] + b[1..];
      LexIsBefore(a[1..], b[1..]);
      var k: nat :| k <= |a[1..]| && k < |b[1..]| && a[1..][..k] == b[1..][..k]
                    && (k == |a[1..]| || a[1..][k] < b[1..][k]);
      assert a[..k + 1] == [a[0]] + a[1..][..k] && b[..k + 1] == [b[0]] + b[1..][..k];
      assert k + 1 <= |a| && k + 1 < |b| && (k + 1 == |a| || a[k + 1] < b[k + 1]);
    }
  }

  // ---- a masternode list entry -----------------------------------------------------------------------

  /** The bytes b[at..at + n] are the hex string's, as they are written. */
  ghost predicate HexHere(b: seq<byte>, at: nat, s: string, n: nat) {
    |s| == 2 * n && AllHex(s) && at + n <= |b| && n <= |LenientHex(s)|
    && forall i :: at <= i < at + n ==> b[i] == LenientHex(s)[i - at]
  }

  /** The same, last byte first. */
  ghost predicate HexReversed(b: seq<byte>, at: nat, s: string, n: nat) {
    |s| == 2 * n && AllHex(s) && at + n <= |b| && n <= |LenientHex(s)|
    && forall i :: at <= i < at + n ==> b[i] == LenientHex(s)[at + n - 1 - i]
  }

  /** Where an entry's bytes keep each field. */
  ghost predicate EntryLaidOut(codec: Codec, e: SmlEntry, b: seq<byte>) {
    && |b| >= 151
    && HexReversed(b, 0, e.proRegTxHash, 32) && HexReversed(b, 32, e.confirmedHash, 32)
    && codec.service(e.service) == Some(b[64..82]) && HexHere(b, 82, e.pubKeyOperator, 48)
    && (exists version: byte :: codec.base58(e.votingAddress) == Some([version] + b[130..150]))
    && e.isValid == Some(b[150] == 1) && b[150] in {0, 1}
  }

  /** And, in version 2, after them. */
  ghost predicate SuffixLaidOut(e: SmlEntry, b: seq<byte>) {
    match e.nVersion
    case 1 => |b| == 151
    case 2 =>
      && (e.nType == 0 ==> |b| == 153) && (e.nType == 1 ==> |b| == 175) && e.nType in {0, 1}
      && b[151] == e.nType && b[152] == 0
      && (e.nType == 1 ==>
            && 0 <= e.platformHTTPPort <= 0xffff && e.platformHTTPPort == b[153] + 256 * (b[154] as int)
            && HexReversed(b, 155, e.platformNodeID, 20))
    case _ => false
  }

  lemma BasePlaces(codec: Codec, e: SmlEntry)
    requires SmlBase(codec, e).Some?
    ensures EntryLaidOut(codec, e, SmlBase(codec, e).value)
  {
    var b := SmlBase(codec, e).value;
    var p, c := FixedHex(e.proRegTxHash, 32).value, FixedHex(e.confirmedHash, 32).value;
    var o, v := FixedHex(e.pubKeyOperator, 48).value, codec.base58(e.votingAddress).value;
    assert b[64..82] == codec.service(e.service).value;
    assert v == [v[0]] + b[130..150];
    assert forall i :: 0 <= i < 32 ==> b[i] == Reverse(p)[i];
    assert forall i :: 32 <= i < 64 ==> b[i] == Reverse(c)[i - 32];
    assert forall i :: 82 <= i < 130 ==> b[i] == o[i - 82];
  }

  lemma SuffixPlaces(e: SmlEntry, base: seq<byte>)
    requires |base| == 151 && e.nVersion in {1, 2} && SmlSuffix(e).Some?
    ensures SuffixLaidOut(e, base + SmlSuffix(e).value)
  {
    var b := base + SmlSuffix(e).value;
    if e.nVersion == 2 {
      U16At(e.nType);
      assert b[151] == SmlSuffix(e).value[0] && b[152] == SmlSuffix(e).value[1];
      if e.nType == 1 {
        U16At(e.platformHTTPPort);
        var node := FixedHex(e.platformNodeID, 20).value;
        assert forall i :: 155 <= i < 175 ==> b[i] == Reverse(node)[i - 155];
      }
    }
  }

  lemma LaidOutLonger(codec: Codec, e: SmlEntry, base: seq<byte>, more: seq<byte>)
    requires |base| == 151 && EntryLaidOut(codec, e, base)
    ensures EntryLaidOut(codec, e, base + more)
  {
    var b := base + more;
    assert b[64..82] == base[64..82] && b[130..150] == base[130..150];
  }

  /** Every field of an entry at its own place and the right way round: the hashes and the node id reversed,
      the numbers least significant byte first, the service, the key and the address payload as they are. */
  lemma EntryLayout(codec: Codec, e: SmlEntry)
    requires SmlEntryBytes(codec, e).Some?
    ensures EntryLaidOut(codec, e, SmlEntryBytes(codec, e).value) && SuffixLaidOut(e, SmlEntryBytes(codec, e).value)
  {
    hide EntryLaidOut, SuffixLaidOut, SmlBase, SmlSuffix;
    BasePlaces(codec, e);
    SuffixPlaces(e, SmlBase(codec, e).value);
    LaidOutLonger(codec, e, SmlBase(codec, e).value, SmlSuffix(e).value);
  }

  /** An entry is serialized exactly when it is of a known version and type, every fixed field is hex of its
      width, its validity is stated, its port fits, and its addresses decode to their lengths. */
  lemma EntryAcceptedExactlyWhen(codec: Codec, e: SmlEntry)
    ensures SmlEntryBytes(codec, e).Some? <==>
      && e.nVersion in {1, 2} && (e.nVersion == 2 ==> e.nType in {0, 1}) && e.isValid.Some?
      && |e.proRegTxHash| == 64 && AllHex(e.proRegTxHash) && |e.confirmedHash| == 64 && AllHex(e.confirmedHash)
      && |e.pubKeyOperator| == 96 && AllHex(e.pubKeyOperator)
      && (exists s :: codec.service(e.service) == Some(s) && |s| == 18)
      && (exists s :: codec.base58(e.votingAddress) == Some(s) && |s| == 21)
      && (e.nVersion == 2 && e.nType == 1 ==>
            0 <= e.platformHTTPPort <= 0xffff && |e.platformNodeID| == 40 && AllHex(e.platformNodeID))
  {
  }

  /** The list's root, said through the leaves: some order of the entries in which each hash, its bytes
      reversed, comes strictly before the next, hashed entry by entry in that order. */
  lemma SmlRootInOrder(codec: Codec, sha: seq<byte> -> Digest, list: seq<SmlEntry>)
    returns (order: seq<SmlEntry>, leaves: seq<Digest>)
    requires SmlRoot(codec, sha, list).Ok? && |list| > 0
    ensures multiset(order) == multiset(list)
    ensures forall i, j :: 0 <= i < j < |order| ==>
      Before(Reverse(LenientHex(order[i].proRegTxHash)), Reverse(LenientHex(order[j].proRegTxHash)))
    ensures |leaves| == |order| > 0 && forall i :: 0 <= i < |order| ==>
      SmlEntryBytes(codec, order[i]).Some? && leaves[i] == sha(SmlEntryBytes(codec, order[i]).value)
    ensures SmlRoot(codec, sha, list).value == TxRoot(NodeHash(sha), leaves)
  {
    hide TxRoot, SmlEntryBytes, LexLe, Before, StableSort, Reverse, LenientHex;
    order := StableSort(ByKey(SmlKey), list);
    leaves := Map(sha, Map(BytesOr(codec), order));
    ByKeyIsPreorder(SmlKey);
    SortSorts(ByKey(SmlKey), list);
    SortPermutes(ByKey(SmlKey), list);
    SameMembers(order, list);
    DistinctPermutes(SmlKey, list, order);
    forall i | 0 <= i < |order|
      ensures SmlEntryBytes(codec, order[i]).Some? && leaves[i] == sha(SmlEntryBytes(codec, order[i]).value)
    {
      assert order[i] in list;
      assert Map(BytesOr(codec), order)[i] == EntryBytesOr(codec, order[i]);
    }
    forall i, j | 0 <= i < j < |order|
      ensures Before(Reverse(LenientHex(order[i].proRegTxHash)), Reverse(LenientHex(order[j].proRegTxHash)))
    {
      assert ByKey(SmlKey)(order[i], order[j]) && SmlKey(order[i]) != SmlKey(order[j]);
      LexIsBefore(SmlKey(order[i]), SmlKey(order[j]));
    }
  }

  /** The list is refused exactly when it is too long, when two entries have one transaction hash, or when an entry
      cannot be serialized, in that order; and an empty one has the root zero. */
  lemma ListAcceptedExactlyWhen(codec: Codec, sha: seq<byte> -> Digest, list: seq<SmlEntry>)
    ensures var r := SmlRoot(codec, sha, list);
      var repeats := exists i, j ::
        0 <= i < j < |list| && LenientHex(list[i].proRegTxHash) == LenientHex(list[j].proRegTxHash);
      var malformed := exists i :: 0 <= i < |list| && SmlEntryBytes(codec, list[i]).None?;
      && (r.Ok? <==> |list| <= 50000 && !repeats && !malformed)
      && (r == Err(TooManyEntries) <==> |list| > 50000)
      && (r == Err(DuplicateKey) <==> |list| <= 50000 && repeats)
      && (r.Ok? && |list| == 0 ==> r.value == seq(32, _ => 0))
  {
    hide SmlEntryBytes, LenientHex, TxRoot, StableSort;
    var repeats := exists i, j ::
      0 <= i < j < |list| && LenientHex(list[i].proRegTxHash) == LenientHex(list[j].proRegTxHash);
    assert repeats <==> !DistinctBy(SmlKey, list) by {
      forall i, j | 0 <= i < j < |list|
        ensures SmlKey(list[i]) == SmlKey(list[j])
           <==> LenientHex(list[i].proRegTxHash) == LenientHex(list[j].proRegTxHash)
      {
        if SmlKey(list[i]) == SmlKey(list[j]) {
          ReverseInjective(LenientHex(list[i].proRegTxHash), LenientHex(list[j].proRegTxHash));
        }
      }
    }
    if exists i :: 0 <= i < |list| && SmlEntryBytes(codec, list[i]).None? {
      var i :| 0 <= i < |list| && SmlEntryBytes(codec, list[i]).None?;
      assert list[i] in list;
    }
  }

  // ---- counts ----------------------------------------------------------------------------------------

  /** A count below 2^32 in its shortest form stands at b[at..at + n]: one byte, or a marker and then the number,
      least significant byte first. */
  ghost predicate CountHere(b: seq<byte>, at: nat, n: nat, v: nat) {
    && at + n <= |b|
    && (v < 0xfd ==> n == 1 && b[at] == v)
    && (0xfd <= v <= 0xffff ==> n == 3 && b[at] == 0xfd && v == b[at + 1] + 256 * (b[at + 2] as int))
    && (0xffff < v <= 0xffff_ffff ==>
          n == 5 && b[at] == 0xfe
          && v == b[at + 1] + 256 * (b[at + 2] as int) + 0x1_0000 * (b[at + 3] as int)
                  + 0x100_0000 * (b[at + 4] as int))
  }

  lemma CompactPlaces(v: nat)
    requires CompactSize(v).Some?
    ensures CountHere(CompactSize(v).value, 0, |CompactSize(v).value|, v)
  {
    if v <= 0xffff { U16At(v); }
    if 0xffff < v <= 0xffff_ffff { U32At(v); }
  }

  lemma VarintPlaces(v: nat)
    ensures CountHere(PC.Varint(v), 0, |PC.Varint(v)|, v)
  {
    if v <= 0xffff { U16At(v); }
    if 0xffff < v <= 0xffff_ffff { U32At(v); }
  }

  lemma CountMoved(b: seq<byte>, v: nat, before: seq<byte>, after: seq<byte>)
    requires CountHere(b, 0, |b|, v)
    ensures CountHere(before + b + after, |before|, |b|, v)
  {
    var all := before + b + after;
    assert forall i :: 0 <= i < |b| ==> all[|before| + i] == b[i];
  }

  lemma HexMoved(s: string, n: nat, before: seq<byte>, after: seq<byte>)
    requires FixedHex(s, n).Some?
    ensures HexHere(before + FixedHex(s, n).value + after, |before|, s, n)
  {
    var all, b := before + FixedHex(s, n).value + after, FixedHex(s, n).value;
    assert forall i :: |before| <= i < |before| + n ==> all[i] == b[i - |before|];
  }

  lemma ReversedMoved(s: string, n: nat, before: seq<byte>, after: seq<byte>)
    requires FixedHex(s, n).Some?
    ensures HexReversed(before + Reverse(FixedHex(s, n).value) + after, |before|, s, n)
  {
    var all, b := before + Reverse(FixedHex(s, n).value) + after, Reverse(FixedHex(s, n).value);
    assert forall i :: |before| <= i < |before| + n ==> all[i] == b[i - |before|];
  }

  // ---- a quorum commitment -----------------------------------------------------------------------------

  /** The version, the type, the quorum's hash reversed and, in version 4, its index in two's complement. */
  ghost predicate HeadLaidOut(q: Quorum, b: seq<byte>) {
    && q.version in {3, 4} && |b| >= (if q.version == 4 then 37 else 35)
    && q.version == b[0] && b[1] == 0 && q.llmqType == b[2] && HexReversed(b, 3, q.quorumHash, 32)
    && (q.version == 4 ==>
          && -0x8000 <= q.quorumIndex <= 0x7fff
          && b[35] + 256 * (b[36] as int) == if q.quorumIndex < 0 then q.quorumIndex + 0x1_0000 else q.quorumIndex)
  }

  /** From at on: the two bitsets, each its size in bits and then its packed bytes, and the keys, hashes and
      signatures, of which only the verification vector's hash is reversed. */
  ghost predicate BodyLaidOut(q: Quorum, memberCount: nat, b: seq<byte>, at: nat, n: nat) {
    var w := (memberCount + 7) / 8;
    var valid := at + n + w;
    var tail := valid + n + w;
    && CountHere(b, at, n, memberCount) && HexHere(b, at + n, q.signers, w)
    && CountHere(b, valid, n, memberCount) && HexHere(b, valid + n, q.validMembers, w)
    && HexHere(b, tail, q.quorumPublicKey, 48) && HexReversed(b, tail + 48, q.quorumVvecHash, 32)
    && HexHere(b, tail + 80, q.quorumSig, 96) && HexHere(b, tail + 176, q.membersSig, 96)
    && |b| == tail + 272
  }

  lemma HeadIs(q: Quorum, rest: seq<byte>)
    requires QuorumHead(q).Some?
    ensures QuorumHead(q).value + rest == [q.version, 0, q.llmqType] + Reverse(FixedHex(q.quorumHash, 32).value)
         + ((if q.version == 4 then I16(q.quorumIndex).value else []) + rest)
  {
    U16At(q.version);
    hide FixedHex, I16, LittleEndian;
  }

  lemma IndexPlaces(q: Quorum, front: seq<byte>, rest: seq<byte>)
    requires I16(q.quorumIndex).Some? && |front| == 35
    ensures var b := front + (I16(q.quorumIndex).value + rest);
      && -0x8000 <= q.quorumIndex <= 0x7fff && |b| >= 37
      && b[35] + 256 * (b[36] as int) == if q.quorumIndex < 0 then q.quorumIndex + 0x1_0000 else q.quorumIndex
  {
    U16At(if q.quorumIndex < 0 then q.quorumIndex + 0x1_0000 else q.quorumIndex);
  }

  lemma HeadPlaces(q: Quorum, rest: seq<byte>)
    requires QuorumHead(q).Some?
    ensures HeadLaidOut(q, QuorumHead(q).value + rest)
  {
    hide FixedHex, Reverse, HexReversed, LittleEndian, I16;
    var hash := Reverse(FixedHex(q.quorumHash, 32).value);
    var index := if q.version == 4 then I16(q.quorumIndex).value else [];
    HeadIs(q, rest);
    ReversedMoved(q.quorumHash, 32, [q.version, 0, q.llmqType], index + rest);
    if q.version == 4 { IndexPlaces(q, [q.version, 0, q.llmqType] + hash, rest); }
  }

  lemma BitsetPlaces(bits: nat, hex: string, before: seq<byte>, after: seq<byte>)
    requires DynBitset(bits, hex).Some?
    ensures var b := before + DynBitset(bits, hex).value + after;
      var n, w := |CompactSize(bits).value|, (bits + 7) / 8;
      && CountHere(b, |before|, n, bits) && HexHere(b, |before| + n, hex, w) && |DynBitset(bits, hex).value| == n + w
  {
    hide CountHere, HexHere, FixedHex;
    var size, packed := CompactSize(bits).value, FixedHex(hex, (bits + 7) / 8).value;
    CompactPlaces(bits);
    CountMoved(size, bits, before, packed + after);
    HexMoved(hex, (bits + 7) / 8, before + size, after);
    assert before + (size + packed) + after == before + size + (packed + after) == before + size + packed + after;
  }

  lemma TailPlaces(q: Quorum, before: seq<byte>)
    requires QuorumTail(q).Some?
    ensures var b, at := before + QuorumTail(q).value, |before|;
      && HexHere(b, at, q.quorumPublicKey, 48) && HexReversed(b, at + 48, q.quorumVvecHash, 32)
      && HexHere(b, at + 80, q.quorumSig, 96) && HexHere(b, at + 176, q.membersSig, 96) && |b| == at + 272
  {
    hide HexHere, HexReversed, FixedHex, Reverse;
    var key, vvec := FixedHex(q.quorumPublicKey, 48).value, Reverse(FixedHex(q.quorumVvecHash, 32).value);
    var sig, members := FixedHex(q.quorumSig, 96).value, FixedHex(q.membersSig, 96).value;
    HexMoved(q.quorumPublicKey, 48, before, vvec + (sig + members));
    ReversedMoved(q.quorumVvecHash, 32, before + key, sig + members);
    HexMoved(q.quorumSig, 96, before + key + vvec, members);
    HexMoved(q.membersSig, 96, before + key + vvec + sig, []);
    FourParts(before, key, vvec, sig, members);
  }

  lemma FourParts(before: seq<byte>, a: seq<byte>, b: seq<byte>, c: seq<byte>, d: seq<byte>)
    ensures var all := before + (a + (b + (c + d)));
      && all == before + a + (b + (c + d)) && all == before + a + b + (c + d) && all == before + a + b + c + d
      && all == before + a + b + c + d + []
  {
  }

  /** Every field of a final commitment at its own place and the right way round. */
  lemma QuorumLayout(q: Quorum, memberCount: nat)
    requires SerializeCommitment(q, memberCount).Some?
    ensures var b := SerializeCommitment(q, memberCount).value;
      HeadLaidOut(q, b)
      && BodyLaidOut(q, memberCount, b, if q.version == 4 then 37 else 35, |CompactSize(memberCount).value|)
  {
    hide HeadLaidOut, CountHere, HexHere, HexReversed, QuorumHead, QuorumTail, DynBitset, CompactSize;
    var head, tail := QuorumHead(q).value, QuorumTail(q).value;
    var signers, valid := DynBitset(memberCount, q.signers).value, DynBitset(memberCount, q.validMembers).value;
    HeadPlaces(q, signers + (valid + tail));
    BitsetPlaces(memberCount, q.signers, head, valid + tail);
    BitsetPlaces(memberCount, q.validMembers, head + signers, tail);
    TailPlaces(q, head + signers + valid);
    ThreeParts(head, signers, valid, tail);
  }

  /** A commitment is serialized exactly when its version, type and index are in range and every field is hex of its
      width, the two bitsets of the width the members need. */
  lemma QuorumAcceptedExactlyWhen(q: Quorum, memberCount: nat)
    ensures SerializeCommitment(q, memberCount).Some? <==>
      && q.version in {3, 4} && 0 <= q.llmqType <= 0xff && (q.version == 4 ==> -0x8000 <= q.quorumIndex <= 0x7fff)
      && memberCount <= 0xffff_ffff
      && (forall x | x in [(q.quorumHash, 32), (q.signers, (memberCount + 7) / 8),
                           (q.validMembers, (memberCount + 7) / 8), (q.quorumPublicKey, 48), (q.quorumVvecHash, 32),
                           (q.quorumSig, 96), (q.membersSig, 96)] ::
            |x.0| == 2 * x.1 && AllHex(x.0))
  {
  }

  lemma ThreeParts(head: seq<byte>, a: seq<byte>, b: seq<byte>, c: seq<byte>)
    ensures head + (a + (b + c)) == head + a + (b + c) && head + (a + (b + c)) == head + a + b + c
  {
  }

  /** The set's root, said through the leaves: the digests of the commitments in some order in which each comes
      before the next or equals it. */
  lemma QuorumRootInOrder(sha: seq<byte> -> Digest, sizes: map<int, nat>, quorums: seq<Quorum>)
    returns (leaves: seq<Digest>)
    requires Acceptable(sizes, quorums) && |quorums| > 0
    ensures |leaves| == |quorums| && QuorumSetRoot(sha, sizes, quorums) == TxRoot(NodeHash(sha), leaves)
    ensures forall i, j :: 0 <= i < j < |leaves| ==> leaves[i] == leaves[j] || Before(leaves[i], leaves[j])
    ensures forall q :: q in quorums ==> q.llmqType in sizes && SerializeCommitment(q, sizes[q.llmqType]).Some?
    ensures multiset(leaves) == multiset(Map((q: Quorum) => sha(QuorumBytesOf(sizes, q)), quorums))
  {
    hide TxRoot, SerializeCommitment, LexLe, Before, StableSort;
    var bytes := Map(QuorumBytes(sizes), quorums);
    leaves := StableSort(DigestOrder, Map(sha, bytes));
    DigestSort(Map(sha, bytes));
    assert |multiset(leaves)| == |leaves| && |multiset(Map(sha, bytes))| == |quorums|;
    forall i, j | 0 <= i < j < |leaves| ensures leaves[i] == leaves[j] || Before(leaves[i], leaves[j]) {
      assert DigestOrder(leaves[i], leaves[j]);
      if leaves[i] != leaves[j] { LexIsBefore(leaves[i], leaves[j]); }
    }
    forall q | q in quorums ensures q.llmqType in sizes && SerializeCommitment(q, sizes[q.llmqType]).Some? {
      assert QuorumBytes(sizes)(q) != [];
    }
    assert Map((q: Quorum) => sha(QuorumBytesOf(sizes, q)), quorums) == Map(sha, bytes);
  }

  /** The set is accepted exactly when every quorum's type is known and its commitment serializes, and no two have one
      type and hash. */
  lemma SetAcceptedExactlyWhen(sizes: map<int, nat>, quorums: seq<Quorum>)
    ensures Acceptable(sizes, quorums) <==>
      && (forall q :: q in quorums ==> q.llmqType in sizes && SerializeCommitment(q, sizes[q.llmqType]).Some?)
      && (forall i, j :: 0 <= i < j < |quorums| && quorums[i].llmqType == quorums[j].llmqType ==>
            LenientHex(quorums[i].quorumHash) != LenientHex(quorums[j].quorumHash))
  {
    hide SerializeCommitment, LenientHex;
    forall q: Quorum
      ensures QuorumBytes(sizes)(q) != [] <==>
        q.llmqType in sizes && SerializeCommitment(q, sizes[q.llmqType]).Some?
    {
      assert QuorumBytes(sizes)(q) == QuorumBytesOf(sizes, q);
    }
  }

  /** And the keys returned are each quorum's own public key under its type and hash, and no others. */
  lemma KeysAreTheQuorums(quorums: seq<Quorum>, keys: map<(int, seq<byte>), seq<byte>>)
    requires Collected(QuorumId, PublicKeyOf, quorums, keys)
    ensures forall q :: q in quorums ==>
      var id := (q.llmqType, LenientHex(q.quorumHash)); id in keys && keys[id] == LenientHex(q.quorumPublicKey)
    ensures forall k :: k in keys ==> exists q :: q in quorums && k == (q.llmqType, LenientHex(q.quorumHash))
  {
    hide LenientHex;
    forall q | q in quorums
      ensures var id := (q.llmqType, LenientHex(q.quorumHash)); id in keys && keys[id] == LenientHex(q.quorumPublicKey)
    {
      assert QuorumId(q) in keys;
    }
    forall k | k in keys ensures exists q :: q in quorums && k == (q.llmqType, LenientHex(q.quorumHash)) {
      var q :| q in quorums && QuorumId(q) == k;
      assert k == (q.llmqType, LenientHex(q.quorumHash));
    }
  }

  // ---- a partial tree ---------------------------------------------------------------------------------

  /** Hash i of the list begins 32 i bytes in. */
  lemma {:induction false} HashPlaces(hashes: seq<Digest>, i: nat)
    requires i < |hashes|
    ensures 32 * i + 32 <= |PC.Concat(hashes)| && PC.Concat(hashes)[32 * i..32 * i + 32] == hashes[i]
  {
    var all := PC.Concat(hashes);
    if i > 0 {
      HashPlaces(hashes[1..], i - 1);
      var rest := PC.Concat(hashes[1..]);
      assert all == hashes[0] + rest;
      assert all[32 * i..32 * i + 32] == rest[32 * (i - 1)..32 * (i - 1) + 32];
    }
  }

  /** The digests stand one after the other from at on. */
  ghost predicate DigestsHere(b: seq<byte>, at: nat, hashes: seq<Digest>) {
    at + 32 * |hashes| <= |b| && forall i :: 0 <= i < |hashes| ==> b[at + 32 * i..at + 32 * i + 32] == hashes[i]
  }

  /** And these flags, eight to a byte and the first in the lowest bit, to the end. */
  ghost predicate FlagsHere(b: seq<byte>, at: nat, bits: seq<bool>) {
    |b| == at + (|bits| + 7) / 8
    && forall i :: 0 <= i < |bits| ==> (bits[i] <==> Shift(b[at + i / 8], i % 8) % 2 == 1)
  }

  /** A tree's bytes: the count of transactions in four bytes, the count of hashes and the hashes, the count of
      flag bytes and the flags. */
  ghost predicate TreeLaidOut(n: nat, t: Branch<Digest>, b: seq<byte>, k: nat, m: nat) {
    var hashesAt := 4 + k;
    var flagsAt := hashesAt + 32 * |Hashes(t)| + m;
    && NumberHere(b, n) && CountHere(b, 4, k, |Hashes(t)|) && DigestsHere(b, hashesAt, Hashes(t))
    && CountHere(b, flagsAt - m, m, (|Bits(t)| + 7) / 8) && FlagsHere(b, flagsAt, Bits(t))
  }

  ghost predicate NumberHere(b: seq<byte>, n: nat) {
    |b| >= 4 && n == b[0] + 256 * (b[1] as int) + 0x1_0000 * (b[2] as int) + 0x100_0000 * (b[3] as int)
  }

  lemma NumberPlaces(n: nat, rest: seq<byte>)
    requires n < 0x1_0000_0000
    ensures NumberHere(LittleEndian(n, 4) + rest, n)
  {
    U32At(n);
    var b, f := LittleEndian(n, 4) + rest, LittleEndian(n, 4);
    assert b[0] == f[0] && b[1] == f[1] && b[2] == f[2] && b[3] == f[3];
  }

  lemma HashesPlaced(hashes: seq<Digest>, before: seq<byte>, after: seq<byte>)
    ensures DigestsHere(before + PC.Concat(hashes) + after, |before|, hashes)
  {
    var b, middle := before + PC.Concat(hashes) + after, PC.Concat(hashes);
    forall i | 0 <= i < |hashes| ensures b[|before| + 32 * i..|before| + 32 * i + 32] == hashes[i] {
      HashPlaces(hashes, i);
      assert b[|before| + 32 * i..|before| + 32 * i + 32] == middle[32 * i..32 * i + 32];
    }
  }

  lemma FlagsPlaced(bits: seq<bool>, before: seq<byte>)
    ensures FlagsHere(before + PC.Pack(bits), |before|, bits)
  {
    PC.PackReadsBack(bits);
    var b, packed := before + PC.Pack(bits), PC.Pack(bits);
    forall i | 0 <= i < |bits| ensures bits[i] <==> Shift(b[|before| + i / 8], i % 8) % 2 == 1 {
      PC.FlagAt(packed, i);
      assert PC.Unpack(packed)[..|bits|][i] == bits[i];
    }
  }

  lemma EncodingIs(n: nat, t: Branch<Digest>)
    ensures var k, h := PC.Varint(|Hashes(t)|), PC.Concat(Hashes(t));
      var m, f := PC.Varint(|PC.Pack(Bits(t))|), PC.Pack(Bits(t));
      var b, start := PC.Encoding(n, t), LittleEndian(n, 4);
      && b == start + (k + (h + (m + f))) && b == start + k + (h + (m + f)) && b == (start + k) + h + (m + f)
      && b == (start + k + h) + m + f && b == (start + k + h + m) + f
  {
    hide PC.Varint, PC.Concat, PC.Pack, Hashes, Bits, LittleEndian;
  }

  lemma TreeLayout(n: nat, t: Branch<Digest>) returns (k: nat, m: nat)
    requires PC.Readable(n, t)
    ensures TreeLaidOut(n, t, PC.Encoding(n, t), k, m)
  {
    hide PC.Varint, PC.Pack, PC.Concat, PC.Encoding, CountHere, DigestsHere, FlagsHere, NumberHere, Hashes, Bits,
         LittleEndian;
    var hashes, packed := Hashes(t), PC.Pack(Bits(t));
    var count, flagCount := PC.Varint(|hashes|), PC.Varint(|packed|);
    var start, middle := LittleEndian(n, 4), PC.Concat(hashes);
    k, m := |count|, |flagCount|;
    EncodingIs(n, t);
    NumberPlaces(n, count + (middle + (flagCount + packed)));
    VarintPlaces(|hashes|);
    VarintPlaces(|packed|);
    CountMoved(count, |hashes|, start, middle + (flagCount + packed));
    CountMoved(flagCount, |packed|, start + count + middle, packed);
    HashesPlaced(hashes, start + count, flagCount + packed);
    FlagsPlaced(Bits(t), start + count + middle + flagCount);
  }
}

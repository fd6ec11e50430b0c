/**
  The two roots a coinbase commits to: the simplified masternode list of DIP-0004
  (oracle/dml_commitment.js, smlEntryBytes and smlMerkleRoot) and the active quorum set
  (oracle/quorum_commitment.js, serializeCommitment and quorumsMerkleRoot). SHA256d is a parameter.
  Collision freedom is asked only of the byte strings the two computations compared actually hash.
 */
module ListCommitments {
  import opened Wrappers
  import opened Bytes
  import opened Sorting
  import opened Lists
  import opened PaddedTree
  import opened OddMerkle

  // ---- what a root over hashed messages binds ----------------------------------------------------

  /** Every byte string hashed to compute the root over these messages. */
  ghost function Preimages(sha: seq<byte> -> Digest, msgs: seq<seq<byte>>): set<seq<byte>>
    requires |msgs| > 0
  {
    (set m | m in msgs) + (set p | p in RootHashed(NodeHash(sha), Map(sha, msgs)) :: Joined(p.0, p.1))
  }

  ghost predicate NoCollision(sha: seq<byte> -> Digest, hashed: set<seq<byte>>) {
    forall x, y :: x in hashed && y in hashed && sha(x) == sha(y) ==> x == y
  }

  /** No message has the length of two digests, so none can pose as an inner node. */
  ghost predicate NotNodeSized(msgs: seq<seq<byte>>) {
    forall i :: 0 <= i < |msgs| ==> |msgs[i]| != 64
  }

  lemma PairsDoNotCollide(sha: seq<byte> -> Digest, pairs: set<(Digest, Digest)>, hashed: set<seq<byte>>)
    requires NoCollision(sha, hashed) && forall p :: p in pairs ==> Joined(p.0, p.1) in hashed
    ensures CollisionFree(NodeHash(sha), pairs)
  {
    forall p, q | p in pairs && q in pairs && NodeHash(sha)(p.0, p.1) == NodeHash(sha)(q.0, q.1) ensures p == q {
      SplitEqual(p.0, p.1, q.0, q.1);
    }
  }

  lemma LeavesAreNotNodes(sha: seq<byte> -> Digest, msgs: seq<seq<byte>>, pairs: set<(Digest, Digest)>,
                          hashed: set<seq<byte>>)
    requires NoCollision(sha, hashed) && NotNodeSized(msgs)
    requires (forall p :: p in pairs ==> Joined(p.0, p.1) in hashed) && (forall m :: m in msgs ==> m in hashed)
    ensures Separated(NodeHash(sha), Map(sha, msgs), pairs)
  {
    forall i, p | 0 <= i < |msgs| && p in pairs ensures Map(sha, msgs)[i] != NodeHash(sha)(p.0, p.1) {
      assert msgs[i] in hashed && |Joined(p.0, p.1)| == 64;
    }
  }

  lemma DigestsDistinct(sha: seq<byte> -> Digest, msgs: seq<seq<byte>>, hashed: set<seq<byte>>)
    requires NoCollision(sha, hashed) && (forall m :: m in msgs ==> m in hashed) && Distinct(msgs)
    ensures Distinct(Map(sha, msgs))
  {
    forall i, j | 0 <= i < j < |msgs| ensures Map(sha, msgs)[i] != Map(sha, msgs)[j] {
      assert msgs[i] in hashed && msgs[j] in hashed;
    }
  }

  /** The four separations and the distinctness that `RootBindsLeaves` asks for. */
  lemma RootSide(sha: seq<byte> -> Digest, msgs: seq<seq<byte>>, pairsA: set<(Digest, Digest)>,
                 pairsB: set<(Digest, Digest)>, hashed: set<seq<byte>>)
    requires NoCollision(sha, hashed) && NotNodeSized(msgs) && Distinct(msgs)
    requires forall p :: p in pairsA + pairsB ==> Joined(p.0, p.1) in hashed
    requires forall m :: m in msgs ==> m in hashed
    ensures Distinct(Map(sha, msgs))
    ensures Separated(NodeHash(sha), Map(sha, msgs), pairsA) && Separated(NodeHash(sha), Map(sha, msgs), pairsB)
  {
    LeavesAreNotNodes(sha, msgs, pairsA, hashed);
    LeavesAreNotNodes(sha, msgs, pairsB, hashed);
    DigestsDistinct(sha, msgs, hashed);
  }

  lemma EqualDigestsEqualMessages(sha: seq<byte> -> Digest, a: seq<seq<byte>>, b: seq<seq<byte>>,
                                  hashed: set<seq<byte>>)
    requires NoCollision(sha, hashed) && Map(sha, a) == Map(sha, b)
    requires forall m :: m in a || m in b ==> m in hashed
    ensures a == b
  {
    assert |a| == |Map(sha, a)| == |Map(sha, b)| == |b|;
    forall i | 0 <= i < |a| ensures a[i] == b[i] {
      assert Map(sha, a)[i] == Map(sha, b)[i];
      assert a[i] in hashed && b[i] in hashed;
    }
  }

  /** Two lists of distinct messages with one root are one list. */
  lemma RootBindsMessages(sha: seq<byte> -> Digest, a: seq<seq<byte>>, b: seq<seq<byte>>)
    requires |a| > 0 && |b| > 0 && Distinct(a) && Distinct(b) && NotNodeSized(a) && NotNodeSized(b)
    requires NoCollision(sha, Preimages(sha, a) + Preimages(sha, b))
    requires TxRoot(NodeHash(sha), Map(sha, a)) == TxRoot(NodeHash(sha), Map(sha, b))
    ensures a == b
  {
    var hashed := Preimages(sha, a) + Preimages(sha, b);
    var pairsA, pairsB := RootHashed(NodeHash(sha), Map(sha, a)), RootHashed(NodeHash(sha), Map(sha, b));
    PairsDoNotCollide(sha, pairsA + pairsB, hashed);
    RootSide(sha, a, pairsA, pairsB, hashed);
    RootSide(sha, b, pairsA, pairsB, hashed);
    RootBindsLeaves(NodeHash(sha), Map(sha, a), Map(sha, b));
    EqualDigestsEqualMessages(sha, a, b, hashed);
  }

  // ---- the masternode list -----------------------------------------------------------------------

  const MAX_MN_LIST_ENTRIES: nat := 50000

  /** The address parsers, outside this model: an 18-byte service and a base58check payload, or a
      refusal. */
  datatype Codec = Codec(service: string -> Option<seq<byte>>, base58: string -> Option<seq<byte>>)

  datatype SmlEntry = SmlEntry(
    nVersion: int, proRegTxHash: string, confirmedHash: string, service: string, pubKeyOperator: string,
    votingAddress: string, isValid: Option<bool>, nType: int, platformHTTPPort: int, platformNodeID: string)

  datatype ListError = TooManyEntries | DuplicateKey | MalformedEntry

  /** The order key: the transaction hash in its internal byte order. */
  function SmlKey(e: SmlEntry): seq<byte> {
    Reverse(LenientHex(e.proRegTxHash))
  }

  function U16Exact(v: int): Option<seq<byte>> {
    if 0 <= v <= 0xffff then Some(LittleEndian(v, 2)) else None
  }

  /** The part every layout shares: 151 bytes. */
  function SmlBase(codec: Codec, e: SmlEntry): (r: Option<seq<byte>>)
    ensures r.Some? ==> |r.value| == 151
  {
    var service, voting := codec.service(e.service), codec.base58(e.votingAddress);
    if FixedHex(e.pubKeyOperator, 48).Some? && e.isValid.Some?
       && FixedHex(e.proRegTxHash, 32).Some? && FixedHex(e.confirmedHash, 32).Some?
       && service.Some? && |service.value| == 18 && voting.Some? && |voting.value| == 21
    then Some(Reverse(FixedHex(e.proRegTxHash, 32).value) + (Reverse(FixedHex(e.confirmedHash, 32).value)
              + (service.value + (FixedHex(e.pubKeyOperator, 48).value
              + (voting.value[1..] + [if e.isValid.value then 1 else 0])))))
    else None
  }

  /** The version 2 suffix: a type, and for an evo node where its Platform service answers. */
  function SmlSuffix(e: SmlEntry): (r: Option<seq<byte>>)
    ensures r.Some? ==> |r.value| == (if e.nVersion == 1 then 0 else if e.nType == 0 then 2 else 24)
  {
    if e.nVersion == 1 then Some([])
    else if e.nType == 0 then U16Exact(0)
    else if e.nType == 1 then
      var port, node := U16Exact(e.platformHTTPPort), FixedHex(e.platformNodeID, 20);
      if port.Some? && node.Some? then Some(U16Exact(1).value + (port.value + Reverse(node.value))) else None
    else None
  }

  /** One entry as consensus hashes it. A version, type or field this build does not know is refused. */
  function SmlEntryBytes(codec: Codec, e: SmlEntry): (r: Option<seq<byte>>)
    ensures r.Some? ==> |r.value| >= 151 && e.nVersion in {1, 2}
  {
    if e.nVersion !in {1, 2} then None
    else
      var base, suffix := SmlBase(codec, e), SmlSuffix(e);
      if base.Some? && suffix.Some? then Some(base.value + suffix.value) else None
  }

  /** What an entry commits to: everything its layout writes. */
  datatype Committed = Committed(
    nVersion: int, proRegTxHash: seq<byte>, confirmedHash: seq<byte>, service: Option<seq<byte>>,
    pubKeyOperator: seq<byte>, votingKey: Option<seq<byte>>, isValid: Option<bool>,
    nType: Option<int>, platform: Option<(int, seq<byte>)>)

  function CommittedOf(codec: Codec, e: SmlEntry): Committed {
    var voting := codec.base58(e.votingAddress);
    Committed(e.nVersion, LenientHex(e.proRegTxHash), LenientHex(e.confirmedHash), codec.service(e.service),
              LenientHex(e.pubKeyOperator), if voting.Some? && |voting.value| == 21 then Some(voting.value[1..])
                  else None,
              e.isValid, if e.nVersion == 2 then Some(e.nType) else None,
              if e.nVersion == 2 && e.nType == 1 then Some((e.platformHTTPPort, LenientHex(e.platformNodeID)))
                  else None)
  }

  lemma SameBase(codec: Codec, a: SmlEntry, b: SmlEntry)
    requires SmlBase(codec, a).Some? && SmlBase(codec, a) == SmlBase(codec, b)
    ensures LenientHex(a.proRegTxHash) == LenientHex(b.proRegTxHash)
    ensures LenientHex(a.confirmedHash) == LenientHex(b.confirmedHash)
    ensures codec.service(a.service) == codec.service(b.service)
    ensures LenientHex(a.pubKeyOperator) == LenientHex(b.pubKeyOperator)
    ensures codec.base58(a.votingAddress).value[1..] == codec.base58(b.votingAddress).value[1..]
    ensures a.isValid == b.isValid
  {
    var p, q := FixedHex(a.proRegTxHash, 32).value, FixedHex(b.proRegTxHash, 32).value;
    var c, d := FixedHex(a.confirmedHash, 32).value, FixedHex(b.confirmedHash, 32).value;
    var s, t := codec.service(a.service).value, codec.service(b.service).value;
    var o, u := FixedHex(a.pubKeyOperator, 48).value, FixedHex(b.pubKeyOperator, 48).value;
    var v, w := codec.base58(a.votingAddress).value[1..], codec.base58(b.votingAddress).value[1..];
    var f, g := [if a.isValid.value then 1 else 0], [if b.isValid.value then 1 else 0];
    SplitEqual(Reverse(p), Reverse(c) + (s + (o + (v + f))), Reverse(q), Reverse(d) + (t + (u + (w + g))));
    SplitEqual(Reverse(c), s + (o + (v + f)), Reverse(d), t + (u + (w + g)));
    SplitEqual(s, o + (v + f), t, u + (w + g));
    SplitEqual(o, v + f, u, w + g);
    SplitEqual(v, f, w, g);
    ReverseInjective(p, q);
    ReverseInjective(c, d);
  }

  lemma SameSuffix(a: SmlEntry, b: SmlEntry)
    requires a.nVersion in {1, 2} && b.nVersion in {1, 2}
    requires SmlSuffix(a).Some? && SmlSuffix(a) == SmlSuffix(b)
    ensures a.nVersion == b.nVersion
    ensures a.nVersion == 2 ==> a.nType == b.nType
    ensures a.nVersion == 2 && a.nType == 1 ==>
      a.platformHTTPPort == b.platformHTTPPort && LenientHex(a.platformNodeID) == LenientHex(b.platformNodeID)
  {
    if a.nVersion == 2 && a.nType == 1 {
      var i, j := U16Exact(a.platformHTTPPort).value, U16Exact(b.platformHTTPPort).value;
      var x, y := FixedHex(a.platformNodeID, 20).value, FixedHex(b.platformNodeID, 20).value;
      SplitEqual(U16Exact(1).value, i + Reverse(x), U16Exact(1).value, j + Reverse(y));
      SplitEqual(i, Reverse(x), j, Reverse(y));
      ReverseInjective(x, y);
      assert Power256(2) == 65536 by { assert Power256(2) == 256 * Power256(1) && Power256(1) == 256 * Power256(0); }
      LittleEndianReads(a.platformHTTPPort, 2);
      LittleEndianReads(b.platformHTTPPort, 2);
    }
  }

  /** The serialization loses nothing it writes: the layouts differ in length, so even the version,
      which is not written, can be read back. */
  lemma EntryBytesBindFields(codec: Codec, a: SmlEntry, b: SmlEntry)
    requires SmlEntryBytes(codec, a).Some? && SmlEntryBytes(codec, a) == SmlEntryBytes(codec, b)
    ensures CommittedOf(codec, a) == CommittedOf(codec, b)
  {
    SplitEqual(SmlBase(codec, a).value, SmlSuffix(a).value, SmlBase(codec, b).value, SmlSuffix(b).value);
    SameBase(codec, a, b);
    SameSuffix(a, b);
  }

  lemma KeyIsCommitted(codec: Codec, a: SmlEntry, b: SmlEntry)
    requires SmlEntryBytes(codec, a).Some? && SmlEntryBytes(codec, a) == SmlEntryBytes(codec, b)
    ensures SmlKey(a) == SmlKey(b)
  {
    EntryBytesBindFields(codec, a, b);
  }

  function EntryBytesOr(codec: Codec, e: SmlEntry): seq<byte> {
    var b := SmlEntryBytes(codec, e);
    if b.Some? then b.value else []
  }

  function BytesOr(codec: Codec): SmlEntry -> seq<byte> {
    (e: SmlEntry) => EntryBytesOr(codec, e)
  }

  ghost predicate WellFormed(codec: Codec, list: seq<SmlEntry>) {
    forall e :: e in list ==> SmlEntryBytes(codec, e).Some?
  }

  /** What the loop below computes, said at once: three refusals, then the root over the list in key
      order. */
  ghost function SmlRoot(codec: Codec, sha: seq<byte> -> Digest, list: seq<SmlEntry>): Result<Digest, ListError> {
    if |list| > MAX_MN_LIST_ENTRIES then Err(TooManyEntries)
    else if !DistinctBy(SmlKey, list) then Err(DuplicateKey)
    else if !WellFormed(codec, list) then Err(MalformedEntry)
    else if |list| == 0 then Ok(ZERO_DIGEST)
    else Ok(TxRoot(NodeHash(sha), Map(sha, Map(BytesOr(codec), StableSort(ByKey(SmlKey), list)))))
  }

  method SmlMerkleRoot(codec: Codec, sha: seq<byte> -> Digest, list: seq<SmlEntry>)
    returns (r: Result<Digest, ListError>)
    ensures r == SmlRoot(codec, sha, list)
  {
    if |list| > MAX_MN_LIST_ENTRIES { return Err(TooManyEntries); }
    var keyed := StableSort(ByKey(SmlKey), list);
    SortPermutes(ByKey(SmlKey), list);
    SameMembers(keyed, list);
    var clash := RepeatsAKey(list, keyed);
    if clash { return Err(DuplicateKey); }
    var leaves := HashEntries(codec, sha, keyed);
    if leaves == None { return Err(MalformedEntry); }
    var root := MerkleRootFromLeaves(NodeHash(sha), ZERO_DIGEST, leaves.value);
    r := Ok(root);
  }

  /** Neighbours of the sorted list are compared; that finds every repeated key of the list given. */
  method RepeatsAKey(ghost list: seq<SmlEntry>, keyed: seq<SmlEntry>) returns (clash: bool)
    requires keyed == StableSort(ByKey(SmlKey), list)
    ensures clash <==> !DistinctBy(SmlKey, list)
  {
    ByKeyIsPreorder(SmlKey);
    SortSorts(ByKey(SmlKey), list);
    SortPermutes(ByKey(SmlKey), list);
    var i := 1;
    while i < |keyed|
      invariant 1 <= i && forall k :: 1 <= k < i && k < |keyed| ==> SmlKey(keyed[k]) != SmlKey(keyed[k - 1])
    {
      if SmlKey(keyed[i]) == SmlKey(keyed[i - 1]) {
        if DistinctBy(SmlKey, list) { DistinctPermutes(SmlKey, list, keyed); }
        return true;
      }
      i := i + 1;
    }
    NeighboursSuffice(SmlKey, keyed);
    DistinctPermutes(SmlKey, keyed, list);
    clash := false;
  }

  method HashEntries(codec: Codec, sha: seq<byte> -> Digest, keyed: seq<SmlEntry>) returns (r: Option<seq<Digest>>)
    ensures r == if WellFormed(codec, keyed) then Some(Map(sha, Map(BytesOr(codec), keyed))) else None
  {
    hide SmlEntryBytes;
    var leaves: seq<Digest> := [];
    for i := 0 to |keyed|
      invariant |leaves| == i
      invariant forall k :: 0 <= k < i ==>
        SmlEntryBytes(codec, keyed[k]).Some? && leaves[k] == sha(EntryBytesOr(codec, keyed[k]))
    {
      var b := SmlEntryBytes(codec, keyed[i]);
      if b == None { return None; }
      leaves := leaves + [sha(b.value)];
    }
    assert leaves == Map(sha, Map(BytesOr(codec), keyed));
    r := Some(leaves);
  }

  /** Reordering the list changes nothing, the refusal included. */
  lemma SmlRootForgetsOrder(codec: Codec, sha: seq<byte> -> Digest, a: seq<SmlEntry>, b: seq<SmlEntry>)
    requires multiset(a) == multiset(b)
    ensures SmlRoot(codec, sha, a) == SmlRoot(codec, sha, b)
  {
    SameMembers(a, b);
    if DistinctBy(SmlKey, a) {
      DistinctPermutes(SmlKey, a, b);
      forall x, y | x in a && y in a && SmlKey(x) == SmlKey(y) ensures x == y {
        var i :| 0 <= i < |a| && a[i] == x;
        var j :| 0 <= j < |a| && a[j] == y;
      }
      SortForgetsOrder(SmlKey, a, b);
    } else if DistinctBy(SmlKey, b) {
      DistinctPermutes(SmlKey, b, a);
    }
  }

  /** The messages hashed for an accepted list: distinct, and never the size of two digests. */
  lemma SortedMessages(codec: Codec, list: seq<SmlEntry>)
    requires DistinctBy(SmlKey, list) && WellFormed(codec, list)
    ensures var msgs := Map(BytesOr(codec), StableSort(ByKey(SmlKey), list));
      && Distinct(msgs) && NotNodeSized(msgs) && |msgs| == |list|
      && multiset(msgs) == multiset(Map(BytesOr(codec), list))
  {
    var sorted := StableSort(ByKey(SmlKey), list);
    SortPermutes(ByKey(SmlKey), list);
    SameMembers(sorted, list);
    DistinctPermutes(SmlKey, list, sorted);
    MapPermutes(BytesOr(codec), sorted, list);
    var msgs := Map(BytesOr(codec), sorted);
    forall i | 0 <= i < |msgs| ensures SmlEntryBytes(codec, sorted[i]).Some? && |msgs[i]| >= 151 {
      assert sorted[i] in sorted;
    }
    forall i, j | 0 <= i < j < |msgs| ensures msgs[i] != msgs[j] {
      if msgs[i] == msgs[j] { KeyIsCommitted(codec, sorted[i], sorted[j]); }
    }
  }

  ghost function SmlPreimages(codec: Codec, sha: seq<byte> -> Digest, list: seq<SmlEntry>): set<seq<byte>>
    requires |list| > 0
  {
    Preimages(sha, Map(BytesOr(codec), StableSort(ByKey(SmlKey), list)))
  }

  /** The coinbase's root pins the list: two accepted lists with one root commit to the same entries,
      up to order and whatever their lengths. */
  lemma SmlRootBindsEntries(codec: Codec, sha: seq<byte> -> Digest, a: seq<SmlEntry>, b: seq<SmlEntry>)
    requires |a| > 0 && |b| > 0
    requires SmlRoot(codec, sha, a).Ok? && SmlRoot(codec, sha, a) == SmlRoot(codec, sha, b)
    requires NoCollision(sha, SmlPreimages(codec, sha, a) + SmlPreimages(codec, sha, b))
    ensures multiset(Map(BytesOr(codec), a)) == multiset(Map(BytesOr(codec), b))
    ensures forall x :: x in a ==> exists y :: y in b && CommittedOf(codec, x) == CommittedOf(codec, y)
  {
    SortedMessages(codec, a);
    SortedMessages(codec, b);
    var ma := Map(BytesOr(codec), StableSort(ByKey(SmlKey), a));
    var mb := Map(BytesOr(codec), StableSort(ByKey(SmlKey), b));
    RootBindsMessages(sha, ma, mb);
    forall x | x in a ensures exists y :: y in b && CommittedOf(codec, x) == CommittedOf(codec, y) {
      var y := ImageMatches(BytesOr(codec), a, b, x);
      EntryBytesBindFields(codec, x, y);
    }
  }

  // ---- the quorum set ----------------------------------------------------------------------------

  datatype Quorum = Quorum(
    version: int, llmqType: int, quorumHash: string, quorumIndex: int, signers: string, validMembers: string,
    quorumPublicKey: string, quorumVvecHash: string, quorumSig: string, membersSig: string)

  /** CompactSize, up to the 32-bit form this use needs. */
  function CompactSize(n: nat): (r: Option<seq<byte>>)
    ensures r.Some? ==> |r.value| >= 1
  {
    if n < 0xfd then Some([n])
    else if n <= 0xffff then Some([0xfd] + LittleEndian(n, 2))
    else if n <= 0xffff_ffff then Some([0xfe] + LittleEndian(n, 4))
    else None
  }

  function DynBitset(bits: nat, hex: string): Option<seq<byte>> {
    var size, packed := CompactSize(bits), FixedHex(hex, (bits + 7) / 8);
    if size.Some? && packed.Some? then Some(size.value + packed.value) else None
  }

  /** A signed 16-bit integer in two's complement. */
  function I16(v: int): Option<seq<byte>> {
    if -0x8000 <= v <= 0x7fff then Some(LittleEndian(if v < 0 then v + 0x1_0000 else v, 2)) else None
  }

  /** Version, type, quorum hash and, for the indexed version, the index. */
  function QuorumHead(q: Quorum): (r: Option<seq<byte>>)
    ensures r.Some? ==> |r.value| == if q.version == 4 then 37 else 35
  {
    var hash, index := FixedHex(q.quorumHash, 32), I16(q.quorumIndex);
    if q.version in {3, 4} && 0 <= q.llmqType <= 0xff && hash.Some? && (q.version == 4 ==> index.Some?)
    then Some(LittleEndian(q.version, 2) + ([q.llmqType] + (Reverse(hash.value)
              + (if q.version == 4 then index.value else []))))
    else None
  }

  function QuorumTail(q: Quorum): (r: Option<seq<byte>>)
    ensures r.Some? ==> |r.value| == 272
  {
    var key, vvec := FixedHex(q.quorumPublicKey, 48), FixedHex(q.quorumVvecHash, 32);
    var sig, members := FixedHex(q.quorumSig, 96), FixedHex(q.membersSig, 96);
    if key.Some? && vvec.Some? && sig.Some? && members.Some?
    then Some(key.value + (Reverse(vvec.value) + (sig.value + members.value)))
    else None
  }

  /** One final commitment as consensus hashes it; only the basic scheme's versions are written. */
  function SerializeCommitment(q: Quorum, memberCount: nat): (r: Option<seq<byte>>)
    ensures r.Some? ==> |r.value| > 64
  {
    var head, tail := QuorumHead(q), QuorumTail(q);
    var signers, valid := DynBitset(memberCount, q.signers), DynBitset(memberCount, q.validMembers);
    if head.Some? && signers.Some? && valid.Some? && tail.Some?
    then Some(head.value + (signers.value + (valid.value + tail.value)))
    else None
  }

  /** A quorum's identity in the set. */
  function QuorumId(q: Quorum): (int, seq<byte>) {
    (q.llmqType, LenientHex(q.quorumHash))
  }

  /** The same commitment in every field that is written. */
  predicate SameQuorum(a: Quorum, b: Quorum) {
    && QuorumId(a) == QuorumId(b) && a.version == b.version
    && (a.version == 4 ==> a.quorumIndex == b.quorumIndex)
    && LenientHex(a.signers) == LenientHex(b.signers) && LenientHex(a.validMembers) == LenientHex(b.validMembers)
    && LenientHex(a.quorumPublicKey) == LenientHex(b.quorumPublicKey)
    && LenientHex(a.quorumVvecHash) == LenientHex(b.quorumVvecHash)
    && LenientHex(a.quorumSig) == LenientHex(b.quorumSig) && LenientHex(a.membersSig) == LenientHex(b.membersSig)
  }

  lemma HeadBindsIdentity(a: Quorum, b: Quorum, restA: seq<byte>, restB: seq<byte>)
    requires QuorumHead(a).Some? && QuorumHead(b).Some?
    requires QuorumHead(a).value + restA == QuorumHead(b).value + restB
    ensures QuorumId(a) == QuorumId(b) && a.version == b.version
    ensures a.version == 4 ==> a.quorumIndex == b.quorumIndex
    ensures restA == restB
  {
    var ha, hb := FixedHex(a.quorumHash, 32).value, FixedHex(b.quorumHash, 32).value;
    var ia := if a.version == 4 then I16(a.quorumIndex).value else [];
    var ib := if b.version == 4 then I16(b.quorumIndex).value else [];
    var va, vb := LittleEndian(a.version, 2), LittleEndian(b.version, 2);
    assert QuorumHead(a).value + restA == va + ([a.llmqType] + (Reverse(ha) + (ia + restA)));
    assert QuorumHead(b).value + restB == vb + ([b.llmqType] + (Reverse(hb) + (ib + restB)));
    SplitEqual(va, [a.llmqType] + (Reverse(ha) + (ia + restA)), vb, [b.llmqType] + (Reverse(hb) + (ib + restB)));
    assert va[0] == a.version && vb[0] == b.version;
    SplitEqual([a.llmqType], Reverse(ha) + (ia + restA), [b.llmqType], Reverse(hb) + (ib + restB));
    SplitEqual(Reverse(ha), ia + restA, Reverse(hb), ib + restB);
    ReverseInjective(ha, hb);
    SplitEqual(ia, restA, ib, restB);
    if a.version == 4 {
      assert Power256(2) == 65536 by { assert Power256(2) == 256 * Power256(1) && Power256(1) == 256 * Power256(0); }
      LittleEndianReads(if a.quorumIndex < 0 then a.quorumIndex + 0x1_0000 else a.quorumIndex, 2);
      LittleEndianReads(if b.quorumIndex < 0 then b.quorumIndex + 0x1_0000 else b.quorumIndex, 2);
    }
  }

  /** Equal serializations are the same commitment. */
  lemma SerializationBindsQuorum(a: Quorum, b: Quorum, sizes: map<int, nat>)
    requires QuorumBytesOf(sizes, a) != [] && QuorumBytesOf(sizes, a) == QuorumBytesOf(sizes, b)
    ensures SameQuorum(a, b)
  {
    var m, n := sizes[a.llmqType], sizes[b.llmqType];
    var sa, sb := DynBitset(m, a.signers).value, DynBitset(n, b.signers).value;
    var wa, wb := DynBitset(m, a.validMembers).value, DynBitset(n, b.validMembers).value;
    var ta, tb := QuorumTail(a).value, QuorumTail(b).value;
    HeadBindsIdentity(a, b, sa + (wa + ta), sb + (wb + tb));
    SplitEqual(sa, wa + ta, sb, wb + tb);
    SplitEqual(wa, ta, wb, tb);
    var size := CompactSize(m).value;
    SplitEqual(size, FixedHex(a.signers, (m + 7) / 8).value, size, FixedHex(b.signers, (m + 7) / 8).value);
    SplitEqual(size, FixedHex(a.validMembers, (m + 7) / 8).value, size, FixedHex(b.validMembers, (m + 7) / 8).value);
    var k, l := FixedHex(a.quorumPublicKey, 48).value, FixedHex(b.quorumPublicKey, 48).value;
    var x, y := FixedHex(a.quorumVvecHash, 32).value, FixedHex(b.quorumVvecHash, 32).value;
    var s, t := FixedHex(a.quorumSig, 96).value, FixedHex(b.quorumSig, 96).value;
    var c, d := FixedHex(a.membersSig, 96).value, FixedHex(b.membersSig, 96).value;
    SplitEqual(k, Reverse(x) + (s + c), l, Reverse(y) + (t + d));
    SplitEqual(Reverse(x), s + c, Reverse(y), t + d);
    SplitEqual(s, c, t, d);
    ReverseInjective(x, y);
  }

  datatype QuorumError = UnknownType | MalformedQuorum | DuplicateQuorum

  datatype QuorumRoot = QuorumRoot(root: Digest, keys: map<(int, seq<byte>), seq<byte>>)

  function QuorumBytesOf(sizes: map<int, nat>, q: Quorum): seq<byte> {
    if q.llmqType !in sizes then []
    else
      var b := SerializeCommitment(q, sizes[q.llmqType]);
      if b.Some? then b.value else []
  }

  function QuorumBytes(sizes: map<int, nat>): Quorum -> seq<byte> {
    (q: Quorum) => QuorumBytesOf(sizes, q)
  }

  /** Every quorum serializes (an accepted serialization is never empty) and no identity repeats. */
  ghost predicate Acceptable(sizes: map<int, nat>, quorums: seq<Quorum>) {
    Collectable(QuorumBytes(sizes), QuorumId, quorums)
  }

  function PublicKeyOf(q: Quorum): seq<byte> {
    LenientHex(q.quorumPublicKey)
  }

  /** Over any element type: each element has a message, and no identity repeats. */
  ghost predicate Collectable<Q, K>(ser: Q -> seq<byte>, id: Q -> K, items: seq<Q>) {
    && (forall q :: q in items ==> ser(q) != [])
    && DistinctBy(id, items)
  }

  /** keys holds exactly the identities of the items, each with its own value. */
  ghost predicate Collected<Q, K, V>(id: Q -> K, pub: Q -> V, items: seq<Q>, keys: map<K, V>) {
    && (forall q :: q in items ==> id(q) in keys && keys[id(q)] == pub(q))
    && (forall k {:trigger k in keys} :: k in keys ==> exists q :: q in items && id(q) == k)
  }

  lemma CollectNone<Q, K, V>(ser: Q -> seq<byte>, id: Q -> K, pub: Q -> V)
    ensures Collected(id, pub, [], map[]) && Collectable(ser, id, [])
  {
  }

  lemma CollectOne<Q, K, V>(ser: Q -> seq<byte>, id: Q -> K, pub: Q -> V, items: seq<Q>, keys: map<K, V>, q: Q)
    requires Collected(id, pub, items, keys) && Collectable(ser, id, items)
    requires ser(q) != [] && id(q) !in keys
    ensures Collected(id, pub, items + [q], keys[id(q) := pub(q)])
    ensures Collectable(ser, id, items + [q])
  {
    var more, keys' := items + [q], keys[id(q) := pub(q)];
    assert forall x :: x in more <==> x in items || x == q;
    forall k {:trigger k in keys'} | k in keys' ensures exists x :: x in more && id(x) == k {
      if k == id(q) {
        assert q in more;
      } else {
        var x :| x in items && id(x) == k;
        assert x in more;
      }
    }
    forall i, j | 0 <= i < j < |more| ensures id(more[i]) != id(more[j]) {
      assert more[i] in items;
    }
  }

  lemma RefuseOne<Q, K, V>(ser: Q -> seq<byte>, id: Q -> K, pub: Q -> V, items: seq<Q>, keys: map<K, V>, i: nat)
    requires i < |items| && Collected(id, pub, items[..i], keys)
    requires ser(items[i]) == [] || id(items[i]) in keys
    ensures !Collectable(ser, id, items)
  {
    var q := items[i];
    assert q in items;
    if id(q) in keys {
      var x :| x in items[..i] && id(x) == id(q);
      var k :| 0 <= k < i && items[k] == x;
      assert id(items[k]) == id(items[i]);
    }
  }

  /** Collects digests and keys until the first item with no message or a repeated identity, which is
      returned instead. */
  method Collect<Q, K(==), V>(sha: seq<byte> -> Digest, ser: Q -> seq<byte>, id: Q -> K, pub: Q -> V, items: seq<Q>)
    returns (fault: Option<Q>, leaves: seq<Digest>, keys: map<K, V>)
    ensures fault.None? <==> Collectable(ser, id, items)
    ensures fault.None? ==> leaves == Map(sha, Map(ser, items)) && Collected(id, pub, items, keys)
    ensures fault.Some? ==> fault.value in items
  {
    CollectNone(ser, id, pub);
    hide Collected, Collectable;
    leaves, keys := [], map[];
    ghost var done: seq<Q> := [];
    for i := 0 to |items|
      invariant done == items[..i]
      invariant |leaves| == i && forall k {:trigger leaves[k]} :: 0 <= k < i ==> leaves[k] == sha(ser(items[k]))
      invariant Collected(id, pub, done, keys) && Collectable(ser, id, done)
    {
      var q := items[i];
      var bytes := ser(q);
      if bytes == [] || id(q) in keys {
        RefuseOne(ser, id, pub, items, keys, i);
        return Some(q), leaves, keys;
      }
      CollectOne(ser, id, pub, done, keys, q);
      keys := keys[id(q) := pub(q)];
      leaves := leaves + [sha(bytes)];
      done := done + [q];
    }
    assert done == items;
    assert leaves == Map(sha, Map(ser, items));
    fault := None;
  }

  ghost function Identity(): seq<byte> -> seq<byte> {
    b => b
  }

  ghost function QuorumSetRoot(sha: seq<byte> -> Digest, sizes: map<int, nat>, quorums: seq<Quorum>): Digest {
    if |quorums| == 0 then ZERO_DIGEST
    else TxRoot(NodeHash(sha), StableSort(DigestOrder, Map(sha, Map(QuorumBytes(sizes), quorums))))
  }

  predicate DigestOrder(x: Digest, y: Digest) {
    LexLe(x, y)
  }

  /** The root of an acceptable set and its keys by identity, or the fault of the first quorum that
      spoils it. */
  method QuorumsMerkleRoot(sha: seq<byte> -> Digest, sizes: map<int, nat>, quorums: seq<Quorum>)
    returns (r: Result<QuorumRoot, QuorumError>)
    ensures r.Ok? <==> Acceptable(sizes, quorums)
    ensures r.Ok? ==> r.value.root == QuorumSetRoot(sha, sizes, quorums)
    ensures r.Ok? ==> Collected(QuorumId, PublicKeyOf, quorums, r.value.keys)
  {
    var fault, leaves, keys := Collect(sha, QuorumBytes(sizes), QuorumId, PublicKeyOf, quorums);
    match fault {
      case Some(q) =>
        r := Err(if q.llmqType !in sizes then UnknownType
                 else if QuorumBytesOf(sizes, q) == [] then MalformedQuorum else DuplicateQuorum);
      case None =>
        var sorted := StableSort(DigestOrder, leaves);
        var root := MerkleRootFromLeaves(NodeHash(sha), ZERO_DIGEST, sorted);
        r := Ok(QuorumRoot(root, keys));
    }
  }

  lemma DigestSort(a: seq<Digest>)
    ensures SortedBy(DigestOrder, StableSort(DigestOrder, a))
    ensures multiset(StableSort(DigestOrder, a)) == multiset(a)
  {
    forall x: Digest, y: Digest ensures LexLe(x, y) || LexLe(y, x) { LexTotal(x, y); }
    forall x: Digest, y: Digest, z: Digest | LexLe(x, y) && LexLe(y, z) ensures LexLe(x, z) { LexTransitive(x, y, z); }
    SortSorts(DigestOrder, a);
    SortPermutes(DigestOrder, a);
  }

  lemma DigestSortForgetsOrder(a: seq<Digest>, b: seq<Digest>)
    requires multiset(a) == multiset(b)
    ensures StableSort(DigestOrder, a) == StableSort(DigestOrder, b)
  {
    DigestSort(a);
    DigestSort(b);
    forall x: Digest, y: Digest | LexLe(x, y) && LexLe(y, x) ensures x == y { LexTotal(x, y); }
    SortedUnique(DigestOrder, StableSort(DigestOrder, a), StableSort(DigestOrder, b));
  }

  lemma SetRootForgetsOrder(sha: seq<byte> -> Digest, sizes: map<int, nat>, a: seq<Quorum>, b: seq<Quorum>)
    requires multiset(a) == multiset(b)
    ensures QuorumSetRoot(sha, sizes, a) == QuorumSetRoot(sha, sizes, b)
  {
    SameMembers(a, b);
    var f := QuorumBytes(sizes);
    MapPermutes(f, a, b);
    MapPermutes(sha, Map(f, a), Map(f, b));
    DigestSortForgetsOrder(Map(sha, Map(f, a)), Map(sha, Map(f, b)));
  }

  /** A reordered set is accepted exactly when the original is, with the same root. Which of several
      faults is reported first does depend on the order. */
  lemma QuorumRootForgetsOrder(sha: seq<byte> -> Digest, sizes: map<int, nat>, a: seq<Quorum>, b: seq<Quorum>)
    requires multiset(a) == multiset(b)
    ensures Acceptable(sizes, a) <==> Acceptable(sizes, b)
    ensures QuorumSetRoot(sha, sizes, a) == QuorumSetRoot(sha, sizes, b)
  {
    SameMembers(a, b);
    if DistinctBy(QuorumId, a) { DistinctPermutes(QuorumId, a, b); }
    if DistinctBy(QuorumId, b) { DistinctPermutes(QuorumId, b, a); }
    SetRootForgetsOrder(sha, sizes, a, b);
  }

  /** The serialized set in the order its digests sort to. */
  ghost function QuorumMessages(sha: seq<byte> -> Digest, sizes: map<int, nat>, quorums: seq<Quorum>): seq<seq<byte>> {
    StableSort(ByKey((m: seq<byte>) => sha(m)), Map(QuorumBytes(sizes), quorums))
  }

  lemma SortedQuorums(sha: seq<byte> -> Digest, sizes: map<int, nat>, quorums: seq<Quorum>)
    requires Acceptable(sizes, quorums)
    ensures var msgs := QuorumMessages(sha, sizes, quorums);
      && multiset(msgs) == multiset(Map(QuorumBytes(sizes), quorums)) && |msgs| == |quorums|
      && Distinct(msgs) && NotNodeSized(msgs)
      && Map(sha, msgs) == StableSort(DigestOrder, Map(sha, Map(QuorumBytes(sizes), quorums)))
  {
    var bytes := Map(QuorumBytes(sizes), quorums);
    forall i, j | 0 <= i < j < |bytes| ensures bytes[i] != bytes[j] {
      assert quorums[i] in quorums && quorums[j] in quorums;
      if bytes[i] == bytes[j] { SerializationBindsQuorum(quorums[i], quorums[j], sizes); }
    }
    var msgs := QuorumMessages(sha, sizes, quorums);
    SortPermutes(ByKey((m: seq<byte>) => sha(m)), bytes);
    SameMembers(msgs, bytes);
    forall i | 0 <= i < |msgs| ensures |msgs[i]| != 64 {
      assert msgs[i] in bytes;
      var k :| 0 <= k < |bytes| && bytes[k] == msgs[i];
      assert quorums[k] in quorums;
    }
    assert DistinctBy(Identity(), bytes);
    DistinctPermutes(Identity(), bytes, msgs);
    forall i, j | 0 <= i < j < |msgs| ensures msgs[i] != msgs[j] {
      assert Identity()(msgs[i]) != Identity()(msgs[j]);
    }
    SortedImages(sha, bytes);
  }

  /** Sorting messages by digest and then hashing is hashing and then sorting. */
  lemma SortedImages(sha: seq<byte> -> Digest, bytes: seq<seq<byte>>)
    ensures Map(sha, StableSort(ByKey((m: seq<byte>) => sha(m)), bytes)) == StableSort(DigestOrder, Map(sha, bytes))
  {
    var byDigest := ByKey((m: seq<byte>) => sha(m));
    var sorted := StableSort(byDigest, bytes);
    ByKeyIsPreorder((m: seq<byte>) => sha(m));
    SortSorts(byDigest, bytes);
    SortPermutes(byDigest, bytes);
    MapPermutes(sha, sorted, bytes);
    var images := Map(sha, sorted);
    forall i, j | 0 <= i < j < |images| ensures DigestOrder(images[i], images[j]) {
      assert byDigest(sorted[i], sorted[j]);
    }
    DigestSort(Map(sha, bytes));
    forall x: Digest, y: Digest | LexLe(x, y) && LexLe(y, x) ensures x == y { LexTotal(x, y); }
    SortedUnique(DigestOrder, images, StableSort(DigestOrder, Map(sha, bytes)));
  }

  /** And the quorum root pins the quorum set, public keys included. */
  lemma QuorumRootBindsSet(sha: seq<byte> -> Digest, sizes: map<int, nat>, a: seq<Quorum>, b: seq<Quorum>)
    requires |a| > 0 && |b| > 0 && Acceptable(sizes, a) && Acceptable(sizes, b)
    requires NoCollision(sha,
      Preimages(sha, QuorumMessages(sha, sizes, a)) + Preimages(sha, QuorumMessages(sha, sizes, b)))
    requires QuorumSetRoot(sha, sizes, a) == QuorumSetRoot(sha, sizes, b)
    ensures multiset(Map(QuorumBytes(sizes), a)) == multiset(Map(QuorumBytes(sizes), b))
    ensures forall x :: x in a ==> exists y :: y in b && SameQuorum(x, y)
  {
    SortedQuorums(sha, sizes, a);
    SortedQuorums(sha, sizes, b);
    RootBindsMessages(sha, QuorumMessages(sha, sizes, a), QuorumMessages(sha, sizes, b));
    forall x | x in a ensures exists y :: y in b && SameQuorum(x, y) {
      var y := ImageMatches(QuorumBytes(sizes), a, b, x);
      SerializationBindsQuorum(x, y, sizes);
    }
  }
}

/** The canonical share encoding, and why a collision-free hash of it identifies shares. */
module ShareCodec {
  import opened Basics
  import opened Bytes
  import opened Layouts
  import opened Shares
  import opened ShareTree
  import opened TreeInvariant
  import opened Agreement
  import opened Pplns

  const MAGIC: ByteString := [0x5A, 0x50, 0x32, 0x53]
  const HEADER_SIZE: nat := 5
  const V1_SIZE: nat := 165
  const V2_SIZE: nat := 229

  const COMMON_WIDTHS: seq<nat> := [32, 8, 8, 8, 32, 8, 16, 16, 32]
  const PAYOUT_WIDTHS: seq<nat> := [32, 32]

  function CommonValues(s: Share): seq<nat> {
    [s.parent, s.height, s.timestamp, s.zanoHeight, s.header, s.nonce,
     s.difficulty, s.networkDifficulty, s.miner]
  }

  function SerializeShare(s: Share, minerOf: PayoutKeys -> MinerId): Outcome<ByteString> {
    if s.version != 1 && s.version != 2 then Thrown
    else if s.version == 1 && s.payout.Some? then Thrown
    else if s.version == 2 && (s.payout.None? || s.miner != minerOf(s.payout.value)) then Thrown
    else
      var common := MAGIC + [s.version] + EncodeAll(CommonValues(s), COMMON_WIDTHS);
      Value(if s.version == 1 then common
            else common + EncodeAll([s.payout.value.spend, s.payout.value.view], PAYOUT_WIDTHS))
  }

  function ExpectedSize(version: U8): nat {
    if version == 1 then V1_SIZE else if version == 2 then V2_SIZE else 0
  }

  lemma FieldRanges(v: seq<nat>)
    requires Fits(v, COMMON_WIDTHS)
    ensures |v| == 9
    ensures v[1] <= U64_MAX && v[2] <= U64_MAX && v[3] <= U64_MAX && v[5] <= U64_MAX
    ensures v[6] < TWO_128 && v[7] < TWO_128
    ensures v[0] < TWO_256 && v[4] < TWO_256 && v[8] < TWO_256
  {
    Pow256Of32();
    hide Pow256;
    assert v[1] < Pow256(8) && v[2] < Pow256(8) && v[3] < Pow256(8) && v[5] < Pow256(8);
    assert v[6] < Pow256(16) && v[7] < Pow256(16);
    assert v[0] < Pow256(32) && v[4] < Pow256(32) && v[8] < Pow256(32);
  }

  /** The fields that both versions share. */
  function CommonShare(version: U8, v: seq<nat>): Share
    requires Fits(v, COMMON_WIDTHS)
  {
    FieldRanges(v);
    Share(version, v[0], v[1], v[2], v[3], v[4], v[5], v[6], v[7], v[8], None)
  }

  function DeserializeShare(b: ByteString, minerOf: PayoutKeys -> MinerId): Outcome<Share> {
    SizeOfCommon();
    if |b| < HEADER_SIZE || b[..4] != MAGIC then Thrown
    else if ExpectedSize(b[4]) == 0 || |b| != ExpectedSize(b[4]) then Thrown
    else
      var v := DecodeAll(b[HEADER_SIZE..], COMMON_WIDTHS);
      DecodedFits(b[HEADER_SIZE..], COMMON_WIDTHS);
      var share := CommonShare(b[4], v);
      if b[4] == 1 then Value(share)
      else
        var keys := DecodeAll(b[V1_SIZE..], PAYOUT_WIDTHS);
        var payout := PayoutKeys(keys[0], keys[1]);
        if share.miner != minerOf(payout) then Thrown else Value(share.(payout := Some(payout)))
  }

  lemma SizeOfCommon()
    ensures Size(COMMON_WIDTHS) == V1_SIZE - HEADER_SIZE && Size(PAYOUT_WIDTHS) == V2_SIZE - V1_SIZE
    ensures |COMMON_WIDTHS| == 9 && |PAYOUT_WIDTHS| == 2
  {
    assert COMMON_WIDTHS[1..] == [8, 8, 8, 32, 8, 16, 16, 32];
    assert COMMON_WIDTHS[1..][1..] == [8, 8, 32, 8, 16, 16, 32];
    assert [8, 8, 32, 8, 16, 16, 32][1..] == [8, 32, 8, 16, 16, 32];
    assert [8, 32, 8, 16, 16, 32][1..] == [32, 8, 16, 16, 32];
    assert [32, 8, 16, 16, 32][1..] == [8, 16, 16, 32];
    assert [8, 16, 16, 32][1..] == [16, 16, 32];
    assert [16, 16, 32][1..] == [16, 32];
    assert [16, 32][1..] == [32];
    assert PAYOUT_WIDTHS[1..] == [32];
  }

  lemma CommonFits(s: Share)
    requires Ranged(s)
    ensures Fits(CommonValues(s), COMMON_WIDTHS)
    ensures CommonShare(s.version, CommonValues(s)) == s.(payout := None)
  {
    Pow256Of32();
  }

  /** A share has an encoding exactly when it is encodable; the encoding has the size of its version. */
  lemma EncodableIsSerializable(s: Share, minerOf: PayoutKeys -> MinerId)
    requires Ranged(s)
    ensures SerializeShare(s, minerOf).Value? <==> Encodable(s, minerOf)
    ensures SerializeShare(s, minerOf).Value? ==> |SerializeShare(s, minerOf).value| == ExpectedSize(s.version)
  {
    hide EncodeAll;
    SizeOfCommon();
  }

  /** The parts of an encoding. */
  lemma Parts(s: Share, minerOf: PayoutKeys -> MinerId)
    requires Encodable(s, minerOf)
    ensures var b := SerializeShare(s, minerOf).value;
      && |b| == ExpectedSize(s.version) && b[..4] == MAGIC && b[4] == s.version
      && b[HEADER_SIZE..V1_SIZE] == EncodeAll(CommonValues(s), COMMON_WIDTHS)
      && (s.version == 2 ==> b[V1_SIZE..] == EncodeAll([s.payout.value.spend, s.payout.value.view], PAYOUT_WIDTHS))
  {
    SizeOfCommon();
    hide EncodeAll;
  }

  lemma {:induction false} PrefixDecodes(b: ByteString, widths: seq<nat>, n: nat)
    requires Size(widths) == n <= |b|
    ensures DecodeAll(b[..n], widths) == DecodeAll(b, widths)
  {
    hide BigEndian;
    if widths != [] {
      var w := widths[0];
      assert b[..n][..w] == b[..w] && b[..n][w..] == b[w..][..n - w];
      PrefixDecodes(b[w..], widths[1..], n - w);
    }
  }

  lemma CommonDecodes(b: ByteString)
    requires |b| >= V1_SIZE
    ensures Size(COMMON_WIDTHS) == V1_SIZE - HEADER_SIZE
    ensures DecodeAll(b[HEADER_SIZE..], COMMON_WIDTHS) == DecodeAll(b[HEADER_SIZE..V1_SIZE], COMMON_WIDTHS)
  {
    SizeOfCommon();
    assert b[HEADER_SIZE..][..V1_SIZE - HEADER_SIZE] == b[HEADER_SIZE..V1_SIZE];
    PrefixDecodes(b[HEADER_SIZE..], COMMON_WIDTHS, V1_SIZE - HEADER_SIZE);
  }

  /** Decoding undoes encoding. */
  lemma DecodeEncode(s: Share, minerOf: PayoutKeys -> MinerId)
    requires Encodable(s, minerOf)
    ensures SerializeShare(s, minerOf).Value?
    ensures DeserializeShare(SerializeShare(s, minerOf).value, minerOf) == Value(s)
  {
    SizeOfCommon();
    Parts(s, minerOf);
    CommonFits(s);
    var b := SerializeShare(s, minerOf).value;
    hide EncodeAll, DecodeAll, SerializeShare, CommonValues, CommonShare;
    CommonDecodes(b);
    FieldsRoundTrip(CommonValues(s), COMMON_WIDTHS);
    if s.version == 2 {
      var keys := [s.payout.value.spend, s.payout.value.view];
      KeysFit(s.payout.value);
      FieldsRoundTrip(keys, PAYOUT_WIDTHS);
    }
  }

  lemma KeysFit(keys: PayoutKeys)
    requires KeysRanged(keys)
    ensures Fits([keys.spend, keys.view], PAYOUT_WIDTHS)
  {
    Pow256Of32();
  }

  lemma DecodedCommon(b: ByteString, minerOf: PayoutKeys -> MinerId)
    requires DeserializeShare(b, minerOf).Value?
    ensures var s := DeserializeShare(b, minerOf).value;
      && s.version == b[4] && (b[4] == 1 || b[4] == 2) && |b| == ExpectedSize(b[4]) && b[..4] == MAGIC
      && EncodeAll(CommonValues(s), COMMON_WIDTHS) == b[HEADER_SIZE..V1_SIZE]
      && Ranged(s.(payout := None)) && (s.version == 1 ==> s.payout.None?)
  {
    SizeOfCommon();
    CommonDecodes(b);
    var v := DecodeAll(b[HEADER_SIZE..V1_SIZE], COMMON_WIDTHS);
    DecodedFits(b[HEADER_SIZE..V1_SIZE], COMMON_WIDTHS);
    CommonBack(b[4], v);
    BytesRoundTrip(b[HEADER_SIZE..V1_SIZE], COMMON_WIDTHS);
    hide EncodeAll, DecodeAll, CommonShare, Fits;
  }

  lemma DecodedPayout(b: ByteString, minerOf: PayoutKeys -> MinerId)
    requires DeserializeShare(b, minerOf).Value? && b[4] == 2
    ensures var s := DeserializeShare(b, minerOf).value;
      && s.payout.Some? && s.miner == minerOf(s.payout.value)
      && KeysRanged(s.payout.value)
      && EncodeAll([s.payout.value.spend, s.payout.value.view], PAYOUT_WIDTHS) == b[V1_SIZE..]
  {
    SizeOfCommon();
    var keys := DecodeAll(b[V1_SIZE..], PAYOUT_WIDTHS);
    DecodedFits(b[V1_SIZE..], PAYOUT_WIDTHS);
    BytesRoundTrip(b[V1_SIZE..], PAYOUT_WIDTHS);
    KeysInRange(keys);
    assert keys == [keys[0], keys[1]];
    hide EncodeAll, DecodeAll, CommonShare, Fits;
  }

  /** Whatever the decoder accepts is exactly the encoding of what it returned. */
  lemma EncodeDecode(b: ByteString, minerOf: PayoutKeys -> MinerId)
    requires DeserializeShare(b, minerOf).Value?
    ensures var s := DeserializeShare(b, minerOf).value;
      Encodable(s, minerOf) && SerializeShare(s, minerOf) == Value(b)
  {
    hide DeserializeShare, EncodeAll, CommonValues;
    DecodedCommon(b, minerOf);
    assert b == b[..4] + [b[4]] + b[HEADER_SIZE..V1_SIZE] + b[V1_SIZE..];
    if b[4] == 2 {
      DecodedPayout(b, minerOf);
    } else {
      assert b[V1_SIZE..] == [];
      assert b == b[..4] + [b[4]] + b[HEADER_SIZE..V1_SIZE];
    }
  }

  lemma KeysInRange(keys: seq<nat>)
    requires Fits(keys, PAYOUT_WIDTHS)
    ensures KeysRanged(PayoutKeys(keys[0], keys[1]))
  {
    Pow256Of32();
  }

  lemma CommonBack(version: U8, v: seq<nat>)
    requires Fits(v, COMMON_WIDTHS)
    ensures CommonValues(CommonShare(version, v)) == v && Ranged(CommonShare(version, v))
    ensures CommonShare(version, v).version == version && CommonShare(version, v).payout.None?
  {
    FieldRanges(v);
  }

  /** A collision: different inputs, one hash. */
  ghost predicate Collision(hash: ByteString -> Hash256, x: ByteString, y: ByteString) {
    x != y && hash(x) == hash(y)
  }

  /** Identifiers are hashes of encodings. */
  ghost predicate HashedIds(rules: Rules, hash: ByteString -> Hash256) {
    forall s | Encodable(s, rules.minerOf) ::
      SerializeShare(s, rules.minerOf).Value? && rules.idOf(s) == hash(SerializeShare(s, rules.minerOf).value)
  }

  /** Two shares with one identifier are one share, or their encodings are a collision of the hash. */
  lemma HashingIdentifies(rules: Rules, hash: ByteString -> Hash256, s: Share, t: Share)
    requires HashedIds(rules, hash) && Encodable(s, rules.minerOf) && Encodable(t, rules.minerOf)
    requires rules.idOf(s) == rules.idOf(t)
    ensures SerializeShare(s, rules.minerOf).Value? && SerializeShare(t, rules.minerOf).Value?
    ensures s == t ||
      Collision(hash, SerializeShare(s, rules.minerOf).value, SerializeShare(t, rules.minerOf).value)
  {
    hide SerializeShare, DeserializeShare;
    DecodeEncode(s, rules.minerOf);
    DecodeEncode(t, rules.minerOf);
  }

  /** The encodings of two shares are a collision of the hash. */
  ghost predicate EncodingsCollide(rules: Rules, hash: ByteString -> Hash256, s: Share, t: Share) {
    var x, y := SerializeShare(s, rules.minerOf), SerializeShare(t, rules.minerOf);
    x.Value? && y.Value? && Collision(hash, x.value, y.value)
  }

  /** So where two nodes may disagree about a share they both hold, the encodings of two of its ancestors
      are a collision of the hash. */
  lemma DisagreementIsCollision(rules: Rules, hash: ByteString -> Hash256, a: Chain, b: Chain, p: ShareId)
    returns (id: ShareId)
    requires Reachable(rules, ConsistentRecords(), a) && Reachable(rules, ConsistentRecords(), b)
    requires HashedIds(rules, hash) && !NoCollision(rules, a.tree, b.tree, p)
    ensures Descends(a.tree, p, id) && Descends(b.tree, p, id) && id in a.tree && id in b.tree
    ensures EncodingsCollide(rules, hash, a.tree[id].share, b.tree[id].share)
  {
    InvOf(rules, a);
    InvOf(rules, b);
    hide Reachable, SerializeShare, HashedIds;
    id :| Descends(a.tree, p, id) && Descends(b.tree, p, id) && Collide(rules, a.tree, b.tree, id);
    assert NodeOk(rules, a.tree, id) && NodeOk(rules, b.tree, id);
    HashingIdentifies(rules, hash, a.tree[id].share, b.tree[id].share);
  }

  const MINER_DOMAIN: ByteString := [0x5A, 0x50, 0x32, 0x50, 0x00]

  function MinerPreimage(keys: PayoutKeys): ByteString {
    MINER_DOMAIN + EncodeAll([keys.spend, keys.view], PAYOUT_WIDTHS)
  }

  /** Miner identifiers are hashes of the payout keys under their own domain. */
  ghost predicate HashedMiners(rules: Rules, hash: ByteString -> Hash256) {
    forall keys | KeysRanged(keys) :: rules.minerOf(keys) == hash(MinerPreimage(keys))
  }

  /** Two pairs of payout keys that name one miner are one pair, or their preimages are a collision. */
  lemma HashingIdentifiesMiners(rules: Rules, hash: ByteString -> Hash256, a: PayoutKeys, b: PayoutKeys)
    requires HashedMiners(rules, hash) && KeysRanged(a) && KeysRanged(b) && rules.minerOf(a) == rules.minerOf(b)
    ensures a == b || Collision(hash, MinerPreimage(a), MinerPreimage(b))
  {
    KeysFit(a);
    KeysFit(b);
    var x, y := [a.spend, a.view], [b.spend, b.view];
    FieldsRoundTrip(x, PAYOUT_WIDTHS);
    FieldsRoundTrip(y, PAYOUT_WIDTHS);
    hide EncodeAll, DecodeAll;
    if MinerPreimage(a) == MinerPreimage(b) {
      DomainPrefix(EncodeAll(x, PAYOUT_WIDTHS), EncodeAll(y, PAYOUT_WIDTHS));
      assert x[0] == y[0] && x[1] == y[1];
    }
  }

  /** So a window that a share's ancestry entitles it to fails only by a collision of the hash. */
  lemma NoWindowIsCollision(rules: Rules, hash: ByteString -> Hash256, c: Chain, p: ShareId, requested: nat)
    returns (a: PayoutKeys, b: PayoutKeys)
    requires Reachable(rules, ConsistentRecords(), c) && HashedMiners(rules, hash)
    requires p in c.tree && p != NO_SHARE && requested > 0 && (rules.policy.Some? ==> c.tree[p].validated)
    requires Build(rules, c.tree, p, requested).Thrown?
    ensures Collision(hash, MinerPreimage(a), MinerPreimage(b))
    ensures exists s, t :: s in Branch(c.tree, p) && t in Branch(c.tree, p) && s.payout == Some(a) && t.payout == Some(b)
  {
    NoWindowMeansCollision(rules, c, p, requested);
    hide Reachable, Branch, Build, HashedMiners, MinerPreimage;
    var s, t :| s in Branch(c.tree, p) && t in Branch(c.tree, p) && MinersCollide(rules, s, t);
    a, b := s.payout.value, t.payout.value;
    HashingIdentifiesMiners(rules, hash, a, b);
  }

  lemma DomainPrefix(a: ByteString, b: ByteString)
    requires MINER_DOMAIN + a == MINER_DOMAIN + b
    ensures a == b
  {
    assert (MINER_DOMAIN + a)[|MINER_DOMAIN|..] == a;
    assert (MINER_DOMAIN + b)[|MINER_DOMAIN|..] == b;
  }
}

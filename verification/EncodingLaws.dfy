/** Where each field lies in the encodings of a share and of a validation snapshot. */
module EncodingLaws {
  import opened Basics
  import opened Bytes
  import opened Layouts
  import opened Shares
  import opened Records
  import ReplayStore
  import ShareCodec

  // ---- Fields of a layout ----------------------------------------------------------------------

  ghost function Offset(widths: seq<nat>, k: nat): nat
    requires k <= |widths|
  {
    if k == 0 then 0 else Offset(widths, k - 1) + widths[k - 1]
  }

  lemma {:induction false} OffsetTail(widths: seq<nat>, k: nat)
    requires 0 < k <= |widths|
    ensures Offset(widths, k) == widths[0] + Offset(widths[1..], k - 1)
  {
    if k > 1 {
      OffsetTail(widths, k - 1);
    }
  }

  lemma TailSlice(head: ByteString, rest: ByteString, from: nat, to: nat)
    requires from <= to <= |rest|
    ensures (head + rest)[|head| + from..|head| + to] == rest[from..to]
  {
    var left := (head + rest)[|head| + from..|head| + to];
    assert |left| == to - from && forall i | 0 <= i < to - from :: left[i] == rest[from + i];
  }

  lemma EncodeFirst(values: seq<nat>, widths: seq<nat>)
    requires |values| == |widths| > 0
    ensures EncodeAll(values, widths) == Encode(values[0], widths[0]) + EncodeAll(values[1..], widths[1..])
    ensures Size(widths) == widths[0] + Size(widths[1..])
    ensures EncodeAll(values, widths)[..widths[0]] == Encode(values[0], widths[0])
  {
  }

  lemma {:induction false} FieldAt(values: seq<nat>, widths: seq<nat>, k: nat)
    requires |values| == |widths| && k < |widths|
    ensures Offset(widths, k) + widths[k] <= Size(widths)
    ensures EncodeAll(values, widths)[Offset(widths, k)..Offset(widths, k) + widths[k]] == Encode(values[k], widths[k])
    decreases k
  {
    hide EncodeAll, Encode, Size;
    EncodeFirst(values, widths);
    if k > 0 {
      OffsetTail(widths, k);
      FieldAt(values[1..], widths[1..], k - 1);
      var from := Offset(widths[1..], k - 1);
      TailSlice(Encode(values[0], widths[0]), EncodeAll(values[1..], widths[1..]), from, from + widths[k]);
    }
  }

  /** Bytes `from..to` hold `value` in big-endian order. */
  ghost predicate Holds(b: ByteString, from: nat, to: nat, value: nat) {
    from <= to <= |b| && BigEndian(b[from..to]) == value
  }

  lemma SliceOfSlice(b: ByteString, base: nat, size: nat, from: nat, to: nat)
    requires base + size <= |b| && from <= to <= size
    ensures b[base..base + size][from..to] == b[base + from..base + to]
  {
    var inner, outer := b[base..base + size][from..to], b[base + from..base + to];
    assert |inner| == |outer| && forall i | 0 <= i < |inner| :: inner[i] == b[base + from + i] == outer[i];
  }

  lemma FieldHolds(b: ByteString, base: nat, values: seq<nat>, widths: seq<nat>, k: nat)
    requires |values| == |widths| && k < |widths| && values[k] < Pow256(widths[k])
    requires base + Size(widths) <= |b| && b[base..base + Size(widths)] == EncodeAll(values, widths)
    ensures Holds(b, base + Offset(widths, k), base + Offset(widths, k) + widths[k], values[k])
  {
    hide EncodeAll, Encode, BigEndian, Offset, Size, Pow256;
    FieldAt(values, widths, k);
    EncodeRoundTrip(values[k], widths[k]);
    SliceOfSlice(b, base, Size(widths), Offset(widths, k), Offset(widths, k) + widths[k]);
  }

  // ---- Shares ----------------------------------------------------------------------------------

  lemma ShareOffsets()
    ensures var w := ShareCodec.COMMON_WIDTHS;
      && Offset(w, 0) == 0 && Offset(w, 1) == 32 && Offset(w, 2) == 40 && Offset(w, 3) == 48 && Offset(w, 4) == 56
      && Offset(w, 5) == 88 && Offset(w, 6) == 96 && Offset(w, 7) == 112 && Offset(w, 8) == 128
    ensures Offset(ShareCodec.PAYOUT_WIDTHS, 0) == 0 && Offset(ShareCodec.PAYOUT_WIDTHS, 1) == 32
  {
    var w := ShareCodec.COMMON_WIDTHS;
    assert Offset(w, 1) == 32 && Offset(w, 2) == 40 && Offset(w, 3) == 48 && Offset(w, 4) == 56;
    assert Offset(w, 5) == 88 && Offset(w, 6) == 96 && Offset(w, 7) == 112;
  }

  /** The encoding of a share that has one. */
  ghost function Encoding(s: Share, minerOf: PayoutKeys -> MinerId): ByteString
    requires Encodable(s, minerOf)
  {
    ShareCodec.EncodableIsSerializable(s, minerOf);
    ShareCodec.SerializeShare(s, minerOf).value
  }

  lemma CommonPart(s: Share, minerOf: PayoutKeys -> MinerId)
    requires Encodable(s, minerOf)
    ensures var b := Encoding(s, minerOf);
      && Size(ShareCodec.COMMON_WIDTHS) == 160 && |b| >= 165
      && b[5..165] == EncodeAll(ShareCodec.CommonValues(s), ShareCodec.COMMON_WIDTHS)
  {
    hide EncodeAll, ShareCodec.SerializeShare;
    ShareCodec.EncodableIsSerializable(s, minerOf);
    ShareCodec.Parts(s, minerOf);
    ShareCodec.SizeOfCommon();
  }

  lemma CommonField(s: Share, minerOf: PayoutKeys -> MinerId, k: nat, from: nat, to: nat)
    requires Encodable(s, minerOf) && k < 9
    requires from == 5 + Offset(ShareCodec.COMMON_WIDTHS, k) && to == from + ShareCodec.COMMON_WIDTHS[k]
    ensures Holds(Encoding(s, minerOf), from, to, ShareCodec.CommonValues(s)[k])
  {
    ShareCodec.CommonFits(s);
    hide EncodeAll, BigEndian, Encoding, Holds, Offset, Pow256, Size;
    CommonPart(s, minerOf);
    FieldHolds(Encoding(s, minerOf), 5, ShareCodec.CommonValues(s), ShareCodec.COMMON_WIDTHS, k);
  }

  /** The bytes of an encoded share. */
  lemma ShareLayout(s: Share, minerOf: PayoutKeys -> MinerId)
    requires Encodable(s, minerOf)
    ensures var b := Encoding(s, minerOf);
      && Holds(b, 5, 37, s.parent) && Holds(b, 37, 45, s.height) && Holds(b, 45, 53, s.timestamp)
      && Holds(b, 53, 61, s.zanoHeight) && Holds(b, 61, 93, s.header) && Holds(b, 93, 101, s.nonce)
      && Holds(b, 101, 117, s.difficulty) && Holds(b, 117, 133, s.networkDifficulty) && Holds(b, 133, 165, s.miner)
  {
    hide Holds, Encoding, Offset;
    ShareOffsets();
    CommonField(s, minerOf, 0, 5, 37);
    CommonField(s, minerOf, 1, 37, 45);
    CommonField(s, minerOf, 2, 45, 53);
    CommonField(s, minerOf, 3, 53, 61);
    CommonField(s, minerOf, 4, 61, 93);
    CommonField(s, minerOf, 5, 93, 101);
    CommonField(s, minerOf, 6, 101, 117);
    CommonField(s, minerOf, 7, 117, 133);
    CommonField(s, minerOf, 8, 133, 165);
  }

  /** Its first five bytes and its length. */
  lemma ShareHeader(s: Share, minerOf: PayoutKeys -> MinerId)
    requires Encodable(s, minerOf)
    ensures var b := Encoding(s, minerOf);
      |b| == (if s.version == 1 then 165 else 229) && b[..4] == [0x5A, 0x50, 0x32, 0x53] && b[4] == s.version
  {
    hide EncodeAll, ShareCodec.SerializeShare;
    ShareCodec.EncodableIsSerializable(s, minerOf);
    ShareCodec.Parts(s, minerOf);
  }

  lemma PayoutPart(s: Share, minerOf: PayoutKeys -> MinerId)
    requires Encodable(s, minerOf) && s.version == 2
    ensures var b := Encoding(s, minerOf);
      && Size(ShareCodec.PAYOUT_WIDTHS) == 64 && |b| == 229 && s.payout.Some?
      && b[165..229] == EncodeAll([s.payout.value.spend, s.payout.value.view], ShareCodec.PAYOUT_WIDTHS)
  {
    hide EncodeAll, ShareCodec.SerializeShare;
    ShareCodec.EncodableIsSerializable(s, minerOf);
    ShareCodec.Parts(s, minerOf);
    ShareCodec.SizeOfCommon();
    var b := Encoding(s, minerOf);
    assert b[165..229] == b[165..];
  }

  /** The payout keys of an encoded version 2 share. */
  lemma PayoutLayout(s: Share, minerOf: PayoutKeys -> MinerId)
    requires Encodable(s, minerOf) && s.version == 2
    ensures s.payout.Some?
    ensures var b := Encoding(s, minerOf);
      Holds(b, 165, 197, s.payout.value.spend) && Holds(b, 197, 229, s.payout.value.view)
  {
    Pow256Of32();
    hide EncodeAll, BigEndian, Encoding, Holds, Offset, Pow256, Size;
    ShareOffsets();
    PayoutPart(s, minerOf);
    var values := [s.payout.value.spend, s.payout.value.view];
    FieldHolds(Encoding(s, minerOf), 165, values, ShareCodec.PAYOUT_WIDTHS, 0);
    FieldHolds(Encoding(s, minerOf), 165, values, ShareCodec.PAYOUT_WIDTHS, 1);
  }

  // ---- Validation snapshots --------------------------------------------------------------------

  lemma RecordOffsets()
    ensures var w := ReplayStore.RECORD_WIDTHS;
      && Offset(w, 0) == 0 && Offset(w, 1) == 32 && Offset(w, 2) == 64 && Offset(w, 3) == 96
      && Offset(w, 4) == 97 && Offset(w, 5) == 98
    ensures var w := ReplayStore.PREFIX_WIDTHS;
      Offset(w, 0) == 0 && Offset(w, 1) == 32 && Offset(w, 2) == 40 && Offset(w, 3) == 72
  {
    var w := ReplayStore.RECORD_WIDTHS;
    assert Offset(w, 1) == 32 && Offset(w, 2) == 64 && Offset(w, 3) == 96 && Offset(w, 4) == 97;
  }

  lemma OneByte(b: ByteString, at: nat, value: nat)
    requires Holds(b, at, at + 1, value)
    ensures at < |b| && b[at] == value
  {
    assert b[at..at + 1] == [b[at]];
    assert BigEndian([]) == 0;
    assert [b[at]][..0] == [];
  }

  lemma RecordField(rec: Record, k: nat, from: nat, to: nat)
    requires ReplayStore.RecordValid(rec) && ReplayStore.RecordRanged(rec) && k < 6
    requires from == Offset(ReplayStore.RECORD_WIDTHS, k) && to == from + ReplayStore.RECORD_WIDTHS[k]
    ensures Holds(ReplayStore.EncodeRecord(rec), from, to, ReplayStore.RecordValues(rec)[k])
  {
    Pow256Of32();
    assert Pow256(1) == 256;
    hide EncodeAll, BigEndian, Holds, Offset, Pow256, Size;
    ReplayStore.RecordLayout();
    var b, values := ReplayStore.EncodeRecord(rec), ReplayStore.RecordValues(rec);
    assert b[0..99] == b;
    FieldHolds(b, 0, values, ReplayStore.RECORD_WIDTHS, k);
  }

  /** The 99 bytes of a validation record. */
  lemma RecordLayout(rec: Record)
    requires ReplayStore.RecordValid(rec) && ReplayStore.RecordRanged(rec)
    ensures var b, v := ReplayStore.EncodeRecord(rec), rec.validation;
      && |b| == 99
      && Holds(b, 0, 32, rec.id) && Holds(b, 32, 64, v.pow.finalHash) && Holds(b, 64, 96, v.pow.mixHash)
      && b[96] == (if v.meetsShare then 1 else 0) && b[97] == (if v.meetsNetwork then 1 else 0)
      && b[98] == (if v.classification == ShareClass then 1 else 2)
  {
    hide Holds, Offset, ReplayStore.EncodeRecord;
    RecordOffsets();
    var b, values := ReplayStore.EncodeRecord(rec), ReplayStore.RecordValues(rec);
    RecordField(rec, 0, 0, 32);
    RecordField(rec, 1, 32, 64);
    RecordField(rec, 2, 64, 96);
    RecordField(rec, 3, 96, 97);
    RecordField(rec, 4, 97, 98);
    RecordField(rec, 5, 98, 99);
    OneByte(b, 96, values[3]);
    OneByte(b, 97, values[4]);
    OneByte(b, 98, values[5]);
  }

  lemma PrefixField(b: ByteString, sidechain: Hash256, s: ReplayStore.Snapshot, k: nat, from: nat, to: nat)
    requires sidechain < TWO_256 && s.checkpoint.blockHash < TWO_256 && |s.records| <= U64_MAX && k < 4
    requires |b| >= 88 && b[..88] == ReplayStore.Prefix(sidechain, s.checkpoint, |s.records|)
    requires from == 8 + Offset(ReplayStore.PREFIX_WIDTHS, k) && to == from + ReplayStore.PREFIX_WIDTHS[k]
    ensures Holds(b, from, to, [sidechain, s.checkpoint.zanoHeight, s.checkpoint.blockHash, |s.records|][k])
  {
    Pow256Of32();
    hide EncodeAll, BigEndian, Holds, Offset, Pow256, Size;
    ReplayStore.RecordLayout();
    var values := [sidechain, s.checkpoint.zanoHeight, s.checkpoint.blockHash, |s.records|];
    SliceOfSlice(b, 0, 88, 8, 88);
    FieldHolds(b, 8, values, ReplayStore.PREFIX_WIDTHS, k);
  }

  lemma PrefixSize(sidechain: Hash256, checkpoint: ReplayStore.Checkpoint, n: nat)
    ensures var p := ReplayStore.Prefix(sidechain, checkpoint, n);
      |p| == 88 && p[..8] == [0x5A, 0x50, 0x32, 0x56, 0x41, 0x4C, 0x30, 0x31]
  {
    hide EncodeAll, Size;
    ReplayStore.RecordLayout();
  }

  /** The three parts of a stored snapshot. */
  lemma SnapshotParts(hash: ReplayStore.Digest, sidechain: Hash256, s: ReplayStore.Snapshot)
    requires ReplayStore.ValidSnapshot(s)
    ensures ReplayStore.Serialize(hash, sidechain, s).Value?
    ensures ReplayStore.AllValid(ReplayStore.SortRecords(s.records)) && |ReplayStore.SortRecords(s.records)| == |s.records|
    ensures var b, n := ReplayStore.Serialize(hash, sidechain, s).value, |s.records|;
      && |b| == 88 + 99 * n + 32
      && b[..88] == ReplayStore.Prefix(sidechain, s.checkpoint, n)
      && b[88..88 + 99 * n] == ReplayStore.EncodeRecords(ReplayStore.SortRecords(s.records))
      && b[88 + 99 * n..] == Encode(hash(b[..88 + 99 * n]), 32)
  {
    hide ReplayStore.Prefix, ReplayStore.EncodeRecords, ReplayStore.SortRecords, Encode;
    ReplayStore.SortedRecords(s.records);
    var sorted, n := ReplayStore.SortRecords(s.records), |s.records|;
    assert |sorted| == |multiset(sorted)| == |multiset(s.records)| == n;
    var prefix := ReplayStore.Prefix(sidechain, s.checkpoint, n);
    PrefixSize(sidechain, s.checkpoint, n);
    ThreeParts(prefix, ReplayStore.EncodeRecords(sorted), Encode(hash(prefix + ReplayStore.EncodeRecords(sorted)), 32));
  }

  lemma ThreeParts(x: ByteString, y: ByteString, z: ByteString)
    ensures var b := x + y + z;
      && b[..|x|] == x && b[|x|..|x| + |y|] == y && b[|x| + |y|..] == z && b[..|x| + |y|] == x + y
  {
  }

  /** A stored snapshot: 88 bytes about the checkpoint, then 99 bytes per record, then the digest of everything
      before it. */
  lemma SnapshotLayout(hash: ReplayStore.Digest, sidechain: Hash256, s: ReplayStore.Snapshot)
    requires ReplayStore.ValidSnapshot(s) && ReplayStore.DigestRange(hash)
    requires sidechain < TWO_256 && s.checkpoint.blockHash < TWO_256
    ensures ReplayStore.Serialize(hash, sidechain, s).Value?
    ensures var b, n := ReplayStore.Serialize(hash, sidechain, s).value, |s.records|;
      && |b| == 88 + 99 * n + 32
      && b[..8] == [0x5A, 0x50, 0x32, 0x56, 0x41, 0x4C, 0x30, 0x31]
      && Holds(b, 8, 40, sidechain) && Holds(b, 40, 48, s.checkpoint.zanoHeight)
      && Holds(b, 48, 80, s.checkpoint.blockHash) && Holds(b, 80, 88, n)
      && Holds(b, 88 + 99 * n, |b|, hash(b[..88 + 99 * n]))
  {
    SnapshotParts(hash, sidechain, s);
    hide ReplayStore.Prefix, ReplayStore.Serialize, Encode, Offset, ReplayStore.EncodeRecords;
    var b, n := ReplayStore.Serialize(hash, sidechain, s).value, |s.records|;
    PrefixSize(sidechain, s.checkpoint, n);
    assert b[..8] == b[..88][..8];
    DigestHolds(b, 88 + 99 * n, hash(b[..88 + 99 * n]));
    hide Holds;
    RecordOffsets();
    PrefixField(b, sidechain, s, 0, 8, 40);
    PrefixField(b, sidechain, s, 1, 40, 48);
    PrefixField(b, sidechain, s, 2, 48, 80);
    PrefixField(b, sidechain, s, 3, 80, 88);
  }

  lemma DigestHolds(b: ByteString, at: nat, digest: Hash256)
    requires at <= |b| && b[at..] == Encode(digest, 32) && digest < TWO_256
    ensures Holds(b, at, |b|, digest)
  {
    Pow256Of32();
    EncodeRoundTrip(digest, 32);
    hide Encode, BigEndian, Pow256;
    assert b[at..|b|] == b[at..];
  }

  lemma {:induction false} RecordsLayout(records: seq<Record>, i: nat)
    requires ReplayStore.AllValid(records) && i < |records|
    ensures |ReplayStore.EncodeRecords(records)| == 99 * |records|
    ensures ReplayStore.RecordValid(records[i])
    ensures ReplayStore.EncodeRecords(records)[99 * i..99 * i + 99] == ReplayStore.EncodeRecord(records[i])
  {
    hide ReplayStore.EncodeRecord;
    var last := |records| - 1;
    if i < last {
      RecordsLayout(records[..last], i);
    }
  }

  /** Record `i`, in identifier order, is bytes `88 + 99 * i` to `187 + 99 * i` of the snapshot. */
  lemma RecordsInOrder(hash: ReplayStore.Digest, sidechain: Hash256, s: ReplayStore.Snapshot, i: nat)
    requires ReplayStore.ValidSnapshot(s) && i < |s.records|
    ensures ReplayStore.Serialize(hash, sidechain, s).Value?
    ensures var b, sorted := ReplayStore.Serialize(hash, sidechain, s).value, ReplayStore.SortRecords(s.records);
      && |b| == 88 + 99 * |s.records| + 32 && |sorted| == |s.records|
      && multiset(sorted) == multiset(s.records) && ReplayStore.RecordValid(sorted[i])
      && b[88 + 99 * i..88 + 99 * i + 99] == ReplayStore.EncodeRecord(sorted[i])
      && (i > 0 ==> sorted[i - 1].id < sorted[i].id)
  {
    SnapshotParts(hash, sidechain, s);
    ReplayStore.SortedRecords(s.records);
    ReplayStore.SortedIsStrict(s.records);
    hide ReplayStore.Prefix, ReplayStore.Serialize, ReplayStore.EncodeRecords, ReplayStore.SortRecords,
         ReplayStore.EncodeRecord;
    var b, sorted := ReplayStore.Serialize(hash, sidechain, s).value, ReplayStore.SortRecords(s.records);
    RecordsLayout(sorted, i);
    SliceOfSlice(b, 88, 99 * |sorted|, 99 * i, 99 * i + 99);
  }
}

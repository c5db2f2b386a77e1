/** The validation store: a snapshot of validation records as bytes, with a digest. */
module ReplayStore {
  import opened Basics
  import opened Bytes
  import opened Layouts
  import opened Orders
  import opened Shares
  import opened Records

  const MAGIC: ByteString := [0x5A, 0x50, 0x32, 0x56, 0x41, 0x4C, 0x30, 0x31]
  const PREFIX_SIZE: nat := 88
  const RECORD_SIZE: nat := 99
  const DIGEST_SIZE: nat := 32
  const MAX_RECORDS: nat := 1000000

  const PREFIX_WIDTHS: seq<nat> := [32, 8, 32, 8]
  const RECORD_WIDTHS: seq<nat> := [32, 32, 32, 1, 1, 1]

  datatype Checkpoint = Checkpoint(zanoHeight: U64, blockHash: Hash256)
  datatype Snapshot = Snapshot(checkpoint: Checkpoint, records: seq<Record>)

  type Digest = ByteString -> Hash256

  ghost predicate DigestRange(hash: Digest) { forall b :: hash(b) < TWO_256 }

  // ---- One record ------------------------------------------------------------------------------

  /** What may be stored. */
  predicate RecordValid(rec: Record) { rec.id != 0 && Consistent(rec.validation) }

  predicate RecordRanged(rec: Record) {
    rec.id < TWO_256 && rec.validation.pow.finalHash < TWO_256 && rec.validation.pow.mixHash < TWO_256
  }

  function BoolByte(b: bool): U8 { if b then 1 else 0 }

  function ClassByte(c: Classification): U8
    requires c != Invalid
  {
    if c == ShareClass then 1 else 2
  }

  function RecordValues(rec: Record): seq<nat>
    requires RecordValid(rec)
  {
    var v := rec.validation;
    [rec.id, v.pow.finalHash, v.pow.mixHash, BoolByte(v.meetsShare), BoolByte(v.meetsNetwork),
     ClassByte(v.classification)]
  }

  function EncodeRecord(rec: Record): (b: ByteString)
    requires RecordValid(rec)
    ensures |b| == RECORD_SIZE
  {
    RecordLayout();
    EncodeAll(RecordValues(rec), RECORD_WIDTHS)
  }

  lemma RecordLayout()
    ensures Size(RECORD_WIDTHS) == RECORD_SIZE && Size(PREFIX_WIDTHS) == PREFIX_SIZE - |MAGIC|
  {
    assert RECORD_WIDTHS[1..] == [32, 32, 1, 1, 1] && [32, 32, 1, 1, 1][1..] == [32, 1, 1, 1];
    assert [32, 1, 1, 1][1..] == [1, 1, 1] && [1, 1, 1][1..] == [1, 1] && [1, 1][1..] == [1];
    assert PREFIX_WIDTHS[1..] == [8, 32, 8] && [8, 32, 8][1..] == [32, 8] && [32, 8][1..] == [8];
  }

  function RecordFrom(v: seq<nat>): Outcome<Record>
    requires |v| == 6
  {
    if v[3] > 1 || v[4] > 1 || (v[5] != 1 && v[5] != 2) then Thrown
    else
      var rec := Record(v[0], Validation(Pow(v[1], v[2]), v[3] != 0, v[4] != 0,
                                         if v[5] == 1 then ShareClass else BlockClass));
      if RecordValid(rec) then Value(rec) else Thrown
  }

  function DecodeRecord(b: ByteString): Outcome<Record>
    requires |b| == RECORD_SIZE
  {
    RecordLayout();
    RecordFrom(DecodeAll(b, RECORD_WIDTHS))
  }

  lemma RecordDecodeEncode(rec: Record)
    requires RecordValid(rec) && RecordRanged(rec)
    ensures DecodeRecord(EncodeRecord(rec)) == Value(rec)
  {
    Pow256Of32();
    var v := RecordValues(rec);
    assert Pow256(1) == 256;
    assert Fits(v, RECORD_WIDTHS);
    RecordLayout();
    FieldsRoundTrip(v, RECORD_WIDTHS);
    hide EncodeAll, DecodeAll;
    RecordFromValues(rec);
  }

  lemma RecordFromValues(rec: Record)
    requires RecordValid(rec)
    ensures RecordFrom(RecordValues(rec)) == Value(rec)
  {
  }

  lemma RecordEncodeDecode(b: ByteString)
    requires |b| == RECORD_SIZE && DecodeRecord(b).Value?
    ensures var rec := DecodeRecord(b).value;
      RecordValid(rec) && RecordRanged(rec) && EncodeRecord(rec) == b
  {
    RecordLayout();
    var v := DecodeAll(b, RECORD_WIDTHS);
    DecodedFits(b, RECORD_WIDTHS);
    BytesRoundTrip(b, RECORD_WIDTHS);
    Pow256Of32();
    assert v[0] < Pow256(32) && v[1] < Pow256(32) && v[2] < Pow256(32);
    hide EncodeAll, DecodeAll, Fits, Pow256;
    ValuesFromRecord(v);
  }

  lemma ValuesFromRecord(v: seq<nat>)
    requires |v| == 6 && RecordFrom(v).Value?
    ensures RecordValid(RecordFrom(v).value) && RecordValues(RecordFrom(v).value) == v
  {
  }

  // ---- Lists of records ------------------------------------------------------------------------

  ghost predicate AllValid(records: seq<Record>) {
    forall rec | rec in records :: RecordValid(rec)
  }

  ghost function EncodeRecords(records: seq<Record>): (b: ByteString)
    requires AllValid(records)
    ensures |b| == RECORD_SIZE * |records|
  {
    if records == [] then []
    else
      var last := |records| - 1;
      EncodeRecords(records[..last]) + EncodeRecord(records[last])
  }

  /** Strictly ascending by share identifier. */
  ghost predicate StrictlyOrdered(records: seq<Record>) {
    forall i, j | 0 <= i < j < |records| :: records[i].id < records[j].id
  }

  ghost predicate Storable(records: seq<Record>) {
    StrictlyOrdered(records) && AllValid(records) && forall rec | rec in records :: RecordRanged(rec)
  }

  /** Read `n` records, each valid and with a larger identifier than the one before. */
  function DecodeRecords(b: ByteString, n: nat): Outcome<seq<Record>>
    requires |b| == RECORD_SIZE * n
  {
    if n == 0 then Value([])
    else
      var cut := RECORD_SIZE * (n - 1);
      var front := DecodeRecords(b[..cut], n - 1);
      if front.Thrown? then Thrown
      else
        var rec := DecodeRecord(b[cut..]);
        if rec.Thrown? || (front.value != [] && front.value[|front.value| - 1].id >= rec.value.id) then Thrown
        else Value(front.value + [rec.value])
  }

  predicate Follows(records: seq<Record>, rec: Record) {
    records == [] || records[|records| - 1].id < rec.id
  }

  lemma EncodeAppend(records: seq<Record>, rec: Record)
    requires RecordValid(rec) && AllValid(records)
    ensures AllValid(records + [rec])
    ensures EncodeRecords(records + [rec]) == EncodeRecords(records) + EncodeRecord(rec)
  {
    assert (records + [rec])[..|records|] == records;
  }

  lemma DecodeAppend(b: ByteString, c: ByteString, n: nat)
    requires |b| == RECORD_SIZE * n && |c| == RECORD_SIZE
    ensures DecodeRecords(b + c, n + 1) ==
      var front, rec := DecodeRecords(b, n), DecodeRecord(c);
      if front.Thrown? || rec.Thrown? || !Follows(front.value, rec.value) then Thrown
      else Value(front.value + [rec.value])
  {
    hide DecodeRecord;
    assert (b + c)[..|b|] == b && (b + c)[|b|..] == c;
  }

  lemma StorableAppend(records: seq<Record>, rec: Record)
    ensures Storable(records + [rec]) <==>
      Storable(records) && RecordValid(rec) && RecordRanged(rec) && Follows(records, rec)
  {
    hide RecordValid, RecordRanged;
    var more := records + [rec];
    assert rec in more && forall r | r in records :: r in more;
    if Storable(more) {
      assert StrictlyOrdered(records) by {
        assert forall i | 0 <= i < |records| :: more[i] == records[i];
      }
      assert records != [] ==> more[|records| - 1].id < more[|records|].id;
    }
  }

  lemma StorableValid(records: seq<Record>)
    requires Storable(records)
    ensures AllValid(records)
  {
  }

  lemma {:induction false} RecordsDecodeEncode(records: seq<Record>)
    requires Storable(records)
    ensures DecodeRecords(EncodeRecords(records), |records|) == Value(records)
  {
    if records != [] {
      var front, rec := records[..|records| - 1], records[|records| - 1];
      assert records == front + [rec];
      StorableAppend(front, rec);
      RecordsDecodeEncode(front);
      RecordDecodeEncode(rec);
      hide EncodeRecord, DecodeRecord, EncodeRecords, DecodeRecords, RecordValid, RecordRanged, StrictlyOrdered;
      EncodeAppend(front, rec);
      DecodeAppend(EncodeRecords(front), EncodeRecord(rec), |front|);
    }
  }

  lemma {:induction false} RecordsEncodeDecode(b: ByteString, n: nat)
    requires |b| == RECORD_SIZE * n && DecodeRecords(b, n).Value?
    ensures var records := DecodeRecords(b, n).value;
      |records| == n && Storable(records) && AllValid(records) && EncodeRecords(records) == b
  {
    if n > 0 {
      var x, y := b[..RECORD_SIZE * (n - 1)], b[RECORD_SIZE * (n - 1)..];
      assert b == x + y;
      hide EncodeRecord, DecodeRecord, EncodeRecords, DecodeRecords, RecordValid, RecordRanged, Storable, AllValid;
      DecodeAppend(x, y, n - 1);
      RecordsEncodeDecode(x, n - 1);
      RecordEncodeDecode(y);
      var front, rec := DecodeRecords(x, n - 1).value, DecodeRecord(y).value;
      StorableAppend(front, rec);
      StorableValid(front);
      StorableValid(front + [rec]);
      EncodeAppend(front, rec);
    }
  }

  // ---- Snapshots -------------------------------------------------------------------------------

  predicate ById(a: Record, b: Record) { a.id < b.id }

  function SortRecords(records: seq<Record>): (sorted: seq<Record>)
    ensures |sorted| == |records|
  {
    SortBy(records, ById)
  }

  function Prefix(sidechain: Hash256, checkpoint: Checkpoint, count: nat): ByteString {
    MAGIC + EncodeAll([sidechain, checkpoint.zanoHeight, checkpoint.blockHash, count], PREFIX_WIDTHS)
  }

  /** The bytes of a snapshot whose records are in order. */
  ghost function Encoded(hash: Digest, sidechain: Hash256, s: Snapshot): ByteString
    requires AllValid(s.records)
  {
    var body := Prefix(sidechain, s.checkpoint, |s.records|) + EncodeRecords(s.records);
    body + Encode(hash(body), DIGEST_SIZE)
  }

  /** A snapshot that may be stored: a real checkpoint, not too many records, all valid, none twice. */
  ghost predicate ValidSnapshot(s: Snapshot) {
    && s.checkpoint.blockHash != 0 && |s.records| <= MAX_RECORDS
    && AllValid(s.records) && DistinctIds(s.records)
  }

  ghost function Serialize(hash: Digest, sidechain: Hash256, s: Snapshot): Outcome<ByteString> {
    if !ValidSnapshot(s) then Thrown
    else
      SortedRecords(s.records);
      Value(Encoded(hash, sidechain, s.(records := SortRecords(s.records))))
  }

  ghost predicate NonDecreasing(records: seq<Record>) {
    forall i, j | 0 <= i < j < |records| :: records[i].id <= records[j].id
  }

  lemma SortedRecords(records: seq<Record>)
    ensures NonDecreasing(SortRecords(records)) && multiset(SortRecords(records)) == multiset(records)
    ensures forall rec :: rec in SortRecords(records) <==> rec in records
    ensures AllValid(SortRecords(records)) <==> AllValid(records)
  {
    assert WeakOrder(ById);
    SortByWeak(records, ById);
    SameMembers(SortRecords(records), records);
  }

  /** After sorting, repeated identifiers are neighbours. */
  lemma SortedIsStrict(records: seq<Record>)
    ensures StrictlyOrdered(SortRecords(records)) <==> DistinctIds(records)
  {
    SortedRecords(records);
    hide SortRecords;
    var sorted := SortRecords(records);
    if DistinctIds(records) {
      DistinctIdsPermutation(records, sorted);
      forall i, j | 0 <= i < j < |sorted|
        ensures sorted[i].id < sorted[j].id
      {
      }
    }
    if StrictlyOrdered(sorted) {
      DistinctIdsPermutation(sorted, records);
    }
  }

  lemma {:induction false} StrictSortIsIdentity(records: seq<Record>)
    requires StrictlyOrdered(records)
    ensures SortRecords(records) == records
  {
    if records != [] {
      StrictSortIsIdentity(records[1..]);
      assert |records| > 1 ==> records[1..][0] == records[1];
      assert records == [records[0]] + records[1..];
    }
  }

  lemma StrictIsDistinct(records: seq<Record>)
    requires StrictlyOrdered(records)
    ensures DistinctIds(records)
  {
  }

  // ---- Parsing ---------------------------------------------------------------------------------

  /** The fields between the magic and the records. */
  function PrefixValues(b: ByteString): (v: seq<nat>)
    requires |b| >= PREFIX_SIZE
    ensures |v| == 4
  {
    RecordLayout();
    DecodeAll(b[|MAGIC|..PREFIX_SIZE], PREFIX_WIDTHS)
  }

  ghost function Parse(hash: Digest, sidechain: Hash256, b: ByteString): Outcome<Snapshot> {
    if |b| < PREFIX_SIZE + DIGEST_SIZE then Thrown
    else
      var body, digest := b[..|b| - DIGEST_SIZE], b[|b| - DIGEST_SIZE..];
      var v := PrefixValues(b);
      if hash(body) != BigEndian(digest) || b[..|MAGIC|] != MAGIC || v[0] != sidechain || v[2] == 0
         || v[3] > MAX_RECORDS || |b| != PREFIX_SIZE + RECORD_SIZE * v[3] + DIGEST_SIZE
      then Thrown
      else
        var records := DecodeRecords(body[PREFIX_SIZE..], v[3]);
        if records.Thrown? then Thrown
        else HeightFits(b); Value(Snapshot(Checkpoint(v[1], v[2]), records.value))
  }

  lemma HeightFits(b: ByteString)
    requires |b| >= PREFIX_SIZE
    ensures Fits(PrefixValues(b), PREFIX_WIDTHS)
    ensures PrefixValues(b)[1] <= U64_MAX && PrefixValues(b)[0] < TWO_256 && PrefixValues(b)[2] < TWO_256
  {
    RecordLayout();
    DecodedFits(b[|MAGIC|..PREFIX_SIZE], PREFIX_WIDTHS);
    Pow256Of32();
    hide DecodeAll;
    assert PrefixValues(b)[1] < Pow256(8) && PrefixValues(b)[0] < Pow256(32) && PrefixValues(b)[2] < Pow256(32);
  }

  ghost predicate SnapshotRanged(s: Snapshot) {
    s.checkpoint.blockHash < TWO_256 && forall rec | rec in s.records :: RecordRanged(rec)
  }

  lemma PrefixParts(sidechain: Hash256, checkpoint: Checkpoint, count: nat, rest: ByteString)
    requires sidechain < TWO_256 && checkpoint.blockHash < TWO_256 && count <= MAX_RECORDS
    ensures var b := Prefix(sidechain, checkpoint, count) + rest;
      && |Prefix(sidechain, checkpoint, count)| == PREFIX_SIZE
      && b[..|MAGIC|] == MAGIC && b[PREFIX_SIZE..] == rest
      && PrefixValues(b) == [sidechain, checkpoint.zanoHeight, checkpoint.blockHash, count]
  {
    RecordLayout();
    var v := [sidechain, checkpoint.zanoHeight, checkpoint.blockHash, count];
    Pow256Of32();
    assert Fits(v, PREFIX_WIDTHS);
    FieldsRoundTrip(v, PREFIX_WIDTHS);
    hide EncodeAll, DecodeAll, Fits;
    var b := Prefix(sidechain, checkpoint, count) + rest;
    assert b[|MAGIC|..PREFIX_SIZE] == EncodeAll(v, PREFIX_WIDTHS);
  }

  lemma DigestParts(hash: Digest, body: ByteString)
    requires DigestRange(hash)
    ensures var b := body + Encode(hash(body), DIGEST_SIZE);
      && b[..|b| - DIGEST_SIZE] == body && BigEndian(b[|b| - DIGEST_SIZE..]) == hash(body)
  {
    Pow256Of32();
    EncodeRoundTrip(hash(body), DIGEST_SIZE);
    hide Encode, BigEndian;
    var b := body + Encode(hash(body), DIGEST_SIZE);
    assert b[|body|..] == Encode(hash(body), DIGEST_SIZE);
  }

  lemma PrefixOfLonger(body: ByteString, tail: ByteString)
    requires |body| >= PREFIX_SIZE
    ensures PrefixValues(body + tail) == PrefixValues(body) && (body + tail)[..|MAGIC|] == body[..|MAGIC|]
  {
    assert (body + tail)[|MAGIC|..PREFIX_SIZE] == body[|MAGIC|..PREFIX_SIZE];
  }

  lemma ParseEncoded(hash: Digest, sidechain: Hash256, s: Snapshot)
    requires DigestRange(hash) && sidechain < TWO_256 && SnapshotRanged(s)
    requires s.checkpoint.blockHash != 0 && |s.records| <= MAX_RECORDS && Storable(s.records)
    ensures Parse(hash, sidechain, Encoded(hash, sidechain, s)) == Value(s)
  {
    var prefix, rest := Prefix(sidechain, s.checkpoint, |s.records|), EncodeRecords(s.records);
    var body := prefix + rest;
    PrefixParts(sidechain, s.checkpoint, |s.records|, rest);
    RecordsDecodeEncode(s.records);
    DigestParts(hash, body);
    hide Prefix, PrefixValues, EncodeRecords, DecodeRecords, Encode, BigEndian, Storable;
    PrefixOfLonger(body, Encode(hash(body), DIGEST_SIZE));
  }

  /** Parsing an encoding returns its records sorted by share identifier. */
  lemma ParseSerialize(hash: Digest, sidechain: Hash256, s: Snapshot)
    requires DigestRange(hash) && sidechain < TWO_256 && SnapshotRanged(s) && ValidSnapshot(s)
    ensures Serialize(hash, sidechain, s).Value?
    ensures Parse(hash, sidechain, Serialize(hash, sidechain, s).value)
         == Value(s.(records := SortRecords(s.records)))
  {
    SortedRecords(s.records);
    SortedIsStrict(s.records);
    hide SortRecords, Encoded, Parse, RecordValid, RecordRanged, StrictlyOrdered;
    ParseEncoded(hash, sidechain, s.(records := SortRecords(s.records)));
  }

  lemma PrefixBack(b: ByteString)
    requires |b| >= PREFIX_SIZE && b[..|MAGIC|] == MAGIC
    ensures var v := PrefixValues(b);
      v[1] <= U64_MAX && Prefix(v[0], Checkpoint(v[1], v[2]), v[3]) == b[..PREFIX_SIZE]
  {
    HeightFits(b);
    RecordLayout();
    BytesRoundTrip(b[|MAGIC|..PREFIX_SIZE], PREFIX_WIDTHS);
    hide EncodeAll, DecodeAll, Fits;
    var v := PrefixValues(b);
    assert v == [v[0], v[1], v[2], v[3]];
    assert b[..PREFIX_SIZE] == b[..|MAGIC|] + b[|MAGIC|..PREFIX_SIZE];
  }

  lemma DigestBack(hash: Digest, b: ByteString)
    requires |b| >= DIGEST_SIZE && hash(b[..|b| - DIGEST_SIZE]) == BigEndian(b[|b| - DIGEST_SIZE..])
    ensures var body := b[..|b| - DIGEST_SIZE]; body + Encode(hash(body), DIGEST_SIZE) == b
  {
    var body, digest := b[..|b| - DIGEST_SIZE], b[|b| - DIGEST_SIZE..];
    DecodeRoundTrip(digest);
    assert b == body + digest;
  }

  /** Every byte string the parser accepts is exactly the encoding of what it returned. */
  lemma SerializeParse(hash: Digest, sidechain: Hash256, b: ByteString)
    requires Parse(hash, sidechain, b).Value?
    ensures var s := Parse(hash, sidechain, b).value;
      ValidSnapshot(s) && SnapshotRanged(s) && Serialize(hash, sidechain, s) == Value(b)
  {
    var s := Parse(hash, sidechain, b).value;
    ParsedIsEncoded(hash, sidechain, b);
    hide Parse, Encoded, StrictlyOrdered, RecordRanged;
    StrictIsDistinct(s.records);
    StrictSortIsIdentity(s.records);
  }

  /** What the parser has checked when it accepts. */
  lemma ParsedParts(hash: Digest, sidechain: Hash256, b: ByteString)
    requires Parse(hash, sidechain, b).Value?
    ensures |b| >= PREFIX_SIZE + DIGEST_SIZE && b[..|MAGIC|] == MAGIC
    ensures hash(b[..|b| - DIGEST_SIZE]) == BigEndian(b[|b| - DIGEST_SIZE..])
    ensures var s, v := Parse(hash, sidechain, b).value, PrefixValues(b);
      && v == [sidechain, s.checkpoint.zanoHeight, s.checkpoint.blockHash, v[3]]
      && v[2] != 0 && v[3] <= MAX_RECORDS && |b| == PREFIX_SIZE + RECORD_SIZE * v[3] + DIGEST_SIZE
      && DecodeRecords(b[PREFIX_SIZE..|b| - DIGEST_SIZE], v[3]) == Value(s.records)
  {
    hide PrefixValues, DecodeRecords, BigEndian;
    assert b[..|b| - DIGEST_SIZE][PREFIX_SIZE..] == b[PREFIX_SIZE..|b| - DIGEST_SIZE];
  }

  lemma ParsedIsEncoded(hash: Digest, sidechain: Hash256, b: ByteString)
    requires Parse(hash, sidechain, b).Value?
    ensures var s := Parse(hash, sidechain, b).value;
      && s.checkpoint.blockHash != 0 && |s.records| <= MAX_RECORDS
      && SnapshotRanged(s) && Storable(s.records) && Encoded(hash, sidechain, s) == b
  {
    hide Parse, PrefixValues, Prefix, EncodeRecords, DecodeRecords, Encode, BigEndian, StrictlyOrdered, AllValid,
         RecordRanged;
    ParsedParts(hash, sidechain, b);
    var body, region := b[..|b| - DIGEST_SIZE], b[PREFIX_SIZE..|b| - DIGEST_SIZE];
    HeightFits(b);
    PrefixBack(b);
    DigestBack(hash, b);
    RecordsEncodeDecode(region, PrefixValues(b)[3]);
    assert body == b[..PREFIX_SIZE] + region;
  }

  // ---- The program -----------------------------------------------------------------------------

  /** The check over the sorted records: all valid, no identifier twice. */
  method CheckSorted(sorted: seq<Record>) returns (ok: bool)
    requires NonDecreasing(sorted)
    ensures ok <==> StrictlyOrdered(sorted) && AllValid(sorted)
  {
    hide RecordValid;
    for i := 0 to |sorted|
      invariant StrictlyOrdered(sorted[..i]) && AllValid(sorted[..i])
    {
      assert sorted[i] in sorted && sorted[..i + 1] == sorted[..i] + [sorted[i]];
      if !RecordValid(sorted[i]) {
        return false;
      }
      if i != 0 && sorted[i - 1].id == sorted[i].id {
        return false;
      }
    }
    assert sorted[..|sorted|] == sorted;
    return true;
  }

  method SerializeSnapshot(hash: Digest, sidechain: Hash256, s: Snapshot) returns (r: Outcome<ByteString>)
    ensures r == Serialize(hash, sidechain, s)
  {
    if s.checkpoint.blockHash == 0 {
      return Thrown;
    }
    if |s.records| > MAX_RECORDS {
      return Thrown;
    }
    var records := SortRecords(s.records);
    SortedRecords(s.records);
    SortedIsStrict(s.records);
    hide SortRecords, NonDecreasing, StrictlyOrdered, DistinctIds, AllValid, EncodeRecords, Prefix, Encode;
    var ok := CheckSorted(records);
    if !ok {
      return Thrown;
    }
    var body := AppendRecords(Prefix(sidechain, s.checkpoint, |records|), records);
    return Value(body + Encode(hash(body), DIGEST_SIZE));
  }

  method AppendRecords(prefix: ByteString, records: seq<Record>) returns (bytes: ByteString)
    requires AllValid(records)
    ensures bytes == prefix + EncodeRecords(records)
  {
    bytes := prefix;
    assert EncodeRecords(records[..0]) == [];
    hide EncodeRecord, EncodeRecords;
    for i := 0 to |records|
      invariant AllValid(records[..i]) && bytes == prefix + EncodeRecords(records[..i])
    {
      assert records[..i + 1] == records[..i] + [records[i]] && records[i] in records;
      EncodeAppend(records[..i], records[i]);
      bytes := bytes + EncodeRecord(records[i]);
    }
    assert records[..|records|] == records;
  }

  /** The record loop of the parser, advancing through the record region. */
  method ParseRecords(region: ByteString, count: nat) returns (r: Outcome<seq<Record>>)
    requires |region| == RECORD_SIZE * count
    ensures r == DecodeRecords(region, count)
  {
    var records: seq<Record> := [];
    var offset := 0;
    hide DecodeRecord;
    assert DecodeRecords(region[..0], 0) == Value([]);
    for i := 0 to count
      invariant offset == RECORD_SIZE * i
      invariant DecodeRecords(region[..offset], i) == Value(records)
    {
      hide DecodeRecords;
      var next := region[offset..offset + RECORD_SIZE];
      assert region[..offset + RECORD_SIZE] == region[..offset] + next;
      DecodeAppend(region[..offset], next, i);
      var rec := DecodeRecord(next);
      if rec.Thrown? || (records != [] && records[|records| - 1].id >= rec.value.id) {
        PrefixThrows(region, i + 1, count);
        return Thrown;
      }
      records := records + [rec.value];
      offset := offset + RECORD_SIZE;
    }
    assert region[..offset] == region;
    return Value(records);
  }

  lemma {:induction false} PrefixThrows(region: ByteString, i: nat, count: nat)
    requires i <= count && |region| == RECORD_SIZE * count
    requires DecodeRecords(region[..RECORD_SIZE * i], i) == Thrown
    ensures DecodeRecords(region, count) == Thrown
    decreases count - i
  {
    hide DecodeRecord;
    if i == count {
      assert region[..RECORD_SIZE * i] == region;
    } else {
      var front, next := region[..RECORD_SIZE * i], region[RECORD_SIZE * i..RECORD_SIZE * (i + 1)];
      assert region[..RECORD_SIZE * (i + 1)] == front + next;
      DecodeAppend(front, next, i);
      PrefixThrows(region, i + 1, count);
    }
  }

  method ParseSnapshot(hash: Digest, sidechain: Hash256, b: ByteString) returns (r: Outcome<Snapshot>)
    ensures r == Parse(hash, sidechain, b)
  {
    if |b| < PREFIX_SIZE + DIGEST_SIZE {
      return Thrown;
    }
    hide BigEndian, DecodeRecords;
    var body, digest := b[..|b| - DIGEST_SIZE], b[|b| - DIGEST_SIZE..];
    if hash(body) != BigEndian(digest) {
      return Thrown;
    }
    if b[..|MAGIC|] != MAGIC {
      return Thrown;
    }
    var v := PrefixValues(b);
    if v[0] != sidechain || v[2] == 0 || v[3] > MAX_RECORDS {
      return Thrown;
    }
    if |b| != PREFIX_SIZE + RECORD_SIZE * v[3] + DIGEST_SIZE {
      return Thrown;
    }
    HeightFits(b);
    hide PrefixValues;
    var records := ParseRecords(body[PREFIX_SIZE..], v[3]);
    if records.Thrown? {
      return Thrown;
    }
    return Value(Snapshot(Checkpoint(v[1], v[2]), records.value));
  }
}

/** The validation cache: saving the exported validation under a canonical checkpoint, and restoring it
    only while the local daemon still stands by that checkpoint. */
module ValidationCache {
  import opened Basics
  import opened Bytes
  import opened Shares
  import opened Records
  import opened ShareTree
  import opened TreeInvariant
  import opened Restart
  import opened ShareChains
  import opened ReplayStore

  // ---- Canonical evidence ----------------------------------------------------------------------

  datatype CanonicalHeader = CanonicalHeader(height: U64, hash: Hash256)

  /** Two successive answers of the local daemon for one height. */
  datatype TwoLookups = TwoLookups(first: Outcome<CanonicalHeader>, second: Outcome<CanonicalHeader>)

  /** The hash both answers agree on. */
  function StableHash(answers: TwoLookups, height: U64): Outcome<Hash256> {
    if answers.first.Thrown? || answers.second.Thrown? then Thrown
    else
      var a, b := answers.first.value, answers.second.value;
      if a.height != height || b.height != height || a.hash != b.hash || a.hash == 0 then Thrown
      else Value(a.hash)
  }

  // ---- Saving ----------------------------------------------------------------------------------

  datatype PersistStatus = Saved | CanonicalChanged | CheckpointTooOld
  datatype PersistResult = PersistResult(status: PersistStatus, checkpoint: Checkpoint, exported: nat, saved: nat)

  /** What the caller sees, and the bytes that replace the file if any. */
  datatype Persisting = Persisting(outcome: Outcome<PersistResult>, written: Option<ByteString>)

  /** Whether a checkpoint below `workHeight` covers the share's own work. */
  function CoversWork(s: Share, workHeight: U64): Outcome<bool> {
    if s.zanoHeight == 0 then Thrown else Value(s.zanoHeight <= workHeight)
  }

  /** The first record that is not covered decides. */
  ghost function Coverage(tree: Tree, records: seq<Record>, workHeight: U64): Outcome<bool> {
    if records == [] then Value(true)
    else if records[0].id !in tree then Thrown
    else
      var v := CoversWork(tree[records[0].id].share, workHeight);
      if v == Value(true) then Coverage(tree, records[1..], workHeight) else v
  }

  ghost function PersistCache(
    rules: Rules, c: Chain, parameters: Hash256, hash: Digest, sidechain: Hash256, workHeight: U64, expected: Hash256,
    answers: TwoLookups): Persisting
  {
    if !Matches(rules, parameters) || workHeight == 0 || expected == 0 || StableHash(answers, workHeight - 1).Thrown?
    then Persisting(Thrown, None)
    else
      var parent := StableHash(answers, workHeight - 1).value;
      var checkpoint := Checkpoint(workHeight - 1, parent);
      if parent != expected then Persisting(Value(PersistResult(CanonicalChanged, checkpoint, 0, 0)), None)
      else if Export(rules, c).Thrown? then Persisting(Thrown, None)
      else SaveRecords(c, hash, sidechain, workHeight, checkpoint, Export(rules, c).value)
  }

  ghost function SaveRecords(
    c: Chain, hash: Digest, sidechain: Hash256, workHeight: U64, checkpoint: Checkpoint, records: seq<Record>)
    : Persisting
  {
    var covered, bytes := Coverage(c.tree, records, workHeight), Serialize(hash, sidechain, Snapshot(checkpoint, records));
    if covered.Thrown? then Persisting(Thrown, None)
    else if !covered.value then Persisting(Value(PersistResult(CheckpointTooOld, checkpoint, |records|, 0)), None)
    else if bytes.Thrown? then Persisting(Thrown, None)
    else Persisting(Value(PersistResult(Saved, checkpoint, |records|, |records|)), Some(bytes.value))
  }

  // ---- Restoring -------------------------------------------------------------------------------

  datatype CacheStatus = Missing | Stale | Restored
  datatype CacheResult = CacheResult(status: CacheStatus, loaded: nat, restored: nat)

  ghost function RestoreCache(
    rules: Rules, c: Chain, parameters: Hash256, hash: Digest, sidechain: Hash256, file: Option<ByteString>,
    answers: TwoLookups): Step<CacheResult>
  {
    if !Matches(rules, parameters) then Step(c, Thrown)
    else if file.None? then Step(c, Value(CacheResult(Missing, 0, 0)))
    else if Parse(hash, sidechain, file.value).Thrown? then Step(c, Thrown)
    else RestoreSnapshot(rules, c, Parse(hash, sidechain, file.value).value, answers)
  }

  ghost function RestoreSnapshot(rules: Rules, c: Chain, s: Snapshot, answers: TwoLookups): Step<CacheResult> {
    var stable := StableHash(answers, s.checkpoint.zanoHeight);
    if stable.Thrown? then Step(c, Thrown)
    else if stable.value != s.checkpoint.blockHash then Step(c, Value(CacheResult(Stale, |s.records|, 0)))
    else
      var step := Restore(rules, c, s.records);
      Step(step.chain,
           if step.outcome.Thrown? then Thrown else Value(CacheResult(Restored, |s.records|, step.outcome.value)))
  }

  // ---- The round trip --------------------------------------------------------------------------

  /** Every validated share was mined at or below the work height. */
  ghost predicate ValidatedBelow(tree: Tree, workHeight: U64) {
    forall id | id in tree && tree[id].validated :: 0 < tree[id].share.zanoHeight <= workHeight
  }

  ghost predicate AllCovered(tree: Tree, records: seq<Record>, workHeight: U64) {
    forall rec | rec in records :: rec.id in tree && 0 < tree[rec.id].share.zanoHeight <= workHeight
  }

  lemma {:induction false} CoverageMeans(tree: Tree, records: seq<Record>, workHeight: U64)
    ensures Coverage(tree, records, workHeight) == Value(true) <==> AllCovered(tree, records, workHeight)
  {
    if records != [] {
      CoverageMeans(tree, records[1..], workHeight);
      assert records == [records[0]] + records[1..];
    }
  }

  ghost predicate WasSaved(p: Persisting) { p.outcome.Value? && p.outcome.value.status == Saved }

  /** Bytes are written exactly when the caller is told so, and then the checkpoint is the agreed parent of
      the work height and every validated share's own work lies at or below that height. */
  lemma SavedMeansCovered(
    rules: Rules, c: Chain, parameters: Hash256, hash: Digest, sidechain: Hash256, workHeight: U64, expected: Hash256,
    answers: TwoLookups)
    ensures var p := PersistCache(rules, c, parameters, hash, sidechain, workHeight, expected, answers);
      && (p.written.Some? <==> WasSaved(p))
      && (WasSaved(p) ==>
            && workHeight > 0 && StableHash(answers, workHeight - 1) == Value(expected)
            && p.outcome.value.checkpoint == Checkpoint(workHeight - 1, expected)
            && p.outcome.value.exported == p.outcome.value.saved == |ValidatedIds(c.tree)|
            && ValidatedBelow(c.tree, workHeight))
  {
    hide Serialize, Export, ValidatedIds;
    if Export(rules, c).Value? {
      var records := Export(rules, c).value;
      CoverageMeans(c.tree, records, workHeight);
      ExportedIds(rules, c);
      hide Coverage;
      CoveredExactly(c, records, workHeight);
    }
  }

  lemma ExportedIds(rules: Rules, c: Chain)
    requires Export(rules, c).Value?
    ensures |Export(rules, c).value| == |ValidatedIds(c.tree)| && Ids(Export(rules, c).value) == ValidatedIds(c.tree)
  {
    ExportedRecords(rules, c);
  }

  /** Every exported record may be stored, unless one names the all-zero identifier. */
  lemma ExportIsValid(rules: Rules, trust: Trust, c: Chain)
    requires SoundTrust(rules, trust) && Inv(rules, trust, c) && Export(rules, c).Value?
    ensures AllValid(Export(rules, c).value) <==> NO_SHARE !in ValidatedIds(c.tree)
    ensures DistinctIds(Export(rules, c).value)
  {
    ExportedRecords(rules, c);
    var records := Export(rules, c).value;
    hide Export;
    forall rec | rec in records
      ensures RecordValid(rec) <==> rec.id != NO_SHARE
    {
      assert rec.id in Ids(records);
      ValidatedFacts(rules, trust, c, rec.id);
    }
  }

  /** When the cache of a chain with these parameters is saved. */
  lemma SavedIff(
    rules: Rules, trust: Trust, c: Chain, parameters: Hash256, hash: Digest, sidechain: Hash256, workHeight: U64,
    expected: Hash256, answers: TwoLookups)
    requires SoundTrust(rules, trust) && Inv(rules, trust, c) && Matches(rules, parameters)
    ensures WasSaved(PersistCache(rules, c, parameters, hash, sidechain, workHeight, expected, answers)) <==>
      && workHeight > 0 && StableHash(answers, workHeight - 1) == Value(expected)
      && ValidatedBelow(c.tree, workHeight)
      && NO_SHARE !in ValidatedIds(c.tree) && |ValidatedIds(c.tree)| <= MAX_RECORDS
  {
    ExportNeverThrows(rules, trust, c);
    ExportIsValid(rules, trust, c);
    ExportedIds(rules, c);
    hide Inv, SoundTrust, Export, AllValid, DistinctIds, Coverage, AllCovered, SaveRecords, ValidatedIds, ValidatedBelow,
         StableHash;
    var records := Export(rules, c).value;
    CoverageMeans(c.tree, records, workHeight);
    CoveredExactly(c, records, workHeight);
    PersistSaves(rules, c, parameters, hash, sidechain, workHeight, expected, answers);
    hide PersistCache, WasSaved;
    if workHeight > 0 {
      StableIsNonzero(answers, workHeight - 1);
      SaveSucceeds(c, hash, sidechain, workHeight, Checkpoint(workHeight - 1, expected), records);
    }
  }

  lemma StableIsNonzero(answers: TwoLookups, height: U64)
    ensures StableHash(answers, height).Value? ==> StableHash(answers, height).value != 0
  {
  }

  lemma PersistSaves(
    rules: Rules, c: Chain, parameters: Hash256, hash: Digest, sidechain: Hash256, workHeight: U64, expected: Hash256,
    answers: TwoLookups)
    requires Matches(rules, parameters) && Export(rules, c).Value?
    ensures WasSaved(PersistCache(rules, c, parameters, hash, sidechain, workHeight, expected, answers)) <==>
      && workHeight > 0 && StableHash(answers, workHeight - 1) == Value(expected)
      && WasSaved(SaveRecords(c, hash, sidechain, workHeight, Checkpoint(workHeight - 1, expected),
                              Export(rules, c).value))
  {
    hide Export, SaveRecords;
  }

  lemma SaveSucceeds(
    c: Chain, hash: Digest, sidechain: Hash256, workHeight: U64, checkpoint: Checkpoint, records: seq<Record>)
    ensures WasSaved(SaveRecords(c, hash, sidechain, workHeight, checkpoint, records)) <==>
      Coverage(c.tree, records, workHeight) == Value(true) && ValidSnapshot(Snapshot(checkpoint, records))
  {
    hide Coverage, ValidSnapshot, Encoded;
  }

  lemma CoveredExactly(c: Chain, records: seq<Record>, workHeight: U64)
    requires Ids(records) == ValidatedIds(c.tree)
    ensures AllCovered(c.tree, records, workHeight) <==> ValidatedBelow(c.tree, workHeight)
  {
    forall rec | rec in records
      ensures rec.id in ValidatedIds(c.tree)
    {
      assert rec.id in Ids(records);
    }
    forall id | id in c.tree && c.tree[id].validated
      ensures exists rec :: rec in records && rec.id == id
    {
      assert id in ValidatedIds(c.tree);
      assert id in Ids(records);
    }
  }

  /** Save, restart, replay the shares unchecked, restore.  If the daemon still stands by the checkpoint
      every connected share is back at its work and exactly the original validation is restored; if it reports another block the replayed chain is
      left unvalidated, and if it gives no stable answer the call fails and changes nothing. */
  lemma CacheRoundTrip(
    rules: Rules, trust: Trust, c: Chain, parameters: Hash256, hash: Digest, sidechain: Hash256, workHeight: U64,
    expected: Hash256, answers: TwoLookups, later: TwoLookups)
    requires SoundTrust(rules, trust) && Inv(rules, trust, c)
    requires DigestRange(hash) && sidechain < TWO_256 && expected < TWO_256
    requires Export(rules, c).Value? ==> forall rec | rec in Export(rules, c).value :: RecordRanged(rec)
    requires WasSaved(PersistCache(rules, c, parameters, hash, sidechain, workHeight, expected, answers))
    ensures var file := PersistCache(rules, c, parameters, hash, sidechain, workHeight, expected, answers).written;
      var replayed, n := Replayed(rules, c), |ValidatedIds(c.tree)|;
      RestoreCache(rules, replayed, parameters, hash, sidechain, file, later) ==
      match StableHash(later, workHeight - 1)
      case Thrown => Step(replayed, Thrown)
      case Value(block) =>
        if block == expected then Step(Revived(c, replayed), Value(CacheResult(Restored, n, n)))
        else Step(replayed, Value(CacheResult(Stale, n, 0)))
  {
    hide Inv, SoundTrust, Replayed, Rebuilds, Restore, Revived, ValidatedIds, RecordRanged, Export, Parse;
    var records, replayed := Export(rules, c).value, Replayed(rules, c);
    var snapshot := Snapshot(Checkpoint(workHeight - 1, expected), records);
    SavedMeansCovered(rules, c, parameters, hash, sidechain, workHeight, expected, answers);
    SavedSnapshot(rules, c, parameters, hash, sidechain, workHeight, expected, answers);
    hide PersistCache, Serialize;
    ExportedIds(rules, c);
    ParseSerialize(hash, sidechain, snapshot);
    SortedRecords(records);
    RestartRoundTrip(rules, trust, c);
    NoneIsZero(snapshot);
    RestoreIgnoresOrder(rules, replayed, SortRecords(records), records);
  }

  lemma SavedSnapshot(
    rules: Rules, c: Chain, parameters: Hash256, hash: Digest, sidechain: Hash256, workHeight: U64, expected: Hash256,
    answers: TwoLookups)
    requires WasSaved(PersistCache(rules, c, parameters, hash, sidechain, workHeight, expected, answers))
    ensures workHeight > 0 && Matches(rules, parameters) && Export(rules, c).Value?
    ensures var s := Snapshot(Checkpoint(workHeight - 1, expected), Export(rules, c).value);
      && ValidSnapshot(s)
      && Serialize(hash, sidechain, s) ==
         Value(PersistCache(rules, c, parameters, hash, sidechain, workHeight, expected, answers).written.value)
  {
    hide Export, Coverage, ValidSnapshot, Encoded;
  }

  lemma NoneIsZero(s: Snapshot)
    requires ValidSnapshot(s)
    ensures NO_SHARE !in Ids(s.records)
  {
  }

  // ---- The program -----------------------------------------------------------------------------

  /** The file as its contents; writing replaces it as a whole. */
  class ReplayValidationStore {
    const hash: Digest
    const sidechain: Hash256
    var file: Option<ByteString>

    constructor (hash: Digest, sidechain: Hash256)
      requires sidechain != 0
      ensures this.hash == hash && this.sidechain == sidechain && file == None
    {
      this.hash, this.sidechain, this.file := hash, sidechain, None;
    }

    method Save(s: Snapshot) returns (r: Outcome<()>)
      modifies this
      ensures var bytes := Serialize(hash, sidechain, s);
        r.Thrown? == bytes.Thrown? && file == if bytes.Thrown? then old(file) else Some(bytes.value)
    {
      var bytes := SerializeSnapshot(hash, sidechain, s);
      if bytes.Thrown? {
        return Thrown;
      }
      file := Some(bytes.value);
      return Value(());
    }

    method Load() returns (r: Outcome<Option<Snapshot>>)
      ensures r == if file.None? then Value(None)
        else
          var s := Parse(hash, sidechain, file.value);
          if s.Thrown? then Thrown else Value(Some(s.value))
    {
      if file.None? {
        return Value(None);
      }
      var s := ParseSnapshot(hash, sidechain, file.value);
      return if s.Thrown? then Thrown else Value(Some(s.value));
    }
  }

  /** The loop over the exported records. */
  method CheckCoverage(chain: ShareChain, records: seq<Record>, workHeight: U64) returns (covered: Outcome<bool>)
    ensures covered == Coverage(chain.Model().tree, records, workHeight)
  {
    ghost var tree := chain.Model().tree;
    assert records[0..] == records;
    for i := 0 to |records|
      invariant Coverage(tree, records[i..], workHeight) == Coverage(tree, records, workHeight)
    {
      assert records[i..][1..] == records[i + 1..];
      if records[i].id !in chain.connected {
        return Thrown;
      }
      var share := chain.connected[records[i].id].share;
      if share.zanoHeight == 0 {
        return Thrown;
      }
      if share.zanoHeight > workHeight {
        return Value(false);
      }
    }
    return Value(true);
  }

  method PersistReplayedValidationCache(
    chain: ShareChain, parameters: Hash256, store: ReplayValidationStore, workHeight: U64, expected: Hash256,
    answers: TwoLookups)
    returns (r: Outcome<PersistResult>)
    requires chain.Valid()
    modifies store
    ensures var p := PersistCache(
        chain.rules, chain.Model(), parameters, store.hash, store.sidechain, workHeight, expected, answers);
      r == p.outcome && store.file == if p.written.Some? then p.written else old(store.file)
  {
    hide Serialize, Export, Coverage, Inv, IndexOk, Unindexed, TreeOf;
    if !Matches(chain.rules, parameters) || workHeight == 0 || expected == 0 {
      return Thrown;
    }
    var stable := StableHash(answers, workHeight - 1);
    if stable.Thrown? {
      return Thrown;
    }
    var checkpoint := Checkpoint(workHeight - 1, stable.value);
    if stable.value != expected {
      return Value(PersistResult(CanonicalChanged, checkpoint, 0, 0));
    }
    var records := chain.ReplayValidationSnapshot();
    if records.Thrown? {
      return Thrown;
    }
    var covered := CheckCoverage(chain, records.value, workHeight);
    if covered.Thrown? {
      return Thrown;
    }
    if !covered.value {
      return Value(PersistResult(CheckpointTooOld, checkpoint, |records.value|, 0));
    }
    var saved := store.Save(Snapshot(checkpoint, records.value));
    if saved.Thrown? {
      return Thrown;
    }
    return Value(PersistResult(Saved, checkpoint, |records.value|, |records.value|));
  }

  method RestoreReplayedValidationCache(
    chain: ShareChain, parameters: Hash256, store: ReplayValidationStore, answers: TwoLookups)
    returns (r: Outcome<CacheResult>)
    requires chain.Valid()
    modifies chain`connected
    ensures chain.Valid()
    ensures Step(chain.Model(), r) ==
      RestoreCache(chain.rules, old(chain.Model()), parameters, store.hash, store.sidechain, store.file, answers)
  {
    hide Restore, Parse, Inv, IndexOk, Unindexed, TreeOf;
    if !Matches(chain.rules, parameters) {
      return Thrown;
    }
    var snapshot := store.Load();
    if snapshot.Thrown? {
      return Thrown;
    }
    if snapshot.value.None? {
      return Value(CacheResult(Missing, 0, 0));
    }
    var s := snapshot.value.value;
    var stable := StableHash(answers, s.checkpoint.zanoHeight);
    if stable.Thrown? {
      return Thrown;
    }
    if stable.value != s.checkpoint.blockHash {
      return Value(CacheResult(Stale, |s.records|, 0));
    }
    var restored := chain.RestoreReplayValidation(s.records);
    return if restored.Thrown? then Thrown else Value(CacheResult(Restored, |s.records|, restored.value));
  }
}

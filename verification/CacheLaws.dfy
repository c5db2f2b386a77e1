/** The validation cache in terms of the daemon's two answers. */
module CacheLaws {
  import opened Basics
  import opened Bytes
  import opened Records
  import opened ShareTree
  import opened TreeInvariant
  import opened Restart
  import opened TrustLaws
  import opened ReplayStore
  import opened ValidationCache

  /** Both answers are for this height and name this block, which is not zero. */
  ghost predicate BothSay(answers: TwoLookups, height: U64, block: Hash256) {
    && answers.first == Value(CanonicalHeader(height, block)) && answers.second == Value(CanonicalHeader(height, block))
    && block != 0
  }

  lemma StableExactly(answers: TwoLookups, height: U64, block: Hash256)
    ensures StableHash(answers, height) == Value(block) <==> BothSay(answers, height, block)
  {
  }

  ghost predicate Unstable(answers: TwoLookups, height: U64) { forall block :: !BothSay(answers, height, block) }

  lemma StableOrNot(answers: TwoLookups, height: U64)
    ensures StableHash(answers, height).Thrown? <==> Unstable(answers, height)
  {
    if StableHash(answers, height).Value? {
      StableExactly(answers, height, StableHash(answers, height).value);
    }
    forall block
      ensures BothSay(answers, height, block) ==> StableHash(answers, height).Value?
    {
      StableExactly(answers, height, block);
    }
  }

  lemma {:induction false} TooOldMeans(tree: Tree, records: seq<Record>, workHeight: U64)
    ensures Coverage(tree, records, workHeight) == Value(false) ==>
      exists rec :: rec in records && rec.id in tree && tree[rec.id].share.zanoHeight > workHeight
  {
    if records != [] && Coverage(tree, records, workHeight) == Value(false) {
      if records[0].id in tree && CoversWork(tree[records[0].id].share, workHeight) == Value(true) {
        TooOldMeans(tree, records[1..], workHeight);
      } else {
        assert records[0] in records;
      }
    }
  }

  /** Saving is refused without the right parameters, a work height, an expected parent and a stable answer; if
      the daemon stands by another parent it says so, and writes nothing. */
  lemma PersistTable(
    rules: Rules, c: Chain, parameters: Hash256, hash: Digest, sidechain: Hash256, workHeight: U64,
    expected: Hash256, answers: TwoLookups)
    ensures var p := PersistCache(rules, c, parameters, hash, sidechain, workHeight, expected, answers);
      if !Matches(rules, parameters) || workHeight == 0 || expected == 0 || Unstable(answers, workHeight - 1)
      then p == Persisting(Thrown, None)
      else if !BothSay(answers, workHeight - 1, expected) then
        && p.outcome.Value? && p.outcome.value.status == CanonicalChanged && p.written.None?
        && p.outcome.value.exported == p.outcome.value.saved == 0
        && p.outcome.value.checkpoint.zanoHeight == workHeight - 1
        && BothSay(answers, workHeight - 1, p.outcome.value.checkpoint.blockHash)
      else p.outcome.Value? ==> p.outcome.value.status != CanonicalChanged
  {
    hide StableHash, Export, Coverage, Serialize, BothSay, Unstable, Matches;
    if workHeight > 0 {
      StableOrNot(answers, workHeight - 1);
      StableExactly(answers, workHeight - 1, expected);
      if StableHash(answers, workHeight - 1).Value? {
        StableExactly(answers, workHeight - 1, StableHash(answers, workHeight - 1).value);
      }
    }
  }

  /** A checkpoint called too old leaves some validated share's work above it, and nothing is written. */
  lemma PersistTooOld(
    rules: Rules, c: Chain, parameters: Hash256, hash: Digest, sidechain: Hash256, workHeight: U64,
    expected: Hash256, answers: TwoLookups)
    ensures var p := PersistCache(rules, c, parameters, hash, sidechain, workHeight, expected, answers);
      p.outcome.Value? && p.outcome.value.status == CheckpointTooOld ==>
        && p.written.None? && p.outcome.value.saved == 0 && p.outcome.value.exported == |ValidatedIds(c.tree)|
        && exists id :: id in c.tree && c.tree[id].validated && c.tree[id].share.zanoHeight > workHeight
  {
    hide StableHash, Export, Coverage, Serialize, Matches, ValidatedIds;
    if Export(rules, c).Value? {
      var records := Export(rules, c).value;
      ExportedIds(rules, c);
      TooOldMeans(c.tree, records, workHeight);
      NamesValidated(c, records);
    }
  }

  lemma NamesValidated(c: Chain, records: seq<Record>)
    requires Ids(records) == ValidatedIds(c.tree)
    ensures forall rec | rec in records :: rec.id in c.tree && c.tree[rec.id].validated
  {
    forall rec | rec in records
      ensures rec.id in ValidatedIds(c.tree)
    {
      assert rec.id in Ids(records);
    }
  }

  /** Every outcome of restoring: the chain changes only if the file parses, the daemon says the checkpoint's
      block twice, and the records may be restored; then exactly they are. */
  lemma RestoreTable(
    rules: Rules, trust: Trust, c: Chain, parameters: Hash256, hash: Digest, sidechain: Hash256,
    file: Option<ByteString>, answers: TwoLookups)
    requires SoundTrust(rules, trust) && Inv(rules, trust, c)
    ensures var r := RestoreCache(rules, c, parameters, hash, sidechain, file, answers);
      if !Matches(rules, parameters) then r == Step(c, Thrown)
      else if file.None? then r == Step(c, Value(CacheResult(Missing, 0, 0)))
      else if Parse(hash, sidechain, file.value).Thrown? then r == Step(c, Thrown)
      else
        var s := Parse(hash, sidechain, file.value).value;
        if Unstable(answers, s.checkpoint.zanoHeight) then r == Step(c, Thrown)
        else if !BothSay(answers, s.checkpoint.zanoHeight, s.checkpoint.blockHash)
        then r == Step(c, Value(CacheResult(Stale, |s.records|, 0)))
        else if s.records == [] then r == Step(c, Value(CacheResult(Restored, 0, 0)))
        else if !MayRestore(rules, c.tree, s.records) then r == Step(c, Thrown)
        else
          && r.chain == c.(tree := r.chain.tree) && RestoredBy(c.tree, r.chain.tree, s.records)
          && r.outcome.Value? && r.outcome.value.status == Restored && r.outcome.value.loaded == |s.records|
          && r.outcome.value.restored == |set id | id in c.tree && id in Ids(s.records) && !c.tree[id].validated|
  {
    if file.Some? && Parse(hash, sidechain, file.value).Value? {
      hide Inv, SoundTrust, StableHash, Parse, BothSay, Unstable, Restore, MayRestore, RestoredBy;
      var s := Parse(hash, sidechain, file.value).value;
      StableOrNot(answers, s.checkpoint.zanoHeight);
      StableExactly(answers, s.checkpoint.zanoHeight, s.checkpoint.blockHash);
      RestoreExact(rules, trust, c, s.records);
    }
  }
}

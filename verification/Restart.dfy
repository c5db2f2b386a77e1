/** Restart: persisting the shares, replaying them unchecked, and restoring the validation cache. */
module Restart {
  import opened Basics
  import opened Orders
  import opened Shares
  import opened Records
  import opened ShareTree
  import opened TreeInvariant
  import opened Confluence

  // ---- Persisted order -------------------------------------------------------------------------

  function StoredShare(c: Chain, id: ShareId): Share
    requires id in c.tree || id in c.orphans
  {
    if id in c.tree then c.tree[id].share else c.orphans[id].share
  }

  function StoredHeight(c: Chain, id: ShareId): nat {
    if id in c.tree || id in c.orphans then StoredShare(c, id).height else 0
  }

  /** Height first, identifier second: the order of every snapshot and recovery pass. */
  predicate ByHeight(c: Chain, a: ShareId, b: ShareId) {
    StoredHeight(c, a) < StoredHeight(c, b) || (StoredHeight(c, a) == StoredHeight(c, b) && a < b)
  }

  function InHeightOrder(c: Chain, ids: seq<ShareId>): seq<ShareId> {
    SortBy(ids, (a, b) => ByHeight(c, a, b))
  }

  lemma InHeightOrderCorrect(c: Chain, ids: seq<ShareId>)
    ensures multiset(InHeightOrder(c, ids)) == multiset(ids)
    ensures forall x :: x in InHeightOrder(c, ids) <==> x in ids
    ensures Distinct(ids) ==> Distinct(InHeightOrder(c, ids))
    ensures forall i, j | 0 <= i < j < |ids| ::
      !ByHeight(c, InHeightOrder(c, ids)[j], InHeightOrder(c, ids)[i])
  {
    var less := (a: ShareId, b: ShareId) => ByHeight(c, a, b);
    assert TotalOrder(less);
    SortByCorrect(ids, less);
    SameMembers(InHeightOrder(c, ids), ids);
    if Distinct(ids) {
      DistinctPermutation(ids, InHeightOrder(c, ids));
    }
  }

  /** `persistence_snapshot`: every connected or orphaned share, lowest first. */
  ghost function PersistedIds(c: Chain): seq<ShareId> {
    InHeightOrder(c, Keys(c.tree.Keys + c.orphans.Keys))
  }

  ghost function SharesOf(c: Chain, ids: seq<ShareId>): seq<Share>
    requires forall id | id in ids :: Known(c, id)
  {
    if ids == [] then [] else assert Known(c, ids[0]); [StoredShare(c, ids[0])] + SharesOf(c, ids[1..])
  }

  ghost function Persisted(c: Chain): seq<Share> {
    InHeightOrderCorrect(c, Keys(c.tree.Keys + c.orphans.Keys));
    SharesOf(c, PersistedIds(c))
  }

  // ---- What a replay can recover ---------------------------------------------------------------

  /** The structure alone: no proof-of-work records, nothing validated, nothing unlisted. */
  ghost function Structure(c: Chain): Chain {
    Chain(map id | id in c.tree :: c.tree[id].(pow := None, validated := false),
          map id | id in c.orphans :: c.orphans[id].(pow := None, enforce := false),
          {}, c.tip)
  }

  ghost predicate NoStrandedOrphan(c: Chain) {
    forall id | id in c.orphans :: c.orphans[id].share.parent !in c.tree
  }

  ghost function StoredUniverse(c: Chain): Universe {
    map id | id in c.tree.Keys + c.orphans.Keys :: StoredShare(c, id)
  }

  lemma StructureQuiet(rules: Rules, trust: Trust, c: Chain)
    requires Inv(rules, trust, c) && NoStrandedOrphan(c)
    ensures Quiet(rules, trust, Structure(c), StoredUniverse(c))
  {
    StructureTree(rules, trust, c);
    StructureOrphans(rules, trust, c);
    StructureCovers(rules, trust, c);
    hide TreeOk, TrustOk, OrphanOk, Covers;
  }

  lemma StructureTree(rules: Rules, trust: Trust, c: Chain)
    requires Inv(rules, trust, c)
    ensures TreeOk(rules, Structure(c).tree) && TrustOk(rules, trust, Structure(c).tree)
    ensures IsBestTip(Structure(c).tree, c.tip)
  {
    var tree := Structure(c).tree;
    forall id | id in tree
      ensures NodeOk(rules, tree, id) && NodeTrusted(rules, trust, tree, id)
    {
      assert NodeOk(rules, c.tree, id);
    }
    assert tree.Keys == c.tree.Keys;
  }

  lemma StructureOrphans(rules: Rules, trust: Trust, c: Chain)
    requires Inv(rules, trust, c) && NoStrandedOrphan(c)
    ensures forall id | id in Structure(c).orphans :: OrphanOk(rules, trust, Structure(c), id)
  {
    hide TreeOk, TrustOk, IsBestTip;
    forall id | id in Structure(c).orphans
      ensures OrphanOk(rules, trust, Structure(c), id)
    {
      assert OrphanOk(rules, trust, c, id);
    }
  }

  lemma StructureCovers(rules: Rules, trust: Trust, c: Chain)
    requires Inv(rules, trust, c)
    ensures Covers(Structure(c), StoredUniverse(c))
  {
    hide TreeOk, TrustOk, IsBestTip;
    forall id | id in c.orphans
      ensures id !in c.tree
    {
      assert OrphanOk(rules, trust, c, id);
    }
    hide Inv;
    forall id | id in StoredUniverse(c)
      ensures Accounted(Structure(c), StoredUniverse(c), id)
    {
    }
  }

  ghost function StoredShares(c: Chain): set<Share> {
    set id | id in c.tree.Keys + c.orphans.Keys :: StoredShare(c, id)
  }

  lemma {:induction false} SharesOfMembers(c: Chain, ids: seq<ShareId>, s: Share)
    requires forall id | id in ids :: Known(c, id)
    ensures s in SharesOf(c, ids) <==> exists id | id in ids :: StoredShare(c, id) == s
  {
    if ids != [] {
      SharesOfMembers(c, ids[1..], s);
      assert ids == [ids[0]] + ids[1..];
    }
  }

  lemma PersistedMembers(c: Chain)
    ensures Elements(Persisted(c)) == StoredShares(c)
  {
    InHeightOrderCorrect(c, Keys(c.tree.Keys + c.orphans.Keys));
    forall s: Share
      ensures s in Persisted(c) <==> s in StoredShares(c)
    {
      SharesOfMembers(c, PersistedIds(c), s);
    }
  }

  lemma StoredOk(rules: Rules, trust: Trust, c: Chain, id: ShareId)
    requires Inv(rules, trust, c) && (id in c.tree || id in c.orphans)
    ensures ShareOk(rules, StoredShare(c, id), id)
  {
    if id in c.tree {
      assert NodeOk(rules, c.tree, id);
    } else {
      assert OrphanOk(rules, trust, c, id);
    }
  }

  lemma StoredIds(rules: Rules, trust: Trust, c: Chain)
    requires Inv(rules, trust, c)
    ensures forall id | id in c.tree.Keys + c.orphans.Keys ::
      rules.idOf(StoredShare(c, id)) == id && Admissible(rules, StoredShare(c, id))
  {
    forall id | id in c.tree.Keys + c.orphans.Keys
      ensures rules.idOf(StoredShare(c, id)) == id && Admissible(rules, StoredShare(c, id))
    {
      StoredOk(rules, trust, c, id);
    }
  }

  lemma StoredSharesInjective(rules: Rules, c: Chain)
    requires forall id | id in c.tree.Keys + c.orphans.Keys ::
      rules.idOf(StoredShare(c, id)) == id && Admissible(rules, StoredShare(c, id))
    ensures InjectiveOn(rules, StoredShares(c))
    ensures UniverseOf(rules, StoredShares(c)) == StoredUniverse(c)
  {
    hide Admissible, StoredShare;
    var shares := StoredShares(c);
    forall s | s in shares
      ensures Known(c, rules.idOf(s)) && StoredShare(c, rules.idOf(s)) == s && Admissible(rules, s)
    {
      var id :| id in c.tree.Keys + c.orphans.Keys && StoredShare(c, id) == s;
    }
    forall id | id in c.tree.Keys + c.orphans.Keys
      ensures id in IdsOf(rules, shares) && WithId(rules, shares, id) == StoredShare(c, id)
    {
      assert StoredShare(c, id) in shares;
    }
  }

  lemma PersistedUniverse(rules: Rules, trust: Trust, c: Chain)
    requires Inv(rules, trust, c)
    ensures InjectiveOn(rules, Elements(Persisted(c)))
    ensures UniverseOf(rules, Elements(Persisted(c))) == StoredUniverse(c)
  {
    PersistedMembers(c);
    StoredIds(rules, trust, c);
    StoredSharesInjective(rules, c);
  }

  lemma QuietNotStranded(rules: Rules, trust: Trust, c: Chain, u: Universe)
    requires Quiet(rules, trust, c, u)
    ensures NoStrandedOrphan(c)
  {
    forall id | id in c.orphans
      ensures c.orphans[id].share.parent !in c.tree
    {
      assert OrphanOk(rules, trust, c, id);
    }
  }

  /** What replaying the snapshot into a fresh chain gives. */
  ghost function Replayed(rules: Rules, c: Chain): Chain {
    AddAll(rules, EMPTY_CHAIN, Persisted(c))
  }

  lemma ReplayIsQuiet(rules: Rules, trust: Trust, c: Chain)
    requires Inv(rules, trust, c)
    ensures Quiet(rules, trust, Replayed(rules, c), StoredUniverse(c))
    ensures Replayed(rules, c) == Closure(StoredUniverse(c))
  {
    hide Inv, Quiet, Persisted, AddAll, StoredUniverse, UniverseOf, Closure, Elements, InjectiveOn;
    PersistedUniverse(rules, trust, c);
    AddAllQuiet(rules, trust, Persisted(c));
    AddAllIsClosure(rules, Persisted(c));
  }

  /** Replaying the snapshot into a fresh chain rebuilds the same tree, works, tip and orphans with
      nothing validated, exactly when no orphan was stranded next to its connected parent. */
  lemma ReplayRebuildsStructure(rules: Rules, trust: Trust, c: Chain)
    requires Inv(rules, trust, c)
    ensures Replayed(rules, c) == Structure(c) <==> NoStrandedOrphan(c)
  {
    hide Inv, Quiet, Structure, Replayed, NoStrandedOrphan, StoredUniverse, Closure;
    var u := StoredUniverse(c);
    ReplayIsQuiet(rules, trust, c);
    QuietNotStranded(rules, trust, Replayed(rules, c), u);
    StructureStranded(c);
    if NoStrandedOrphan(c) {
      StructureQuiet(rules, trust, c);
      OnlyTheClosure(rules, trust, Structure(c), u);
    }
  }

  /** Every connected share of `c` is connected in `r` at the same work, and nothing in `r` is validated. */
  ghost predicate Rebuilds(c: Chain, r: Chain) {
    && (forall id | id in c.tree :: id in r.tree && r.tree[id] == c.tree[id].(pow := None, validated := false))
    && (forall id | id in r.tree :: r.tree[id].id == id && r.tree[id].pow.None? && !r.tree[id].validated)
  }

  /** Whatever was stranded, a replay gives the closure of the stored shares: every connected share is
      connected again at the same work, nothing is validated, and no orphan is stranded any more. */
  lemma ReplayHeals(rules: Rules, trust: Trust, c: Chain)
    requires Inv(rules, trust, c)
    ensures var r := Replayed(rules, c);
      && r == Closure(StoredUniverse(c)) && Rebuilds(c, r) && NoStrandedOrphan(r) && r.detached == {}
      && Inv(rules, trust, r)
  {
    hide Quiet, Replayed, Closure, StoredUniverse, Rebuilds, NoStrandedOrphan, Inv;
    var r, u := Replayed(rules, c), StoredUniverse(c);
    ReplayIsQuiet(rules, trust, c);
    QuietNotStranded(rules, trust, r, u);
    QuietIsSound(rules, trust, r, u);
    ClosureRebuilds(rules, trust, c);
  }

  lemma QuietIsSound(rules: Rules, trust: Trust, c: Chain, u: Universe)
    requires Quiet(rules, trust, c, u)
    ensures Inv(rules, trust, c) && c.detached == {}
  {
  }

  lemma ClosureRebuilds(rules: Rules, trust: Trust, c: Chain)
    requires Inv(rules, trust, c)
    ensures Rebuilds(c, Closure(StoredUniverse(c)))
  {
    hide Inv, TrustOk, IsBestTip, TreeOk, StoredUniverse, Structure, Covers, ClosureTree;
    var u := StoredUniverse(c);
    StructureTree(rules, trust, c);
    StructureCovers(rules, trust, c);
    forall id | id in c.tree
      ensures id in ClosureTree(u) && ClosureTree(u)[id] == c.tree[id].(pow := None, validated := false)
    {
      ClosureNode(rules, c, u, id);
    }
    ClosureIsPlain(u);
  }

  lemma ClosureNode(rules: Rules, c: Chain, u: Universe, id: ShareId)
    requires TreeOk(rules, Structure(c).tree) && Covers(Structure(c), u) && id in c.tree
    ensures id in ClosureTree(u) && ClosureTree(u)[id] == c.tree[id].(pow := None, validated := false)
  {
    ConnectedIsAlive(rules, Structure(c), u, id);
    assert NodeOk(rules, Structure(c).tree, id);
    hide Alive, Accounted, TreeOk;
  }

  lemma ClosureIsPlain(u: Universe)
    ensures forall id | id in ClosureTree(u) ::
      ClosureTree(u)[id].id == id && ClosureTree(u)[id].pow.None? && !ClosureTree(u)[id].validated
  {
  }

  lemma StructureStranded(c: Chain)
    ensures NoStrandedOrphan(Structure(c)) <==> NoStrandedOrphan(c)
  {
    assert forall id | id in c.orphans ::
      Structure(c).orphans[id].share.parent == c.orphans[id].share.parent;
  }

  // ---- The validation cache --------------------------------------------------------------------

  ghost function ValidatedIds(tree: Tree): set<ShareId> {
    set id | id in tree && tree[id].validated
  }

  ghost function RecordsFor(tree: Tree, ids: seq<ShareId>): (records: seq<Record>)
    requires forall id | id in ids :: id in tree && tree[id].pow.Some?
    ensures |records| == |ids|
    ensures forall i | 0 <= i < |ids| :: records[i].id == ids[i]
    ensures forall i | 0 <= i < |ids| :: ids[i] in tree && tree[ids[i]].pow == Some(records[i].validation)
  {
    if ids == [] then []
    else
      assert ids[0] in ids;
      [Record(ids[0], tree[ids[0]].pow.value)] + RecordsFor(tree, ids[1..])
  }

  /** `replay_validation_snapshot`. */
  ghost function Export(rules: Rules, c: Chain): Outcome<seq<Record>> {
    if rules.policy.None? || !AllValidatedOk(rules, c.tree) then Thrown
    else
      var ids := InHeightOrder(c, Keys(ValidatedIds(c.tree)));
      InHeightOrderCorrect(c, Keys(ValidatedIds(c.tree)));
      assert forall id | id in ids :: ValidatedNodeOk(rules, c.tree, id);
      Value(RecordsFor(c.tree, ids))
  }

  /** The export never throws on a configured chain. */
  lemma ExportNeverThrows(rules: Rules, trust: Trust, c: Chain)
    requires SoundTrust(rules, trust) && Inv(rules, trust, c) && rules.policy.Some?
    ensures AllValidatedOk(rules, c.tree) && Export(rules, c).Value?
  {
    forall id | id in c.tree && c.tree[id].validated
      ensures ValidatedNodeOk(rules, c.tree, id)
    {
      assert NodeOk(rules, c.tree, id) && NodeTrusted(rules, trust, c.tree, id);
    }
  }

  lemma ExportedRecords(rules: Rules, c: Chain)
    requires Export(rules, c).Value?
    ensures var records := Export(rules, c).value;
      && Ids(records) == ValidatedIds(c.tree)
      && DistinctIds(records)
      && (forall rec | rec in records :: rec.id in c.tree && c.tree[rec.id].pow == Some(rec.validation))
  {
    var ids := InHeightOrder(c, Keys(ValidatedIds(c.tree)));
    InHeightOrderCorrect(c, Keys(ValidatedIds(c.tree)));
    hide InHeightOrder, Keys, AllValidatedOk;
    SameIds(Export(rules, c).value, ids);
  }

  lemma SameIds(records: seq<Record>, ids: seq<ShareId>)
    requires |records| == |ids| && forall i | 0 <= i < |ids| :: records[i].id == ids[i]
    ensures Ids(records) == Elements(ids)
  {
    forall id | id in ids
      ensures id in Ids(records)
    {
      var i :| 0 <= i < |ids| && ids[i] == id;
      assert records[i] in records;
    }
    forall rec | rec in records
      ensures rec.id in ids
    {
      var i :| 0 <= i < |records| && records[i] == rec;
    }
  }

  /** `r` with the validated shares of `c` and their records, and nothing else validated. */
  ghost function Revived(c: Chain, r: Chain): Chain {
    r.(tree := map id | id in r.tree ::
      if id in c.tree && c.tree[id].validated then c.tree[id] else r.tree[id])
  }

  lemma RebuiltRecordOk(rules: Rules, trust: Trust, c: Chain, r: Chain, ids: set<ShareId>, rec: Record)
    requires SoundTrust(rules, trust) && Inv(rules, trust, c) && Rebuilds(c, r)
    requires ids == ValidatedIds(c.tree) && rec.id in ids && c.tree[rec.id].pow == Some(rec.validation)
    ensures RecordOk(rules, r.tree, ids, rec) <==> rec.id != NO_SHARE
  {
    var s := c.tree[rec.id].share;
    ValidatedFacts(rules, trust, c, rec.id);
    TreeOkClosed(rules, c.tree);
    hide SoundTrust, Inv, TreeOk, Consistent, StructuralReason, ParentReason;
    ExpectedStable(rules, c.tree, r.tree, s.parent, s.networkDifficulty);
  }

  lemma ValidatedFacts(rules: Rules, trust: Trust, c: Chain, id: ShareId)
    requires SoundTrust(rules, trust) && Inv(rules, trust, c) && id in c.tree && c.tree[id].validated
    ensures var n := c.tree[id];
      && n.id == id && ShareOk(rules, n.share, id)
      && n.pow.Some? && Consistent(n.pow.value) && rules.policy.Some?
      && Expected(rules, c.tree, n.share.parent, n.share.networkDifficulty) == Value(n.share.difficulty)
      && (IsRoot(n.share) ||
          (&& n.share.parent in c.tree && c.tree[n.share.parent].validated
           && ParentReason(n.share, c.tree[n.share.parent].share) == Accepted))
  {
    assert NodeOk(rules, c.tree, id) && NodeTrusted(rules, trust, c.tree, id);
  }

  lemma RebuiltRecordsOk(rules: Rules, trust: Trust, c: Chain, r: Chain, records: seq<Record>)
    requires SoundTrust(rules, trust) && Inv(rules, trust, c) && Rebuilds(c, r)
    requires Ids(records) == ValidatedIds(c.tree)
    requires forall rec | rec in records :: rec.id in c.tree && c.tree[rec.id].pow == Some(rec.validation)
    ensures (forall rec | rec in records :: RecordOk(rules, r.tree, Ids(records), rec))
       <==> NO_SHARE !in ValidatedIds(c.tree)
  {
    forall rec | rec in records
      ensures RecordOk(rules, r.tree, Ids(records), rec) <==> rec.id != NO_SHARE
    {
      RebuiltRecordOk(rules, trust, c, r, ValidatedIds(c.tree), rec);
    }
    hide RecordOk, Inv, Rebuilds;
  }

  /** Restoring an export into any chain that rebuilds the tree brings back exactly the validated shares
      and their records.  The one refusal is an export that names the all-zero identifier. */
  lemma RestoreRoundTrip(rules: Rules, trust: Trust, c: Chain, r: Chain)
    requires SoundTrust(rules, trust) && Inv(rules, trust, c) && Export(rules, c).Value? && Rebuilds(c, r)
    ensures Restore(rules, r, Export(rules, c).value) ==
      if NO_SHARE in ValidatedIds(c.tree) then Step(r, Thrown)
      else Step(Revived(c, r), Value(|ValidatedIds(c.tree)|))
    ensures ValidatedIds(Revived(c, r).tree) == ValidatedIds(c.tree)
  {
    var records := Export(rules, c).value;
    ExportedRecords(rules, c);
    RebuiltRecordsOk(rules, trust, c, r, records);
    TreeIds(rules, c.tree);
    hide Inv, RecordOk, SoundTrust, NodeOk, Export;
    RestoredIsRevived(c, r, records);
    RebuiltUnvalidated(rules, c, r, records);
    RevivedIds(c, r);
    hide RestoredTree, Revived, Rebuilds, ValidatedIds, NewlyValidated;
  }

  lemma RevivedIds(c: Chain, r: Chain)
    requires Rebuilds(c, r)
    ensures ValidatedIds(Revived(c, r).tree) == ValidatedIds(c.tree)
  {
  }

  lemma RebuiltUnvalidated(rules: Rules, c: Chain, r: Chain, records: seq<Record>)
    requires Ids(records) == ValidatedIds(c.tree) && Rebuilds(c, r)
    ensures AllValidatedOk(rules, r.tree)
    ensures NewlyValidated(r.tree, records) == ValidatedIds(c.tree)
    ensures records == [] ==> Revived(c, r) == r && ValidatedIds(c.tree) == {}
    ensures Revived(c, r) == r.(tree := Revived(c, r).tree)
  {
    if records == [] {
      assert Ids(records) == {};
      forall id | id in c.tree
        ensures !c.tree[id].validated
      {
        assert id !in ValidatedIds(c.tree);
      }
      assert Revived(c, r).tree == r.tree;
    }
  }

  lemma RestoredIsRevived(c: Chain, r: Chain, records: seq<Record>)
    requires Rebuilds(c, r) && Ids(records) == ValidatedIds(c.tree)
    requires forall id | id in c.tree :: c.tree[id].id == id
    requires forall rec | rec in records :: rec.id in c.tree && c.tree[rec.id].pow == Some(rec.validation)
    ensures RestoredTree(r.tree, records) == Revived(c, r).tree
  {
    forall id | id in r.tree
      ensures RestoredNode(records, r.tree[id]) == Revived(c, r).tree[id]
    {
      if id in c.tree && c.tree[id].validated {
        var _ := ValidationOfRecord(records, id);
      }
    }
  }

  /** Restoring the same export again changes nothing and reports zero. */
  lemma RestoreIdempotent(rules: Rules, trust: Trust, c: Chain, r: Chain)
    requires SoundTrust(rules, trust) && Inv(rules, trust, c) && Export(rules, c).Value? && Rebuilds(c, r)
    requires NO_SHARE !in ValidatedIds(c.tree)
    ensures Restore(rules, Revived(c, r), Export(rules, c).value) == Step(Revived(c, r), Value(0))
  {
    var records, c' := Export(rules, c).value, Revived(c, r);
    ExportedRecords(rules, c);
    KeptValidated(rules, trust, c, r);
    TreeIds(rules, c.tree);
    hide Inv, SoundTrust, Export;
    forall rec | rec in records
      ensures RecordOk(rules, c'.tree, Ids(records), rec)
    {
      assert rec.id in ValidatedIds(c.tree);
      assert ValidatedNodeOk(rules, c'.tree, rec.id);
    }
    RevivedIds(c, r);
    NothingLeftToRestore(c'.tree, records);
    hide RecordOk, Revived, Rebuilds, RestoredTree, ValidatedIds, NewlyValidated;
  }

  lemma NothingLeftToRestore(tree: Tree, records: seq<Record>)
    requires forall id | id in tree :: tree[id].id == id
    requires forall id | id in tree && id in Ids(records) :: tree[id].validated
    ensures RestoredTree(tree, records) == tree
    ensures NewlyValidated(tree, records) == {}
  {
  }

  lemma KeptValidated(rules: Rules, trust: Trust, c: Chain, r: Chain)
    requires SoundTrust(rules, trust) && Inv(rules, trust, c) && Rebuilds(c, r)
    ensures AllValidatedOk(rules, Revived(c, r).tree)
  {
    var tree := Revived(c, r).tree;
    forall id | id in tree && tree[id].validated
      ensures ValidatedNodeOk(rules, tree, id)
    {
      assert NodeOk(rules, c.tree, id) && NodeTrusted(rules, trust, c.tree, id);
    }
  }

  /** The order of the records is irrelevant, so a store may keep them in any order. */
  lemma RestoreIgnoresOrder(rules: Rules, c: Chain, a: seq<Record>, b: seq<Record>)
    requires multiset(a) == multiset(b)
    ensures Restore(rules, c, a) == Restore(rules, c, b)
  {
    SameMembers(a, b);
    assert Ids(a) == Ids(b);
    if DistinctIds(b) {
      DistinctIdsPermutation(b, a);
    }
    if DistinctIds(a) {
      DistinctIdsPermutation(a, b);
      forall id | id in Ids(a)
        ensures ValidationOf(a, id) == ValidationOf(b, id)
      {
        var x := ValidationOfRecord(a, id);
        var y := ValidationOfRecord(b, id);
        assert y in a;
      }
      assert RestoredTree(c.tree, a) == RestoredTree(c.tree, b);
    }
  }

  /** The whole restart of any configured chain, stranded orphans or not: persist, replay unchecked,
      restore the export.  Every connected share is back at its work, exactly the validated ones are
      validated with their records, and a second restore finds nothing to do.  Only an export that names
      the all-zero identifier is refused, and then nothing is restored. */
  lemma RestartRoundTrip(rules: Rules, trust: Trust, c: Chain)
    requires SoundTrust(rules, trust) && Inv(rules, trust, c) && rules.policy.Some?
    ensures Export(rules, c).Value? && Rebuilds(c, Replayed(rules, c))
    ensures var r, records := Replayed(rules, c), Export(rules, c).value;
      if NO_SHARE in ValidatedIds(c.tree) then Restore(rules, r, records) == Step(r, Thrown)
      else
        && Restore(rules, r, records) == Step(Revived(c, r), Value(|ValidatedIds(c.tree)|))
        && ValidatedIds(Revived(c, r).tree) == ValidatedIds(c.tree)
        && Restore(rules, Revived(c, r), records) == Step(Revived(c, r), Value(0))
  {
    hide Inv, SoundTrust, Export, Restore, Rebuilds, Revived, Replayed, ValidatedIds, NoStrandedOrphan, Closure;
    ExportNeverThrows(rules, trust, c);
    ReplayHeals(rules, trust, c);
    var r := Replayed(rules, c);
    RestoreRoundTrip(rules, trust, c, r);
    if NO_SHARE !in ValidatedIds(c.tree) {
      RestoreIdempotent(rules, trust, c, r);
    }
  }

  /** Without stranded orphans the chain itself is back, orphans and tip included: only records and flags of
      shares that were not validated are missing. */
  lemma RestartRestoresChain(rules: Rules, trust: Trust, c: Chain)
    requires SoundTrust(rules, trust) && Inv(rules, trust, c) && rules.policy.Some?
    requires NoStrandedOrphan(c) && NO_SHARE !in ValidatedIds(c.tree)
    ensures Export(rules, c).Value?
    ensures Restore(rules, Replayed(rules, c), Export(rules, c).value)
         == Step(Revived(c, Structure(c)), Value(|ValidatedIds(c.tree)|))
  {
    hide Inv, SoundTrust, Export, Restore, Rebuilds, Revived, Replayed, ValidatedIds, NoStrandedOrphan, Structure;
    RestartRoundTrip(rules, trust, c);
    ReplayRebuildsStructure(rules, trust, c);
  }
}

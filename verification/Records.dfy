/** Validation records as they are exported, stored and restored. */
module Records {
  import opened Orders
  import opened Shares

  datatype Record = Record(id: ShareId, validation: Validation)

  function Ids(records: seq<Record>): set<ShareId> {
    set rec | rec in records :: rec.id
  }

  ghost predicate DistinctIds(records: seq<Record>) {
    forall i, j | 0 <= i < j < |records| :: records[i].id != records[j].id
  }

  lemma DistinctIdsPermutation(a: seq<Record>, b: seq<Record>)
    requires multiset(a) == multiset(b) && DistinctIds(a)
    ensures DistinctIds(b)
  {
    SameMembers(a, b);
    assert Distinct(a);
    DistinctPermutation(a, b);
    forall i, j | 0 <= i < j < |b|
      ensures b[i].id != b[j].id
    {
      assert b[i] in a && b[j] in a && b[i] != b[j];
    }
  }
}

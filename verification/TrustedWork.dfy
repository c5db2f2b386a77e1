/** The registry of trusted work: which mining work shares may be built on, and where it came from. */
module TrustedWork {
  import opened Basics
  import opened Shares
  import opened ShareTree

  datatype WorkKey = WorkKey(zanoHeight: U64, header: Hash256, parent: ShareId)

  /** `zanoParent` is the canonical Zano block the work was built on, when that is known. */
  datatype Entry = Entry(context: WorkContext, zanoParent: Option<Hash256>)

  type Registry = map<WorkKey, Entry>

  function KeyOf(context: WorkContext, parent: ShareId): WorkKey {
    WorkKey(context.zanoHeight, context.header, parent)
  }

  function KeyOfShare(s: Share): WorkKey { WorkKey(s.zanoHeight, s.header, s.parent) }

  // ---- Remembering -----------------------------------------------------------------------------

  /** `remember`, refusing zero difficulty and anything that conflicts with what is known. */
  function Remember(r: Registry, context: WorkContext, parent: ShareId, zanoParent: Option<Hash256>): Outcome<Registry> {
    var key := KeyOf(context, parent);
    if context.networkDifficulty == 0 then Thrown
    else if key !in r then Value(r[key := Entry(context, zanoParent)])
    else if r[key].context.networkDifficulty != context.networkDifficulty then Thrown
    else if zanoParent.None? then Value(r)
    else if r[key].zanoParent.Some? && r[key].zanoParent != zanoParent then Thrown
    else Value(r[key := r[key].(zanoParent := zanoParent)])
  }

  /** Every entry is filed under its own work, and none authorises zero difficulty. */
  ghost predicate WellFiled(r: Registry) {
    forall key | key in r ::
      KeyOf(r[key].context, key.parent) == key && r[key].context.networkDifficulty != 0
  }

  /** Remembering never changes what an entry authorises and never replaces known provenance; on success
      the work is found again, exactly as it was given. */
  lemma RememberKeeps(r: Registry, context: WorkContext, parent: ShareId, zanoParent: Option<Hash256>)
    requires WellFiled(r) && Remember(r, context, parent, zanoParent).Value?
    ensures var r' := Remember(r, context, parent, zanoParent).value;
      && WellFiled(r')
      && (forall key | key in r :: key in r' && r'[key].context == r[key].context
            && (r[key].zanoParent.Some? ==> r'[key].zanoParent == r[key].zanoParent))
      && KeyOf(context, parent) in r' && r'[KeyOf(context, parent)].context == context
      && (zanoParent.Some? ==> r'[KeyOf(context, parent)].zanoParent == zanoParent)
      && (forall key | key in r' && key != KeyOf(context, parent) :: key in r)
  {
  }

  // ---- Erasing ---------------------------------------------------------------------------------

  predicate Conflicts(key: WorkKey, entry: Entry, height: U64, zanoParent: Hash256) {
    key.zanoHeight == height && entry.zanoParent.Some? && entry.zanoParent.value != zanoParent
  }

  function EraseConflicting(r: Registry, height: U64, zanoParent: Hash256): Registry {
    map key | key in r && !Conflicts(key, r[key], height, zanoParent) :: r[key]
  }

  function EraseHeight(r: Registry, height: U64): Registry {
    map key | key in r && key.zanoHeight != height :: r[key]
  }

  function EraseAbove(r: Registry, max: U64): Registry {
    map key | key in r && key.zanoHeight <= max :: r[key]
  }

  /** `kept` is what is left of `r` without the entries to erase. */
  ghost predicate Leaves(r: Registry, erase: (WorkKey, Entry) -> bool, kept: Registry) {
    && (forall key | key in kept :: key in r && kept[key] == r[key] && !erase(key, r[key]))
    && (forall key | key in r && !erase(key, r[key]) :: key in kept)
  }

  /** The count says how many entries went, so it says whether any did. */
  ghost predicate Counts(before: Registry, after: Registry, erased: nat) {
    erased == |before| - |after| && (erased == 0 <==> after == before)
  }

  /** What the erasing loop has done when `todo` is what it has still to look at. */
  ghost predicate Erasing(
    r: Registry, erase: (WorkKey, Entry) -> bool, todo: set<WorkKey>, now: Registry, erased: nat)
  {
    && todo <= now.Keys
    && (forall key | key in now :: key in r && now[key] == r[key] && (key in todo || !erase(key, r[key])))
    && (forall key | key in r && key !in now :: erase(key, r[key]))
    && erased == |r| - |now|
  }

  lemma ErasingNext(
    r: Registry, erase: (WorkKey, Entry) -> bool, todo: set<WorkKey>, now: Registry, erased: nat, key: WorkKey)
    requires Erasing(r, erase, todo, now, erased) && key in todo
    ensures key in now
    ensures erase(key, now[key]) ==> Erasing(r, erase, todo - {key}, now - {key}, erased + 1)
    ensures !erase(key, now[key]) ==> Erasing(r, erase, todo - {key}, now, erased)
  {
    assert (now - {key}).Keys == now.Keys - {key};
    assert |now - {key}| == |now.Keys - {key}| == |now.Keys| - 1;
  }

  lemma ErasingDone(r: Registry, erase: (WorkKey, Entry) -> bool, now: Registry, erased: nat)
    requires Erasing(r, erase, {}, now, erased)
    ensures Leaves(r, erase, now) && Counts(r, now, erased)
  {
    assert r.Keys == now.Keys + (r.Keys - now.Keys);
    assert |r| == |r.Keys| && |now| == |now.Keys|;
    if erased == 0 {
      assert r.Keys - now.Keys == {};
    }
  }

  /** Only one registry is left by erasing. */
  lemma LeavesUnique(r: Registry, erase: (WorkKey, Entry) -> bool, a: Registry, b: Registry)
    requires Leaves(r, erase, a) && Leaves(r, erase, b)
    ensures a == b
  {
  }

  class P2pTrustedWorkRegistry {
    var contexts: Registry

    constructor ()
      ensures contexts == map[]
    {
      contexts := map[];
    }

    method RememberWork(context: WorkContext, parent: ShareId, zanoParent: Option<Hash256>) returns (r: Outcome<()>)
      modifies this
      ensures var next := Remember(old(contexts), context, parent, zanoParent);
        r.Thrown? == next.Thrown? && contexts == if next.Thrown? then old(contexts) else next.value
    {
      if context.networkDifficulty == 0 {
        return Thrown;
      }
      var key := KeyOf(context, parent);
      if key !in contexts {
        contexts := contexts[key := Entry(context, zanoParent)];
        return Value(());
      }
      if contexts[key].context.networkDifficulty != context.networkDifficulty {
        return Thrown;
      }
      if zanoParent.Some? {
        if contexts[key].zanoParent.Some? && contexts[key].zanoParent != zanoParent {
          return Thrown;
        }
        contexts := contexts[key := contexts[key].(zanoParent := zanoParent)];
      }
      return Value(());
    }

    /** The loop all three erasures share: look at every entry once, in any order. */
    method EraseIf(erase: (WorkKey, Entry) -> bool) returns (erased: nat)
      modifies this
      ensures Leaves(old(contexts), erase, contexts) && Counts(old(contexts), contexts, erased)
    {
      ghost var was := contexts;
      var todo := contexts.Keys;
      erased := 0;
      while todo != {}
        invariant Erasing(was, erase, todo, contexts, erased)
      {
        hide Erasing;
        var key :| key in todo;
        ErasingNext(was, erase, todo, contexts, erased, key);
        if erase(key, contexts[key]) {
          contexts, erased := contexts - {key}, erased + 1;
        }
        todo := todo - {key};
      }
      ErasingDone(was, erase, contexts, erased);
    }

    method EraseZanoHeight(height: U64) returns (erased: nat)
      modifies this
      ensures contexts == EraseHeight(old(contexts), height) && Counts(old(contexts), contexts, erased)
    {
      var erase := (key: WorkKey, entry: Entry) => key.zanoHeight == height;
      erased := EraseIf(erase);
      LeavesUnique(old(contexts), erase, contexts, EraseHeight(old(contexts), height));
    }

    method EraseZanoHeightsAbove(max: U64) returns (erased: nat)
      modifies this
      ensures contexts == EraseAbove(old(contexts), max) && Counts(old(contexts), contexts, erased)
    {
      var erase := (key: WorkKey, entry: Entry) => key.zanoHeight > max;
      erased := EraseIf(erase);
      LeavesUnique(old(contexts), erase, contexts, EraseAbove(old(contexts), max));
    }

    method EraseZanoParentMismatch(height: U64, zanoParent: Hash256) returns (erased: nat)
      modifies this
      ensures contexts == EraseConflicting(old(contexts), height, zanoParent) && Counts(old(contexts), contexts, erased)
    {
      var erase := (key: WorkKey, entry: Entry) => Conflicts(key, entry, height, zanoParent);
      erased := EraseIf(erase);
      LeavesUnique(old(contexts), erase, contexts, EraseConflicting(old(contexts), height, zanoParent));
    }
  }
}

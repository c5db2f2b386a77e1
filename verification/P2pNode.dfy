/** The protocol object: reconciliation loops and payout setters on a live share chain. */
module P2pNodes {
  import opened Basics
  import opened Orders
  import opened Shares
  import opened ShareTree
  import opened TreeInvariant
  import opened Restart
  import opened Agreement
  import opened Pruning
  import opened ShareChains
  import opened TrustedWork
  import opened Reconcile
  import Coinbase

  /** The shares a reconciliation is about. */
  ghost function DoomedBy(tree: Tree, affected: Share -> bool): set<ShareId> {
    set id | id in tree && affected(tree[id].share)
  }

  lemma {:induction false} SweepShrinks(c: Chain, ids: seq<ShareId>, doomed: set<ShareId>, x: ShareId)
    requires x in Sweep(c, ids, doomed).tree
    ensures x in c.tree && Sweep(c, ids, doomed).tree[x] == c.tree[x]
  {
    if ids != [] {
      SweepShrinks(c, ids[..|ids| - 1], doomed, x);
    }
  }

  lemma SweepNext(c: Chain, ids: seq<ShareId>, i: nat, doomed: set<ShareId>)
    requires i < |ids|
    ensures Sweep(c, ids[..i + 1], doomed) ==
      var rest := Sweep(c, ids[..i], doomed);
      if ids[i] in doomed then Prune(rest, ids[i]) else rest
  {
    hide Prune;
    assert ids[..i + 1][..i] == ids[..i];
  }

  /** Skipping a share that is gone already is the same as pruning it. */
  lemma SkipIsPrune(c: Chain, ids: seq<ShareId>, i: nat, affected: Share -> bool)
    requires i < |ids| && ids[i] in c.tree
    ensures var doomed := DoomedBy(c.tree, affected);
      var rest := Sweep(c, ids[..i], doomed);
      Sweep(c, ids[..i + 1], doomed) ==
      if ids[i] in rest.tree && affected(rest.tree[ids[i]].share) then Prune(rest, ids[i]) else rest
  {
    var doomed := DoomedBy(c.tree, affected);
    SweepNext(c, ids, i, doomed);
    if ids[i] in Sweep(c, ids[..i], doomed).tree {
      SweepShrinks(c, ids[..i], doomed, ids[i]);
    }
  }

  class P2pNodeProtocol {
    const chain: ShareChain
    const trustedWork: P2pTrustedWorkRegistry
    var anchor: Option<LocalAnchor>
    var payout: Option<PayoutKeys>
    var plan: Option<Coinbase.Plan>
    var payoutParent: Option<ShareId>

    ghost function Model(): ProtocolState
      reads this, chain, trustedWork
    {
      ProtocolState(chain.Model(), trustedWork.contexts, anchor, payout, plan, payoutParent)
    }

    ghost predicate Valid()
      reads this, chain, trustedWork
    {
      chain.Valid() && PayoutOk(Model()) && WellFiled(trustedWork.contexts)
    }

    constructor (chain: ShareChain, trustedWork: P2pTrustedWorkRegistry)
      requires chain.Valid() && WellFiled(trustedWork.contexts)
      ensures Valid() && this.chain == chain && this.trustedWork == trustedWork
      ensures Model() == FreshNode(chain.Model(), trustedWork.contexts)
    {
      this.chain, this.trustedWork := chain, trustedWork;
      anchor, payout, plan, payoutParent := None, None, None, None;
    }

    lemma ModelInv()
      requires Valid()
      ensures NodeInv(chain.rules, ConsistentRecords(), Model())
    {
    }

    /** One share of the sweep. */
    method PruneIfAffected(id: ShareId, affected: Share -> bool, ghost before: Tree, pruned: nat)
      returns (total: nat)
      requires chain.Valid() && CountsRemovals(before, chain.Model().tree, pruned)
      modifies chain`connected, chain`bestTip
      ensures chain.Valid() && CountsRemovals(before, chain.Model().tree, total)
      ensures var c := old(chain.Model());
        chain.Model() == if id in c.tree && affected(c.tree[id].share) then Prune(c, id) else c
    {
      ghost var c := chain.Model();
      SameConnected(id);
      hide Inv, IndexOk, Unindexed, TreeOf, Prune, Keys, CountsRemovals;
      total := pruned;
      if id in chain.connected && affected(chain.connected[id].share) {
        var removed := chain.PruneConnectedSubtreeIds(id);
        PrunedIds(c, id, removed);
        RemovalsAdd(before, c.tree, chain.Model().tree, pruned, removed);
        total := pruned + |removed|;
      }
    }

    /** Visit shares in the given order and prune the affected ones that are still there. */
    method SweepInOrder(ids: seq<ShareId>, affected: Share -> bool) returns (pruned: nat)
      requires chain.Valid() && forall id | id in ids :: id in chain.Model().tree
      modifies chain`connected, chain`bestTip
      ensures chain.Valid()
      ensures var c := old(chain.Model());
        && chain.Model() == Sweep(c, ids, DoomedBy(c.tree, affected))
        && CountsRemovals(c.tree, chain.Model().tree, pruned)
    {
      ghost var c := chain.Model();
      ghost var doomed := DoomedBy(c.tree, affected);
      hide Inv, IndexOk, Unindexed, TreeOf, Sweep, Prune, DoomedBy, CountsRemovals;
      pruned := 0;
      SweepNothing(c, ids, doomed);
      for i := 0 to |ids|
        invariant chain.Valid() && chain.Model() == Sweep(c, ids[..i], doomed)
        invariant CountsRemovals(c.tree, chain.Model().tree, pruned)
      {
        assert ids[i] in ids;
        SkipIsPrune(c, ids, i, affected);
        pruned := PruneIfAffected(ids[i], affected, c.tree, pruned);
      }
      assert ids[..|ids|] == ids;
    }

    /** Visit the connected shares lowest first; any other order would remove the same. */
    method PruneAffected(affected: Share -> bool) returns (pruned: nat)
      requires chain.Valid()
      modifies chain`connected, chain`bestTip
      ensures chain.Valid()
      ensures var c := old(chain.Model());
        && chain.Model() == Sweep(c, VisitOrder(c), DoomedBy(c.tree, affected))
        && CountsRemovals(c.tree, chain.Model().tree, pruned)
    {
      ghost var c := chain.Model();
      var ids := chain.SortByHeight(Keys(chain.connected.Keys));
      OrderCovers(ids);
      hide Sweep, DoomedBy, Keys, IndexOk, Unindexed, TreeOf, CountsRemovals, InHeightOrder;
      DoomedInside(c.tree, affected);
      SweepOrderIrrelevant(chain.rules, ConsistentRecords(), c, ids, VisitOrder(c), DoomedBy(c.tree, affected));
      hide Inv;
      pruned := SweepInOrder(ids, affected);
    }

    lemma OrderCovers(ids: seq<ShareId>)
      requires ids == InHeightOrder(chain.Model(), Keys(chain.connected.Keys))
      ensures forall id :: id in ids <==> id in chain.Model().tree
      ensures forall id :: id in VisitOrder(chain.Model()) <==> id in chain.Model().tree
    {
      InHeightOrderCorrect(chain.Model(), Keys(chain.connected.Keys));
    }

    method ClearExpectedPayout()
      modifies `payout, `plan, `payoutParent
      ensures Model() == Cleared(old(Model()))
    {
      payout, plan, payoutParent := None, None, None;
    }

    /** Everything but the registry: prune, and prepare the proof that what follows is the reconciliation. */
    method SweepShares(affected: Share -> bool, ghost kept: Registry, ghost onRevoke: bool) returns (pruned: nat)
      requires Valid() && WellFiled(kept)
      modifies chain`connected, chain`bestTip
      ensures chain.Valid()
      ensures var n := old(Model());
        var doomed := DoomedBy(n.chain.tree, affected);
        && Model() == Swept(n, doomed) && (pruned != 0 <==> RemovedAny(n, doomed))
        && CountsRemovals(n.chain.tree, Swept(n, doomed).chain.tree, pruned)
        && NodeInv(chain.rules, ConsistentRecords(), Reconciled(n, doomed, kept, onRevoke))
    {
      ghost var before := Model();
      ghost var doomed := DoomedBy(before.chain.tree, affected);
      ModelInv();
      DoomedInside(before.chain.tree, affected);
      hide Inv, IndexOk, Unindexed, TreeOf, Sweep, DoomedBy, PayoutOk, CountsRemovals, Swept, RemovedAny,
           Reconciled, WellFiled, VisitOrder;
      ReconcileKeepsInv(chain.rules, ConsistentRecords(), before, doomed, kept, onRevoke);
      pruned := PruneAffected(affected);
      SweptIs(before, doomed, chain.Model());
      RemovedIff(before, doomed, chain.Model().tree, pruned);
    }

    /** Forget the expectation if the reconciliation took something away. */
    method Finish(
      forget: bool, ghost n: ProtocolState, ghost doomed: set<ShareId>, ghost kept: Registry, ghost onRevoke: bool)
      requires chain.Valid() && Model() == Swept(n, doomed).(registry := kept)
      requires forget <==> Forgets(n, doomed, kept, onRevoke)
      requires NodeInv(chain.rules, ConsistentRecords(), Reconciled(n, doomed, kept, onRevoke))
      modifies `payout, `plan, `payoutParent
      ensures Valid() && Model() == Reconciled(n, doomed, kept, onRevoke)
    {
      hide Swept, RemovedAny, Forgets, Inv, IndexOk, Unindexed, TreeOf, PayoutOk, WellFiled;
      if forget {
        ClearExpectedPayout();
      }
    }

    method RevokeMismatch(height: U64, zanoParent: Hash256) returns (revoked: nat)
      requires chain.Valid()
      modifies trustedWork
      ensures chain.Valid() && chain.Model() == old(chain.Model())
      ensures var r := old(Model()).registry;
        var kept := EraseConflicting(r, height, zanoParent);
        Model() == old(Model()).(registry := kept) && Counts(r, kept, revoked)
    {
      hide Inv, IndexOk, Unindexed, TreeOf, Counts, EraseConflicting;
      revoked := trustedWork.EraseZanoParentMismatch(height, zanoParent);
    }

    method RevokeHeight(height: U64) returns (revoked: nat)
      requires chain.Valid()
      modifies trustedWork
      ensures chain.Valid() && chain.Model() == old(chain.Model())
      ensures var r := old(Model()).registry;
        var kept := EraseHeight(r, height);
        Model() == old(Model()).(registry := kept) && Counts(r, kept, revoked)
    {
      hide Inv, IndexOk, Unindexed, TreeOf, Counts, EraseHeight;
      revoked := trustedWork.EraseZanoHeight(height);
    }

    method RevokeAbove(max: U64) returns (revoked: nat)
      requires chain.Valid()
      modifies trustedWork
      ensures chain.Valid() && chain.Model() == old(chain.Model())
      ensures var r := old(Model()).registry;
        var kept := EraseAbove(r, max);
        Model() == old(Model()).(registry := kept) && Counts(r, kept, revoked)
    {
      hide Inv, IndexOk, Unindexed, TreeOf, Counts, EraseAbove;
      revoked := trustedWork.EraseZanoHeightsAbove(max);
    }

    method ReconcileCanonicalParent(height: U64, zanoParent: Hash256) returns (pruned: nat, revoked: nat)
      requires Valid()
      modifies trustedWork, `payout, `plan, `payoutParent, chain`connected, chain`bestTip
      ensures Valid() && Model() == ReconcileParent(old(Model()), height, zanoParent)
      ensures CountsRemovals(old(Model()).chain.tree, Model().chain.tree, pruned)
      ensures Counts(old(Model()).registry, Model().registry, revoked)
    {
      ghost var before, kept := Model(), EraseConflicting(trustedWork.contexts, height, zanoParent);
      var known := trustedWork.contexts;
      var affected := (s: Share) => Stale(known, s, height, zanoParent);
      ghost var doomed := DoomedBy(before.chain.tree, affected);
      StaleAre(before.chain.tree, known, height, zanoParent, affected);
      ErasedWellFiled(known, height, zanoParent);
      ReconciledOnly(before, doomed, kept, false);
      hide IndexOk, Unindexed, TreeOf, StaleIds, DoomedBy, PayoutOk, Inv, CountsRemovals, EraseConflicting, Stale,
           WellFiled, Swept, RemovedAny, Counts, Reconciled, Forgets, NodeInv, P2pNodeProtocol.Model;
      pruned := SweepShares(affected, kept, false);
      revoked := RevokeMismatch(height, zanoParent);
      ForgetsIf(before, doomed, kept, false, pruned, revoked);
      Finish(pruned != 0, before, doomed, kept, false);
    }

    method ReconcileUnavailableWorkHeight(height: U64) returns (pruned: nat, revoked: nat)
      requires Valid()
      modifies trustedWork, `payout, `plan, `payoutParent, chain`connected, chain`bestTip
      ensures Valid() && Model() == ReconcileHeight(old(Model()), height)
      ensures CountsRemovals(old(Model()).chain.tree, Model().chain.tree, pruned)
      ensures Counts(old(Model()).registry, Model().registry, revoked)
    {
      ghost var before, kept := Model(), EraseHeight(trustedWork.contexts, height);
      var affected := (s: Share) => s.zanoHeight == height;
      ghost var doomed := DoomedBy(before.chain.tree, affected);
      AtHeightAre(before.chain.tree, height, affected);
      ErasedWellFiled(trustedWork.contexts, height, height);
      ReconciledOnly(before, doomed, kept, true);
      hide IndexOk, Unindexed, TreeOf, IdsAtHeight, DoomedBy, PayoutOk, Inv, CountsRemovals, EraseHeight, WellFiled,
           Swept, RemovedAny, Counts, Reconciled, Forgets, NodeInv, P2pNodeProtocol.Model;
      pruned := SweepShares(affected, kept, true);
      revoked := RevokeHeight(height);
      ForgetsIf(before, doomed, kept, true, pruned, revoked);
      Finish(pruned != 0 || revoked != 0, before, doomed, kept, true);
    }

    method ReconcileUnavailableWorkAbove(max: U64) returns (pruned: nat, revoked: nat)
      requires Valid()
      modifies trustedWork, `payout, `plan, `payoutParent, chain`connected, chain`bestTip
      ensures Valid() && Model() == ReconcileAbove(old(Model()), max)
      ensures CountsRemovals(old(Model()).chain.tree, Model().chain.tree, pruned)
      ensures Counts(old(Model()).registry, Model().registry, revoked)
    {
      ghost var before, kept := Model(), EraseAbove(trustedWork.contexts, max);
      var affected := (s: Share) => s.zanoHeight > max;
      ghost var doomed := DoomedBy(before.chain.tree, affected);
      AboveAre(before.chain.tree, max, affected);
      ErasedWellFiled(trustedWork.contexts, max, max);
      ReconciledOnly(before, doomed, kept, true);
      hide IndexOk, Unindexed, TreeOf, IdsAbove, DoomedBy, PayoutOk, Inv, CountsRemovals, EraseAbove, WellFiled,
           Swept, RemovedAny, Counts, Reconciled, Forgets, NodeInv, P2pNodeProtocol.Model;
      pruned := SweepShares(affected, kept, true);
      revoked := RevokeAbove(max);
      ForgetsIf(before, doomed, kept, true, pruned, revoked);
      Finish(pruned != 0 || revoked != 0, before, doomed, kept, true);
    }

    function BestTipOrZero(): ShareId
      reads chain
      ensures BestTipOrZero() == TipId(chain.Model())
    {
      if chain.bestTip.Some? then chain.bestTip.value else NO_SHARE
    }

    method SetExpectedPayout(address: PayoutKeys)
      requires Valid()
      modifies `payout, `plan, `payoutParent
      ensures Valid() && Model() == SetPayout(old(Model()), address)
    {
      PayoutSetters(chain.rules, ConsistentRecords(), Model(), address);
      hide Inv, IndexOk, Unindexed, TreeOf;
      payout, plan, payoutParent := Some(address), None, Some(BestTipOrZero());
    }

    method SetExpectedPayoutPlan(next: Coinbase.Plan)
      requires Valid()
      modifies `payout, `plan, `payoutParent
      ensures Valid() && Model() == SetPlan(old(Model()), next, TipId(old(Model()).chain))
    {
      TipPlan(chain.rules, ConsistentRecords(), Model(), next);
      hide Inv, IndexOk, Unindexed, TreeOf;
      payout, plan, payoutParent := None, Some(next), Some(BestTipOrZero());
    }

    /** A replaced parent at the height being mined reconciles and drops the expectation. */
    method ReplaceParent(next: LocalAnchor)
      requires Valid()
      modifies trustedWork, `payout, `plan, `payoutParent, chain`connected, chain`bestTip
      ensures Valid() && Model() == ReplaceLocalParent(old(Model()), next)
    {
      hide Inv, IndexOk, Unindexed, TreeOf, ReconcileParent, PayoutOk, CountsRemovals, Counts, Cleared, WellFiled;
      if anchor.None? || anchor.value.zanoHeight != next.zanoHeight || anchor.value.prevHash == next.prevHash {
        return;
      }
      ClearedOk(ReconcileParent(Model(), next.zanoHeight, next.prevHash));
      var _, _ := ReconcileCanonicalParent(next.zanoHeight, next.prevHash);
      ClearExpectedPayout();
    }

    /** Install a payout plan on an explicit parent, or on the best tip. */
    method InstallPayoutPlan(next: LocalAnchor, newPlan: Coinbase.Plan, parent: Option<ShareId>)
      returns (r: Outcome<()>)
      requires Valid()
      modifies `anchor, `payout, `plan, `payoutParent
      ensures Valid() && Model() == InstallPlan(chain.rules, old(Model()), next, newPlan, parent)
      ensures r.Thrown? <==> parent.Some? && !MayPayFrom(chain.rules, old(Model()).chain, parent.value)
    {
      ModelInv();
      if parent.Some? {
        SameConnected(parent.value);
      }
      hide Inv, IndexOk, Unindexed, TreeOf, PayoutOk, WellFiled;
      PlanSetters(chain.rules, ConsistentRecords(), Model(), next, newPlan, parent);
      var resolved := if parent.Some? then parent.value else BestTipOrZero();
      if parent.Some? && resolved != NO_SHARE {
        if resolved !in chain.connected || (chain.rules.policy.Some? && !chain.connected[resolved].validated) {
          return Thrown;
        }
      }
      anchor, plan, payout, payoutParent := Some(next), Some(newPlan), None, Some(resolved);
      return Value(());
    }

    method SetLocalMiningContext(next: LocalAnchor)
      requires Valid()
      modifies this, trustedWork, chain`connected, chain`bestTip
      ensures Valid() && Model() == ReplaceLocalParent(old(Model()), next).(anchor := Some(next))
    {
      hide Inv, IndexOk, Unindexed, TreeOf, PayoutOk, ReplaceLocalParent, WellFiled;
      ReplaceParent(next);
      AnchorOnly(Model(), next);
      anchor := Some(next);
    }

    method SetLocalMiningContextWithPayout(next: LocalAnchor, address: PayoutKeys)
      requires Valid()
      modifies this, trustedWork, chain`connected, chain`bestTip
      ensures Valid()
      ensures Model() == SetPayout(ReplaceLocalParent(old(Model()), next).(anchor := Some(next)), address)
    {
      hide Inv, IndexOk, Unindexed, TreeOf, PayoutOk, ReplaceLocalParent, SetPayout, WellFiled;
      SetLocalMiningContext(next);
      SetExpectedPayout(address);
    }

    /** A refused parent still leaves the reconciliation done, and nothing else. */
    method SetLocalMiningContextWithPlan(next: LocalAnchor, newPlan: Coinbase.Plan, parent: Option<ShareId>)
      returns (r: Outcome<()>)
      requires Valid()
      modifies this, trustedWork, chain`connected, chain`bestTip
      ensures Valid()
      ensures var n := ReplaceLocalParent(old(Model()), next);
        && Model() == InstallPlan(chain.rules, n, next, newPlan, parent)
        && (r.Thrown? <==> parent.Some? && !MayPayFrom(chain.rules, n.chain, parent.value))
    {
      hide Inv, IndexOk, Unindexed, TreeOf, PayoutOk, InstallPlan, ReplaceLocalParent, WellFiled, MayPayFrom;
      ReplaceParent(next);
      r := InstallPayoutPlan(next, newPlan, parent);
    }

    /** `receive_share`, and forgetting the payout expectation when the best tip moves. */
    method ReceiveShare(share: Share, capable: bool, now: U64, powAvailable: bool)
      returns (r: Outcome<ReceiveResult>)
      requires Valid()
      modifies `payout, `plan, `payoutParent, chain`connected, chain`orphans, chain`orphansByParent, chain`bestTip
      ensures Valid() && Model() == Received(chain.rules, old(Model()), share, capable, now, powAvailable)
      ensures r == Receive(chain.rules, old(Model()), share, capable, now, powAvailable).outcome
    {
      ghost var before := Model();
      ModelInv();
      TrustsAreSound(chain.rules);
      ReceivedKeepsInv(chain.rules, ConsistentRecords(), before, share, capable, now, powAvailable);
      var id := chain.rules.idOf(share);
      SameConnected(id);
      hide Inv, SoundTrust, IndexOk, Unindexed, TreeOf, Submit, PayoutOk, WellFiled;
      if !Encodable(share, chain.rules.minerOf) {
        return Thrown;
      }
      if !capable {
        return Value(CapabilityMissing);
      }
      if id in chain.connected {
        return Value(if chain.rules.policy.Some? && !chain.connected[id].validated then UnknownWorkContext else Duplicate);
      }
      if id in chain.orphans {
        return Value(Duplicate);
      }
      if KeyOfShare(share) !in trustedWork.contexts {
        return Value(UnknownWorkContext);
      }
      var result := chain.SubmitShare(share, trustedWork.contexts[KeyOfShare(share)].context, now, powAvailable);
      if result.Thrown? {
        return Thrown;
      }
      if result.value.tipChanged {
        ClearExpectedPayout();
      }
      return Value(Submitted(result.value));
    }

    /** The prune branch of the historical path: a replayed branch that canonical history contradicts. */
    method PruneReplayedBranch(id: ShareId) returns (pruned: seq<ShareId>)
      requires Valid()
      modifies `payout, `plan, `payoutParent, chain`connected, chain`bestTip
      ensures Valid() && Model() == PruneReplayed(old(Model()), id)
      ensures pruned == if id in old(chain.Model()).tree && !old(chain.Model()).tree[id].validated
        then Keys(Subtree(old(chain.Model()).tree, id)) else []
    {
      ghost var before := Model();
      SameConnected(id);
      hide Inv, IndexOk, Unindexed, TreeOf, PayoutOk, WellFiled, Prune, Keys;
      pruned := [];
      if id in chain.connected && !chain.connected[id].validated {
        pruned := chain.PruneConnectedSubtreeIds(id);
        RootListed(before.chain.tree, id);
        ClearedOk(before.(chain := Prune(before.chain, id)));
        if pruned != [] {
          ClearExpectedPayout();
        }
      }
    }

    lemma SameConnected(id: ShareId)
      ensures id in chain.connected <==> id in chain.Model().tree
      ensures id in chain.connected ==> chain.Model().tree[id].share == chain.connected[id].share
      ensures id in chain.connected ==> chain.Model().tree[id].validated == chain.connected[id].validated
    {
    }
  }

  lemma StaleAre(tree: Tree, r: Registry, height: U64, zanoParent: Hash256, affected: Share -> bool)
    requires forall s :: affected(s) == Stale(r, s, height, zanoParent)
    ensures StaleIds(tree, r, height, zanoParent) == DoomedBy(tree, affected)
  {
  }

  lemma AtHeightAre(tree: Tree, height: U64, affected: Share -> bool)
    requires forall s :: affected(s) == (s.zanoHeight == height)
    ensures IdsAtHeight(tree, height) == DoomedBy(tree, affected)
  {
  }

  lemma AboveAre(tree: Tree, max: U64, affected: Share -> bool)
    requires forall s :: affected(s) == (s.zanoHeight > max)
    ensures IdsAbove(tree, max) == DoomedBy(tree, affected)
  {
  }

  lemma SweptIs(n: ProtocolState, doomed: set<ShareId>, c: Chain)
    requires c == Sweep(n.chain, VisitOrder(n.chain), doomed)
    ensures Swept(n, doomed) == n.(chain := c)
  {
    hide Sweep, VisitOrder;
  }

  lemma ReconciledOnly(n: ProtocolState, doomed: set<ShareId>, kept: Registry, onRevoke: bool)
    ensures Reconciled(n, doomed, kept, onRevoke).chain == Swept(n, doomed).chain
    ensures Reconciled(n, doomed, kept, onRevoke).registry == kept
    ensures Swept(n, doomed).registry == n.registry
  {
    hide Forgets, Sweep;
  }

  lemma ForgetsIf(
    n: ProtocolState, doomed: set<ShareId>, kept: Registry, onRevoke: bool, pruned: nat, revoked: nat)
    requires (pruned != 0 <==> RemovedAny(n, doomed)) && Counts(n.registry, kept, revoked)
    ensures Forgets(n, doomed, kept, onRevoke) <==> pruned != 0 || (onRevoke && revoked != 0)
  {
    hide RemovedAny;
  }

  lemma RootListed(tree: Tree, id: ShareId)
    requires id in tree
    ensures Keys(Subtree(tree, id)) != []
  {
    assert id in Subtree(tree, id);
  }

  lemma RemovedIff(n: ProtocolState, doomed: set<ShareId>, after: Tree, pruned: nat)
    requires after == Swept(n, doomed).chain.tree && CountsRemovals(n.chain.tree, after, pruned)
    ensures pruned != 0 <==> RemovedAny(n, doomed)
  {
    hide Swept;
    if pruned == 0 {
      assert n.chain.tree.Keys - after.Keys == {};
    }
  }

  lemma DoomedInside(tree: Tree, affected: Share -> bool)
    ensures forall x | x in DoomedBy(tree, affected) :: x in tree
  {
  }

  lemma SweepNothing(c: Chain, ids: seq<ShareId>, doomed: set<ShareId>)
    ensures Sweep(c, ids[..0], doomed) == c && CountsRemovals(c.tree, c.tree, 0)
  {
    assert c.tree.Keys - c.tree.Keys == {};
  }
}

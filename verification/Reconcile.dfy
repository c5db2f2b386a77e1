/** Reconciling the share tree, the trusted-work registry and the payout expectation with the canonical
    Zano chain, as a state machine over the protocol's critical sections. */
module Reconcile {
  import opened Basics
  import opened Orders
  import opened Shares
  import opened ShareTree
  import opened TreeInvariant
  import opened Agreement
  import opened Pruning
  import opened TrustedWork
  import Coinbase

  // ---- Removing every affected share -----------------------------------------------------------

  /** Go through `ids` and prune every doomed share that is still connected. */
  ghost function Sweep(c: Chain, ids: seq<ShareId>, doomed: set<ShareId>): Chain {
    if ids == [] then c
    else
      var rest, id := Sweep(c, ids[..|ids| - 1], doomed), ids[|ids| - 1];
      if id in doomed then Prune(rest, id) else rest
  }

  function Affected(ids: seq<ShareId>, doomed: set<ShareId>): seq<ShareId> {
    if ids == [] then []
    else
      var rest, id := Affected(ids[..|ids| - 1], doomed), ids[|ids| - 1];
      if id in doomed then rest + [id] else rest
  }

  lemma {:induction false} AffectedMembers(ids: seq<ShareId>, doomed: set<ShareId>)
    ensures forall x :: x in Affected(ids, doomed) <==> x in ids && x in doomed
  {
    if ids != [] {
      var last := |ids| - 1;
      AffectedMembers(ids[..last], doomed);
      assert ids == ids[..last] + [ids[last]];
    }
  }

  lemma {:induction false} SweepIsPruneAll(c: Chain, ids: seq<ShareId>, doomed: set<ShareId>)
    ensures Sweep(c, ids, doomed) == PruneAll(c, Affected(ids, doomed))
  {
    hide Prune;
    if ids != [] {
      var last := |ids| - 1;
      SweepIsPruneAll(c, ids[..last], doomed);
      if ids[last] in doomed {
        var front := Affected(ids[..last], doomed);
        assert (front + [ids[last]])[..|front|] == front;
      }
    }
  }

  /** A share that is doomed or has a doomed ancestor. */
  ghost predicate Falls(tree: Tree, x: ShareId, doomed: set<ShareId>) {
    exists r :: r in doomed && Descends(tree, x, r)
  }

  /** Whatever the order of iteration, exactly the doomed shares and their descendants go; the rest of
      the tree, the orphans and the best remaining tip are what they should be. */
  lemma SweepExact(rules: Rules, trust: Trust, c: Chain, ids: seq<ShareId>, doomed: set<ShareId>)
    requires Inv(rules, trust, c) && forall x | x in doomed :: x in ids
    ensures var c' := Sweep(c, ids, doomed);
      && Inv(rules, trust, c') && c' == c.(tree := c'.tree, tip := c'.tip) && Pruned(c.tree, c'.tree)
      && (forall x | x in c.tree :: x in c'.tree <==> !Falls(c.tree, x, doomed))
  {
    SweepIsPruneAll(c, ids, doomed);
    AffectedMembers(ids, doomed);
    PruneAllExact(rules, trust, c, Affected(ids, doomed));
    hide Inv, Descends, Pruned, Affected, Sweep, PruneAll;
    forall x | x in c.tree
      ensures Below(c.tree, x, Affected(ids, doomed)) <==> Falls(c.tree, x, doomed)
    {
      if Falls(c.tree, x, doomed) {
        var r :| r in doomed && Descends(c.tree, x, r);
        assert r in Affected(ids, doomed);
      }
    }
  }

  lemma SweepOrderIrrelevant(
    rules: Rules, trust: Trust, c: Chain, a: seq<ShareId>, b: seq<ShareId>, doomed: set<ShareId>)
    requires Inv(rules, trust, c) && forall x | x in doomed :: x in a && x in b
    ensures Sweep(c, a, doomed) == Sweep(c, b, doomed)
  {
    SweepExact(rules, trust, c, a, doomed);
    SweepExact(rules, trust, c, b, doomed);
    var x, y := Sweep(c, a, doomed), Sweep(c, b, doomed);
    BestTips(rules, trust, x);
    BestTips(rules, trust, y);
    hide Inv, Falls, Sweep;
    SameTrees(c.tree, x.tree, y.tree);
    BestTipUnique(x.tree, x.tip, y.tip);
  }

  lemma BestTips(rules: Rules, trust: Trust, c: Chain)
    requires Inv(rules, trust, c)
    ensures IsBestTip(c.tree, c.tip)
  {
  }

  lemma SameTrees(tree: Tree, a: Tree, b: Tree)
    requires Pruned(tree, a) && Pruned(tree, b) && forall x | x in tree :: x in a <==> x in b
    ensures a == b
  {
  }

  // ---- Which shares are affected ---------------------------------------------------------------

  /** The recorded canonical parent of a share's work is another one. */
  predicate Stale(r: Registry, s: Share, height: U64, zanoParent: Hash256) {
    s.zanoHeight == height && KeyOfShare(s) in r && Conflicts(KeyOfShare(s), r[KeyOfShare(s)], height, zanoParent)
  }

  ghost function StaleIds(tree: Tree, r: Registry, height: U64, zanoParent: Hash256): set<ShareId> {
    set id | id in tree && Stale(r, tree[id].share, height, zanoParent)
  }

  ghost function IdsAtHeight(tree: Tree, height: U64): set<ShareId> {
    set id | id in tree && tree[id].share.zanoHeight == height
  }

  ghost function IdsAbove(tree: Tree, max: U64): set<ShareId> {
    set id | id in tree && tree[id].share.zanoHeight > max
  }

  // ---- The node --------------------------------------------------------------------------------

  /** The local daemon's view of the work being mined. */
  datatype LocalAnchor = LocalAnchor(zanoHeight: U64, prevHash: Hash256)

  datatype ProtocolState = ProtocolState(
    chain: Chain,
    registry: Registry,
    anchor: Option<LocalAnchor>,
    payout: Option<PayoutKeys>,
    plan: Option<Coinbase.Plan>,
    payoutParent: Option<ShareId>)

  function Cleared(n: ProtocolState): ProtocolState { n.(payout := None, plan := None, payoutParent := None) }

  ghost function TipId(c: Chain): ShareId { if c.tip.Some? then c.tip.value else NO_SHARE }

  /** The identifiers in the order the program visits them; any order gives the same result. */
  ghost function VisitOrder(c: Chain): seq<ShareId> { Keys(c.tree.Keys) }

  ghost function Swept(n: ProtocolState, doomed: set<ShareId>): ProtocolState {
    n.(chain := Sweep(n.chain, VisitOrder(n.chain), doomed))
  }

  ghost predicate RemovedAny(n: ProtocolState, doomed: set<ShareId>) {
    Swept(n, doomed).chain.tree.Keys != n.chain.tree.Keys
  }

  /** Keep `kept` of the registry, and forget the payout expectation when asked to. */
  ghost function Settle(n: ProtocolState, kept: Registry, forget: bool): ProtocolState {
    var n' := n.(registry := kept);
    if forget then Cleared(n') else n'
  }

  /** Shares were removed or, where that matters, registry entries. */
  ghost predicate Forgets(n: ProtocolState, doomed: set<ShareId>, kept: Registry, onRevoke: bool) {
    RemovedAny(n, doomed) || (onRevoke && kept != n.registry)
  }

  /** Remove the doomed shares, keep `kept` of the registry, and forget the payout expectation if that
      took something away. */
  ghost function Reconciled(n: ProtocolState, doomed: set<ShareId>, kept: Registry, onRevoke: bool): ProtocolState {
    Settle(Swept(n, doomed), kept, Forgets(n, doomed, kept, onRevoke))
  }

  /** `reconcile_canonical_parent`. */
  ghost function ReconcileParent(n: ProtocolState, height: U64, zanoParent: Hash256): ProtocolState {
    Reconciled(n, StaleIds(n.chain.tree, n.registry, height, zanoParent),
               EraseConflicting(n.registry, height, zanoParent), false)
  }

  /** `reconcile_unavailable_work_height`. */
  ghost function ReconcileHeight(n: ProtocolState, height: U64): ProtocolState {
    Reconciled(n, IdsAtHeight(n.chain.tree, height), EraseHeight(n.registry, height), true)
  }

  /** `reconcile_unavailable_work_above`. */
  ghost function ReconcileAbove(n: ProtocolState, max: U64): ProtocolState {
    Reconciled(n, IdsAbove(n.chain.tree, max), EraseAbove(n.registry, max), true)
  }

  ghost function ReplaceLocalParent(n: ProtocolState, next: LocalAnchor): ProtocolState {
    if n.anchor.None? || n.anchor.value.zanoHeight != next.zanoHeight || n.anchor.value.prevHash == next.prevHash
    then n
    else Cleared(ReconcileParent(n, next.zanoHeight, next.prevHash))
  }

  /** A payout-plan parent must be connected, and validated on a configured chain. */
  ghost predicate MayPayFrom(rules: Rules, c: Chain, p: ShareId) {
    p == NO_SHARE || (p in c.tree && (rules.policy.Some? ==> c.tree[p].validated))
  }

  ghost function SetPlan(n: ProtocolState, plan: Coinbase.Plan, parent: ShareId): ProtocolState {
    n.(plan := Some(plan), payout := None, payoutParent := Some(parent))
  }

  /** The plan overload: an explicit parent that may not be paid from is refused. */
  ghost function InstallPlan(
    rules: Rules, n: ProtocolState, anchor: LocalAnchor, plan: Coinbase.Plan, parent: Option<ShareId>): ProtocolState
  {
    var resolved := if parent.Some? then parent.value else TipId(n.chain);
    if parent.Some? && !MayPayFrom(rules, n.chain, resolved) then n
    else SetPlan(n.(anchor := Some(anchor)), plan, resolved)
  }

  ghost function SetPayout(n: ProtocolState, payout: PayoutKeys): ProtocolState {
    n.(payout := Some(payout), plan := None, payoutParent := Some(TipId(n.chain)))
  }

  datatype ReceiveResult = CapabilityMissing | UnknownWorkContext | Duplicate | Submitted(result: AddResult)

  /** `receive_share`.  On a configured chain a share that was only replayed is not a duplicate: its work
      still has to be looked up. */
  ghost function Receive(rules: Rules, n: ProtocolState, s: Share, capable: bool, now: U64, powAvailable: bool)
    : Step<ReceiveResult>
  {
    var id := rules.idOf(s);
    if !Encodable(s, rules.minerOf) then Step(n.chain, Thrown)
    else if !capable then Step(n.chain, Value(CapabilityMissing))
    else if id in n.chain.tree && rules.policy.Some? && !n.chain.tree[id].validated then
      Step(n.chain, Value(UnknownWorkContext))
    else if Known(n.chain, id) then Step(n.chain, Value(Duplicate))
    else if KeyOfShare(s) !in n.registry then Step(n.chain, Value(UnknownWorkContext))
    else
      var step := Submit(rules, n.chain, s, n.registry[KeyOfShare(s)].context, now, powAvailable);
      Step(step.chain, if step.outcome.Thrown? then Thrown else Value(Submitted(step.outcome.value)))
  }

  /** Receiving a share forgets the payout expectation when the best tip moves. */
  ghost function Received(rules: Rules, n: ProtocolState, s: Share, capable: bool, now: U64, powAvailable: bool): ProtocolState {
    var step := Receive(rules, n, s, capable, now, powAvailable);
    var n' := n.(chain := step.chain);
    if step.outcome.Value? && step.outcome.value.Submitted? && step.outcome.value.result.tipChanged then Cleared(n') else n'
  }

  /** The historical path proves a replayed, unvalidated branch stale. */
  ghost function PruneReplayed(n: ProtocolState, id: ShareId): ProtocolState {
    if id in n.chain.tree && !n.chain.tree[id].validated
    then Cleared(n.(chain := Prune(n.chain, id))) else n
  }

  datatype Event =
    | ParentReplaced(height: U64, zanoParent: Hash256)
    | HeightUnavailable(height: U64)
    | HeightsAboveUnavailable(max: U64)
    | ShareReceived(share: Share, capable: bool, now: U64, powAvailable: bool)
    | LocalSubmitted(share: Share, context: WorkContext, now: U64, powAvailable: bool)
    | ReplayRevalidated(id: ShareId, context: WorkContext, now: U64, powAvailable: bool)
    | ReplayProvedStale(id: ShareId)
    | ContextSet(anchor: LocalAnchor)
    | ContextSetWithPayout(anchor: LocalAnchor, payout: PayoutKeys)
    | ContextSetWithPlan(anchor: LocalAnchor, plan: Coinbase.Plan, parent: Option<ShareId>)
    | PayoutSet(payout: PayoutKeys)
    | PlanSet(plan: Coinbase.Plan)
    | PayoutCleared
    | WorkRemembered(context: WorkContext, workParent: ShareId, provenance: Option<Hash256>)

  ghost function Handle(rules: Rules, n: ProtocolState, e: Event): ProtocolState {
    match e
    case ParentReplaced(height, zanoParent) => ReconcileParent(n, height, zanoParent)
    case HeightUnavailable(height) => ReconcileHeight(n, height)
    case HeightsAboveUnavailable(max) => ReconcileAbove(n, max)
    case ShareReceived(s, capable, now, available) => Received(rules, n, s, capable, now, available)
    case LocalSubmitted(s, context, now, available) =>
      // Stratum submits into the shared chain and leaves the payout expectation as it is.
      n.(chain := Submit(rules, n.chain, s, context, now, available).chain)
    case ReplayRevalidated(id, context, now, available) =>
      n.(chain := Revalidate(rules, n.chain, id, context, now, available).chain)
    case ReplayProvedStale(id) => PruneReplayed(n, id)
    case ContextSet(anchor) => ReplaceLocalParent(n, anchor).(anchor := Some(anchor))
    case ContextSetWithPayout(anchor, payout) =>
      SetPayout(ReplaceLocalParent(n, anchor).(anchor := Some(anchor)), payout)
    case ContextSetWithPlan(anchor, plan, parent) =>
      InstallPlan(rules, ReplaceLocalParent(n, anchor), anchor, plan, parent)
    case PayoutSet(payout) => SetPayout(n, payout)
    case PlanSet(plan) => SetPlan(n, plan, TipId(n.chain))
    case PayoutCleared => Cleared(n)
    case WorkRemembered(context, parent, zanoParent) =>
      var r := Remember(n.registry, context, parent, zanoParent);
      if r.Thrown? then n else n.(registry := r.value)
  }

  /** The payout expectation refers to the chain as it is: at most one is active, it has a parent, and a
      nonzero parent is still connected. */
  ghost predicate PayoutOk(n: ProtocolState) {
    && (n.payout.None? || n.plan.None?)
    && (n.payout.Some? || n.plan.Some? ==> n.payoutParent.Some?)
    && (n.payoutParent.Some? && n.payoutParent.value != NO_SHARE ==> n.payoutParent.value in n.chain.tree)
  }

  ghost predicate NodeInv(rules: Rules, trust: Trust, n: ProtocolState) {
    Inv(rules, trust, n.chain) && PayoutOk(n) && WellFiled(n.registry)
  }

  lemma ErasedWellFiled(r: Registry, height: U64, zanoParent: Hash256)
    requires WellFiled(r)
    ensures WellFiled(EraseConflicting(r, height, zanoParent))
    ensures WellFiled(EraseHeight(r, height)) && WellFiled(EraseAbove(r, height))
  {
  }

  lemma SweptKeepsInv(rules: Rules, trust: Trust, n: ProtocolState, doomed: set<ShareId>)
    requires NodeInv(rules, trust, n) && doomed <= n.chain.tree.Keys
    ensures Inv(rules, trust, Swept(n, doomed).chain)
    ensures !RemovedAny(n, doomed) ==> Swept(n, doomed).chain.tree.Keys == n.chain.tree.Keys
  {
    SweepExact(rules, trust, n.chain, VisitOrder(n.chain), doomed);
  }

  lemma SettleKeepsPayout(n: ProtocolState, n': ProtocolState, kept: Registry, forget: bool)
    requires PayoutOk(n) && n' == n.(chain := n'.chain) && (forget || n'.chain.tree.Keys == n.chain.tree.Keys)
    ensures PayoutOk(Settle(n', kept, forget))
  {
  }

  lemma SettleOnly(n: ProtocolState, kept: Registry, forget: bool)
    ensures Settle(n, kept, forget).chain == n.chain && Settle(n, kept, forget).registry == kept
  {
  }

  lemma SweptOnly(n: ProtocolState, doomed: set<ShareId>)
    ensures Swept(n, doomed) == n.(chain := Swept(n, doomed).chain)
  {
    hide Sweep, VisitOrder;
  }

  lemma ReconcileKeepsInv(
    rules: Rules, trust: Trust, n: ProtocolState, doomed: set<ShareId>, kept: Registry, onRevoke: bool)
    requires NodeInv(rules, trust, n) && doomed <= n.chain.tree.Keys && WellFiled(kept)
    ensures NodeInv(rules, trust, Reconciled(n, doomed, kept, onRevoke))
  {
    hide Inv, Swept, RemovedAny, PayoutOk, Settle, WellFiled;
    SweptKeepsInv(rules, trust, n, doomed);
    SweptOnly(n, doomed);
    var forget := Forgets(n, doomed, kept, onRevoke);
    SettleKeepsPayout(n, Swept(n, doomed), kept, forget);
    SettleOnly(Swept(n, doomed), kept, forget);
  }

  lemma ReconcileParentKeepsInv(rules: Rules, trust: Trust, n: ProtocolState, height: U64, zanoParent: Hash256)
    requires NodeInv(rules, trust, n)
    ensures NodeInv(rules, trust, ReconcileParent(n, height, zanoParent))
  {
    hide Inv, Reconciled, EraseConflicting, PayoutOk, WellFiled;
    ErasedWellFiled(n.registry, height, zanoParent);
    ReconcileKeepsInv(rules, trust, n, StaleIds(n.chain.tree, n.registry, height, zanoParent),
                      EraseConflicting(n.registry, height, zanoParent), false);
  }

  lemma GrownKeepsPayout(rules: Rules, trust: Trust, n: ProtocolState, c': Chain)
    requires NodeInv(rules, trust, n) && Inv(rules, trust, c') && Grows(n.chain.tree, c'.tree)
    ensures NodeInv(rules, trust, n.(chain := c'))
  {
    hide Inv, WellFiled;
  }

  lemma ReceivedKeepsInv(
    rules: Rules, trust: Trust, n: ProtocolState, s: Share, capable: bool, now: U64, powAvailable: bool)
    requires NodeInv(rules, trust, n) && SoundTrust(rules, trust)
    ensures NodeInv(rules, trust, Received(rules, n, s, capable, now, powAvailable))
  {
    hide Inv, SoundTrust, Submit, Grows, PayoutOk, WellFiled, Cleared;
    if KeyOfShare(s) in n.registry {
      var context := n.registry[KeyOfShare(s)].context;
      var c' := Submit(rules, n.chain, s, context, now, powAvailable).chain;
      SubmitKeepsInv(rules, trust, n.chain, s, context, now, powAvailable);
      SubmitGrows(rules, trust, n.chain, s, context, now, powAvailable);
      GrownKeepsPayout(rules, trust, n, c');
      ClearedOk(n.(chain := c'));
    }
  }

  lemma ClearedOk(n: ProtocolState)
    ensures PayoutOk(Cleared(n)) && Cleared(n).chain == n.chain && Cleared(n).registry == n.registry
  {
  }

  lemma ReplaceKeepsInv(rules: Rules, trust: Trust, n: ProtocolState, next: LocalAnchor)
    requires NodeInv(rules, trust, n)
    ensures NodeInv(rules, trust, ReplaceLocalParent(n, next))
  {
    hide Inv, ReconcileParent, PayoutOk, WellFiled;
    ReconcileParentKeepsInv(rules, trust, n, next.zanoHeight, next.prevHash);
    ClearedOk(ReconcileParent(n, next.zanoHeight, next.prevHash));
  }

  /** Every critical section keeps the invariant, including the ones that end in an exception. */
  lemma HandleKeepsInv(rules: Rules, trust: Trust, n: ProtocolState, e: Event)
    requires NodeInv(rules, trust, n) && SoundTrust(rules, trust)
    ensures NodeInv(rules, trust, Handle(rules, n, e))
  {
    hide Inv, SoundTrust, ReconcileParent, Reconciled, Received, Submit, Revalidate, Prune, ReplaceLocalParent, Grows,
         PayoutOk, SetPayout, SetPlan, TipId, InstallPlan, WellFiled, Remember, EraseHeight, EraseAbove;
    match e
    case ParentReplaced(height, zanoParent) => ReconcileParentKeepsInv(rules, trust, n, height, zanoParent);
    case HeightUnavailable(height) =>
      ErasedWellFiled(n.registry, height, height);
      ReconcileKeepsInv(rules, trust, n, IdsAtHeight(n.chain.tree, height), EraseHeight(n.registry, height), true);
    case HeightsAboveUnavailable(max) =>
      ErasedWellFiled(n.registry, max, max);
      ReconcileKeepsInv(rules, trust, n, IdsAbove(n.chain.tree, max), EraseAbove(n.registry, max), true);
    case ShareReceived(s, capable, now, available) => ReceivedKeepsInv(rules, trust, n, s, capable, now, available);
    case LocalSubmitted(s, context, now, available) =>
      SubmitKeepsInv(rules, trust, n.chain, s, context, now, available);
      SubmitGrows(rules, trust, n.chain, s, context, now, available);
      GrownKeepsPayout(rules, trust, n, Submit(rules, n.chain, s, context, now, available).chain);
    case ReplayRevalidated(id, context, now, available) =>
      RevalidateKeepsInv(rules, trust, n.chain, id, context, now, available);
      RevalidateGrows(rules, n.chain, id, context, now, available);
      GrownKeepsPayout(rules, trust, n, Revalidate(rules, n.chain, id, context, now, available).chain);
    case ReplayProvedStale(id) =>
      PruneKeepsInv(rules, trust, n.chain, id);
      ClearedOk(n.(chain := Prune(n.chain, id)));
    case ContextSet(anchor) =>
      ReplaceKeepsInv(rules, trust, n, anchor);
      AnchorOnly(ReplaceLocalParent(n, anchor), anchor);
    case ContextSetWithPayout(anchor, payout) =>
      ReplaceKeepsInv(rules, trust, n, anchor);
      PayoutSetters(rules, trust, ReplaceLocalParent(n, anchor).(anchor := Some(anchor)), payout);
    case ContextSetWithPlan(anchor, plan, parent) =>
      ReplaceKeepsInv(rules, trust, n, anchor);
      PlanSetters(rules, trust, ReplaceLocalParent(n, anchor), anchor, plan, parent);
    case PayoutSet(payout) => PayoutSetters(rules, trust, n, payout);
    case PlanSet(plan) => TipPlan(rules, trust, n, plan);
    case PayoutCleared => ClearedOk(n);
    case WorkRemembered(context, parent, zanoParent) =>
      var r := Remember(n.registry, context, parent, zanoParent);
      RegistryOnly(n, r);
      if r.Value? {
        RememberKeeps(n.registry, context, parent, zanoParent);
      }
  }

  lemma AnchorOnly(n: ProtocolState, anchor: LocalAnchor)
    ensures PayoutOk(n) ==> PayoutOk(n.(anchor := Some(anchor)))
  {
  }

  lemma RegistryOnly(n: ProtocolState, r: Outcome<Registry>)
    ensures PayoutOk(n) && r.Value? ==> PayoutOk(n.(registry := r.value))
  {
  }

  lemma PayoutSetters(rules: Rules, trust: Trust, n: ProtocolState, payout: PayoutKeys)
    requires Inv(rules, trust, n.chain)
    ensures PayoutOk(SetPayout(n, payout)) && SetPayout(n, payout).chain == n.chain
    ensures SetPayout(n, payout).registry == n.registry
  {
  }

  lemma TipPlan(rules: Rules, trust: Trust, n: ProtocolState, plan: Coinbase.Plan)
    requires Inv(rules, trust, n.chain)
    ensures PayoutOk(SetPlan(n, plan, TipId(n.chain))) && SetPlan(n, plan, TipId(n.chain)).chain == n.chain
    ensures SetPlan(n, plan, TipId(n.chain)).registry == n.registry
  {
  }

  lemma PlanSetters(
    rules: Rules, trust: Trust, n: ProtocolState, anchor: LocalAnchor, plan: Coinbase.Plan, parent: Option<ShareId>)
    requires NodeInv(rules, trust, n)
    ensures NodeInv(rules, trust, InstallPlan(rules, n, anchor, plan, parent))
  {
  }

  // ---- What a reconciliation leaves ------------------------------------------------------------

  /** Exactly the shares in `doomed` and their descendants are gone; the others are untouched. */
  ghost predicate RemovesExactly(n: ProtocolState, n': ProtocolState, doomed: set<ShareId>) {
    && Pruned(n.chain.tree, n'.chain.tree)
    && (forall x | x in n.chain.tree :: x in n'.chain.tree <==> !Falls(n.chain.tree, x, doomed))
    && n'.chain.orphans == n.chain.orphans && n'.chain.detached == n.chain.detached
    && IsBestTip(n'.chain.tree, n'.chain.tip)
  }

  lemma SweptExactly(rules: Rules, trust: Trust, n: ProtocolState, n': ProtocolState, doomed: set<ShareId>)
    requires NodeInv(rules, trust, n) && doomed <= n.chain.tree.Keys && n'.chain == Swept(n, doomed).chain
    ensures RemovesExactly(n, n', doomed)
    ensures forall x | x in n'.chain.tree :: x !in doomed
  {
    hide Inv, Sweep, Pruned, Falls, IsBestTip, PayoutOk;
    SweepExact(rules, trust, n.chain, VisitOrder(n.chain), doomed);
    BestTips(rules, trust, n'.chain);
    PrunedInside(n.chain.tree, n'.chain.tree);
    forall x | x in n'.chain.tree
      ensures x !in doomed
    {
      DoomedFalls(n.chain.tree, x, doomed);
    }
  }

  lemma PrunedInside(tree: Tree, part: Tree)
    requires Pruned(tree, part)
    ensures forall x | x in part :: x in tree
  {
  }

  lemma DoomedFalls(tree: Tree, x: ShareId, doomed: set<ShareId>)
    requires x in tree
    ensures x in doomed ==> Falls(tree, x, doomed)
  {
    assert Descends(tree, x, x);
  }

  /** A replaced canonical parent takes away exactly the shares whose recorded parent it contradicts and
      their descendants, and no conflicting registry entry survives. */
  lemma ReconcileParentExact(rules: Rules, trust: Trust, n: ProtocolState, height: U64, zanoParent: Hash256)
    requires NodeInv(rules, trust, n)
    ensures var n' := ReconcileParent(n, height, zanoParent);
      && RemovesExactly(n, n', StaleIds(n.chain.tree, n.registry, height, zanoParent))
      && (forall x | x in n'.chain.tree :: !Stale(n.registry, n'.chain.tree[x].share, height, zanoParent))
      && (forall key | key in n'.registry :: !Conflicts(key, n'.registry[key], height, zanoParent))
      && (forall key | key in n.registry && !Conflicts(key, n.registry[key], height, zanoParent) ::
            key in n'.registry && n'.registry[key] == n.registry[key])
  {
    var doomed, n' := StaleIds(n.chain.tree, n.registry, height, zanoParent), ReconcileParent(n, height, zanoParent);
    hide Inv, Swept, RemovedAny;
    SweptExactly(rules, trust, n, n', doomed);
  }

  /** An unavailable range above `max` takes away exactly the shares above it and their descendants, and
      every registry entry above it. */
  lemma ReconcileAboveExact(rules: Rules, trust: Trust, n: ProtocolState, max: U64)
    requires NodeInv(rules, trust, n)
    ensures var n' := ReconcileAbove(n, max);
      && RemovesExactly(n, n', IdsAbove(n.chain.tree, max))
      && (forall x | x in n'.chain.tree :: n'.chain.tree[x].share.zanoHeight <= max)
      && (forall key :: key in n'.registry <==> key in n.registry && key.zanoHeight <= max)
      && (forall key | key in n'.registry :: n'.registry[key] == n.registry[key])
  {
    hide Inv, Swept, RemovedAny;
    SweptExactly(rules, trust, n, ReconcileAbove(n, max), IdsAbove(n.chain.tree, max));
  }

  lemma ReconcileHeightExact(rules: Rules, trust: Trust, n: ProtocolState, height: U64)
    requires NodeInv(rules, trust, n)
    ensures var n' := ReconcileHeight(n, height);
      && RemovesExactly(n, n', IdsAtHeight(n.chain.tree, height))
      && (forall x | x in n'.chain.tree :: n'.chain.tree[x].share.zanoHeight != height)
      && (forall key :: key in n'.registry <==> key in n.registry && key.zanoHeight != height)
      && (forall key | key in n'.registry :: n'.registry[key] == n.registry[key])
  {
    hide Inv, Swept, RemovedAny;
    SweptExactly(rules, trust, n, ReconcileHeight(n, height), IdsAtHeight(n.chain.tree, height));
  }

  // ---- Runs ------------------------------------------------------------------------------------

  ghost function FreshNode(c: Chain, registry: Registry): ProtocolState {
    ProtocolState(c, registry, None, None, None, None)
  }

  ghost predicate IsRun(rules: Rules, states: seq<ProtocolState>, events: seq<Event>) {
    |states| == |events| + 1 && forall i | 0 <= i < |events| :: states[i + 1] == Handle(rules, states[i], events[i])
  }

  /** Over all protocol steps an installed nonzero payout parent is still connected, at most one payout
      expectation is active, and every trusted entry authorises the work it is filed under. */
  lemma {:induction false} RunKeepsPayout(
    rules: Rules, trust: Trust, states: seq<ProtocolState>, events: seq<Event>, i: nat)
    requires SoundTrust(rules, trust) && IsRun(rules, states, events) && i <= |events|
    requires Inv(rules, trust, states[0].chain) && WellFiled(states[0].registry)
    requires states[0] == FreshNode(states[0].chain, states[0].registry)
    ensures NodeInv(rules, trust, states[i])
  {
    hide Inv, SoundTrust, Handle, WellFiled;
    if i > 0 {
      RunKeepsPayout(rules, trust, states, events, i - 1);
      HandleKeepsInv(rules, trust, states[i - 1], events[i - 1]);
    }
  }
}

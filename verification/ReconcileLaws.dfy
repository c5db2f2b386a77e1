/** The protocol's critical sections in fields: which shares and entries a reconciliation takes away, when the
    payout expectation is forgotten, and how every stored share came in. */
module ReconcileLaws {
  import opened Basics
  import opened Shares
  import opened ShareTree
  import opened TreeInvariant
  import opened Pruning
  import opened Heaviest
  import opened Admission
  import opened TrustLaws
  import opened TrustedWork
  import opened Reconcile
  import Coinbase

  // ---- Reconciliations -------------------------------------------------------------------------

  ghost predicate Forgotten(n': ProtocolState) { n'.payout.None? && n'.plan.None? && n'.payoutParent.None? }

  ghost predicate Remembered(n: ProtocolState, n': ProtocolState) {
    n'.payout == n.payout && n'.plan == n.plan && n'.payoutParent == n.payoutParent
  }

  /** `x` or one of its ancestors is one of the shares `bad` picks. */
  ghost predicate HasAbove(tree: Tree, x: ShareId, bad: Share -> bool) {
    exists y :: y in tree && bad(tree[y].share) && Descends(tree, x, y)
  }

  /** Exactly the shares picked by `bad` and their descendants go, the tip is the heaviest of the rest, and
      nothing else of the chain changes. */
  ghost predicate TakesAway(c: Chain, c': Chain, bad: Share -> bool) {
    && (forall x :: x in c'.tree <==> x in c.tree && !HasAbove(c.tree, x, bad))
    && (forall x | x in c'.tree :: c'.tree[x] == c.tree[x])
    && c'.orphans == c.orphans && TipIsHeaviest(c')
  }

  ghost function Picked(tree: Tree, bad: Share -> bool): set<ShareId> {
    set x | x in tree && bad(tree[x].share)
  }

  lemma PickedFalls(tree: Tree, x: ShareId, bad: Share -> bool)
    ensures Falls(tree, x, Picked(tree, bad)) <==> HasAbove(tree, x, bad)
  {
    hide Descends;
    if HasAbove(tree, x, bad) {
      var y :| y in tree && bad(tree[y].share) && Descends(tree, x, y);
      assert y in Picked(tree, bad);
    }
    if Falls(tree, x, Picked(tree, bad)) {
      var y :| y in Picked(tree, bad) && Descends(tree, x, y);
      assert y in tree && bad(tree[y].share);
    }
  }

  lemma SweptTakesAway(rules: Rules, trust: Trust, n: ProtocolState, bad: Share -> bool)
    requires NodeInv(rules, trust, n)
    ensures TakesAway(n.chain, Swept(n, Picked(n.chain.tree, bad)).chain, bad)
  {
    hide PayoutOk, Sweep, HasAbove, Falls, Inv;
    var c, doomed := n.chain, Picked(n.chain.tree, bad);
    var c' := Swept(n, doomed).chain;
    SweepExact(rules, trust, c, VisitOrder(c), doomed);
    HeaviestByInvariant(rules, trust, c');
    hide TipIsHeaviest;
    PrunedNodes(c.tree, c'.tree);
    forall x
      ensures Falls(c.tree, x, doomed) <==> HasAbove(c.tree, x, bad)
    {
      PickedFalls(c.tree, x, bad);
    }
  }

  lemma PrunedNodes(tree: Tree, part: Tree)
    requires Pruned(tree, part)
    ensures forall x | x in part :: x in tree && part[x] == tree[x]
  {
  }

  /** What any reconciliation leaves, and when it forgets the payout expectation. */
  ghost predicate Reconciles(n: ProtocolState, n': ProtocolState, bad: Share -> bool, onRevoke: bool) {
    && TakesAway(n.chain, n'.chain, bad) && n'.anchor == n.anchor
    && if n'.chain.tree.Keys != n.chain.tree.Keys || (onRevoke && n'.registry != n.registry)
       then Forgotten(n') else Remembered(n, n')
  }

  lemma ReconciledIs(
    rules: Rules, trust: Trust, n: ProtocolState, bad: Share -> bool, kept: Registry, onRevoke: bool)
    requires NodeInv(rules, trust, n)
    ensures var n' := Reconciled(n, Picked(n.chain.tree, bad), kept, onRevoke);
      Reconciles(n, n', bad, onRevoke) && n'.registry == kept
  {
    hide Swept, TakesAway, NodeInv, Picked, Settle, Forgotten, Remembered;
    var doomed := Picked(n.chain.tree, bad);
    SweptTakesAway(rules, trust, n, bad);
    SweptOnly(n, doomed);
    SettledFields(n, Swept(n, doomed), kept, Forgets(n, doomed, kept, onRevoke));
  }

  lemma SettledFields(n: ProtocolState, m: ProtocolState, kept: Registry, forget: bool)
    requires m == n.(chain := m.chain)
    ensures var n' := Settle(m, kept, forget);
      && n'.chain == m.chain && n'.anchor == n.anchor && n'.registry == kept
      && if forget then Forgotten(n') else Remembered(n, n')
  {
  }

  /** The registry knows another Zano parent for the share's work. */
  predicate BuiltElsewhere(r: Registry, height: U64, zanoParent: Hash256, s: Share) {
    var key := WorkKey(s.zanoHeight, s.header, s.parent);
    s.zanoHeight == height && key in r && r[key].zanoParent.Some? && r[key].zanoParent.value != zanoParent
  }

  /** A replaced Zano parent at `height`: shares whose work is known to be built on another one go with their
      descendants, and so do the registry entries known to be. */
  lemma ParentReplacedFields(rules: Rules, trust: Trust, n: ProtocolState, height: U64, zanoParent: Hash256)
    requires NodeInv(rules, trust, n)
    ensures var n' := ReconcileParent(n, height, zanoParent);
      && Reconciles(n, n', s => BuiltElsewhere(n.registry, height, zanoParent, s), false)
      && (forall key :: key in n'.registry <==>
            && key in n.registry
            && (key.zanoHeight != height || n.registry[key].zanoParent.None?
                || n.registry[key].zanoParent.value == zanoParent))
      && (forall key | key in n'.registry :: n'.registry[key] == n.registry[key])
  {
    var bad := s => BuiltElsewhere(n.registry, height, zanoParent, s);
    hide NodeInv, Reconciled, Reconciles;
    assert Picked(n.chain.tree, bad) == StaleIds(n.chain.tree, n.registry, height, zanoParent);
    ReconciledIs(rules, trust, n, bad, EraseConflicting(n.registry, height, zanoParent), false);
  }

  /** An unavailable height: shares with work at it go with their descendants, and all its entries. */
  lemma HeightUnavailableFields(rules: Rules, trust: Trust, n: ProtocolState, height: U64)
    requires NodeInv(rules, trust, n)
    ensures var n' := ReconcileHeight(n, height);
      && Reconciles(n, n', (s: Share) => s.zanoHeight == height, true)
      && (forall key :: key in n'.registry <==> key in n.registry && key.zanoHeight != height)
      && (forall key | key in n'.registry :: n'.registry[key] == n.registry[key])
  {
    var bad := (s: Share) => s.zanoHeight == height;
    hide NodeInv, Reconciled, Reconciles;
    assert Picked(n.chain.tree, bad) == IdsAtHeight(n.chain.tree, height);
    ReconciledIs(rules, trust, n, bad, EraseHeight(n.registry, height), true);
  }

  lemma AboveUnavailableFields(rules: Rules, trust: Trust, n: ProtocolState, max: U64)
    requires NodeInv(rules, trust, n)
    ensures var n' := ReconcileAbove(n, max);
      && Reconciles(n, n', (s: Share) => s.zanoHeight > max, true)
      && (forall key :: key in n'.registry <==> key in n.registry && key.zanoHeight <= max)
      && (forall key | key in n'.registry :: n'.registry[key] == n.registry[key])
  {
    var bad := (s: Share) => s.zanoHeight > max;
    hide NodeInv, Reconciled, Reconciles;
    assert Picked(n.chain.tree, bad) == IdsAbove(n.chain.tree, max);
    ReconciledIs(rules, trust, n, bad, EraseAbove(n.registry, max), true);
  }

  /** A new anchor reconciles exactly when it replaces the Zano parent at the height being mined, and then
      the payout expectation is forgotten even if nothing was removed. */
  lemma AnchorReplacedFields(rules: Rules, n: ProtocolState, next: LocalAnchor)
    ensures var n', m := Handle(rules, n, ContextSet(next)), ReconcileParent(n, next.zanoHeight, next.prevHash);
      && n'.anchor == Some(next)
      && if n.anchor.Some? && n.anchor.value.zanoHeight == next.zanoHeight && n.anchor.value.prevHash != next.prevHash
         then n'.chain == m.chain && n'.registry == m.registry && Forgotten(n')
         else n' == n.(anchor := Some(next))
  {
    hide ReconcileParent;
  }

  /** A payout plan with an explicit parent is refused exactly when that parent is unknown or, on a configured
      chain, not validated; without one it is bound to the tip. */
  lemma PlanInstalledFields(
    rules: Rules, n: ProtocolState, next: LocalAnchor, plan: Coinbase.Plan, parent: Option<ShareId>)
    ensures var m, n' := Handle(rules, n, ContextSet(next)), Handle(rules, n, ContextSetWithPlan(next, plan, parent));
      && n'.chain == m.chain && n'.registry == m.registry
      && if parent.Some? && parent.value != 0
            && (parent.value !in m.chain.tree || (rules.policy.Some? && !m.chain.tree[parent.value].validated))
         then n'.plan == m.plan && n'.payout == m.payout && n'.payoutParent == m.payoutParent
         else
           && n'.anchor == Some(next) && n'.plan == Some(plan) && n'.payout.None? && n'.payoutParent.Some?
           && n'.payoutParent.value ==
              (if parent.Some? then parent.value else if m.chain.tip.Some? then m.chain.tip.value else 0)
  {
    hide ReplaceLocalParent;
  }

  /** Setting a payout or a plan replaces the other and binds it to the tip. */
  lemma PayoutSetFields(rules: Rules, n: ProtocolState, payout: PayoutKeys, plan: Coinbase.Plan, next: LocalAnchor)
    ensures var tip := if n.chain.tip.Some? then n.chain.tip.value else 0;
      var m := Handle(rules, n, ContextSet(next));
      && Handle(rules, n, PayoutSet(payout)) == n.(payout := Some(payout), plan := None, payoutParent := Some(tip))
      && Handle(rules, n, PlanSet(plan)) == n.(payout := None, plan := Some(plan), payoutParent := Some(tip))
      && Handle(rules, n, PayoutCleared) == n.(payout := None, plan := None, payoutParent := None)
      && Handle(rules, n, ContextSetWithPayout(next, payout)) == Handle(rules, m, PayoutSet(payout))
  {
    hide ReplaceLocalParent;
  }

  /** A replayed branch proved stale goes with the expectation, but only if its root is not validated. */
  lemma ReplayProvedStaleFields(rules: Rules, trust: Trust, n: ProtocolState, id: ShareId)
    requires NodeInv(rules, trust, n)
    ensures var n' := Handle(rules, n, ReplayProvedStale(id));
      if id in n.chain.tree && !n.chain.tree[id].validated
      then
        && (forall x :: x in n'.chain.tree <==> x in n.chain.tree && !Descends(n.chain.tree, x, id))
        && (forall x | x in n'.chain.tree :: n'.chain.tree[x] == n.chain.tree[x])
        && TipIsHeaviest(n'.chain) && Forgotten(n') && n'.registry == n.registry && n'.anchor == n.anchor
      else n' == n
  {
    hide Inv, PayoutOk, TipIsHeaviest, Prune, Descends, WellFiled;
    if id in n.chain.tree {
      PrunedFields(rules, trust, n.chain, id);
    }
  }

  lemma PrunedFields(rules: Rules, trust: Trust, c: Chain, id: ShareId)
    requires Inv(rules, trust, c) && id in c.tree
    ensures var c' := Prune(c, id);
      && (forall x :: x in c'.tree <==> x in c.tree && !Descends(c.tree, x, id))
      && (forall x | x in c'.tree :: c'.tree[x] == c.tree[x]) && TipIsHeaviest(c')
  {
    PruneKeepsInv(rules, trust, c, id);
    HeaviestByInvariant(rules, trust, Prune(c, id));
    PruneExact(rules, trust, c, id);
    hide Inv, TipIsHeaviest, Prune, Descends;
  }

  // ---- Where shares come from ------------------------------------------------------------------

  /** The registry holds exactly this share's work: height, header, network difficulty and share parent. */
  ghost predicate Authorised(r: Registry, s: Share) {
    var key := WorkKey(s.zanoHeight, s.header, s.parent);
    key in r && r[key].context == WorkContext(s.zanoHeight, s.header, s.networkDifficulty)
  }

  /** Every status of a received share, in the order of the checks. */
  lemma ReceiveTable(rules: Rules, n: ProtocolState, s: Share, capable: bool, now: U64, powAvailable: bool)
    ensures var r, id := Receive(rules, n, s, capable, now, powAvailable), rules.idOf(s);
      var key := WorkKey(s.zanoHeight, s.header, s.parent);
      if !Encodable(s, rules.minerOf) then r == Step(n.chain, Thrown)
      else if !capable then r == Step(n.chain, Value(CapabilityMissing))
      else if id in n.chain.tree then
        r == Step(n.chain, Value(if rules.policy.Some? && !n.chain.tree[id].validated then UnknownWorkContext else Duplicate))
      else if id in n.chain.orphans then r == Step(n.chain, Value(Duplicate))
      else if key !in n.registry then r == Step(n.chain, Value(UnknownWorkContext))
      else
        var step := Submit(rules, n.chain, s, n.registry[key].context, now, powAvailable);
        r.chain == step.chain && (r.outcome.Thrown? <==> step.outcome.Thrown?)
        && (step.outcome.Value? ==> r.outcome.value == Submitted(step.outcome.value))
  {
    hide Submit;
  }

  /** A share from a peer changes the chain exactly when the peer may send it, its work is in the registry and
      it is admitted in the registered context, which then is its own. */
  lemma ReceivedIsAuthorised(
    rules: Rules, trust: Trust, n: ProtocolState, s: Share, capable: bool, now: U64, powAvailable: bool)
    requires Inv(rules, trust, n.chain) && SoundTrust(rules, trust)
    ensures var n', key := Received(rules, n, s, capable, now, powAvailable), WorkKey(s.zanoHeight, s.header, s.parent);
      && (n'.chain != n.chain <==>
            capable && key in n.registry && Admitted(rules, n.chain, s, n.registry[key].context, now, powAvailable))
      && (n'.chain != n.chain ==> Authorised(n.registry, s))
      && n'.registry == n.registry && n'.anchor == n.anchor
  {
    hide Inv, SoundTrust, Submit, VersionOutside, WellShaped, FollowsParent, AsDemanded, PowHash;
    var key := WorkKey(s.zanoHeight, s.header, s.parent);
    if key in n.registry {
      SubmitAdmits(rules, trust, n.chain, s, n.registry[key].context, now, powAvailable);
    }
    hide Connects, LocalValidation;
  }

  /** Unless it ends in an exception, receiving a share forgets the payout expectation exactly when the best tip
      moves. */
  lemma ReceivedForgets(
    rules: Rules, trust: Trust, n: ProtocolState, s: Share, capable: bool, now: U64, powAvailable: bool)
    requires Inv(rules, trust, n.chain) && SoundTrust(rules, trust)
    ensures var n' := Received(rules, n, s, capable, now, powAvailable);
      if Receive(rules, n, s, capable, now, powAvailable).outcome.Value? && n'.chain.tip != n.chain.tip
      then Forgotten(n') else Remembered(n, n')
  {
    hide Inv, SoundTrust, Submit, Encodable;
    var key := WorkKey(s.zanoHeight, s.header, s.parent);
    if key in n.registry {
      TipChangedIs(rules, trust, n.chain, s, n.registry[key].context, now, powAvailable);
    }
  }

  lemma TipChangedIs(
    rules: Rules, trust: Trust, c: Chain, s: Share, context: WorkContext, now: U64, powAvailable: bool)
    requires Inv(rules, trust, c) && SoundTrust(rules, trust)
    ensures var step := Submit(rules, c, s, context, now, powAvailable);
      step.outcome.Value? ==> (step.outcome.value.tipChanged <==> step.chain.tip != c.tip)
  {
    SubmitAdmits(rules, trust, c, s, context, now, powAvailable);
    UnchangedTip(rules, c, s, context, now, powAvailable);
    hide Inv, SoundTrust, Submit, Admitted, LocalValidation, FromBuffer, BecomesNode;
  }

  lemma UnchangedTip(rules: Rules, c: Chain, s: Share, context: WorkContext, now: U64, powAvailable: bool)
    ensures var step := Submit(rules, c, s, context, now, powAvailable);
      step.outcome.Value? && step.chain == c ==> !step.outcome.value.tipChanged
  {
  }

  ghost predicate Stores(c: Chain, id: ShareId, s: Share) {
    (id in c.tree && c.tree[id].share == s) || (id in c.orphans && c.orphans[id].share == s)
  }

  /** What a share has passed on its way in, whoever sent it. */
  ghost predicate Passed(rules: Rules, s: Share, now: U64) {
    && Encodable(s, rules.minerOf) && !VersionOutside(rules, s) && WellShaped(s)
    && s.timestamp <= now + 60 && PowHash(rules, s) * s.difficulty < TWO_256
  }

  /** The event brings in share `s`: from a peer with work in the registry, or mined here on its own work. */
  ghost predicate Brings(rules: Rules, n: ProtocolState, e: Event, id: ShareId, s: Share) {
    && id == rules.idOf(s)
    && match e
       case ShareReceived(t, capable, now, available) =>
         t == s && capable && available && Passed(rules, s, now) && Authorised(n.registry, s)
       case LocalSubmitted(t, context, now, available) =>
         && t == s && available && Passed(rules, s, now)
         && context == WorkContext(s.zanoHeight, s.header, s.networkDifficulty)
       case _ => false
  }

  lemma SubmitBrings(
    rules: Rules, trust: Trust, c: Chain, s: Share, context: WorkContext, now: U64, powAvailable: bool,
    id: ShareId, t: Share)
    requires Inv(rules, trust, c) && SoundTrust(rules, trust)
    requires Stores(Submit(rules, c, s, context, now, powAvailable).chain, id, t)
    ensures Stores(c, id, t) ||
      (t == s && id == rules.idOf(s) && Admitted(rules, c, s, context, now, powAvailable))
  {
    SubmitAdmits(rules, trust, c, s, context, now, powAvailable);
    hide Inv, SoundTrust, Submit, Admitted, LocalValidation;
  }

  /** Nothing new is stored. */
  ghost predicate NothingNew(c: Chain, c': Chain) { forall id, s | Stores(c', id, s) :: Stores(c, id, s) }

  lemma TakenAwayIsOld(c: Chain, c': Chain, bad: Share -> bool)
    requires TakesAway(c, c', bad)
    ensures NothingNew(c, c')
  {
    hide HasAbove, TipIsHeaviest;
  }

  lemma ReconcilingIsOld(rules: Rules, trust: Trust, n: ProtocolState, height: U64, zanoParent: Hash256)
    requires NodeInv(rules, trust, n)
    ensures NothingNew(n.chain, ReconcileParent(n, height, zanoParent).chain)
    ensures NothingNew(n.chain, ReconcileHeight(n, height).chain)
    ensures NothingNew(n.chain, ReconcileAbove(n, height).chain)
  {
    hide NodeInv, TakesAway, NothingNew, ReconcileParent, ReconcileHeight, ReconcileAbove, BuiltElsewhere;
    ParentReplacedFields(rules, trust, n, height, zanoParent);
    HeightUnavailableFields(rules, trust, n, height);
    AboveUnavailableFields(rules, trust, n, height);
    TakenAwayIsOld(n.chain, ReconcileParent(n, height, zanoParent).chain,
                   s => BuiltElsewhere(n.registry, height, zanoParent, s));
    TakenAwayIsOld(n.chain, ReconcileHeight(n, height).chain, (s: Share) => s.zanoHeight == height);
    TakenAwayIsOld(n.chain, ReconcileAbove(n, height).chain, (s: Share) => s.zanoHeight > height);
  }

  lemma RevalidatingIsOld(
    rules: Rules, trust: Trust, c: Chain, id: ShareId, context: WorkContext, now: U64, powAvailable: bool)
    requires Inv(rules, trust, c)
    ensures NothingNew(c, Revalidate(rules, c, id, context, now, powAvailable).chain)
  {
    hide RevalidateVerdict, LocalValidation, Inv, Revalidate;
    RevalidateEffect(rules, trust, c, id, context, now, powAvailable);
  }

  lemma PruningIsOld(c: Chain, id: ShareId)
    ensures NothingNew(c, Prune(c, id))
  {
  }

  lemma NodeIsSound(rules: Rules, trust: Trust, n: ProtocolState)
    requires NodeInv(rules, trust, n)
    ensures Inv(rules, trust, n.chain)
  {
  }

  /** The events that do not bring in a share. */
  lemma OthersBringNothing(rules: Rules, trust: Trust, n: ProtocolState, e: Event)
    requires NodeInv(rules, trust, n) && !e.ShareReceived? && !e.LocalSubmitted?
    ensures NothingNew(n.chain, Handle(rules, n, e).chain)
  {
    hide NodeInv, ReconcileParent, ReconcileHeight, ReconcileAbove, Revalidate, Prune, Remember, Stores;
    match e
    case ParentReplaced(height, zanoParent) => ReconcilingIsOld(rules, trust, n, height, zanoParent);
    case HeightUnavailable(height) => ReconcilingIsOld(rules, trust, n, height, 0);
    case HeightsAboveUnavailable(max) => ReconcilingIsOld(rules, trust, n, max, 0);
    case ReplayRevalidated(id, context, now, available) =>
      NodeIsSound(rules, trust, n);
      RevalidatingIsOld(rules, trust, n.chain, id, context, now, available);
    case ReplayProvedStale(id) => PruningIsOld(n.chain, id);
    case ContextSet(anchor) => ReconcilingIsOld(rules, trust, n, anchor.zanoHeight, anchor.prevHash);
    case ContextSetWithPayout(anchor, payout) => ReconcilingIsOld(rules, trust, n, anchor.zanoHeight, anchor.prevHash);
    case ContextSetWithPlan(anchor, plan, parent) =>
      ReconcilingIsOld(rules, trust, n, anchor.zanoHeight, anchor.prevHash);
    case PayoutSet(payout) =>
    case PlanSet(plan) =>
    case PayoutCleared =>
    case WorkRemembered(context, parent, zanoParent) =>
  }

  lemma HandleBrings(rules: Rules, trust: Trust, n: ProtocolState, e: Event, id: ShareId, s: Share)
    requires NodeInv(rules, trust, n) && SoundTrust(rules, trust) && Stores(Handle(rules, n, e).chain, id, s)
    ensures Stores(n.chain, id, s) || Brings(rules, n, e, id, s)
  {
    hide Inv, PayoutOk, SoundTrust, Stores, Submit, VersionOutside, WellShaped, FollowsParent, AsDemanded, PowHash;
    match e
    case ShareReceived(t, capable, now, available) =>
      ReceivedIsAuthorised(rules, trust, n, t, capable, now, available);
      if Received(rules, n, t, capable, now, available).chain != n.chain {
        var context := n.registry[WorkKey(t.zanoHeight, t.header, t.parent)].context;
        SubmitBrings(rules, trust, n.chain, t, context, now, available, id, s);
      }
    case LocalSubmitted(t, context, now, available) =>
      SubmitBrings(rules, trust, n.chain, t, context, now, available, id, s);
    case _ =>
      hide Handle;
      OthersBringNothing(rules, trust, n, e);
  }

  /** Every share a node stores was there when it started, or an event of the run brought it in: from a peer,
      with a registry entry for exactly its own work at that moment, or submitted here on its own work; in
      either case with a proof of work that meets its difficulty. */
  lemma {:induction false} RunBrings(
    rules: Rules, trust: Trust, states: seq<ProtocolState>, events: seq<Event>, i: nat, id: ShareId, s: Share)
    requires SoundTrust(rules, trust) && Reconcile.IsRun(rules, states, events) && i <= |events|
    requires Inv(rules, trust, states[0].chain) && WellFiled(states[0].registry)
    requires states[0] == FreshNode(states[0].chain, states[0].registry)
    requires Stores(states[i].chain, id, s)
    ensures Stores(states[0].chain, id, s) ||
      exists j | 0 <= j < i :: Brings(rules, states[j], events[j], id, s)
  {
    hide Inv, SoundTrust, Handle, WellFiled, Stores, Brings, NodeInv;
    if i > 0 {
      RunKeepsPayout(rules, trust, states, events, i - 1);
      HandleBrings(rules, trust, states[i - 1], events[i - 1], id, s);
      if Stores(states[i - 1].chain, id, s) {
        RunBrings(rules, trust, states, events, i - 1, id, s);
      }
    }
  }

  // ---- Where trusted work comes from -----------------------------------------------------------

  /** When remembering is refused, and what it files otherwise. */
  lemma RememberTable(r: Registry, context: WorkContext, parent: ShareId, zanoParent: Option<Hash256>)
    ensures var r', key := Remember(r, context, parent, zanoParent), WorkKey(context.zanoHeight, context.header, parent);
      && (r'.Thrown? <==>
            || context.networkDifficulty == 0
            || (key in r && r[key].context.networkDifficulty != context.networkDifficulty)
            || (key in r && zanoParent.Some? && r[key].zanoParent.Some? && r[key].zanoParent != zanoParent))
      && (r'.Value? ==>
            && key in r'.value && (forall other | other != key :: other in r'.value <==> other in r)
            && (forall other | other != key && other in r :: r'.value[other] == r[other])
            && r'.value[key].context == (if key in r then r[key].context else context)
            && r'.value[key].zanoParent == (if zanoParent.Some? || key !in r then zanoParent else r[key].zanoParent))
  {
  }

  ghost predicate Files(r: Registry, key: WorkKey, context: WorkContext) { key in r && r[key].context == context }

  lemma EventFiles(rules: Rules, trust: Trust, n: ProtocolState, e: Event, key: WorkKey, context: WorkContext)
    requires NodeInv(rules, trust, n) && Files(Handle(rules, n, e).registry, key, context)
    ensures Files(n.registry, key, context) ||
      (e.WorkRemembered? && e.context == context && key == WorkKey(context.zanoHeight, context.header, e.workParent))
  {
    hide NodeInv, Swept, RemovedAny, Submit, Revalidate, Prune, Receive, StaleIds, IdsAtHeight, IdsAbove;
    if e.WorkRemembered? {
      RememberTable(n.registry, e.context, e.workParent, e.provenance);
    }
  }

  /** Every registry entry was there at the start or was remembered in the run, for the same work. */
  lemma {:induction false} RunFiles(
    rules: Rules, trust: Trust, states: seq<ProtocolState>, events: seq<Event>, i: nat, key: WorkKey,
    context: WorkContext)
    requires SoundTrust(rules, trust) && Reconcile.IsRun(rules, states, events) && i <= |events|
    requires Inv(rules, trust, states[0].chain) && WellFiled(states[0].registry)
    requires states[0] == FreshNode(states[0].chain, states[0].registry)
    requires Files(states[i].registry, key, context)
    ensures Files(states[0].registry, key, context) ||
      exists j | 0 <= j < i :: events[j].WorkRemembered? && events[j].context == context
        && key == WorkKey(context.zanoHeight, context.header, events[j].workParent)
  {
    hide Inv, SoundTrust, Handle, WellFiled, Files, NodeInv;
    if i > 0 {
      RunKeepsPayout(rules, trust, states, events, i - 1);
      EventFiles(rules, trust, states[i - 1], events[i - 1], key, context);
      if Files(states[i - 1].registry, key, context) {
        RunFiles(rules, trust, states, events, i - 1, key, context);
      }
    }
  }
}

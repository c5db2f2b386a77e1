/** What gets into the tree, in terms of the fields of a share: which submissions are admitted, why others
    are refused, and what an admitted share and the orphans it promotes become. */
module Admission {
  import opened Basics
  import opened Orders
  import opened Shares
  import opened ShareTree
  import opened TreeInvariant
  import opened Agreement

  // ---- The reasons, one check at a time --------------------------------------------------------

  ghost predicate VersionOutside(rules: Rules, s: Share) {
    rules.policy.Some? && !(rules.policy.value.minVersion <= s.version <= rules.policy.value.maxVersion)
  }

  /** Positive difficulties, the share's no greater than the network's, and height zero for roots only. */
  ghost predicate WellShaped(s: Share) {
    0 < s.difficulty <= s.networkDifficulty && (s.parent == 0 <==> s.height == 0)
  }

  lemma StructuralTable(rules: Rules, s: Share)
    ensures var reason, outside := StructuralReason(rules, s), VersionOutside(rules, s);
      && (reason == UnexpectedVersion <==> outside)
      && (reason == ZeroShareDifficulty <==> !outside && s.difficulty == 0)
      && (reason == ZeroNetworkDifficulty <==> !outside && s.difficulty > 0 && s.networkDifficulty == 0)
      && (reason == ShareAboveNetwork <==> !outside && s.difficulty > s.networkDifficulty > 0)
      && (reason == InvalidRootHeight <==>
            !outside && 0 < s.difficulty <= s.networkDifficulty && s.parent == 0 && s.height > 0)
      && (reason == InvalidNonRootHeight <==>
            !outside && 0 < s.difficulty <= s.networkDifficulty && s.parent != 0 && s.height == 0)
      && (reason == Accepted <==> !outside && WellShaped(s))
  {
  }

  lemma ContextTable(s: Share, context: WorkContext)
    ensures var reason := ContextReason(s, context);
      && (reason == ZanoHeightMismatch <==> s.zanoHeight != context.zanoHeight)
      && (reason == HeaderMismatch <==> s.zanoHeight == context.zanoHeight && s.header != context.header)
      && (reason == NetworkDifficultyMismatch <==>
            && s.zanoHeight == context.zanoHeight && s.header == context.header
            && s.networkDifficulty != context.networkDifficulty)
      && (reason == Accepted <==> context == WorkContext(s.zanoHeight, s.header, s.networkDifficulty))
  {
  }

  lemma FutureTable(s: Share, now: U64)
    ensures FutureReason(s, now) == if s.timestamp > now + 60 then TimestampTooFarFuture else Accepted
  {
  }

  /** One height above its parent, and at most a minute before it. */
  ghost predicate Follows(s: Share, parent: Share) {
    s.height == parent.height + 1 && parent.timestamp <= s.timestamp + 60
  }

  lemma ParentTable(s: Share, parent: Share)
    ensures var reason := ParentReason(s, parent);
      && (reason == ParentHeightMismatch <==> s.height != parent.height + 1)
      && (reason == TimestampBeforeParent <==> s.height == parent.height + 1 && parent.timestamp > s.timestamp + 60)
      && (reason == Accepted <==> Follows(s, parent))
  {
  }

  /** The share's parent is connected, or it needs none. */
  ghost predicate Attached(tree: Tree, s: Share) { s.parent == 0 || s.parent in tree }

  ghost predicate FollowsParent(tree: Tree, s: Share) {
    s.parent != 0 && s.parent in tree ==> Follows(s, tree[s.parent].share)
  }

  /** On a configured chain the difficulty is exactly the one the branch demands. */
  ghost predicate AsDemanded(rules: Rules, tree: Tree, s: Share) {
    rules.policy.Some? && Attached(tree, s) ==>
      Expected(rules, tree, s.parent, s.networkDifficulty) == Value(s.difficulty)
  }

  ghost predicate DemandThrows(rules: Rules, tree: Tree, s: Share) {
    && rules.policy.Some? && Attached(tree, s)
    && Expected(rules, tree, s.parent, s.networkDifficulty).Thrown?
  }

  lemma DifficultyTable(rules: Rules, tree: Tree, s: Share)
    ensures var r := DifficultyReason(rules, tree, s);
      && (r == Value(Accepted) <==> AsDemanded(rules, tree, s))
      && (r.Thrown? <==> DemandThrows(rules, tree, s))
      && (r.Value? && r.value != Accepted ==> r.value == UnexpectedDifficulty)
  {
  }

  lemma ConnectTable(rules: Rules, tree: Tree, s: Share, enforce: bool)
    requires TreeOk(rules, tree) && Attached(tree, s)
    ensures var r := ConnectReason(rules, tree, s, enforce);
      && (r == Value(Accepted) <==> FollowsParent(tree, s) && (enforce ==> AsDemanded(rules, tree, s)))
      && (r.Thrown? <==> FollowsParent(tree, s) && enforce && DemandThrows(rules, tree, s))
      && (r == Value(UnexpectedDifficulty) <==>
            FollowsParent(tree, s) && enforce && !AsDemanded(rules, tree, s) && !DemandThrows(rules, tree, s))
      && (!FollowsParent(tree, s) ==> r == Value(ParentReason(s, tree[s.parent].share)))
  {
    OverflowUnreachable(rules, tree, s, enforce);
    DifficultyTable(rules, tree, s);
    hide TreeOk, DifficultyReason, AsDemanded, DemandThrows;
  }

  // ---- Which submissions are admitted ----------------------------------------------------------

  /** The share's own proof-of-work hash. */
  ghost function PowHash(rules: Rules, s: Share): Hash256 {
    rules.progpow(s.zanoHeight, s.header, s.nonce).finalHash
  }

  /** A submission is admitted: new, well shaped, for exactly this work, not from the future, following its
      parent, of the demanded difficulty, and with a hash that meets it. */
  ghost predicate Admitted(
    rules: Rules, c: Chain, s: Share, context: WorkContext, now: U64, powAvailable: bool)
  {
    && Encodable(s, rules.minerOf) && !Known(c, rules.idOf(s))
    && !VersionOutside(rules, s) && WellShaped(s)
    && s.zanoHeight == context.zanoHeight && s.header == context.header
    && s.networkDifficulty == context.networkDifficulty
    && s.timestamp <= now + 60
    && FollowsParent(c.tree, s) && AsDemanded(rules, c.tree, s)
    && powAvailable && PowHash(rules, s) * s.difficulty < TWO_256
  }

  lemma AdmissionTable(rules: Rules, tree: Tree, s: Share, context: WorkContext, now: U64)
    ensures var r := AdmissionReason(rules, tree, s, context, now);
      && (r == Value(Accepted) <==>
            && !VersionOutside(rules, s) && WellShaped(s)
            && context == WorkContext(s.zanoHeight, s.header, s.networkDifficulty)
            && s.timestamp <= now + 60 && FollowsParent(tree, s) && AsDemanded(rules, tree, s))
  {
    StructuralTable(rules, s);
    ContextTable(s, context);
    FutureTable(s, now);
    DifficultyTable(rules, tree, s);
    if s.parent != 0 && s.parent in tree {
      ParentTable(s, tree[s.parent].share);
    }
    hide StructuralReason, ContextReason, FutureReason, ParentReason, DifficultyReason, VersionOutside, WellShaped,
         AsDemanded;
  }

  /** The reason given is the first that applies: shape, work context, clock, parent, difficulty, proof of
      work. */
  lemma RefusalOrder(rules: Rules, c: Chain, s: Share, context: WorkContext, now: U64, powAvailable: bool)
    requires Encodable(s, rules.minerOf) && !Known(c, rules.idOf(s))
    ensures var step := Submit(rules, c, s, context, now, powAvailable);
      var parent := if s.parent != 0 && s.parent in c.tree then ParentReason(s, c.tree[s.parent].share) else Accepted;
      if StructuralReason(rules, s) != Accepted then Refuses(step, c, StructuralReason(rules, s))
      else if ContextReason(s, context) != Accepted then Refuses(step, c, ContextReason(s, context))
      else if s.timestamp > now + 60 then Refuses(step, c, TimestampTooFarFuture)
      else if parent != Accepted then Refuses(step, c, parent)
      else if DemandThrows(rules, c.tree, s) then step == Step(c, Thrown)
      else if !AsDemanded(rules, c.tree, s) then Refuses(step, c, UnexpectedDifficulty)
      else if !powAvailable then Refuses(step, c, PowUnavailable)
      else PowHash(rules, s) * s.difficulty >= TWO_256 ==> Refuses(step, c, InvalidPow)
  {
    StructuralTable(rules, s);
    DifficultyTable(rules, c.tree, s);
    if s.difficulty > 0 && s.networkDifficulty > 0 {
      CandidateTable(rules.progpow(s.zanoHeight, s.header, s.nonce), s.difficulty, s.networkDifficulty);
    }
    hide StructuralReason, ContextReason, FutureReason, ParentReason, DifficultyReason, ValidateCandidate,
         AddPrevalidated, VersionOutside, AsDemanded, DemandThrows;
  }

  ghost predicate Refuses(step: Step<AddResult>, c: Chain, reason: Reason) {
    && step.chain == c && step.outcome.Value?
    && step.outcome.value.disposition == WasRejected && step.outcome.value.reason == reason
    && step.outcome.value.promoted == 0 && !step.outcome.value.tipChanged
  }

  lemma NotAdmitted(rules: Rules, c: Chain, s: Share, context: WorkContext, now: U64, powAvailable: bool)
    requires !Admitted(rules, c, s, context, now, powAvailable)
    ensures var step := Submit(rules, c, s, context, now, powAvailable);
      && step.chain == c
      && (step.outcome.Value? ==> step.outcome.value.disposition == WasDuplicate || step.outcome.value.disposition == WasRejected)
  {
    AdmissionTable(rules, c.tree, s, context, now);
    hide AdmissionReason, VersionOutside, FollowsParent, AsDemanded, AddPrevalidated;
    if s.difficulty > 0 && s.networkDifficulty > 0 {
      CandidateTable(rules.progpow(s.zanoHeight, s.header, s.nonce), s.difficulty, s.networkDifficulty);
    }
    hide ValidateCandidate;
  }

  lemma AdmittedIsAdded(rules: Rules, c: Chain, s: Share, context: WorkContext, now: U64, powAvailable: bool)
    requires Admitted(rules, c, s, context, now, powAvailable)
    ensures Submit(rules, c, s, context, now, powAvailable)
         == AddPrevalidated(rules, c, s, Some(LocalValidation(rules, s)), rules.policy.Some?)
    ensures LocalValidation(rules, s).meetsShare && PassesPow(LocalValidation(rules, s))
  {
    AdmissionTable(rules, c.tree, s, context, now);
    hide AdmissionReason, VersionOutside, FollowsParent, AsDemanded, AddPrevalidated;
    CandidateTable(rules.progpow(s.zanoHeight, s.header, s.nonce), s.difficulty, s.networkDifficulty);
  }

  // ---- What promotion does ---------------------------------------------------------------------

  /** `x` came out of the buffer with its record, and is validated exactly when its difficulty was enforced,
      its record meets it and its parent is validated. */
  ghost predicate FromBuffer(c: Chain, c': Chain, x: ShareId)
    requires x in c'.tree
  {
    && x in c.orphans && c.orphans[x].share == c'.tree[x].share && c.orphans[x].pow == c'.tree[x].pow
    && c'.tree[x].share.parent in c'.tree
    && (c'.tree[x].validated <==>
          && c.orphans[x].enforce && c.orphans[x].pow.Some? && c.orphans[x].pow.value.meetsShare
          && c'.tree[c'.tree[x].share.parent].validated)
  }

  /** Connected shares stay as they are, the others come out of the buffer, and `promoted` counts them. */
  ghost predicate Promotes(c: Chain, c': Chain, promoted: nat) {
    && (forall x | x in c.tree :: x in c'.tree && c'.tree[x] == c.tree[x])
    && (forall x | x in c'.tree && x !in c.tree :: FromBuffer(c, c', x))
    && (forall o | o in c'.orphans :: o in c.orphans && c'.orphans[o] == c.orphans[o])
    && |c'.tree| == |c.tree| + promoted
  }

  lemma PromotesItself(c: Chain)
    ensures Promotes(c, c, 0)
  {
  }

  lemma PromotesThrough(a: Chain, b: Chain, c: Chain, m: nat, n: nat)
    requires Promotes(a, b, m) && Promotes(b, c, n)
    ensures Promotes(a, c, m + n)
  {
    forall x | x in c.tree && x !in a.tree
      ensures FromBuffer(a, c, x)
    {
      if x in b.tree {
        assert FromBuffer(a, b, x);
      } else {
        assert FromBuffer(b, c, x);
      }
    }
  }

  /** What a turn that is done leaves: the orphan is gone, refused or connected. */
  lemma TurnIs(rules: Rules, c: Chain, id: ShareId)
    requires id in c.orphans && c.orphans[id].share.parent in c.tree
    ensures var turn, o := TakeTurn(rules, c, id), c.orphans[id];
      turn.Done? ==>
        && turn.chain.orphans == c.orphans - {id}
        && if turn.promoted == 0 then turn.chain.tree == c.tree
           else turn.promoted == 1 && turn.chain.tree == c.tree[id := NewNode(c.tree, o.share, id, o.pow, o.enforce)]
  {
    hide ConnectReason, ListedUnder, TipWith, NewNode;
    NodeId(c.tree, c.orphans[id].share, id, c.orphans[id].pow, c.orphans[id].enforce);
  }

  lemma OneFromBuffer(c: Chain, c': Chain, id: ShareId)
    requires id in c.orphans && id !in c.tree && c.orphans[id].share.parent in c.tree && !IsRoot(c.orphans[id].share)
    requires var o := c.orphans[id];
      c'.tree == c.tree[id := NewNode(c.tree, o.share, id, o.pow, o.enforce)] && c'.orphans == c.orphans - {id}
    ensures Promotes(c, c', 1)
  {
    assert c'.tree.Keys == c.tree.Keys + {id};
    assert FromBuffer(c, c', id);
  }

  lemma TurnPromotes(rules: Rules, trust: Trust, c: Chain, id: ShareId)
    requires Inv(rules, trust, c) && id in c.orphans && c.orphans[id].share.parent in c.tree
    ensures var turn := TakeTurn(rules, c, id);
      turn.Done? ==> Promotes(c, turn.chain, turn.promoted)
  {
    assert OrphanOk(rules, trust, c, id);
    hide Inv, TakeTurn, NewNode, FromBuffer;
    var turn := TakeTurn(rules, c, id);
    TurnIs(rules, c, id);
    if turn.Done? && turn.promoted == 1 {
      OneFromBuffer(c, turn.chain, id);
    }
  }

  lemma {:induction false} DrainPromotes(
    rules: Rules, trust: Trust, c: Chain, base: set<ShareId>, todo: seq<ShareId>)
    requires Inv(rules, trust, c) && Pending(c, base, todo)
    ensures var run := Drain(rules, c, todo); Promotes(c, run.chain, run.promoted)
    decreases |c.orphans|, |todo|
  {
    hide Inv, Pending, TakeTurn, Promotes;
    PromotesItself(c);
    if todo != [] {
      FirstPending(rules, trust, c, base, todo);
      TurnKeepsInv(rules, trust, c, base, todo);
      TurnPromotes(rules, trust, c, todo[0]);
      var turn := TakeTurn(rules, c, todo[0]);
      if turn.Done? {
        var rest := Drain(rules, turn.chain, turn.next + todo[1..]);
        DrainPromotes(rules, trust, turn.chain, base, turn.next + todo[1..]);
        PromotesThrough(c, turn.chain, rest.chain, turn.promoted, rest.promoted);
      }
    }
  }

  // ---- What an addition reports and does -------------------------------------------------------

  /** The node a share becomes under its parent in `tree`. */
  ghost predicate BecomesNode(tree: Tree, node: Node, s: Share, id: ShareId, pow: Option<Validation>, enforce: bool)
    requires Attached(tree, s)
  {
    && node.share == s && node.id == id && node.pow == pow
    && node.work == s.difficulty + (if s.parent == 0 then 0 else tree[s.parent].work)
    && (node.validated <==>
          enforce && pow.Some? && pow.value.meetsShare && (s.parent == 0 || tree[s.parent].validated))
  }

  /** A connecting addition: the share becomes its node, the rest of the tree is untouched, orphans are
      promoted, and the result tells how many and whether the tip moved. */
  ghost predicate Connects(
    c: Chain, s: Share, id: ShareId, pow: Option<Validation>, enforce: bool, step: Step<AddResult>)
    requires Attached(c.tree, s)
  {
    && id in step.chain.tree && BecomesNode(c.tree, step.chain.tree[id], s, id, pow, enforce)
    && (forall x | x in c.tree :: x in step.chain.tree && step.chain.tree[x] == c.tree[x])
    && (forall x | x in step.chain.tree && x !in c.tree && x != id :: FromBuffer(c, step.chain, x))
    && (forall o | o in step.chain.orphans :: o in c.orphans && step.chain.orphans[o] == c.orphans[o])
    && (step.outcome.Value? ==>
          && step.outcome.value == AddResult(WasConnected, Accepted, id, step.outcome.value.promoted,
                                             step.outcome.value.tipChanged)
          && step.outcome.value.promoted == |step.chain.tree| - |c.tree| - 1
          && (step.outcome.value.tipChanged <==> step.chain.tip != c.tip))
  }

  lemma ConnectsIs(
    rules: Rules, trust: Trust, c: Chain, s: Share, id: ShareId, pow: Option<Validation>, enforce: bool)
    requires Inv(rules, trust, c) && ShareOk(rules, s, id) && !Known(c, id) && Attached(c.tree, s)
    requires ConnectReason(rules, c.tree, s, enforce) == Value(Accepted)
    requires pow.Some? ==> trust(s, pow.value)
    requires enforce ==> rules.policy.Some?
    ensures Connects(c, s, id, pow, enforce, ConnectAndPromote(rules, c, s, id, pow, enforce))
  {
    hide Inv, ShareOk, ConnectReason, NewNode, BecomesNode, Promotes, Connects, Attach, Drain, ListedUnder, Keys;
    var node := NewNode(c.tree, s, id, pow, enforce);
    var run := Drain(rules, Attach(c, node), Keys(ListedUnder(c, id)));
    NodeId(c.tree, s, id, pow, enforce);
    NodeBecomes(c.tree, s, id, pow, enforce);
    ConnectPromotes(rules, trust, c, s, id, pow, enforce);
    StartTree(c, node);
    Assemble(c, Attach(c, node), run, s, id, pow, enforce, node);
  }

  lemma ConnectPromotes(
    rules: Rules, trust: Trust, c: Chain, s: Share, id: ShareId, pow: Option<Validation>, enforce: bool)
    requires Inv(rules, trust, c) && ShareOk(rules, s, id) && !Known(c, id) && Attached(c.tree, s)
    requires ConnectReason(rules, c.tree, s, enforce) == Value(Accepted)
    requires pow.Some? ==> trust(s, pow.value)
    requires enforce ==> rules.policy.Some?
    ensures var start := Attach(c, NewNode(c.tree, s, id, pow, enforce));
      var run := Drain(rules, start, Keys(ListedUnder(c, id)));
      Promotes(start, run.chain, run.promoted)
  {
    hide Inv, ShareOk, Pending, ConnectReason, ListedUnder, Drain, Attach, NewNode, Promotes, Keys;
    var node, todo := NewNode(c.tree, s, id, pow, enforce), Keys(ListedUnder(c, id));
    NodeId(c.tree, s, id, pow, enforce);
    AttachKeepsInv(rules, trust, c, s, id, pow, enforce);
    InvDetached(rules, trust, c);
    AttachPending(c, c.detached, [], node);
    assert todo + [] == todo;
    DrainPromotes(rules, trust, Attach(c, node), c.detached, todo);
  }

  lemma Assemble(
    c: Chain, start: Chain, run: Promotion, s: Share, id: ShareId, pow: Option<Validation>, enforce: bool, node: Node)
    requires Attached(c.tree, s) && BecomesNode(c.tree, node, s, id, pow, enforce) && id !in c.tree
    requires start.orphans == c.orphans && start.tree == c.tree[id := node] && |start.tree| == |c.tree| + 1
    requires Promotes(start, run.chain, run.promoted)
    ensures Connects(c, s, id, pow, enforce,
      Step(run.chain, if run.threw then Thrown
                      else Value(AddResult(WasConnected, Accepted, id, run.promoted, run.chain.tip != c.tip))))
  {
    hide BecomesNode, FromBuffer;
    AttachedPromotes(c, start, run.chain, id);
  }

  lemma StartTree(c: Chain, node: Node)
    requires !Known(c, node.id)
    ensures var start := Attach(c, node);
      && start.orphans == c.orphans && start.tree == c.tree[node.id := node] && |start.tree| == |c.tree| + 1
  {
    assert Attach(c, node).tree.Keys == c.tree.Keys + {node.id};
  }

  lemma NodeBecomes(tree: Tree, s: Share, id: ShareId, pow: Option<Validation>, enforce: bool)
    requires Attached(tree, s)
    ensures BecomesNode(tree, NewNode(tree, s, id, pow, enforce), s, id, pow, enforce)
  {
  }

  lemma AttachedPromotes(c: Chain, start: Chain, c': Chain, id: ShareId)
    requires id in start.tree && start.orphans == c.orphans
    requires forall x | x in start.tree && x !in c.tree :: x == id
    requires forall x | x in c'.tree && x !in start.tree :: FromBuffer(start, c', x)
    ensures forall x | x in c'.tree && x !in c.tree && x != id :: FromBuffer(c, c', x)
  {
  }

  /** Every case of an addition. */
  lemma AddTable(rules: Rules, trust: Trust, c: Chain, s: Share, pow: Option<Validation>, enforce: bool)
    requires Inv(rules, trust, c)
    requires pow.Some? ==> trust(s, pow.value)
    requires enforce ==> rules.policy.Some?
    ensures var step, id := AddPrevalidated(rules, c, s, pow, enforce), rules.idOf(s);
      if !Encodable(s, rules.minerOf) then step == Step(c, Thrown)
      else if Known(c, id) then step == Step(c, Value(AddResult(WasDuplicate, Accepted, id, 0, false)))
      else if VersionOutside(rules, s) || !WellShaped(s) then Refuses(step, c, StructuralReason(rules, s))
      else if !Attached(c.tree, s) then
        step == Step(c.(orphans := c.orphans[id := Orphan(s, id, pow, enforce)]),
                     Value(AddResult(WasOrphaned, Accepted, id, 0, false)))
      else if !FollowsParent(c.tree, s) then Refuses(step, c, ParentReason(s, c.tree[s.parent].share))
      else if enforce && DemandThrows(rules, c.tree, s) then step == Step(c, Thrown)
      else if enforce && !AsDemanded(rules, c.tree, s) then Refuses(step, c, UnexpectedDifficulty)
      else Connects(c, s, id, pow, enforce, step)
  {
    assert TreeOk(rules, c.tree);
    hide Inv, TreeOk, ConnectReason, ConnectAndPromote, StructuralReason, ParentReason, VersionOutside, WellShaped,
         AsDemanded, DemandThrows, Connects;
    var id := rules.idOf(s);
    StructuralTable(rules, s);
    if Encodable(s, rules.minerOf) && !Known(c, id) && StructuralReason(rules, s) == Accepted && Attached(c.tree, s) {
      ConnectTable(rules, c.tree, s, enforce);
      if ConnectReason(rules, c.tree, s, enforce) == Value(Accepted) {
        ConnectsIs(rules, trust, c, s, id, pow, enforce);
      }
    }
  }

  /** A submission changes the chain exactly when it is admitted.  An admitted share without a connected
      parent waits with its own proof-of-work record; otherwise it becomes a node with that record, validated
      exactly when the chain is configured and it is a root or its parent is validated. */
  lemma SubmitAdmits(
    rules: Rules, trust: Trust, c: Chain, s: Share, context: WorkContext, now: U64, powAvailable: bool)
    requires Inv(rules, trust, c) && SoundTrust(rules, trust)
    ensures var step, id := Submit(rules, c, s, context, now, powAvailable), rules.idOf(s);
      && (step.chain != c <==> Admitted(rules, c, s, context, now, powAvailable))
      && (step.chain != c && !Attached(c.tree, s) ==>
            step == Step(c.(orphans := c.orphans[id := Orphan(s, id, Some(LocalValidation(rules, s)), rules.policy.Some?)]),
                         Value(AddResult(WasOrphaned, Accepted, id, 0, false))))
      && (step.chain != c && Attached(c.tree, s) ==>
            && Connects(c, s, id, Some(LocalValidation(rules, s)), rules.policy.Some?, step)
            && (step.chain.tree[id].validated <==>
                  rules.policy.Some? && (s.parent == 0 || c.tree[s.parent].validated)))
      && (step.chain == c && step.outcome.Value? ==>
            step.outcome.value.disposition == WasDuplicate || step.outcome.value.disposition == WasRejected)
  {
    if Admitted(rules, c, s, context, now, powAvailable) {
      AdmittedIsAdded(rules, c, s, context, now, powAvailable);
      assert trust(s, LocalValidation(rules, s));
      AddTable(rules, trust, c, s, Some(LocalValidation(rules, s)), rules.policy.Some?);
    } else {
      NotAdmitted(rules, c, s, context, now, powAvailable);
    }
    hide Inv, SoundTrust, AddPrevalidated, Submit, LocalValidation, VersionOutside, WellShaped, FollowsParent, AsDemanded,
         FromBuffer;
  }
}

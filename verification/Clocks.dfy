/** No orphan is stranded while the clock is early.

    A submitted share lies at most a minute ahead of the clock and a parent at most a minute after its
    child, so the clock bounds every timestamp a retarget window can hold.  Unless that bound passes 32
    bits, no difficulty check can throw during promotion. */
module Clocks {
  import opened Basics
  import opened Orders
  import opened Shares
  import opened Retarget
  import opened ShareTree
  import opened TreeInvariant
  import opened Restart
  import opened Agreement
  import opened Stranding

  /** Every connected child passed the check against its parent. */
  ghost predicate Stepped(tree: Tree) {
    forall id | id in tree && !IsRoot(tree[id].share) ::
      && tree[id].share.parent in tree
      && ParentReason(tree[id].share, tree[tree[id].share.parent].share) == Accepted
  }

  /** A parent is later than its child by a bounded number of seconds, so a share bounds its ancestors. */
  lemma {:induction false} HistoryEarly(tree: Tree, p: ShareId, n: nat, t: nat)
    requires Stepped(tree) && (p in tree ==> tree[p].share.timestamp <= t)
    ensures forall i | 0 <= i < |History(tree, p, n)| ::
      History(tree, p, n)[i].timestamp + MAX_PARENT_BACKSTEP_SECONDS <= t + MAX_PARENT_BACKSTEP_SECONDS * n
    decreases n
  {
    if n > 0 && p != NO_SHARE && p in tree {
      var s := tree[p].share;
      if IsRoot(s) {
        assert History(tree, s.parent, n - 1) == [];
      } else {
        HistoryEarly(tree, s.parent, n - 1, t + MAX_PARENT_BACKSTEP_SECONDS);
      }
    }
  }

  /** The latest ancestor that a retarget window for this share can hold still has a 32-bit timestamp. */
  predicate Early(rule: RetargetRule, s: Share) {
    s.timestamp + MAX_PARENT_BACKSTEP_SECONDS * rule.window <= U32_MAX
  }

  lemma EarlyNotTooWide(tree: Tree, s: Share, rule: RetargetRule)
    requires Stepped(tree) && s.parent in tree && ParentReason(s, tree[s.parent].share) == Accepted && Early(rule, s)
    ensures !TooWide(Window(History(tree, s.parent, rule.window), rule))
  {
    HistoryEarly(tree, s.parent, rule.window, s.timestamp + MAX_PARENT_BACKSTEP_SECONDS);
  }

  lemma EarlyConnects(rules: Rules, tree: Tree, s: Share, enforce: bool)
    requires Stepped(tree) && s.parent in tree && !IsRoot(s) && s.networkDifficulty > 0
    requires enforce && rules.policy.Some? ==> UsableRule(rules.policy.value.rule) && Early(rules.policy.value.rule, s)
    ensures ConnectReason(rules, tree, s, enforce).Value?
  {
    if enforce && rules.policy.Some? && ParentReason(s, tree[s.parent].share) == Accepted {
      EarlyNotTooWide(tree, s, rules.policy.value.rule);
    }
  }

  // ---- Along a route ---------------------------------------------------------------------------

  ghost predicate SteppedOver(c: Chain, start: Tree, tree: Tree) {
    && Stepped(tree)
    && (forall x | x in tree && x !in start :: x in c.orphans && tree[x].share == c.orphans[x].share)
  }

  lemma StepOnce(rules: Rules, c: Chain, start: Tree, below: Tree, o: ShareId, node: Node)
    requires SteppedOver(c, start, below) && o in c.orphans && o !in start && node.share == c.orphans[o].share
    requires node.share.parent != o && node.share.parent in below
    requires IsRoot(node.share) || ParentReason(node.share, below[node.share.parent].share) == Accepted
    ensures SteppedOver(c, start, below[o := node])
  {
  }

  lemma {:induction false} RouteStepped(rules: Rules, c: Chain, start: Tree, id: ShareId, o: ShareId)
    requires id in start && Stepped(start) && forall x | x in c.orphans :: x !in start
    ensures var t := Route(rules, c, start, id, o);
      t.Some? ==> SteppedOver(c, start, t.value)
    decreases if o == id then 0 else if o in c.orphans then 1 + c.orphans[o].share.height else 0
  {
    hide DifficultyReason, SteppedOver;
    if o == id {
      StartStepped(c, start);
    } else if Route(rules, c, start, id, o).Some? {
      var x := c.orphans[o];
      RouteStepped(rules, c, start, id, x.share.parent);
      var below := Route(rules, c, start, id, x.share.parent).value;
      StepOnce(rules, c, start, below, o, NewNode(below, x.share, o, x.pow, x.enforce));
    }
  }

  lemma StartStepped(c: Chain, start: Tree)
    requires Stepped(start)
    ensures SteppedOver(c, start, start)
  {
  }

  /** The rule can be used, and every waiting share whose difficulty will be checked is early. */
  ghost predicate WaitingEarly(rules: Rules, c: Chain) {
    rules.policy.Some? ==>
      var rule := rules.policy.value.rule;
      UsableRule(rule) && forall o | o in c.orphans && c.orphans[o].enforce :: Early(rule, c.orphans[o].share)
  }

  lemma EarlyReachesNoThrow(rules: Rules, trust: Trust, c: Chain, start: Tree, id: ShareId)
    requires Begun(rules, trust, c, start, id) && Stepped(start) && WaitingEarly(rules, c)
    ensures !WouldThrow(rules, c, start, id)
  {
    forall o | o in c.orphans
      ensures OrphanOk(rules, trust, c, o) && o !in start
    {
    }
    hide Inv;
    forall o | Listed(c, o)
      ensures Verdict(rules, c, start, id, o) != Some(Thrown)
    {
      var x := c.orphans[o];
      assert OrphanOk(rules, trust, c, o);
      RouteStepped(rules, c, start, id, x.share.parent);
      hide Route, ConnectReason, Stepped;
      var below := Route(rules, c, start, id, x.share.parent);
      if below.Some? {
        EarlyConnects(rules, below.value, x.share, x.enforce);
      }
    }
  }

  // ---- One addition ----------------------------------------------------------------------------

  lemma TreeStepped(rules: Rules, tree: Tree)
    requires TreeOk(rules, tree)
    ensures Stepped(tree)
  {
    forall id | id in tree && !IsRoot(tree[id].share)
      ensures tree[id].share.parent in tree
      ensures ParentReason(tree[id].share, tree[tree[id].share.parent].share) == Accepted
    {
      assert NodeOk(rules, tree, id);
    }
  }

  lemma StartIsStepped(rules: Rules, tree: Tree, s: Share, id: ShareId, pow: Option<Validation>, enforce: bool)
    requires TreeOk(rules, tree) && ShareOk(rules, s, id) && id !in tree && (IsRoot(s) || s.parent in tree)
    requires ConnectReason(rules, tree, s, enforce) == Value(Accepted)
    ensures Stepped(tree[id := NewNode(tree, s, id, pow, enforce)])
  {
    TreeStepped(rules, tree);
    hide TreeOk, DifficultyReason;
  }

  lemma EarlyConnectNeverThrows(
    rules: Rules, trust: Trust, c: Chain, s: Share, id: ShareId, pow: Option<Validation>, enforce: bool)
    requires Inv(rules, trust, c) && ShareOk(rules, s, id) && !Known(c, id)
    requires IsRoot(s) || s.parent in c.tree
    requires ConnectReason(rules, c.tree, s, enforce) == Value(Accepted)
    requires pow.Some? ==> trust(s, pow.value)
    requires enforce ==> rules.policy.Some?
    requires WaitingEarly(rules, c)
    ensures ConnectAndPromote(rules, c, s, id, pow, enforce).outcome.Value?
  {
    assert TreeOk(rules, c.tree);
    hide Inv, TreeOk, ShareOk, Route, WouldThrow, Progress, Begun, ConnectReason, ConnectAndPromote, WaitingEarly, Stepped;
    var node := NewNode(c.tree, s, id, pow, enforce);
    NodeId(c.tree, s, id, pow, enforce);
    BeginsWith(rules, trust, c, s, id, node);
    StartIsStepped(rules, c.tree, s, id, pow, enforce);
    EarlyReachesNoThrow(rules, trust, c, c.tree[id := node], id);
    ConnectThrowsIff(rules, trust, c, s, id, pow, enforce);
  }

  /** Promotion only takes orphans out of the buffer. */
  lemma {:induction false} DrainTakesOut(rules: Rules, c: Chain, todo: seq<ShareId>)
    ensures WaitsLess(c, Drain(rules, c, todo).chain)
    decreases |c.orphans|, |todo|
  {
    hide ConnectReason, WaitsLess;
    if todo == [] {
      WaitsLessItself(c);
    } else if todo[0] !in c.orphans {
      DrainTakesOut(rules, c, todo[1..]);
    } else {
      var turn := TakeTurn(rules, c, todo[0]);
      TurnTakesOut(rules, c, todo[0]);
      WaitsLessItself(c);
      if turn.Done? {
        DrainTakesOut(rules, turn.chain, turn.next + todo[1..]);
        WaitsLessThrough(c, turn.chain, Drain(rules, turn.chain, turn.next + todo[1..]).chain);
      }
    }
  }

  ghost predicate WaitsLess(before: Chain, after: Chain) {
    forall o | o in after.orphans :: o in before.orphans && after.orphans[o] == before.orphans[o]
  }

  lemma WaitsLessItself(c: Chain)
    ensures WaitsLess(c, c)
  {
  }

  lemma WaitsLessThrough(a: Chain, b: Chain, c: Chain)
    requires WaitsLess(a, b) && WaitsLess(b, c)
    ensures WaitsLess(a, c)
  {
  }

  lemma TurnTakesOut(rules: Rules, c: Chain, id: ShareId)
    requires id in c.orphans
    ensures var turn := TakeTurn(rules, c, id);
      turn.Done? ==> WaitsLess(c, turn.chain)
  {
    hide ConnectReason, NewNode, ListedUnder;
  }

  lemma ConnectTakesOut(rules: Rules, c: Chain, s: Share, id: ShareId, pow: Option<Validation>, enforce: bool)
    requires IsRoot(s) || s.parent in c.tree
    ensures WaitsLess(c, ConnectAndPromote(rules, c, s, id, pow, enforce).chain)
  {
    hide Drain, ListedUnder, NewNode;
    DrainTakesOut(rules, Attach(c, NewNode(c.tree, s, id, pow, enforce)), Keys(ListedUnder(c, id)));
  }

  /** What an addition leaves waiting was waiting before, or is the share itself. */
  lemma AddTakesOut(rules: Rules, c: Chain, s: Share, pow: Option<Validation>, enforce: bool)
    ensures var c' := AddPrevalidated(rules, c, s, pow, enforce).chain;
      WaitsLess(c, c') || c' == c.(orphans := c.orphans[rules.idOf(s) := Orphan(s, rules.idOf(s), pow, enforce)])
  {
    hide ConnectReason, ConnectAndPromote, WaitsLess;
    WaitsLessItself(c);
    if IsRoot(s) || s.parent in c.tree {
      ConnectTakesOut(rules, c, s, rules.idOf(s), pow, enforce);
    }
  }

  lemma WaitingStays(rules: Rules, c: Chain, s: Share, pow: Option<Validation>, enforce: bool)
    requires WaitingEarly(rules, c)
    requires enforce ==> rules.policy.Some? && Early(rules.policy.value.rule, s)
    ensures WaitingEarly(rules, AddPrevalidated(rules, c, s, pow, enforce).chain)
  {
    hide AddPrevalidated, Early;
    AddTakesOut(rules, c, s, pow, enforce);
  }

  lemma EarlyKeepsListed(rules: Rules, trust: Trust, c: Chain, s: Share, pow: Option<Validation>, enforce: bool)
    requires Inv(rules, trust, c) && WaitingEarly(rules, c)
    requires (pow.Some? ==> trust(s, pow.value)) && (enforce ==> rules.policy.Some?)
    ensures AddPrevalidated(rules, c, s, pow, enforce).chain.detached == c.detached
  {
    hide Inv, ConnectReason, ConnectAndPromote, WaitingEarly;
    AddKeepsInv(rules, trust, c, s, pow, enforce);
    var id := rules.idOf(s);
    if Encodable(s, rules.minerOf) && !Known(c, id) && StructuralReason(rules, s) == Accepted
       && (IsRoot(s) || s.parent in c.tree) && ConnectReason(rules, c.tree, s, enforce) == Value(Accepted) {
      EarlyConnectNeverThrows(rules, trust, c, s, id, pow, enforce);
    }
  }

  /** While what waits is early, an addition strands no orphan, and what waits stays early. */
  lemma EarlyNeverStrands(rules: Rules, trust: Trust, c: Chain, s: Share, pow: Option<Validation>, enforce: bool)
    requires Inv(rules, trust, c) && c.detached == {} && WaitingEarly(rules, c)
    requires pow.Some? ==> trust(s, pow.value)
    requires enforce ==> rules.policy.Some? && Early(rules.policy.value.rule, s)
    ensures var c' := AddPrevalidated(rules, c, s, pow, enforce).chain;
      c'.detached == {} && WaitingEarly(rules, c') && NoStrandedOrphan(c')
  {
    hide Inv, AddPrevalidated, WaitingEarly, NoStrandedOrphan;
    WaitingStays(rules, c, s, pow, enforce);
    EarlyKeepsListed(rules, trust, c, s, pow, enforce);
    AddKeepsInv(rules, trust, c, s, pow, enforce);
    AttachedNotStranded(rules, trust, AddPrevalidated(rules, c, s, pow, enforce).chain);
  }

  // ---- Whole runs ------------------------------------------------------------------------------

  /** The clock of a submission is a window of backward steps away from 32 bits. */
  predicate EarlyClock(rules: Rules, op: Op) {
    op.SubmitOp? && rules.policy.Some? ==>
      op.now + MAX_FUTURE_SECONDS + MAX_PARENT_BACKSTEP_SECONDS * rules.policy.value.rule.window <= U32_MAX
  }

  lemma SubmittedIsEarly(
    rules: Rules, trust: Trust, c: Chain, s: Share, context: WorkContext, now: U64, powAvailable: bool)
    requires EarlyClock(rules, SubmitOp(s, context, now, powAvailable))
    ensures var c' := Submit(rules, c, s, context, now, powAvailable).chain;
      c' == c || (rules.policy.Some? ==> Early(rules.policy.value.rule, s))
  {
    hide AddPrevalidated, DifficultyReason;
  }

  lemma EarlyStep(rules: Rules, trust: Trust, c: Chain, op: Op)
    requires Inv(rules, trust, c) && c.detached == {} && SoundTrust(rules, trust)
    requires WaitingEarly(rules, c) && EarlyClock(rules, op)
    ensures var c' := Apply(rules, c, op); c'.detached == {} && WaitingEarly(rules, c')
  {
    hide Inv, SoundTrust, AddPrevalidated, RestoreAllowed, RevalidateVerdict, Submit, Early;
    match op
    case AddUncheckedOp(s) => EarlyNeverStrands(rules, trust, c, s, None, false);
    case SubmitOp(s, context, now, available) =>
      SubmitIsAdd(rules, trust, c, s, context, now, available);
      SubmittedIsEarly(rules, trust, c, s, context, now, available);
      var c' := Submit(rules, c, s, context, now, available).chain;
      if c' != c {
        var pow :| AddsTrusted(rules, trust, c, s, pow, c');
        EarlyNeverStrands(rules, trust, c, s, pow, rules.policy.Some?);
      }
    case RevalidateOp(id, context, now, available) =>
      RevalidateMarks(rules, trust, c, id, context, now, available);
    case RestoreOp(records) =>
    case PruneOp(id) =>
  }

  /** A run whose submissions happen while the clock, a minute, and a minute per share of the retarget
      window fit 32 bits never strands an orphan, whatever shares arrive and however they are replayed. */
  lemma {:induction false} EarlyRunNeverStrands(
    rules: Rules, trust: Trust, states: seq<Chain>, ops: seq<Op>, i: nat)
    requires SoundTrust(rules, trust) && IsRun(rules, trust, states, ops) && i <= |ops|
    requires rules.policy.Some? ==> UsableRule(rules.policy.value.rule)
    requires forall k | 0 <= k < i :: EarlyClock(rules, ops[k])
    ensures states[i].detached == {} && WaitingEarly(rules, states[i]) && NoStrandedOrphan(states[i])
  {
    RunKeepsInv(rules, trust, states, ops, i);
    if i > 0 {
      RunKeepsInv(rules, trust, states, ops, i - 1);
      hide Inv, SoundTrust, Apply, EarlyClock, NoStrandedOrphan, WaitingEarly;
      EarlyRunNeverStrands(rules, trust, states, ops, i - 1);
      EarlyStep(rules, trust, states[i - 1], ops[i - 1]);
    }
    AttachedNotStranded(rules, trust, states[i]);
  }
}

/** Exactly when promotion strands orphans.

    Promotion takes a parent's waiting orphans off its list before connecting them.  If the difficulty
    rule throws for one of them, the exception leaves the remaining ones in the buffer, next to a
    connected parent, where nothing will promote them.  This module gives a run in which that happens,
    and the condition on the state before the call under which it does. */
module Stranding {
  import opened Basics
  import opened Orders
  import opened Shares
  import opened Retarget
  import opened ShareTree
  import opened TreeInvariant
  import opened Restart
  import opened Agreement

  ghost predicate Listed(c: Chain, o: ShareId) { o in c.orphans && o !in c.detached }

  ghost predicate Includes(small: Tree, big: Tree) {
    forall id | id in small :: id in big && big[id] == small[id]
  }

  /** The tree after connecting `id` and then, one by one, the waiting orphans that lead to `o`; none
      if one of them would be refused. */
  ghost function Route(rules: Rules, c: Chain, start: Tree, id: ShareId, o: ShareId)
    : (t: Option<Tree>)
    requires id in start
    ensures t.Some? ==> o in t.value
    decreases if o == id then 0 else if o in c.orphans then 1 + c.orphans[o].share.height else 0
  {
    if o == id then Some(start)
    else if !Listed(c, o) then None
    else
      var x := c.orphans[o];
      var p := x.share.parent;
      if p != id && (p !in c.orphans || c.orphans[p].share.height >= x.share.height) then None
      else
        var below := Route(rules, c, start, id, p);
        if below.None? || ConnectReason(rules, below.value, x.share, x.enforce) != Value(Accepted) then None
        else Some(below.value[o := NewNode(below.value, x.share, o, x.pow, x.enforce)])
  }

  /** The verdict on `o` once everything on the way to it is connected. */
  ghost function Verdict(rules: Rules, c: Chain, start: Tree, id: ShareId, o: ShareId)
    : Option<Outcome<Reason>>
    requires id in start && o in c.orphans
  {
    var below := Route(rules, c, start, id, c.orphans[o].share.parent);
    if below.None? then None
    else Some(ConnectReason(rules, below.value, c.orphans[o].share, c.orphans[o].enforce))
  }

  /** Connecting `id` would reach a waiting orphan whose difficulty check throws. */
  ghost predicate WouldThrow(rules: Rules, c: Chain, start: Tree, id: ShareId)
    requires id in start
  {
    exists o :: Listed(c, o) && Verdict(rules, c, start, id, o) == Some(Thrown)
  }

  // ---- Verdicts depend on the route only -------------------------------------------------------

  lemma {:induction false} RouteClosed(rules: Rules, c: Chain, start: Tree, id: ShareId, o: ShareId)
    requires id in start && ParentClosed(start)
    ensures var t := Route(rules, c, start, id, o);
      t.Some? ==> ParentClosed(t.value)
    decreases if o == id then 0 else if o in c.orphans then 1 + c.orphans[o].share.height else 0
  {
    if o != id && Route(rules, c, start, id, o).Some? {
      RouteClosed(rules, c, start, id, c.orphans[o].share.parent);
    }
  }

  lemma ConnectReasonStable(rules: Rules, small: Tree, big: Tree, s: Share, enforce: bool)
    requires ParentClosed(small) && Includes(small, big) && s.parent in small && !IsRoot(s)
    ensures ConnectReason(rules, small, s, enforce) == ConnectReason(rules, big, s, enforce)
  {
    ExpectedStable(rules, small, big, s.parent, s.networkDifficulty);
  }

  /** How far promotion has come: what is connected beyond `start` came by its route, and every orphan
      that was waiting is still waiting, connected, or refused on its route. */
  ghost predicate Progress(rules: Rules, c: Chain, start: Tree, id: ShareId, k: Chain)
    requires id in start
  {
    && Includes(start, k.tree)
    && (forall x | x in k.tree && x !in start :: Arrived(rules, c, start, id, k.tree, x))
    && (forall o | o in k.orphans :: o in c.orphans && k.orphans[o] == c.orphans[o])
    && (forall o | Listed(c, o) :: Settled(rules, c, start, id, k, o))
  }

  ghost predicate Arrived(rules: Rules, c: Chain, start: Tree, id: ShareId, tree: Tree, x: ShareId)
    requires id in start
  {
    && Listed(c, x)
    && Route(rules, c, start, id, x).Some?
    && Includes(Route(rules, c, start, id, x).value, tree)
  }

  ghost predicate Settled(rules: Rules, c: Chain, start: Tree, id: ShareId, k: Chain, o: ShareId)
    requires id in start && o in c.orphans
  {
    o in k.orphans || o in k.tree || Refused(rules, c, start, id, o)
  }

  ghost predicate Refused(rules: Rules, c: Chain, start: Tree, id: ShareId, o: ShareId)
    requires id in start && o in c.orphans
  {
    var v := Verdict(rules, c, start, id, o);
    v.Some? && v.value.Value? && v.value.value != Accepted
  }

  ghost predicate Begun(rules: Rules, trust: Trust, c: Chain, start: Tree, id: ShareId) {
    && Inv(rules, trust, c) && !Known(c, id) && id in start
    && (forall x :: x in start <==> x == id || x in c.tree)
    && ParentClosed(start)
  }

  /** The orphan about to be connected has its parent's route behind it. */
  lemma RouteBehind(
    rules: Rules, trust: Trust, c: Chain, start: Tree, id: ShareId, k: Chain, o: ShareId)
    requires Begun(rules, trust, c, start, id) && Progress(rules, c, start, id, k)
    requires Listed(c, o) && o in k.orphans && k.orphans[o].share.parent in k.tree
    ensures var below := Route(rules, c, start, id, c.orphans[o].share.parent);
      && below.Some? && Includes(below.value, k.tree) && ParentClosed(below.value)
      && c.orphans[o].share.parent in below.value
    ensures Verdict(rules, c, start, id, o)
         == Some(ConnectReason(rules, k.tree, c.orphans[o].share, c.orphans[o].enforce))
  {
    var p := c.orphans[o].share.parent;
    assert OrphanOk(rules, trust, c, o);
    if p != id {
      assert p !in start;
      assert Arrived(rules, c, start, id, k.tree, p);
    }
    RouteClosed(rules, c, start, id, p);
    ConnectReasonStable(rules, Route(rules, c, start, id, p).value, k.tree,
                        c.orphans[o].share, c.orphans[o].enforce);
  }

  lemma RefuseProgress(rules: Rules, c: Chain, start: Tree, id: ShareId, k: Chain, o: ShareId)
    requires id in start && Progress(rules, c, start, id, k)
    requires o in c.orphans && Refused(rules, c, start, id, o)
    ensures Progress(rules, c, start, id, DropOrphan(k, o))
  {
    hide Route, Refused, Arrived;
    forall x | Listed(c, x)
      ensures Settled(rules, c, start, id, DropOrphan(k, o), x)
    {
      assert Settled(rules, c, start, id, k, x);
    }
  }

  lemma ArriveProgress(
    rules: Rules, c: Chain, start: Tree, id: ShareId, k: Chain, o: ShareId, node: Node)
    requires id in start && Progress(rules, c, start, id, k)
    requires node.id == o && o !in k.tree && Arrived(rules, c, start, id, k.tree[o := node], o)
    ensures Progress(rules, c, start, id, Attach(DropOrphan(k, o), node))
  {
    var k' := Attach(DropOrphan(k, o), node);
    AttachedTree(k, o, node);
    hide Route, Refused, Arrived, Includes, Attach, Settled;
    ExtendedIncludes(start, k.tree, o, node);
    forall y | y in k'.tree && y !in start
      ensures Arrived(rules, c, start, id, k'.tree, y)
    {
      if y != o {
        ArrivedMonotone(rules, c, start, id, k.tree, k'.tree, y);
      }
    }
    forall y | Listed(c, y)
      ensures Settled(rules, c, start, id, k', y)
    {
      StaysSettled(rules, c, start, id, k, k', o, y);
    }
  }

  lemma AttachedTree(k: Chain, o: ShareId, node: Node)
    ensures Attach(DropOrphan(k, o), node).tree == k.tree[node.id := node]
    ensures Attach(DropOrphan(k, o), node).orphans == k.orphans - {o}
  {
  }

  lemma ExtendedIncludes(start: Tree, tree: Tree, o: ShareId, node: Node)
    requires o !in tree && Includes(start, tree)
    ensures Includes(start, tree[o := node]) && Includes(tree, tree[o := node])
  {
  }

  lemma StaysSettled(
    rules: Rules, c: Chain, start: Tree, id: ShareId, k: Chain, k': Chain, o: ShareId, y: ShareId)
    requires id in start && y in c.orphans && Settled(rules, c, start, id, k, y)
    requires o in k'.tree && k'.orphans == k.orphans - {o} && forall x | x in k.tree :: x in k'.tree
    ensures Settled(rules, c, start, id, k', y)
  {
    hide Refused;
  }

  lemma ArrivedMonotone(
    rules: Rules, c: Chain, start: Tree, id: ShareId, tree: Tree, tree': Tree, x: ShareId)
    requires id in start && Arrived(rules, c, start, id, tree, x) && Includes(tree, tree')
    ensures Arrived(rules, c, start, id, tree', x)
  {
  }

  lemma RouteExtends(
    rules: Rules, trust: Trust, c: Chain, start: Tree, id: ShareId, k: Chain, o: ShareId)
    requires Begun(rules, trust, c, start, id) && Progress(rules, c, start, id, k)
    requires Listed(c, o) && o in k.orphans && o !in k.tree && o != id
    requires k.orphans[o].share.parent in k.tree && TreeOk(rules, k.tree)
    requires ConnectReason(rules, k.tree, k.orphans[o].share, k.orphans[o].enforce) == Value(Accepted)
    ensures var x := k.orphans[o];
      Arrived(rules, c, start, id, k.tree[o := NewNode(k.tree, x.share, o, x.pow, x.enforce)], o)
  {
    var x := c.orphans[o];
    var p := x.share.parent;
    RouteBehind(rules, trust, c, start, id, k, o);
    assert x == k.orphans[o] && !IsRoot(x.share) by {
      assert OrphanOk(rules, trust, c, o);
    }
    if p != id {
      assert Arrived(rules, c, start, id, k.tree, p) by {
        assert OrphanOk(rules, trust, c, o);
      }
      ParentHeight(rules, trust, c, start, id, k, p);
    }
    var below := Route(rules, c, start, id, p).value;
    assert below[p] == k.tree[p];
    hide Begun, Progress, TreeOk;
    OneMore(rules, c, start, id, o, below, k.tree);
  }

  lemma OneMore(
    rules: Rules, c: Chain, start: Tree, id: ShareId, o: ShareId, below: Tree, tree: Tree)
    requires id in start && Listed(c, o) && o != id && o !in tree && Includes(below, tree)
    requires var p := c.orphans[o].share.parent;
      && p in below && Route(rules, c, start, id, p) == Some(below)
      && (p == id || (p in c.orphans && c.orphans[p].share.height < c.orphans[o].share.height))
    requires ConnectReason(rules, below, c.orphans[o].share, c.orphans[o].enforce) == Value(Accepted)
    ensures var x := c.orphans[o];
      x.share.parent in tree &&
      Arrived(rules, c, start, id, tree[o := NewNode(tree, x.share, o, x.pow, x.enforce)], o)
  {
    hide ConnectReason;
    var x := c.orphans[o];
    var node := NewNode(below, x.share, o, x.pow, x.enforce);
    assert node == NewNode(tree, x.share, o, x.pow, x.enforce);
    assert Route(rules, c, start, id, o) == Some(below[o := node]);
  }

  /** A connected orphan keeps the height it had in the buffer. */
  lemma ParentHeight(
    rules: Rules, trust: Trust, c: Chain, start: Tree, id: ShareId, k: Chain, p: ShareId)
    requires Begun(rules, trust, c, start, id) && p != id && Arrived(rules, c, start, id, k.tree, p)
    ensures p in k.tree && k.tree[p].share == c.orphans[p].share
  {
    var t := Route(rules, c, start, id, p).value;
    assert p in t && t[p].share == c.orphans[p].share;
  }

  // ---- Promotion throws exactly when a route leads to a throwing check -------------------------

  lemma TurnFacts(
    rules: Rules, trust: Trust, c: Chain, start: Tree, id: ShareId, k: Chain, todo: seq<ShareId>)
    requires Begun(rules, trust, c, start, id) && Progress(rules, c, start, id, k)
    requires Inv(rules, trust, k) && todo != [] && Pending(k, c.detached, todo) && id in k.tree
    ensures id in start && TreeOk(rules, k.tree)
    ensures var o := todo[0];
      && Listed(c, o) && o in k.orphans && k.orphans[o] == c.orphans[o]
      && k.orphans[o].share.parent in k.tree && o !in k.tree && o != id
  {
    FirstPending(rules, trust, k, c.detached, todo);
  }

  lemma TurnProgress(
    rules: Rules, trust: Trust, c: Chain, start: Tree, id: ShareId, k: Chain, todo: seq<ShareId>)
    requires Begun(rules, trust, c, start, id) && Progress(rules, c, start, id, k)
    requires Inv(rules, trust, k) && todo != [] && Pending(k, c.detached, todo) && id in k.tree
    ensures todo[0] in k.orphans
    ensures var turn := TakeTurn(rules, k, todo[0]);
      && (turn.Throws? ==> WouldThrow(rules, c, start, id))
      && (turn.Done? ==> Progress(rules, c, start, id, turn.chain) && id in turn.chain.tree)
  {
    hide Inv, Pending, Begun, Progress, Includes, Arrived, Attach, TreeOk, ListedUnder, OrphanOk, Route;
    var o := todo[0];
    TurnFacts(rules, trust, c, start, id, k, todo);
    var x := k.orphans[o];
    RouteBehind(rules, trust, c, start, id, k, o);
    var reason := ConnectReason(rules, k.tree, x.share, x.enforce);
    if reason == Value(Accepted) {
      RouteExtends(rules, trust, c, start, id, k, o);
      ArriveProgress(rules, c, start, id, k, o, NewNode(k.tree, x.share, o, x.pow, x.enforce));
      AttachTree(DropOrphan(k, o), NewNode(k.tree, x.share, o, x.pow, x.enforce), id);
    } else if reason.Value? {
      RefuseProgress(rules, c, start, id, k, o);
    }
  }

  lemma AttachTree(c: Chain, node: Node, id: ShareId)
    requires id in c.tree
    ensures id in Attach(c, node).tree
  {
  }

  lemma {:induction false} DrainThrows(
    rules: Rules, trust: Trust, c: Chain, start: Tree, id: ShareId, k: Chain, todo: seq<ShareId>)
    requires Begun(rules, trust, c, start, id) && Progress(rules, c, start, id, k)
    requires Inv(rules, trust, k) && Pending(k, c.detached, todo) && id in k.tree
    ensures var run := Drain(rules, k, todo);
      && (run.threw ==> WouldThrow(rules, c, start, id))
      && (!run.threw ==> Progress(rules, c, start, id, run.chain))
    decreases |k.orphans|, |todo|
  {
    assert id in start;
    hide Inv, Pending, Begun, Progress, TakeTurn, WouldThrow;
    if todo != [] {
      TurnKeepsInv(rules, trust, k, c.detached, todo);
      TurnProgress(rules, trust, c, start, id, k, todo);
      var turn := TakeTurn(rules, k, todo[0]);
      if turn.Done? {
        DrainThrows(rules, trust, c, start, id, turn.chain, turn.next + todo[1..]);
      }
    }
  }

  lemma {:induction false} RouteConnected(
    rules: Rules, trust: Trust, c: Chain, start: Tree, id: ShareId, k: Chain, o: ShareId)
    requires Begun(rules, trust, c, start, id) && Progress(rules, c, start, id, k)
    requires Inv(rules, trust, k) && k.detached == c.detached
    requires Route(rules, c, start, id, o).Some?
    ensures o in k.tree
    decreases if o == id then 0 else if o in c.orphans then 1 + c.orphans[o].share.height else 0
  {
    if o != id {
      RouteConnected(rules, trust, c, start, id, k, c.orphans[o].share.parent);
      assert Settled(rules, c, start, id, k, o);
      ListedParentAbsent(rules, trust, k, o);
    }
  }

  lemma ListedParentAbsent(rules: Rules, trust: Trust, k: Chain, o: ShareId)
    requires Inv(rules, trust, k)
    ensures Listed(k, o) ==> k.orphans[o].share.parent !in k.tree
  {
    assert o in k.orphans ==> OrphanOk(rules, trust, k, o);
  }

  lemma NoThrowFor(
    rules: Rules, trust: Trust, c: Chain, start: Tree, id: ShareId, k: Chain, o: ShareId)
    requires Begun(rules, trust, c, start, id) && Progress(rules, c, start, id, k)
    requires Inv(rules, trust, k) && k.detached == c.detached && Listed(c, o)
    ensures Verdict(rules, c, start, id, o) != Some(Thrown)
  {
    if Verdict(rules, c, start, id, o).Some? {
      RouteConnected(rules, trust, c, start, id, k, c.orphans[o].share.parent);
      ListedParentAbsent(rules, trust, k, o);
      assert Settled(rules, c, start, id, k, o);
      if o in k.tree {
        assert o !in start by {
          assert OrphanOk(rules, trust, c, o);
        }
        assert Arrived(rules, c, start, id, k.tree, o);
        hide Begun, Progress, Inv, ConnectReason, Includes;
      }
    }
  }

  lemma NothingThrowsInTheEnd(
    rules: Rules, trust: Trust, c: Chain, start: Tree, id: ShareId, k: Chain)
    requires Begun(rules, trust, c, start, id) && Progress(rules, c, start, id, k)
    requires Inv(rules, trust, k) && k.detached == c.detached
    ensures !WouldThrow(rules, c, start, id)
  {
    assert id in start;
    hide Begun, Progress, Inv, Verdict;
    forall o | Listed(c, o)
      ensures Verdict(rules, c, start, id, o) != Some(Thrown)
    {
      NoThrowFor(rules, trust, c, start, id, k, o);
    }
  }

  /** A connecting addition throws during promotion if and only if, before the call, some waiting
      orphan whose whole route to the new share is acceptable has a difficulty check that throws. */
  lemma ConnectThrowsIff(
    rules: Rules, trust: Trust, c: Chain, s: Share, id: ShareId, pow: Option<Validation>, enforce: bool)
    requires Inv(rules, trust, c) && ShareOk(rules, s, id) && !Known(c, id)
    requires IsRoot(s) || s.parent in c.tree
    requires ConnectReason(rules, c.tree, s, enforce) == Value(Accepted)
    requires pow.Some? ==> trust(s, pow.value)
    requires enforce ==> rules.policy.Some?
    ensures var start := c.tree[id := NewNode(c.tree, s, id, pow, enforce)];
      ConnectAndPromote(rules, c, s, id, pow, enforce).outcome.Thrown? <==> WouldThrow(rules, c, start, id)
  {
    var node := NewNode(c.tree, s, id, pow, enforce);
    var start, k, kids := c.tree[id := node], Attach(c, node), Keys(ListedUnder(c, id));
    AttachKeepsInv(rules, trust, c, s, id, pow, enforce);
    AttachPending(c, c.detached, [], node);
    assert kids + [] == kids;
    BeginsWith(rules, trust, c, s, id, node);
    DrainThrows(rules, trust, c, start, id, k, kids);
    DrainKeepsInv(rules, trust, k, c.detached, kids);
    var run := Drain(rules, k, kids);
    if !run.threw {
      NothingThrowsInTheEnd(rules, trust, c, start, id, run.chain);
    }
  }

  lemma BeginsWith(rules: Rules, trust: Trust, c: Chain, s: Share, id: ShareId, node: Node)
    requires Inv(rules, trust, c) && !Known(c, id) && node.id == id && node.share == s
    requires IsRoot(s) || s.parent in c.tree
    ensures var start := c.tree[id := node];
      Begun(rules, trust, c, start, id) && Progress(rules, c, start, id, Attach(c, node))
  {
    var start := c.tree[id := node];
    TreeOkClosed(rules, c.tree);
    forall o | Listed(c, o)
      ensures Settled(rules, c, start, id, Attach(c, node), o)
    {
    }
  }

  /** From a state without stranded orphans, an addition strands one if and only if it connects a share
      and a throwing check is reachable from it. */
  lemma AddStrandsIff(
    rules: Rules, trust: Trust, c: Chain, s: Share, pow: Option<Validation>, enforce: bool)
    requires Inv(rules, trust, c) && c.detached == {}
    requires pow.Some? ==> trust(s, pow.value)
    requires enforce ==> rules.policy.Some?
    ensures NoStrandedOrphan(AddPrevalidated(rules, c, s, pow, enforce).chain) <==>
      !(&& ShareOk(rules, s, rules.idOf(s)) && !Known(c, rules.idOf(s))
        && (IsRoot(s) || s.parent in c.tree)
        && ConnectReason(rules, c.tree, s, enforce) == Value(Accepted)
        && var id := rules.idOf(s);
           WouldThrow(rules, c, c.tree[id := NewNode(c.tree, s, id, pow, enforce)], id))
  {
    var step, id := AddPrevalidated(rules, c, s, pow, enforce), rules.idOf(s);
    AddKeepsInv(rules, trust, c, s, pow, enforce);
    if ShareOk(rules, s, id) && !Known(c, id) && (IsRoot(s) || s.parent in c.tree)
       && ConnectReason(rules, c.tree, s, enforce) == Value(Accepted) {
      ConnectThrowsIff(rules, trust, c, s, id, pow, enforce);
      ConnectKeepsInv(rules, trust, c, s, id, pow, enforce);
    }
    if step.chain.detached == {} {
      AttachedNotStranded(rules, trust, step.chain);
    }
  }

  lemma AttachedNotStranded(rules: Rules, trust: Trust, c: Chain)
    requires Inv(rules, trust, c) && c.detached == {}
    ensures NoStrandedOrphan(c)
  {
    forall id | id in c.orphans
      ensures c.orphans[id].share.parent !in c.tree
    {
      assert OrphanOk(rules, trust, c, id);
    }
  }

  // ---- No orphan is stranded while branches are narrow -----------------------------------------

  /** A share and its ancestors among known shares, newest first, at most `n`. */
  ghost function Lineage(u: map<ShareId, Share>, p: ShareId, n: nat): seq<Share>
    decreases n
  {
    if n == 0 || p == NO_SHARE || p !in u then [] else [u[p]] + Lineage(u, u[p].parent, n - 1)
  }

  /** The timestamps lie within 2^32 - 1 seconds. */
  ghost predicate Narrow(shares: seq<Share>) {
    forall i, j | 0 <= i < |shares| && 0 <= j < |shares| :: shares[i].timestamp - shares[j].timestamp <= U32_MAX
  }

  /** The retarget rule can be used, as the constructor of a configured chain makes sure, and no retarget
      window among the shares is too wide for it. */
  ghost predicate NarrowBranches(rules: Rules, u: map<ShareId, Share>) {
    rules.policy.Some? ==>
      var rule := rules.policy.value.rule;
      UsableRule(rule) && forall p | p in u :: Narrow(Lineage(u, p, rule.window))
  }

  /** The connected and waiting shares together with the one that arrives. */
  ghost function Arriving(rules: Rules, c: Chain, s: Share): map<ShareId, Share> {
    StoredUniverse(c)[rules.idOf(s) := s]
  }

  ghost predicate TakenFrom(tree: Tree, u: map<ShareId, Share>) {
    forall id | id in tree :: id in u && u[id] == tree[id].share
  }

  lemma {:induction false} HistoryIsLineage(tree: Tree, u: map<ShareId, Share>, p: ShareId, n: nat)
    requires ParentClosed(tree) && TakenFrom(tree, u) && (p == NO_SHARE || p in tree)
    ensures |History(tree, p, n)| == |Lineage(u, p, n)|
    ensures forall i | 0 <= i < |History(tree, p, n)| ::
      History(tree, p, n)[i].timestamp == Lineage(u, p, n)[i].timestamp
    decreases n
  {
    if n > 0 && p != NO_SHARE {
      HistoryIsLineage(tree, u, tree[p].share.parent, n - 1);
    }
  }

  lemma NarrowIsNotTooWide(history: seq<Sample>, lineage: seq<Share>, rule: RetargetRule)
    requires |history| == |lineage| && forall i | 0 <= i < |history| :: history[i].timestamp == lineage[i].timestamp
    requires Narrow(lineage)
    ensures !TooWide(Window(history, rule))
  {
  }

  lemma NarrowNeverThrows(rules: Rules, tree: Tree, u: map<ShareId, Share>, p: ShareId, network: Difficulty)
    requires ParentClosed(tree) && TakenFrom(tree, u) && (p == NO_SHARE || p in tree)
    requires NarrowBranches(rules, u) && rules.policy.Some? && network > 0
    ensures Expected(rules, tree, p, network).Value?
  {
    var rule := rules.policy.value.rule;
    HistoryIsLineage(tree, u, p, rule.window);
    hide ParentClosed, TakenFrom, Narrow, History, TooWide;
    NothingNarrow();
    assert p in u || Lineage(u, p, rule.window) == [];
    NarrowIsNotTooWide(History(tree, p, rule.window), Lineage(u, p, rule.window), rule);
  }

  lemma NothingNarrow()
    ensures Narrow([])
  {
  }

  lemma NarrowConnects(rules: Rules, tree: Tree, u: map<ShareId, Share>, s: Share, enforce: bool)
    requires ParentClosed(tree) && TakenFrom(tree, u) && (IsRoot(s) || s.parent in tree)
    requires NarrowBranches(rules, u) && s.networkDifficulty > 0
    ensures ConnectReason(rules, tree, s, enforce).Value?
  {
    if rules.policy.Some? {
      NarrowNeverThrows(rules, tree, u, s.parent, s.networkDifficulty);
    }
  }

  lemma {:induction false} RouteTaken(
    rules: Rules, c: Chain, start: Tree, id: ShareId, o: ShareId, u: map<ShareId, Share>)
    requires id in start && TakenFrom(start, u)
    requires forall x | x in c.orphans :: x in u && u[x] == c.orphans[x].share
    ensures var t := Route(rules, c, start, id, o);
      t.Some? ==> TakenFrom(t.value, u)
    decreases if o == id then 0 else if o in c.orphans then 1 + c.orphans[o].share.height else 0
  {
    hide ConnectReason;
    if o != id && Route(rules, c, start, id, o).Some? {
      RouteTaken(rules, c, start, id, c.orphans[o].share.parent, u);
    }
  }

  lemma NarrowReachesNoThrow(
    rules: Rules, trust: Trust, c: Chain, start: Tree, id: ShareId, u: map<ShareId, Share>)
    requires Begun(rules, trust, c, start, id) && TakenFrom(start, u) && NarrowBranches(rules, u)
    requires forall x | x in c.orphans :: x in u && u[x] == c.orphans[x].share
    ensures !WouldThrow(rules, c, start, id)
  {
    forall o | Listed(c, o)
      ensures Verdict(rules, c, start, id, o) != Some(Thrown)
    {
      var x := c.orphans[o].share;
      assert OrphanOk(rules, trust, c, o);
      RouteTaken(rules, c, start, id, x.parent, u);
      RouteClosed(rules, c, start, id, x.parent);
      hide Inv, Route, TakenFrom, ParentClosed, ConnectReason, NarrowBranches;
      var below := Route(rules, c, start, id, x.parent);
      if below.Some? {
        NarrowConnects(rules, below.value, u, x, c.orphans[o].enforce);
      }
    }
  }

  lemma ArrivingTaken(rules: Rules, trust: Trust, c: Chain, s: Share)
    requires Inv(rules, trust, c) && !Known(c, rules.idOf(s))
    ensures TakenFrom(c.tree, Arriving(rules, c, s)) && ParentClosed(c.tree)
    ensures forall x | x in c.orphans ::
      x in Arriving(rules, c, s) && Arriving(rules, c, s)[x] == c.orphans[x].share
  {
    TreeOkClosed(rules, c.tree);
    forall x | x in c.orphans
      ensures x !in c.tree
    {
      assert OrphanOk(rules, trust, c, x);
    }
  }

  lemma StartTaken(rules: Rules, c: Chain, s: Share, node: Node)
    requires TakenFrom(c.tree, Arriving(rules, c, s)) && node.share == s
    ensures TakenFrom(c.tree[rules.idOf(s) := node], Arriving(rules, c, s))
  {
  }

  lemma NarrowConnectNeverThrows(
    rules: Rules, trust: Trust, c: Chain, s: Share, pow: Option<Validation>, enforce: bool)
    requires Inv(rules, trust, c) && ShareOk(rules, s, rules.idOf(s)) && !Known(c, rules.idOf(s))
    requires IsRoot(s) || s.parent in c.tree
    requires pow.Some? ==> trust(s, pow.value)
    requires enforce ==> rules.policy.Some?
    requires NarrowBranches(rules, Arriving(rules, c, s))
    requires ConnectReason(rules, c.tree, s, enforce) == Value(Accepted)
    ensures ConnectAndPromote(rules, c, s, rules.idOf(s), pow, enforce).outcome.Value?
  {
    var id, u := rules.idOf(s), Arriving(rules, c, s);
    var node := NewNode(c.tree, s, id, pow, enforce);
    var start := c.tree[id := node];
    hide Inv, Route, WouldThrow, Progress, Begun, ConnectReason, NarrowBranches, ConnectAndPromote, TakenFrom, Arriving,
         ShareOk, StructuralReason;
    ArrivingTaken(rules, trust, c, s);
    StartTaken(rules, c, s, node);
    NodeId(c.tree, s, id, pow, enforce);
    BeginsWith(rules, trust, c, s, id, node);
    NarrowReachesNoThrow(rules, trust, c, start, id, u);
    ConnectThrowsIff(rules, trust, c, s, id, pow, enforce);
  }

  /** While no retarget window among the connected, waiting and arriving shares spans more than 2^32 - 1
      seconds, an addition fails only for a share without an encoding, and strands no orphan. */
  lemma NarrowNeverStrands(
    rules: Rules, trust: Trust, c: Chain, s: Share, pow: Option<Validation>, enforce: bool)
    requires Inv(rules, trust, c) && c.detached == {}
    requires pow.Some? ==> trust(s, pow.value)
    requires enforce ==> rules.policy.Some?
    requires NarrowBranches(rules, Arriving(rules, c, s))
    ensures var step := AddPrevalidated(rules, c, s, pow, enforce);
      && (step.outcome.Value? <==> Encodable(s, rules.minerOf))
      && step.chain.detached == {} && NoStrandedOrphan(step.chain)
  {
    NarrowSucceeds(rules, trust, c, s, pow, enforce);
    AddKeepsInv(rules, trust, c, s, pow, enforce);
    UnencodableStays(rules, c, s, pow, enforce);
    hide Inv, NarrowBranches, AddPrevalidated, NoStrandedOrphan;
    AttachedNotStranded(rules, trust, AddPrevalidated(rules, c, s, pow, enforce).chain);
  }

  lemma UnencodableStays(rules: Rules, c: Chain, s: Share, pow: Option<Validation>, enforce: bool)
    ensures !Encodable(s, rules.minerOf) ==> AddPrevalidated(rules, c, s, pow, enforce) == Step(c, Thrown)
  {
    hide ConnectReason, ConnectAndPromote;
  }

  lemma NarrowSucceeds(rules: Rules, trust: Trust, c: Chain, s: Share, pow: Option<Validation>, enforce: bool)
    requires Inv(rules, trust, c) && (pow.Some? ==> trust(s, pow.value)) && (enforce ==> rules.policy.Some?)
    requires NarrowBranches(rules, Arriving(rules, c, s))
    ensures AddPrevalidated(rules, c, s, pow, enforce).outcome.Value? <==> Encodable(s, rules.minerOf)
  {
    hide Inv, NarrowBranches, TakenFrom, ParentClosed, ConnectReason, ConnectAndPromote, Arriving;
    var id := rules.idOf(s);
    if Encodable(s, rules.minerOf) && !Known(c, id) && StructuralReason(rules, s) == Accepted
       && (IsRoot(s) || s.parent in c.tree) {
      ArrivingTaken(rules, trust, c, s);
      NarrowConnects(rules, c.tree, Arriving(rules, c, s), s, enforce);
      if ConnectReason(rules, c.tree, s, enforce) == Value(Accepted) {
        NarrowConnectNeverThrows(rules, trust, c, s, pow, enforce);
      }
    }
  }

  ghost predicate NarrowOp(rules: Rules, c: Chain, op: Op) {
    op.AddUncheckedOp? || op.SubmitOp? ==> NarrowBranches(rules, Arriving(rules, c, op.share))
  }

  lemma SubmitIsAdd(
    rules: Rules, trust: Trust, c: Chain, s: Share, context: WorkContext, now: U64, powAvailable: bool)
    requires SoundTrust(rules, trust)
    ensures var step := Submit(rules, c, s, context, now, powAvailable);
      || step.chain == c
      || exists pow :: AddsTrusted(rules, trust, c, s, pow, step.chain)
  {
    var step := Submit(rules, c, s, context, now, powAvailable);
    hide AddPrevalidated, DifficultyReason;
    if step.chain != c {
      assert AddsTrusted(rules, trust, c, s, Some(LocalValidation(rules, s)), step.chain);
    }
  }

  ghost predicate AddsTrusted(rules: Rules, trust: Trust, c: Chain, s: Share, pow: Option<Validation>, c': Chain) {
    && (pow.Some? ==> trust(s, pow.value))
    && c' == AddPrevalidated(rules, c, s, pow, rules.policy.Some?).chain
  }

  lemma NarrowStep(rules: Rules, trust: Trust, c: Chain, op: Op)
    requires Inv(rules, trust, c) && c.detached == {} && SoundTrust(rules, trust) && NarrowOp(rules, c, op)
    ensures Apply(rules, c, op).detached == {}
  {
    hide Inv, SoundTrust, NarrowBranches, AddPrevalidated, NoStrandedOrphan, RestoreAllowed, RevalidateVerdict, Submit;
    match op
    case AddUncheckedOp(s) => NarrowNeverStrands(rules, trust, c, s, None, false);
    case SubmitOp(s, context, now, available) =>
      SubmitIsAdd(rules, trust, c, s, context, now, available);
      var c' := Submit(rules, c, s, context, now, available).chain;
      if c' != c {
        var pow :| AddsTrusted(rules, trust, c, s, pow, c');
        NarrowNeverStrands(rules, trust, c, s, pow, rules.policy.Some?);
      }
    case RevalidateOp(id, context, now, available) =>
      RevalidateMarks(rules, trust, c, id, context, now, available);
    case RestoreOp(records) =>
    case PruneOp(id) =>
  }

  /** So a run in which every arriving share keeps the branches narrow never strands an orphan. */
  lemma {:induction false} NarrowRunNeverStrands(
    rules: Rules, trust: Trust, states: seq<Chain>, ops: seq<Op>, i: nat)
    requires SoundTrust(rules, trust) && IsRun(rules, trust, states, ops) && i <= |ops|
    requires forall k | 0 <= k < i :: NarrowOp(rules, states[k], ops[k])
    ensures states[i].detached == {} && NoStrandedOrphan(states[i])
  {
    RunKeepsInv(rules, trust, states, ops, i);
    if i > 0 {
      RunKeepsInv(rules, trust, states, ops, i - 1);
      hide Inv, SoundTrust, Apply, NarrowOp, NoStrandedOrphan;
      NarrowRunNeverStrands(rules, trust, states, ops, i - 1);
      NarrowStep(rules, trust, states[i - 1], ops[i - 1]);
    }
    AttachedNotStranded(rules, trust, states[i]);
  }

  // ---- A run that strands an orphan ------------------------------------------------------------

  /** Identifiers follow the nonce, every hash is zero, and the retarget window is two shares. */
  ghost function SmallRules(): Rules {
    Rules(Some(Policy(1, 1, 2, RetargetRule(10, 1, 2))),
          (s: Share) => s.nonce + 1, (k: PayoutKeys) => 0, (h: U64, header: Hash256, n: U64) => Pow(0, 0))
  }

  function PlainShare(parent: ShareId, height: U64, timestamp: U64, nonce: U64): Share {
    Share(1, parent, height, timestamp, 0, 0, nonce, 1, 1, 0, None)
  }

  const ROOT: Share := PlainShare(0, 0, 0, 0)
  const MIDDLE: Share := PlainShare(1, 1, 0x2_0000_0000, 1)
  const LEAF: Share := PlainShare(2, 2, 0x2_0000_0000, 2)

  ghost function LeafRecord(): Validation { LocalValidation(SmallRules(), LEAF) }

  ghost function WithRoot(): Chain {
    Chain(map[1 := Node(ROOT, 1, 1, None, false)], map[], {}, Some(1))
  }

  ghost function WithLeaf(): Chain {
    WithRoot().(orphans := map[3 := Orphan(LEAF, 3, Some(LeafRecord()), true)])
  }

  ghost function Stranded(): Chain {
    Chain(map[1 := Node(ROOT, 1, 1, None, false), 2 := Node(MIDDLE, 2, 2, None, false)],
          map[3 := Orphan(LEAF, 3, Some(LeafRecord()), true)], {3}, Some(2))
  }

  lemma RootArrives()
    ensures AddUnchecked(SmallRules(), EMPTY_CHAIN, ROOT).chain == WithRoot()
  {
    assert ListedUnder(EMPTY_CHAIN, 1) == {};
    assert Attach(EMPTY_CHAIN, Node(ROOT, 1, 1, None, false)) == WithRoot();
  }

  lemma LeafArrives()
    ensures Submit(SmallRules(), WithRoot(), LEAF, WorkContext(0, 0, 1), 0x2_0000_0000, true).chain
         == WithLeaf()
  {
    assert Target(1) == TWO_256 - 1;
    assert AdmissionReason(SmallRules(), WithRoot().tree, LEAF, WorkContext(0, 0, 1), 0x2_0000_0000)
        == Value(Accepted);
    assert PassesPow(LeafRecord());
  }

  /** The history of the leaf spans more than 2^32 seconds. */
  lemma LeafCheckThrows()
    ensures ConnectReason(SmallRules(), Stranded().tree, LEAF, true).Thrown?
  {
    var tree := Stranded().tree;
    var newer, older := Sample(0x2_0000_0000, 2), Sample(0, 1);
    assert History(tree, 1, 1) == [older] + History(tree, 0, 0);
    assert History(tree, 2, 2) == [newer] + History(tree, 1, 1);
    assert History(tree, 2, 2) == [newer, older];
    assert Window([newer, older], RetargetRule(10, 1, 2)) == [newer, older];
    assert newer in [newer, older] && older in [newer, older];
    assert TooWide([newer, older]);
  }

  lemma LeafTurnThrows()
    ensures Drain(SmallRules(), Stranded(), [3]) == Promotion(Stranded(), 0, true)
  {
    LeafCheckThrows();
    hide ConnectReason;
    assert TakeTurn(SmallRules(), Stranded(), 3) == Throws;
  }

  lemma MiddleConnects()
    ensures ConnectAndPromote(SmallRules(), WithLeaf(), MIDDLE, 2, None, false) == Step(Stranded(), Thrown)
  {
    var c, node := WithLeaf(), Node(MIDDLE, 2, 2, None, false);
    assert ListedUnder(c, 2) == {3};
    assert Attach(c, node) == Stranded();
    assert Keys({3}) == [3] by {
      assert |Keys({3})| == 1 && Keys({3})[0] in Keys({3});
    }
    LeafTurnThrows();
    hide Drain, Keys, Attach, Stranded, ListedUnder;
    assert NewNode(c.tree, MIDDLE, 2, None, false) == node;
  }

  lemma MiddleArrives()
    ensures AddUnchecked(SmallRules(), WithLeaf(), MIDDLE) == Step(Stranded(), Thrown)
  {
    MiddleConnects();
    hide ConnectAndPromote, Stranded;
    assert ConnectReason(SmallRules(), WithLeaf().tree, MIDDLE, false) == Value(Accepted);
  }

  /** Reachable from the empty chain in three operations: an orphan next to its connected parent. */
  lemma StrandedOrphanReachable()
    ensures Reachable(SmallRules(), ConsistentRecords(), Stranded())
    ensures 3 in Stranded().orphans && Stranded().orphans[3].share.parent in Stranded().tree
    ensures !NoStrandedOrphan(Stranded())
  {
    var rules, trust := SmallRules(), ConsistentRecords();
    var leaf := SubmitOp(LEAF, WorkContext(0, 0, 1), 0x2_0000_0000, true);
    assert 3 in Stranded().orphans;
    RootArrives();
    LeafArrives();
    MiddleArrives();
    hide AddUnchecked, Submit, SmallRules, WithRoot, WithLeaf, Stranded, ConsistentRecords, Reachable;
    ReachableEmpty(rules, trust);
    ReachableStep(rules, trust, EMPTY_CHAIN, AddUncheckedOp(ROOT));
    ReachableStep(rules, trust, WithRoot(), leaf);
    ReachableStep(rules, trust, WithLeaf(), AddUncheckedOp(MIDDLE));
  }
}

/** Arrival order does not matter: adding a collection of shares unchecked, in any order and with any
    repetition, reaches one state, the closure of the collection. */
module Confluence {
  import opened Basics
  import opened Orders
  import opened Shares
  import opened ShareTree
  import opened TreeInvariant

  /** A collection of structurally valid shares, by identifier. */
  type Universe = map<ShareId, Share>

  // ---- The reference: a least fixed point, with no arrival order in it -------------------------

  /** A root, or a valid child of a share that is itself in the fixed point. */
  ghost predicate Alive(u: Universe, id: ShareId)
    decreases if id in u then u[id].height else 0
  {
    && id in u
    && (IsRoot(u[id]) ||
        (&& u[id].parent in u
         && ParentReason(u[id], u[u[id].parent]) == Accepted
         && Alive(u, u[id].parent)))
  }

  /** The sum of the difficulties from the root to `id`. */
  ghost function WorkOf(u: Universe, id: ShareId): nat
    requires Alive(u, id)
    decreases u[id].height
  {
    u[id].difficulty + if IsRoot(u[id]) then 0 else WorkOf(u, u[id].parent)
  }

  ghost function ClosureTree(u: Universe): Tree {
    map id | id in u && Alive(u, id) :: Node(u[id], id, WorkOf(u, id), None, false)
  }

  ghost function ClosureOrphans(u: Universe): map<ShareId, Orphan> {
    map id | id in u && !IsRoot(u[id]) && !Alive(u, u[id].parent) :: Orphan(u[id], id, None, false)
  }

  ghost function Closure(u: Universe): Chain {
    Chain(ClosureTree(u), ClosureOrphans(u), {}, BestTip(ClosureTree(u)))
  }

  // ---- Which states are closures ---------------------------------------------------------------

  /** Nothing has been validated. */
  ghost predicate Plain(c: Chain) {
    && (forall id | id in c.tree :: c.tree[id].pow.None? && !c.tree[id].validated)
    && (forall id | id in c.orphans :: c.orphans[id].pow.None? && !c.orphans[id].enforce)
  }

  /** A share of the collection that its connected parent rules out. */
  ghost predicate Dead(c: Chain, u: Universe, id: ShareId)
    requires id in u
  {
    && !IsRoot(u[id]) && u[id].parent in c.tree
    && ParentReason(u[id], c.tree[u[id].parent].share) != Accepted
  }

  ghost predicate Accounted(c: Chain, u: Universe, id: ShareId)
    requires id in u
  {
    Known(c, id) || Dead(c, u, id)
  }

  ghost predicate DrawnFrom(c: Chain, u: Universe) {
    && (forall id | id in c.tree :: id in u && u[id] == c.tree[id].share)
    && (forall id | id in c.orphans :: id in u && u[id] == c.orphans[id].share)
  }

  /** The state holds shares of the collection only, and accounts for all of them but `skip`. */
  ghost predicate CoversBut(c: Chain, u: Universe, skip: set<ShareId>) {
    DrawnFrom(c, u) && forall id | id in u && id !in skip :: Accounted(c, u, id)
  }

  ghost predicate Covers(c: Chain, u: Universe) { CoversBut(c, u, {}) }

  lemma {:induction false} ConnectedIsAlive(rules: Rules, c: Chain, u: Universe, id: ShareId)
    requires TreeOk(rules, c.tree) && DrawnFrom(c, u) && id in c.tree
    ensures Alive(u, id) && WorkOf(u, id) == c.tree[id].work
    decreases c.tree[id].share.height
  {
    assert NodeOk(rules, c.tree, id);
    if !IsRoot(u[id]) {
      ConnectedIsAlive(rules, c, u, u[id].parent);
    }
  }

  lemma {:induction false} AliveIsConnected(
    rules: Rules, trust: Trust, c: Chain, u: Universe, id: ShareId)
    requires Inv(rules, trust, c) && c.detached == {} && Covers(c, u) && Alive(u, id)
    ensures id in c.tree
    decreases u[id].height
  {
    assert Accounted(c, u, id);
    if id in c.orphans {
      assert OrphanOk(rules, trust, c, id);
    }
    if !IsRoot(u[id]) {
      AliveIsConnected(rules, trust, c, u, u[id].parent);
    }
  }

  lemma TreeIsClosure(rules: Rules, trust: Trust, c: Chain, u: Universe)
    requires Inv(rules, trust, c) && c.detached == {} && Plain(c) && Covers(c, u)
    ensures c.tree == ClosureTree(u)
  {
    forall id | id in c.tree
      ensures Alive(u, id) && c.tree[id] == Node(u[id], id, WorkOf(u, id), None, false)
    {
      ConnectedIsAlive(rules, c, u, id);
      assert NodeOk(rules, c.tree, id);
    }
    forall id | id in u && Alive(u, id)
      ensures id in c.tree
    {
      AliveIsConnected(rules, trust, c, u, id);
    }
  }

  lemma OrphansAreClosure(rules: Rules, trust: Trust, c: Chain, u: Universe)
    requires Inv(rules, trust, c) && c.detached == {} && Plain(c) && Covers(c, u)
    requires c.tree == ClosureTree(u)
    ensures c.orphans == ClosureOrphans(u)
  {
    forall id | id in c.orphans
      ensures id in ClosureOrphans(u) && c.orphans[id] == ClosureOrphans(u)[id]
    {
      assert OrphanOk(rules, trust, c, id);
    }
    forall id | id in ClosureOrphans(u)
      ensures id in c.orphans
    {
      assert Accounted(c, u, id);
    }
  }

  /** A quiescent, unvalidated state that accounts for a collection is the closure of it. */
  lemma OnlyTheClosure(rules: Rules, trust: Trust, c: Chain, u: Universe)
    requires Quiet(rules, trust, c, u)
    ensures c == Closure(u)
  {
    TreeIsClosure(rules, trust, c, u);
    OrphansAreClosure(rules, trust, c, u);
    TreeIds(rules, c.tree);
    BestTipUnique(c.tree, c.tip, BestTip(c.tree));
  }

  ghost predicate Quiet(rules: Rules, trust: Trust, c: Chain, u: Universe) {
    Inv(rules, trust, c) && c.detached == {} && Plain(c) && Covers(c, u)
  }

  // ---- Adding a share extends what is covered --------------------------------------------------

  lemma DropCovers(c: Chain, u: Universe, id: ShareId)
    requires Plain(c) && Covers(c, u)
    ensures Plain(DropOrphan(c, id)) && CoversBut(DropOrphan(c, id), u, {id})
  {
    var c' := DropOrphan(c, id);
    forall x | x in u && x != id
      ensures Accounted(c', u, x)
    {
      assert Accounted(c, u, x);
    }
  }

  lemma DeadCovers(c: Chain, u: Universe, id: ShareId)
    requires CoversBut(c, u, {id}) && id in u && Dead(c, u, id)
    ensures Covers(c, u)
  {
    forall x | x in u
      ensures Accounted(c, u, x)
    {
    }
  }

  /** Linking the one share that was unaccounted for. */
  lemma AttachCovers(c: Chain, node: Node, u: Universe)
    requires Plain(c) && CoversBut(c, u, {node.id})
    requires !Known(c, node.id) && node.id in u && u[node.id] == node.share
    requires node.pow.None? && !node.validated
    ensures Plain(Attach(c, node)) && Covers(Attach(c, node), u)
  {
    var c' := Attach(c, node);
    forall x | x in u
      ensures Accounted(c', u, x)
    {
      assert x != node.id ==> Accounted(c, u, x);
    }
  }

  lemma TurnCovers(rules: Rules, trust: Trust, c: Chain, base: set<ShareId>, todo: seq<ShareId>, u: Universe)
    requires Inv(rules, trust, c) && todo != [] && Pending(c, base, todo) && Plain(c) && Covers(c, u)
    ensures todo[0] in c.orphans
    ensures var turn := TakeTurn(rules, c, todo[0]);
      turn.Done? && Plain(turn.chain) && Covers(turn.chain, u)
  {
    FirstPending(rules, trust, c, base, todo);
    OverflowUnreachable(rules, c.tree, c.orphans[todo[0]].share, false);
    hide Inv, Pending;
    TurnCoversOne(rules, c, todo[0], u);
  }

  lemma TurnCoversOne(rules: Rules, c: Chain, id: ShareId, u: Universe)
    requires Plain(c) && Covers(c, u) && id in c.orphans && id !in c.tree
    requires var s := c.orphans[id].share;
      && !IsRoot(s) && s.parent in c.tree && ConnectReason(rules, c.tree, s, false) != Value(WorkOverflow)
    ensures var turn := TakeTurn(rules, c, id);
      turn.Done? && Plain(turn.chain) && Covers(turn.chain, u)
  {
    var o, dropped := c.orphans[id], DropOrphan(c, id);
    DropCovers(c, u, id);
    assert u[id] == o.share && o.pow.None? && !o.enforce;
    hide Plain, CoversBut, Attach, ListedUnder;
    if ConnectReason(rules, c.tree, o.share, false).value != Accepted {
      DeadCovers(dropped, u, id);
    } else {
      AttachCovers(dropped, NewNode(c.tree, o.share, id, None, false), u);
    }
  }

  lemma {:induction false} DrainCovers(
    rules: Rules, trust: Trust, c: Chain, base: set<ShareId>, todo: seq<ShareId>, u: Universe)
    requires Inv(rules, trust, c) && Pending(c, base, todo) && Plain(c) && Covers(c, u)
    ensures var run := Drain(rules, c, todo);
      !run.threw && Plain(run.chain) && Covers(run.chain, u)
    decreases |c.orphans|, |todo|
  {
    hide Inv, Pending, Plain, Covers, TakeTurn;
    if todo != [] {
      TurnKeepsInv(rules, trust, c, base, todo);
      TurnCovers(rules, trust, c, base, todo, u);
      var turn := TakeTurn(rules, c, todo[0]);
      DrainCovers(rules, trust, turn.chain, base, turn.next + todo[1..], u);
    }
  }

  ghost predicate Admissible(rules: Rules, s: Share) {
    Encodable(s, rules.minerOf) && StructuralReason(rules, s) == Accepted
  }

  ghost function Including(rules: Rules, u: Universe, s: Share): Universe {
    if Admissible(rules, s) then u[rules.idOf(s) := s] else u
  }

  lemma IncludeCovers(c: Chain, u: Universe, s: Share, id: ShareId)
    requires Covers(c, u) && !Known(c, id) && (id in u ==> u[id] == s)
    ensures CoversBut(c, u[id := s], {id})
  {
    forall x | x in u && x != id
      ensures Accounted(c, u[id := s], x)
    {
      assert Accounted(c, u, x);
    }
  }

  lemma BufferCovers(c: Chain, u: Universe, s: Share, id: ShareId)
    requires Plain(c) && CoversBut(c, u, {id}) && !Known(c, id) && id in u && u[id] == s
    ensures var c' := c.(orphans := c.orphans[id := Orphan(s, id, None, false)]);
      Plain(c') && Covers(c', u)
  {
    var c' := c.(orphans := c.orphans[id := Orphan(s, id, None, false)]);
    forall x | x in u
      ensures Accounted(c', u, x)
    {
      assert x != id ==> Accounted(c, u, x);
    }
  }

  lemma ConnectCovers(rules: Rules, trust: Trust, c: Chain, u: Universe, s: Share, id: ShareId)
    requires Inv(rules, trust, c) && c.detached == {} && Plain(c) && CoversBut(c, u, {id})
    requires ShareOk(rules, s, id) && !Known(c, id) && id in u && u[id] == s
    requires IsRoot(s) || s.parent in c.tree
    requires ConnectReason(rules, c.tree, s, false) == Value(Accepted)
    ensures var step := ConnectAndPromote(rules, c, s, id, None, false);
      step.outcome.Value? && Plain(step.chain) && Covers(step.chain, u)
  {
    hide Inv, Plain, CoversBut, Attach, Drain, ListedUnder, ConnectReason;
    var node, kids := NewNode(c.tree, s, id, None, false), Keys(ListedUnder(c, id));
    AttachKeepsInv(rules, trust, c, s, id, None, false);
    AttachPending(c, {}, [], node);
    assert kids + [] == kids;
    AttachCovers(c, node, u);
    DrainCovers(rules, trust, Attach(c, node), {}, kids, u);
  }

  lemma NewShareCovers(rules: Rules, trust: Trust, c: Chain, u: Universe, s: Share, id: ShareId)
    requires Inv(rules, trust, c) && c.detached == {} && Plain(c) && CoversBut(c, u, {id})
    requires ShareOk(rules, s, id) && !Known(c, id) && id in u && u[id] == s
    ensures var step := AddUnchecked(rules, c, s);
      step.outcome.Value? && Plain(step.chain) && Covers(step.chain, u)
  {
    if !IsRoot(s) && s.parent !in c.tree {
      BufferCovers(c, u, s, id);
    } else {
      OverflowUnreachable(rules, c.tree, s, false);
      if ConnectReason(rules, c.tree, s, false).value == Accepted {
        ConnectCovers(rules, trust, c, u, s, id);
      } else {
        DeadCovers(c, u, id);
      }
    }
  }

  /** One unchecked addition takes the closure of a collection to the closure of the larger one. */
  lemma AddCovers(rules: Rules, trust: Trust, c: Chain, u: Universe, s: Share)
    requires Quiet(rules, trust, c, u)
    requires rules.idOf(s) in u ==> u[rules.idOf(s)] == s
    ensures Quiet(rules, trust, AddUnchecked(rules, c, s).chain, Including(rules, u, s))
    ensures AddUnchecked(rules, c, s).outcome.Value? <==> Encodable(s, rules.minerOf)
  {
    hide Inv, Plain, ConnectAndPromote, ConnectReason;
    AddKeepsInv(rules, trust, c, s, None, false);
    var id := rules.idOf(s);
    if Admissible(rules, s) && !Known(c, id) {
      IncludeCovers(c, u, s, id);
      NewShareCovers(rules, trust, c, u[id := s], s, id);
    } else if Admissible(rules, s) {
      assert u[id := s] == u;
    }
  }

  // ---- Whole sequences of additions ------------------------------------------------------------

  ghost function AddAll(rules: Rules, c: Chain, shares: seq<Share>): Chain {
    if shares == [] then c
    else AddUnchecked(rules, AddAll(rules, c, shares[..|shares| - 1]), shares[|shares| - 1]).chain
  }

  /** No two shares of the collection collide. */
  ghost predicate InjectiveOn(rules: Rules, shares: set<Share>) {
    forall a, b | a in shares && b in shares :: rules.idOf(a) == rules.idOf(b) ==> a == b
  }

  ghost function IdsOf(rules: Rules, shares: set<Share>): set<ShareId> {
    set s | s in shares && Admissible(rules, s) :: rules.idOf(s)
  }

  ghost function WithId(rules: Rules, shares: set<Share>, id: ShareId): (s: Share)
    requires id in IdsOf(rules, shares)
    ensures s in shares && Admissible(rules, s) && rules.idOf(s) == id
  {
    var s :| s in shares && Admissible(rules, s) && rules.idOf(s) == id;
    s
  }

  ghost function UniverseOf(rules: Rules, shares: set<Share>): Universe {
    map id | id in IdsOf(rules, shares) :: WithId(rules, shares, id)
  }

  lemma UniverseGrows(rules: Rules, shares: set<Share>, s: Share)
    requires InjectiveOn(rules, shares + {s})
    ensures UniverseOf(rules, shares + {s}) == Including(rules, UniverseOf(rules, shares), s)
    ensures rules.idOf(s) in UniverseOf(rules, shares) ==> UniverseOf(rules, shares)[rules.idOf(s)] == s
  {
  }

  lemma {:induction false} AddAllQuiet(rules: Rules, trust: Trust, shares: seq<Share>)
    requires InjectiveOn(rules, Elements(shares))
    ensures Quiet(rules, trust, AddAll(rules, EMPTY_CHAIN, shares), UniverseOf(rules, Elements(shares)))
  {
    if shares == [] {
    } else {
      var front, last := shares[..|shares| - 1], shares[|shares| - 1];
      assert Elements(shares) == Elements(front) + {last};
      AddAllQuiet(rules, trust, front);
      UniverseGrows(rules, Elements(front), last);
      AddCovers(rules, trust, AddAll(rules, EMPTY_CHAIN, front), UniverseOf(rules, Elements(front)), last);
    }
  }

  /** Any arrival order, any repetition: the result is the closure of the collection. */
  lemma AddAllIsClosure(rules: Rules, shares: seq<Share>)
    requires InjectiveOn(rules, Elements(shares))
    ensures AddAll(rules, EMPTY_CHAIN, shares) == Closure(UniverseOf(rules, Elements(shares)))
  {
    var trust: Trust := (s, v) => Consistent(v);
    AddAllQuiet(rules, trust, shares);
    OnlyTheClosure(rules, trust, AddAll(rules, EMPTY_CHAIN, shares), UniverseOf(rules, Elements(shares)));
  }

  /** Two nodes that received the same shares, however they arrived, hold the same chain. */
  lemma ArrivalOrderIrrelevant(rules: Rules, a: seq<Share>, b: seq<Share>)
    requires Elements(a) == Elements(b) && InjectiveOn(rules, Elements(a))
    ensures AddAll(rules, EMPTY_CHAIN, a) == AddAll(rules, EMPTY_CHAIN, b)
  {
    AddAllIsClosure(rules, a);
    AddAllIsClosure(rules, b);
  }
}

/** Whole-run consequences of the invariant: what validation means, and why two nodes that hold the
    same share agree about everything below it. */
module Agreement {
  import opened Basics
  import opened Orders
  import opened Shares
  import opened Records
  import opened ShareTree
  import opened TreeInvariant
  import opened Restart

  // ---- Two notions of a trustworthy record -----------------------------------------------------

  ghost function ConsistentRecords(): Trust { (s, v) => Consistent(v) }

  /** The record is the one this node would compute itself. */
  ghost function GenuineRecords(rules: Rules): Trust {
    (s: Share, v) =>
      0 < s.difficulty <= s.networkDifficulty && v == LocalValidation(rules, s) && Consistent(v)
  }

  lemma TrustsAreSound(rules: Rules)
    ensures SoundTrust(rules, ConsistentRecords())
    ensures SoundTrust(rules, GenuineRecords(rules))
  {
    forall s: Share | 0 < s.difficulty <= s.networkDifficulty && PassesPow(LocalValidation(rules, s))
      ensures Consistent(LocalValidation(rules, s))
    {
      AdmissionIsConsistency(rules.progpow(s.zanoHeight, s.header, s.nonce), s.difficulty, s.networkDifficulty);
    }
  }

  /** Whatever operations run, with whatever restored records, a validated share has a consistent
      record, exactly the difficulty its branch demands, and a validated parent; so the validation
      export of a configured chain never throws. */
  lemma ValidatedMeansChecked(rules: Rules, c: Chain, id: ShareId)
    requires Reachable(rules, ConsistentRecords(), c) && id in c.tree && c.tree[id].validated
    ensures var n := c.tree[id];
      && n.pow.Some? && Consistent(n.pow.value) && n.pow.value.meetsShare
      && Expected(rules, c.tree, n.share.parent, n.share.networkDifficulty) == Value(n.share.difficulty)
      && (IsRoot(n.share) || (n.share.parent in c.tree && c.tree[n.share.parent].validated))
    ensures Export(rules, c).Value?
  {
    var trust := ConsistentRecords();
    TrustsAreSound(rules);
    ReachableInv(rules, trust, c);
    assert NodeTrusted(rules, trust, c.tree, id);
    ExportNeverThrows(rules, trust, c);
  }

  /** Records that are not consistent never get in, so no run needs a premise about them. */
  lemma AnyRestoreIsConsistent(rules: Rules, c: Chain, op: Op)
    ensures OpTrusted(rules, ConsistentRecords(), c, op)
  {
    if op.RestoreOp? && RestoreAllowed(rules, c.tree, op.records) {
      forall rec | rec in op.records && rec.id in c.tree
        ensures Consistent(rec.validation)
      {
        assert RecordOk(rules, c.tree, Ids(op.records), rec);
      }
    }
  }

  /** When every restored record is genuine, every stored record is the locally computed one and its
      hash meets the share's difficulty. */
  lemma RecordsStayGenuine(rules: Rules, c: Chain, id: ShareId)
    requires Reachable(rules, GenuineRecords(rules), c) && id in c.tree && c.tree[id].pow.Some?
    ensures var n := c.tree[id];
      && 0 < n.share.difficulty <= n.share.networkDifficulty
      && n.pow.value == LocalValidation(rules, n.share)
      && MeetsDifficulty(n.pow.value.pow.finalHash, n.share.difficulty)
  {
    var trust := GenuineRecords(rules);
    TrustsAreSound(rules);
    ReachableInv(rules, trust, c);
    assert NodeTrusted(rules, trust, c.tree, id);
  }

  // ---- Agreement between nodes -----------------------------------------------------------------

  /** Two different connected shares share an identifier. */
  ghost predicate Collide(rules: Rules, a: Tree, b: Tree, id: ShareId) {
    && id in a && id in b && a[id].share != b[id].share
    && rules.idOf(a[id].share) == rules.idOf(b[id].share)
  }

  /** No such collision among the ancestors of `p`. */
  ghost predicate NoCollision(rules: Rules, a: Tree, b: Tree, p: ShareId) {
    forall id | Descends(a, p, id) && Descends(b, p, id) :: !Collide(rules, a, b, id)
  }

  /** The shares from `p` down to its root, newest first. */
  ghost function Branch(tree: Tree, p: ShareId): seq<Share>
    decreases if p in tree then tree[p].share.height else 0
  {
    if p == NO_SHARE || p !in tree then []
    else
      var s := tree[p].share;
      [s] + if s.parent in tree && tree[s.parent].share.height < s.height then Branch(tree, s.parent) else []
  }

  lemma SameShareBothSides(rules: Rules, a: Tree, b: Tree, p: ShareId)
    requires TreeOk(rules, a) && TreeOk(rules, b) && p in a && p in b && NoCollision(rules, a, b, p)
    ensures a[p].share == b[p].share
    ensures !IsRoot(a[p].share) ==>
      var q := a[p].share.parent;
      && q in a && q in b && a[q].share.height < a[p].share.height && b[q].share.height < b[p].share.height
      && NoCollision(rules, a, b, q)
  {
    assert NodeOk(rules, a, p) && NodeOk(rules, b, p);
    assert Descends(a, p, p) && Descends(b, p, p);
    assert !Collide(rules, a, b, p);
    var q := a[p].share.parent;
    if !IsRoot(a[p].share) {
      forall id | Descends(a, q, id) && Descends(b, q, id)
        ensures !Collide(rules, a, b, id)
      {
        assert Descends(a, p, id) && Descends(b, p, id);
      }
    }
  }

  lemma {:induction false} SameWorkBothSides(rules: Rules, a: Tree, b: Tree, p: ShareId)
    requires TreeOk(rules, a) && TreeOk(rules, b) && p in a && p in b && NoCollision(rules, a, b, p)
    ensures a[p].work == b[p].work && Branch(a, p) == Branch(b, p)
    decreases a[p].share.height
  {
    hide NoCollision, Descends;
    SameShareBothSides(rules, a, b, p);
    assert NodeOk(rules, a, p) && NodeOk(rules, b, p);
    if !IsRoot(a[p].share) {
      SameWorkBothSides(rules, a, b, a[p].share.parent);
    } else if a[p].share.parent in a || b[p].share.parent in b {
      RootHasNoBranch(a, b, p);
    }
  }

  lemma RootHasNoBranch(a: Tree, b: Tree, p: ShareId)
    requires p in a && p in b && a[p].share == b[p].share && IsRoot(a[p].share)
    ensures Branch(a, p) == Branch(b, p)
  {
    assert Branch(a, NO_SHARE) == [] && Branch(b, NO_SHARE) == [];
  }

  lemma {:induction false} SameHistoryBothSides(rules: Rules, a: Tree, b: Tree, p: ShareId, n: nat)
    requires TreeOk(rules, a) && TreeOk(rules, b) && p in a && p in b && NoCollision(rules, a, b, p)
    ensures History(a, p, n) == History(b, p, n)
    decreases n
  {
    hide NoCollision, Branch, TreeOk;
    if n > 0 && p != NO_SHARE {
      SameShareBothSides(rules, a, b, p);
      SameWorkBothSides(rules, a, b, p);
      if !IsRoot(a[p].share) {
        SameHistoryBothSides(rules, a, b, a[p].share.parent, n - 1);
      }
    }
  }

  /** Any two nodes that both hold share `p` agree on its ancestry, its cumulative work and the
      difficulty its children must have, whatever runs brought them there, unless two of its ancestors
      are different shares with one identifier. */
  lemma NodesAgree(rules: Rules, a: Chain, b: Chain, p: ShareId, network: Difficulty)
    requires Reachable(rules, ConsistentRecords(), a) && Reachable(rules, ConsistentRecords(), b)
    requires p in a.tree && p in b.tree && NoCollision(rules, a.tree, b.tree, p)
    ensures Branch(a.tree, p) == Branch(b.tree, p)
    ensures a.tree[p].work == b.tree[p].work
    ensures Expected(rules, a.tree, p, network) == Expected(rules, b.tree, p, network)
  {
    TrustsAreSound(rules);
    ReachableInv(rules, ConsistentRecords(), a);
    ReachableInv(rules, ConsistentRecords(), b);
    assert TreeOk(rules, a.tree) && TreeOk(rules, b.tree);
    hide Reachable, Inv, TreeOk, NoCollision, Branch;
    SameWorkBothSides(rules, a.tree, b.tree, p);
    if rules.policy.Some? {
      SameHistoryBothSides(rules, a.tree, b.tree, p, rules.policy.value.rule.window);
    }
  }

  // ---- Stability over time ---------------------------------------------------------------------

  /** Nothing is lost: same shares at the same work, and what was validated still is. */
  ghost predicate Grows(before: Tree, after: Tree) {
    SameShares(before, after) && forall id | id in before && before[id].validated :: after[id].validated
  }

  lemma AttachGrows(c: Chain, node: Node, after: Tree)
    requires node.id !in c.tree && Grows(Attach(c, node).tree, after)
    ensures Grows(c.tree, after)
  {
    forall id | id in c.tree
      ensures id in after && after[id].share == c.tree[id].share && after[id].work == c.tree[id].work
      ensures c.tree[id].validated ==> after[id].validated
    {
      assert id in Attach(c, node).tree && Attach(c, node).tree[id] == c.tree[id];
    }
  }

  lemma TurnGrows(rules: Rules, trust: Trust, c: Chain, id: ShareId, after: Tree)
    requires Inv(rules, trust, c) && id in c.orphans && TakeTurn(rules, c, id).Done?
    requires Grows(TakeTurn(rules, c, id).chain.tree, after)
    ensures Grows(c.tree, after)
  {
    assert OrphanOk(rules, trust, c, id);
    var o := c.orphans[id];
    if ConnectReason(rules, c.tree, o.share, o.enforce) == Value(Accepted) {
      hide Inv, ConnectReason, Grows;
      AttachGrows(DropOrphan(c, id), NewNode(c.tree, o.share, id, o.pow, o.enforce), after);
    }
  }

  lemma {:induction false} DrainGrows(
    rules: Rules, trust: Trust, c: Chain, base: set<ShareId>, todo: seq<ShareId>)
    requires Inv(rules, trust, c) && Pending(c, base, todo)
    ensures Grows(c.tree, Drain(rules, c, todo).chain.tree)
    decreases |c.orphans|, |todo|
  {
    hide Inv, Pending, TakeTurn;
    if todo != [] {
      TurnKeepsInv(rules, trust, c, base, todo);
      var turn := TakeTurn(rules, c, todo[0]);
      if turn.Done? {
        DrainGrows(rules, trust, turn.chain, base, turn.next + todo[1..]);
        TurnGrows(rules, trust, c, todo[0], Drain(rules, turn.chain, turn.next + todo[1..]).chain.tree);
      }
    }
  }

  lemma InvDetached(rules: Rules, trust: Trust, c: Chain)
    requires Inv(rules, trust, c)
    ensures Pending(c, c.detached, [])
  {
  }

  lemma GrowsReflexive(tree: Tree)
    ensures Grows(tree, tree)
  {
  }

  lemma ConnectGrows(
    rules: Rules, trust: Trust, c: Chain, s: Share, id: ShareId, pow: Option<Validation>, enforce: bool)
    requires Inv(rules, trust, c) && (pow.Some? ==> trust(s, pow.value)) && (enforce ==> rules.policy.Some?)
    requires ShareOk(rules, s, id) && !Known(c, id) && (IsRoot(s) || s.parent in c.tree)
    requires ConnectReason(rules, c.tree, s, enforce) == Value(Accepted)
    ensures Grows(c.tree, ConnectAndPromote(rules, c, s, id, pow, enforce).chain.tree)
  {
    hide Inv, ListedUnder, Drain, Attach, Grows, NewNode, Pending, ConnectReason, ShareOk;
    var node, kids := NewNode(c.tree, s, id, pow, enforce), Keys(ListedUnder(c, id));
    InvDetached(rules, trust, c);
    AttachKeepsInv(rules, trust, c, s, id, pow, enforce);
    PendingBase(c, c.detached, []);
    AttachPending(c, c.detached, [], node);
    NodeId(c.tree, s, id, pow, enforce);
    assert kids + [] == kids;
    DrainGrows(rules, trust, Attach(c, node), c.detached, kids);
    AttachGrows(c, node, Drain(rules, Attach(c, node), kids).chain.tree);
  }

  lemma NodeId(tree: Tree, s: Share, id: ShareId, pow: Option<Validation>, enforce: bool)
    requires IsRoot(s) || s.parent in tree
    ensures NewNode(tree, s, id, pow, enforce).id == id && NewNode(tree, s, id, pow, enforce).share == s
  {
  }

  lemma AddGrows(rules: Rules, trust: Trust, c: Chain, s: Share, pow: Option<Validation>, enforce: bool)
    requires Inv(rules, trust, c) && (pow.Some? ==> trust(s, pow.value))
    requires enforce ==> rules.policy.Some?
    ensures Grows(c.tree, AddPrevalidated(rules, c, s, pow, enforce).chain.tree)
  {
    hide Inv, Grows, ConnectReason, ConnectAndPromote;
    GrowsReflexive(c.tree);
    var id := rules.idOf(s);
    if Encodable(s, rules.minerOf) && StructuralReason(rules, s) == Accepted && !Known(c, id)
       && (IsRoot(s) || s.parent in c.tree)
       && ConnectReason(rules, c.tree, s, enforce) == Value(Accepted) {
      ConnectGrows(rules, trust, c, s, id, pow, enforce);
    }
  }

  lemma SubmitGrows(
    rules: Rules, trust: Trust, c: Chain, s: Share, context: WorkContext, now: U64, powAvailable: bool)
    requires Inv(rules, trust, c) && SoundTrust(rules, trust)
    ensures Grows(c.tree, Submit(rules, c, s, context, now, powAvailable).chain.tree)
  {
    hide Inv, Grows, AddPrevalidated;
    GrowsReflexive(c.tree);
    if StructuralReason(rules, s) == Accepted && PassesPow(LocalValidation(rules, s)) {
      AddGrows(rules, trust, c, s, Some(LocalValidation(rules, s)), rules.policy.Some?);
    }
  }

  lemma RevalidateGrows(rules: Rules, c: Chain, id: ShareId, context: WorkContext, now: U64, powAvailable: bool)
    ensures Grows(c.tree, Revalidate(rules, c, id, context, now, powAvailable).chain.tree)
  {
    hide RevalidateVerdict;
    if RevalidateVerdict(rules, c.tree, id, context, now, powAvailable) == Value(RevalidateResult(Validated, Accepted)) {
      ValidatedIsConnected(rules, c.tree, id, context, now, powAvailable);
    }
  }

  lemma ValidatedIsConnected(
    rules: Rules, tree: Tree, id: ShareId, context: WorkContext, now: U64, powAvailable: bool)
    requires RevalidateVerdict(rules, tree, id, context, now, powAvailable)
          == Value(RevalidateResult(Validated, Accepted))
    ensures id in tree && 0 < tree[id].share.difficulty && 0 < tree[id].share.networkDifficulty
  {
  }

  lemma RestoreGrows(rules: Rules, c: Chain, records: seq<Record>)
    ensures Grows(c.tree, Restore(rules, c, records).chain.tree)
  {
    hide RestoreAllowed;
  }

  /** Every operation only adds shares or only removes them; it never rewrites one and never takes a
      validation back. */
  lemma StepsAgree(rules: Rules, trust: Trust, c: Chain, op: Op)
    requires Inv(rules, trust, c) && SoundTrust(rules, trust)
    ensures var tree' := Apply(rules, c, op).tree;
      && (SameShares(c.tree, tree') || SameShares(tree', c.tree))
      && (forall id | id in c.tree && id in tree' && c.tree[id].validated :: tree'[id].validated)
  {
    hide Inv, AddPrevalidated, Submit, Revalidate, Restore, SameShares;
    match op
    case AddUncheckedOp(s) => AddGrows(rules, trust, c, s, None, false);
    case SubmitOp(s, context, now, available) => SubmitGrows(rules, trust, c, s, context, now, available);
    case RevalidateOp(id, context, now, available) => RevalidateGrows(rules, c, id, context, now, available);
    case RestoreOp(records) => RestoreGrows(rules, c, records);
    case PruneOp(id) => PruneShrinks(c, id);
  }

  lemma PruneShrinks(c: Chain, root: ShareId)
    ensures SameShares(Prune(c, root).tree, c.tree)
    ensures forall id | id in Prune(c, root).tree :: Prune(c, root).tree[id] == c.tree[id]
  {
  }

  lemma BranchUnfold(rules: Rules, tree: Tree, p: ShareId)
    requires TreeOk(rules, tree) && p in tree && p != NO_SHARE
    ensures var s := tree[p].share;
      Branch(tree, p) == [s] + (if IsRoot(s) then [] else Branch(tree, s.parent))
  {
    assert NodeOk(rules, tree, p);
    assert Branch(tree, NO_SHARE) == [];
  }

  lemma {:induction false} BranchKept(rules: Rules, small: Tree, big: Tree, p: ShareId)
    requires TreeOk(rules, small) && TreeOk(rules, big) && SameShares(small, big) && p in small
    ensures Branch(small, p) == Branch(big, p)
    decreases small[p].share.height
  {
    if p != NO_SHARE {
      assert NodeOk(rules, small, p);
      BranchUnfold(rules, small, p);
      BranchUnfold(rules, big, p);
      if !IsRoot(small[p].share) {
        BranchKept(rules, small, big, small[p].share.parent);
      }
    }
  }

  /** No later step that keeps `p` connected changes its ancestry, its work, or what its children owe. */
  lemma BranchIsStable(rules: Rules, trust: Trust, c: Chain, op: Op, p: ShareId, network: Difficulty)
    requires Inv(rules, trust, c) && SoundTrust(rules, trust) && OpTrusted(rules, trust, c, op)
    requires p in c.tree && p in Apply(rules, c, op).tree
    ensures var tree' := Apply(rules, c, op).tree;
      && tree'[p].share == c.tree[p].share && tree'[p].work == c.tree[p].work
      && Branch(tree', p) == Branch(c.tree, p)
      && Expected(rules, tree', p, network) == Expected(rules, c.tree, p, network)
  {
    var c' := Apply(rules, c, op);
    StepsAgree(rules, trust, c, op);
    ApplyKeepsInv(rules, trust, c, op);
    TreeOkClosed(rules, c.tree);
    TreeOkClosed(rules, c'.tree);
    assert TreeOk(rules, c.tree) && TreeOk(rules, c'.tree);
    hide Inv, Apply, TreeOk, Branch, Expected;
    if SameShares(c.tree, c'.tree) {
      BranchKept(rules, c.tree, c'.tree, p);
      ExpectedStable(rules, c.tree, c'.tree, p, network);
    } else {
      BranchKept(rules, c'.tree, c.tree, p);
      ExpectedStable(rules, c'.tree, c.tree, p, network);
    }
  }
}

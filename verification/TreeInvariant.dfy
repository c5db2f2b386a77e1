/** What every operation keeps: the state invariant of the share tree over all runs. */
module TreeInvariant {
  import opened Basics
  import opened Orders
  import opened Shares
  import opened Records
  import opened ShareTree

  /** A property of proof-of-work records that the caller wants to hold of every stored record. */
  type Trust = (Share, Validation) -> bool

  /** The property implies consistency and holds of every record computed locally. */
  ghost predicate SoundTrust(rules: Rules, trust: Trust) {
    && (forall s, v :: trust(s, v) ==> Consistent(v))
    && (forall s: Share | 0 < s.difficulty <= s.networkDifficulty ::
          PassesPow(LocalValidation(rules, s)) ==> trust(s, LocalValidation(rules, s)))
  }

  // ---- The invariant ---------------------------------------------------------------------------

  ghost predicate ShareOk(rules: Rules, s: Share, id: ShareId) {
    rules.idOf(s) == id && Encodable(s, rules.minerOf) && StructuralReason(rules, s) == Accepted
  }

  /** Identity, parent link, height, time order, and work equal to the parent's plus its own. */
  ghost predicate NodeOk(rules: Rules, tree: Tree, id: ShareId)
    requires id in tree
  {
    var n := tree[id];
    && n.id == id
    && ShareOk(rules, n.share, id)
    && n.work < (n.share.height + 1) * TWO_128
    && if IsRoot(n.share) then n.work == n.share.difficulty
       else
         && n.share.parent in tree
         && ParentReason(n.share, tree[n.share.parent].share) == Accepted
         && n.work == tree[n.share.parent].work + n.share.difficulty
  }

  ghost predicate TreeOk(rules: Rules, tree: Tree) {
    forall id | id in tree :: NodeOk(rules, tree, id)
  }

  /** A validated share has a trusted record, exactly the expected difficulty, and a validated parent. */
  ghost predicate NodeTrusted(rules: Rules, trust: Trust, tree: Tree, id: ShareId)
    requires id in tree
  {
    var n := tree[id];
    && (n.pow.Some? ==> trust(n.share, n.pow.value))
    && (n.validated ==>
          && n.pow.Some?
          && rules.policy.Some?
          && Expected(rules, tree, n.share.parent, n.share.networkDifficulty) == Value(n.share.difficulty)
          && (IsRoot(n.share) || (n.share.parent in tree && tree[n.share.parent].validated)))
  }

  ghost predicate TrustOk(rules: Rules, trust: Trust, tree: Tree) {
    forall id | id in tree :: NodeTrusted(rules, trust, tree, id)
  }

  ghost predicate OrphanOk(rules: Rules, trust: Trust, c: Chain, id: ShareId)
    requires id in c.orphans
  {
    var o := c.orphans[id];
    && o.id == id && ShareOk(rules, o.share, id) && !IsRoot(o.share)
    && id !in c.tree
    && (id !in c.detached ==> o.share.parent !in c.tree)
    && (o.pow.Some? ==> trust(o.share, o.pow.value))
    && (o.enforce ==> rules.policy.Some?)
  }

  ghost predicate Inv(rules: Rules, trust: Trust, c: Chain) {
    && TreeOk(rules, c.tree)
    && TrustOk(rules, trust, c.tree)
    && (forall id | id in c.orphans :: OrphanOk(rules, trust, c, id))
    && c.detached <= c.orphans.Keys
    && IsBestTip(c.tree, c.tip)
  }

  // ---- History depends on ancestors only -------------------------------------------------------

  ghost predicate ParentClosed(tree: Tree) {
    forall id | id in tree :: IsRoot(tree[id].share) || tree[id].share.parent in tree
  }

  /** `big` holds the shares of `small`, at the same work. */
  ghost predicate SameShares(small: Tree, big: Tree) {
    forall id | id in small ::
      id in big && big[id].share == small[id].share && big[id].work == small[id].work
  }

  lemma {:induction false} HistoryStable(small: Tree, big: Tree, p: ShareId, n: nat)
    requires ParentClosed(small) && SameShares(small, big)
    requires p == NO_SHARE || p in small
    ensures History(small, p, n) == History(big, p, n)
    decreases n
  {
    if n > 0 && p != NO_SHARE {
      HistoryStable(small, big, small[p].share.parent, n - 1);
    }
  }

  /** The difficulty a child must have is fixed by its ancestors: adding, removing or validating other
      shares does not move it. */
  lemma ExpectedStable(rules: Rules, small: Tree, big: Tree, p: ShareId, network: Difficulty)
    requires ParentClosed(small) && SameShares(small, big)
    requires p == NO_SHARE || p in small
    ensures Expected(rules, small, p, network) == Expected(rules, big, p, network)
  {
    if rules.policy.Some? {
      HistoryStable(small, big, p, rules.policy.value.rule.window);
    }
  }

  lemma TreeOkClosed(rules: Rules, tree: Tree)
    requires TreeOk(rules, tree)
    ensures ParentClosed(tree)
  {
    forall id | id in tree
      ensures IsRoot(tree[id].share) || tree[id].share.parent in tree
    {
      assert NodeOk(rules, tree, id);
    }
  }

  // ---- Connecting ------------------------------------------------------------------------------

  /** Heights are 64-bit and difficulties 128-bit, so cumulative work never overflows 256 bits. */
  lemma OverflowUnreachable(rules: Rules, tree: Tree, s: Share, enforce: bool)
    requires TreeOk(rules, tree)
    ensures ConnectReason(rules, tree, s, enforce) != Value(WorkOverflow)
  {
    if !IsRoot(s) && s.parent in tree && ParentReason(s, tree[s.parent].share) == Accepted {
      assert NodeOk(rules, tree, s.parent);
      assert tree[s.parent].work + s.difficulty < (s.height + 1) * TWO_128;
    }
  }

  lemma LinkKeepsTree(rules: Rules, c: Chain, s: Share, id: ShareId, pow: Option<Validation>, enforce: bool)
    requires TreeOk(rules, c.tree) && ShareOk(rules, s, id) && id !in c.tree
    requires IsRoot(s) || s.parent in c.tree
    requires ConnectReason(rules, c.tree, s, enforce) == Value(Accepted)
    ensures TreeOk(rules, c.tree[id := NewNode(c.tree, s, id, pow, enforce)])
  {
    var tree' := c.tree[id := NewNode(c.tree, s, id, pow, enforce)];
    forall x | x in tree'
      ensures NodeOk(rules, tree', x)
    {
      if x != id {
        assert NodeOk(rules, c.tree, x);
      } else if !IsRoot(s) {
        assert NodeOk(rules, c.tree, s.parent);
      }
    }
  }

  lemma LinkKeepsTrust(
    rules: Rules, trust: Trust, c: Chain, s: Share, id: ShareId, pow: Option<Validation>, enforce: bool)
    requires TreeOk(rules, c.tree) && TrustOk(rules, trust, c.tree) && id !in c.tree
    requires IsRoot(s) || s.parent in c.tree
    requires ConnectReason(rules, c.tree, s, enforce) == Value(Accepted)
    requires pow.Some? ==> trust(s, pow.value)
    requires enforce ==> rules.policy.Some?
    ensures TrustOk(rules, trust, c.tree[id := NewNode(c.tree, s, id, pow, enforce)])
  {
    var tree' := c.tree[id := NewNode(c.tree, s, id, pow, enforce)];
    TreeOkClosed(rules, c.tree);
    forall x | x in tree'
      ensures NodeTrusted(rules, trust, tree', x)
    {
      var t := tree'[x].share;
      if x != id {
        assert NodeTrusted(rules, trust, c.tree, x) && NodeOk(rules, c.tree, x);
      }
      ExpectedStable(rules, c.tree, tree', t.parent, t.networkDifficulty);
    }
  }

  lemma LinkKeepsTip(rules: Rules, c: Chain, node: Node)
    requires TreeOk(rules, c.tree) && IsBestTip(c.tree, c.tip) && node.id !in c.tree
    ensures IsBestTip(c.tree[node.id := node], TipWith(c, node))
  {
    forall x | x in c.tree
      ensures c.tree[x].id == x
    {
      assert NodeOk(rules, c.tree, x);
    }
  }

  lemma AttachKeepsInv(
    rules: Rules, trust: Trust, c: Chain, s: Share, id: ShareId, pow: Option<Validation>, enforce: bool)
    requires Inv(rules, trust, c) && ShareOk(rules, s, id) && !Known(c, id)
    requires IsRoot(s) || s.parent in c.tree
    requires ConnectReason(rules, c.tree, s, enforce) == Value(Accepted)
    requires pow.Some? ==> trust(s, pow.value)
    requires enforce ==> rules.policy.Some?
    ensures Inv(rules, trust, Attach(c, NewNode(c.tree, s, id, pow, enforce)))
  {
    var node := NewNode(c.tree, s, id, pow, enforce);
    var c' := Attach(c, node);
    LinkKeepsTree(rules, c, s, id, pow, enforce);
    LinkKeepsTrust(rules, trust, c, s, id, pow, enforce);
    LinkKeepsTip(rules, c, node);
    forall x | x in c'.orphans
      ensures OrphanOk(rules, trust, c', x)
    {
      assert OrphanOk(rules, trust, c, x);
    }
  }

  lemma DropKeepsInv(rules: Rules, trust: Trust, c: Chain, id: ShareId)
    requires Inv(rules, trust, c)
    ensures Inv(rules, trust, DropOrphan(c, id))
  {
    var c' := DropOrphan(c, id);
    forall x | x in c'.orphans
      ensures OrphanOk(rules, trust, c', x)
    {
      assert OrphanOk(rules, trust, c, x);
    }
  }

  // ---- Promotion -------------------------------------------------------------------------------

  /** `todo` is what promotion still has to do: unlisted orphans whose parents are connected.  `base`
      is what earlier failed promotions left unlisted. */
  ghost predicate Pending(c: Chain, base: set<ShareId>, todo: seq<ShareId>) {
    && Distinct(todo)
    && (forall id | id in todo :: id !in base && id in c.orphans && c.orphans[id].share.parent in c.tree)
    && (forall id :: id in c.detached <==> id in base || id in todo)
  }

  /** An orphan whose parent is connected and whose difficulty check throws. */
  ghost predicate Stuck(rules: Rules, c: Chain, id: ShareId) {
    && id in c.orphans && id in c.detached
    && c.orphans[id].share.parent in c.tree
    && c.orphans[id].enforce
    && Expected(rules, c.tree, c.orphans[id].share.parent, c.orphans[id].share.networkDifficulty).Thrown?
  }

  lemma DropPending(c: Chain, base: set<ShareId>, todo: seq<ShareId>)
    requires todo != [] && Pending(c, base, todo)
    ensures Pending(DropOrphan(c, todo[0]), base, todo[1..])
  {
    assert todo == [todo[0]] + todo[1..];
  }

  lemma AttachPending(c: Chain, base: set<ShareId>, todo: seq<ShareId>, node: Node)
    requires Pending(c, base, todo) && base <= c.detached
    ensures Pending(Attach(c, node), base, Keys(ListedUnder(c, node.id)) + todo)
  {
    var kids := Keys(ListedUnder(c, node.id));
    DistinctConcat(kids, todo);
    assert forall id :: id in kids + todo <==> id in kids || id in todo;
  }

  lemma FirstPending(rules: Rules, trust: Trust, c: Chain, base: set<ShareId>, todo: seq<ShareId>)
    requires Inv(rules, trust, c) && todo != [] && Pending(c, base, todo)
    ensures var id := todo[0];
      && id in c.orphans && OrphanOk(rules, trust, c, id)
      && id in c.detached && id !in base && c.orphans[id].share.parent in c.tree
  {
    assert todo[0] in todo;
  }

  lemma TurnKeepsInv(
    rules: Rules, trust: Trust, c: Chain, base: set<ShareId>, todo: seq<ShareId>)
    requires Inv(rules, trust, c) && todo != [] && Pending(c, base, todo)
    ensures todo[0] in c.orphans
    ensures var turn := TakeTurn(rules, c, todo[0]);
      if turn.Throws? then todo[0] !in base && Stuck(rules, c, todo[0])
      else Inv(rules, trust, turn.chain) && Pending(turn.chain, base, turn.next + todo[1..])
  {
    hide Inv, Pending, Attach, ListedUnder;
    var id := todo[0];
    FirstPending(rules, trust, c, base, todo);
    var o, dropped := c.orphans[id], DropOrphan(c, id);
    DropKeepsInv(rules, trust, c, id);
    DropPending(c, base, todo);
    assert [] + todo[1..] == todo[1..];
    if ConnectReason(rules, c.tree, o.share, o.enforce) == Value(Accepted) {
      AttachKeepsInv(rules, trust, dropped, o.share, id, o.pow, o.enforce);
      PendingBase(dropped, base, todo[1..]);
      AttachPending(dropped, base, todo[1..], NewNode(c.tree, o.share, id, o.pow, o.enforce));
    }
  }

  lemma PendingBase(c: Chain, base: set<ShareId>, todo: seq<ShareId>)
    requires Pending(c, base, todo)
    ensures base <= c.detached
  {
  }

  /** Promotion keeps the invariant.  Without an exception it leaves exactly `tail` still to do; with
      one, an orphan stays behind whose parent is connected and whose difficulty check throws. */
  lemma {:induction false} DrainKeepsRest(
    rules: Rules, trust: Trust, c: Chain, base: set<ShareId>, todo: seq<ShareId>, tail: seq<ShareId>)
    requires Inv(rules, trust, c) && Pending(c, base, todo + tail)
    ensures var run := Drain(rules, c, todo);
      && Inv(rules, trust, run.chain)
      && (!run.threw ==> Pending(run.chain, base, tail))
      && (run.threw ==> exists id :: id !in base && Stuck(rules, run.chain, id))
    decreases |c.orphans|, |todo|
  {
    hide Inv, Pending, Stuck, TakeTurn;
    if todo == [] {
      assert [] + tail == tail;
    } else {
      assert (todo + tail)[0] == todo[0] && (todo + tail)[1..] == todo[1..] + tail;
      TurnKeepsInv(rules, trust, c, base, todo + tail);
      var turn := TakeTurn(rules, c, todo[0]);
      if turn.Done? {
        assert turn.next + (todo[1..] + tail) == (turn.next + todo[1..]) + tail;
        DrainKeepsRest(rules, trust, turn.chain, base, turn.next + todo[1..], tail);
      }
    }
  }

  lemma DrainKeepsInv(
    rules: Rules, trust: Trust, c: Chain, base: set<ShareId>, todo: seq<ShareId>)
    requires Inv(rules, trust, c) && Pending(c, base, todo)
    ensures var run := Drain(rules, c, todo);
      && Inv(rules, trust, run.chain)
      && (!run.threw ==> run.chain.detached == base)
      && (run.threw ==> exists id :: id !in base && Stuck(rules, run.chain, id))
  {
    assert todo + [] == todo;
    DrainKeepsRest(rules, trust, c, base, todo, []);
  }

  lemma ConnectKeepsInv(
    rules: Rules, trust: Trust, c: Chain, s: Share, id: ShareId, pow: Option<Validation>, enforce: bool)
    requires Inv(rules, trust, c) && ShareOk(rules, s, id) && !Known(c, id)
    requires IsRoot(s) || s.parent in c.tree
    requires ConnectReason(rules, c.tree, s, enforce) == Value(Accepted)
    requires pow.Some? ==> trust(s, pow.value)
    requires enforce ==> rules.policy.Some?
    ensures var step := ConnectAndPromote(rules, c, s, id, pow, enforce);
      && Inv(rules, trust, step.chain)
      && (step.outcome.Value? ==> step.chain.detached == c.detached)
      && (step.outcome.Thrown? ==> exists o :: o !in c.detached && Stuck(rules, step.chain, o))
  {
    var node := NewNode(c.tree, s, id, pow, enforce);
    AttachKeepsInv(rules, trust, c, s, id, pow, enforce);
    AttachPending(c, c.detached, [], node);
    assert Keys(ListedUnder(c, id)) + [] == Keys(ListedUnder(c, id));
    DrainKeepsInv(rules, trust, Attach(c, node), c.detached, Keys(ListedUnder(c, id)));
  }

  // ---- Every operation -------------------------------------------------------------------------

  /** An addition keeps the invariant.  It strands orphans exactly when promotion throws: then the new
      share is connected although the call failed. */
  lemma AddKeepsInv(
    rules: Rules, trust: Trust, c: Chain, s: Share, pow: Option<Validation>, enforce: bool)
    requires Inv(rules, trust, c)
    requires pow.Some? ==> trust(s, pow.value)
    requires enforce ==> rules.policy.Some?
    ensures var step := AddPrevalidated(rules, c, s, pow, enforce);
      && Inv(rules, trust, step.chain)
      && (step.chain.detached == c.detached <==> step.outcome.Value? || step.chain == c)
  {
    hide Inv, ConnectReason, ConnectAndPromote;
    if Encodable(s, rules.minerOf) {
      var id := rules.idOf(s);
      if !Known(c, id) && StructuralReason(rules, s) == Accepted {
        if !IsRoot(s) && s.parent !in c.tree {
          BufferKeepsInv(rules, trust, c, s, id, pow, enforce);
        } else if ConnectReason(rules, c.tree, s, enforce) == Value(Accepted) {
          ConnectKeepsInv(rules, trust, c, s, id, pow, enforce);
        }
      }
    }
  }

  lemma BufferKeepsInv(
    rules: Rules, trust: Trust, c: Chain, s: Share, id: ShareId, pow: Option<Validation>, enforce: bool)
    requires Inv(rules, trust, c) && ShareOk(rules, s, id) && !Known(c, id)
    requires !IsRoot(s) && s.parent !in c.tree
    requires pow.Some? ==> trust(s, pow.value)
    requires enforce ==> rules.policy.Some?
    ensures Inv(rules, trust, c.(orphans := c.orphans[id := Orphan(s, id, pow, enforce)]))
  {
    var c' := c.(orphans := c.orphans[id := Orphan(s, id, pow, enforce)]);
    hide TreeOk, TrustOk, IsBestTip;
    forall x | x in c'.orphans
      ensures OrphanOk(rules, trust, c', x)
    {
      assert x != id ==> OrphanOk(rules, trust, c, x);
    }
  }

  lemma SubmitKeepsInv(
    rules: Rules, trust: Trust, c: Chain, s: Share, context: WorkContext, now: U64, powAvailable: bool)
    requires Inv(rules, trust, c) && SoundTrust(rules, trust)
    ensures var step := Submit(rules, c, s, context, now, powAvailable);
      && Inv(rules, trust, step.chain)
      && (step.chain.detached == c.detached <==> step.outcome.Value? || step.chain == c)
  {
    hide Inv, AddPrevalidated;
    if StructuralReason(rules, s) == Accepted {
      var v := LocalValidation(rules, s);
      if PassesPow(v) {
        AddKeepsInv(rules, trust, c, s, Some(v), rules.policy.Some?);
      }
    }
  }

  ghost predicate Upgraded(rules: Rules, trust: Trust, tree: Tree, tree': Tree, id: ShareId)
    requires id in tree'
  {
    var s := tree'[id].share;
    && tree'[id].pow.Some? && trust(s, tree'[id].pow.value)
    && rules.policy.Some?
    && tree'[id].validated
    && DifficultyReason(rules, tree, s) == Value(Accepted)
    && (IsRoot(s) || (s.parent in tree' && tree'[s.parent].validated))
  }

  /** Upgrading nodes in place: same shares and works, records and flags that satisfy the invariant. */
  lemma UpgradeKeepsInv(rules: Rules, trust: Trust, c: Chain, tree': Tree)
    requires Inv(rules, trust, c)
    requires tree'.Keys == c.tree.Keys && SameShares(c.tree, tree')
    requires forall id | id in tree' :: tree'[id].id == id
    requires forall id | id in tree' && tree'[id] != c.tree[id] :: Upgraded(rules, trust, c.tree, tree', id)
    requires forall id | id in tree' :: c.tree[id].validated ==> tree'[id].validated
    ensures Inv(rules, trust, c.(tree := tree'))
  {
    var c' := c.(tree := tree');
    UpgradeKeepsTrust(rules, trust, c.tree, tree');
    UpgradeKeepsTree(rules, c.tree, tree', c.tip);
    hide TrustOk, TreeOk, NodeTrusted, Upgraded, IsBestTip;
    forall x | x in c'.orphans
      ensures OrphanOk(rules, trust, c', x)
    {
      assert OrphanOk(rules, trust, c, x);
    }
  }

  lemma UpgradeKeepsTree(rules: Rules, tree: Tree, tree': Tree, tip: Option<ShareId>)
    requires TreeOk(rules, tree) && IsBestTip(tree, tip)
    requires tree'.Keys == tree.Keys && SameShares(tree, tree')
    requires forall id | id in tree' :: tree'[id].id == id
    ensures TreeOk(rules, tree') && IsBestTip(tree', tip)
  {
    TreeIds(rules, tree);
    forall x | x in tree'
      ensures NodeOk(rules, tree', x)
    {
      assert NodeOk(rules, tree, x);
    }
    hide NodeOk;
    if tip.None? {
      assert tree' == map[];
    }
  }

  lemma UpgradeKeepsTrust(rules: Rules, trust: Trust, tree: Tree, tree': Tree)
    requires TreeOk(rules, tree) && TrustOk(rules, trust, tree)
    requires tree'.Keys == tree.Keys && SameShares(tree, tree')
    requires forall id | id in tree' && tree'[id] != tree[id] :: Upgraded(rules, trust, tree, tree', id)
    requires forall id | id in tree' :: tree[id].validated ==> tree'[id].validated
    ensures TrustOk(rules, trust, tree')
  {
    TreeOkClosed(rules, tree);
    forall x | x in tree'
      ensures NodeTrusted(rules, trust, tree', x)
    {
      var s := tree'[x].share;
      assert NodeOk(rules, tree, x) && NodeTrusted(rules, trust, tree, x);
      assert tree'[x] == tree[x] || Upgraded(rules, trust, tree, tree', x);
      ExpectedStable(rules, tree, tree', s.parent, s.networkDifficulty);
    }
  }

  ghost predicate MayMark(rules: Rules, trust: Trust, tree: Tree, id: ShareId, v: Validation) {
    && id in tree && rules.policy.Some?
    && trust(tree[id].share, v)
    && DifficultyReason(rules, tree, tree[id].share) == Value(Accepted)
    && (IsRoot(tree[id].share) ||
        (tree[id].share.parent in tree && tree[tree[id].share.parent].validated))
  }

  lemma TreeIds(rules: Rules, tree: Tree)
    requires TreeOk(rules, tree)
    ensures forall id | id in tree :: tree[id].id == id
  {
    forall id | id in tree
      ensures tree[id].id == id
    {
      assert NodeOk(rules, tree, id);
    }
  }

  lemma MarkKeepsInv(rules: Rules, trust: Trust, c: Chain, id: ShareId, v: Validation)
    requires Inv(rules, trust, c) && MayMark(rules, trust, c.tree, id, v)
    ensures Inv(rules, trust, MarkValidated(c, id, v))
  {
    var node := c.tree[id].(pow := Some(v), validated := true);
    var tree' := c.tree[id := node];
    TreeIds(rules, c.tree);
    assert Upgraded(rules, trust, c.tree, tree', id);
    assert tree'.Keys == c.tree.Keys;
    UpgradeKeepsInv(rules, trust, c, tree');
  }

  lemma RevalidateMarks(
    rules: Rules, trust: Trust, c: Chain, id: ShareId, context: WorkContext, now: U64, powAvailable: bool)
    requires SoundTrust(rules, trust)
    ensures var c' := Revalidate(rules, c, id, context, now, powAvailable).chain;
      || c' == c
      || (exists v :: MayMark(rules, trust, c.tree, id, v) && c' == MarkValidated(c, id, v))
  {
    var step := Revalidate(rules, c, id, context, now, powAvailable);
    if step.chain != c {
      var v := LocalValidation(rules, c.tree[id].share);
      assert MayMark(rules, trust, c.tree, id, v);
    }
  }

  lemma RevalidateKeepsInv(
    rules: Rules, trust: Trust, c: Chain, id: ShareId, context: WorkContext, now: U64, powAvailable: bool)
    requires Inv(rules, trust, c) && SoundTrust(rules, trust)
    ensures Inv(rules, trust, Revalidate(rules, c, id, context, now, powAvailable).chain)
  {
    RevalidateMarks(rules, trust, c, id, context, now, powAvailable);
    var c' := Revalidate(rules, c, id, context, now, powAvailable).chain;
    if c' != c {
      var v :| MayMark(rules, trust, c.tree, id, v) && c' == MarkValidated(c, id, v);
      MarkKeepsInv(rules, trust, c, id, v);
    }
  }

  /** The property holds of every record that would be written. */
  ghost predicate TrustsRecords(trust: Trust, tree: Tree, records: seq<Record>) {
    forall rec | rec in records && rec.id in tree :: trust(tree[rec.id].share, rec.validation)
  }

  lemma ValidationOfRecord(records: seq<Record>, id: ShareId) returns (rec: Record)
    requires id in Ids(records)
    ensures rec in records && rec.id == id && ValidationOf(records, id) == rec.validation
  {
    rec :| rec in records && rec.id == id && ValidationOf(records, id) == rec.validation;
  }

  lemma RestoreKeepsInv(rules: Rules, trust: Trust, c: Chain, records: seq<Record>)
    requires Inv(rules, trust, c)
    requires RestoreAllowed(rules, c.tree, records) ==> TrustsRecords(trust, c.tree, records)
    ensures Inv(rules, trust, Restore(rules, c, records).chain)
  {
    if records != [] && RestoreAllowed(rules, c.tree, records) {
      var tree' := RestoredTree(c.tree, records);
      forall x | x in tree'
        ensures tree'[x].id == x && tree'[x].share == c.tree[x].share && tree'[x].work == c.tree[x].work
        ensures c.tree[x].validated ==> tree'[x].validated
        ensures x in Ids(records) ==> tree'[x].validated
      {
        assert NodeOk(rules, c.tree, x);
      }
      forall x | x in tree' && tree'[x] != c.tree[x]
        ensures Upgraded(rules, trust, c.tree, tree', x)
      {
        assert NodeOk(rules, c.tree, x);
        var rec := ValidationOfRecord(records, x);
        assert RecordOk(rules, c.tree, Ids(records), rec);
      }
      UpgradeKeepsInv(rules, trust, c, tree');
    }
  }

  lemma PruneKeepsInv(rules: Rules, trust: Trust, c: Chain, root: ShareId)
    requires Inv(rules, trust, c)
    ensures Inv(rules, trust, Prune(c, root))
  {
    forall id | id in c.tree
      ensures c.tree[id].id == id
    {
      assert NodeOk(rules, c.tree, id);
    }
    var c' := Prune(c, root);
    if root in c.tree {
      forall x | x in c'.tree
        ensures NodeOk(rules, c'.tree, x)
      {
        assert NodeOk(rules, c.tree, x);
      }
      TreeOkClosed(rules, c'.tree);
      forall x | x in c'.tree
        ensures NodeTrusted(rules, trust, c'.tree, x)
      {
        var s := c.tree[x].share;
        assert NodeTrusted(rules, trust, c.tree, x);
        ExpectedStable(rules, c'.tree, c.tree, s.parent, s.networkDifficulty);
      }
      forall x | x in c'.orphans
        ensures OrphanOk(rules, trust, c', x)
      {
        assert OrphanOk(rules, trust, c, x);
      }
    }
  }

  // ---- Whole runs ------------------------------------------------------------------------------

  datatype Op =
    | AddUncheckedOp(share: Share)
    | SubmitOp(share: Share, context: WorkContext, now: U64, powAvailable: bool)
    | RevalidateOp(id: ShareId, context: WorkContext, now: U64, powAvailable: bool)
    | RestoreOp(records: seq<Record>)
    | PruneOp(id: ShareId)

  ghost function Apply(rules: Rules, c: Chain, op: Op): Chain {
    match op
    case AddUncheckedOp(s) => AddUnchecked(rules, c, s).chain
    case SubmitOp(s, context, now, available) => Submit(rules, c, s, context, now, available).chain
    case RevalidateOp(id, context, now, available) =>
      Revalidate(rules, c, id, context, now, available).chain
    case RestoreOp(records) => Restore(rules, c, records).chain
    case PruneOp(id) => Prune(c, id)
  }

  /** Records that are actually restored satisfy the property; other operations compute their own. */
  ghost predicate OpTrusted(rules: Rules, trust: Trust, c: Chain, op: Op) {
    op.RestoreOp? && RestoreAllowed(rules, c.tree, op.records) ==> TrustsRecords(trust, c.tree, op.records)
  }

  lemma ApplyKeepsInv(rules: Rules, trust: Trust, c: Chain, op: Op)
    requires Inv(rules, trust, c) && SoundTrust(rules, trust) && OpTrusted(rules, trust, c, op)
    ensures Inv(rules, trust, Apply(rules, c, op))
  {
    hide Inv, SoundTrust, AddPrevalidated, Submit, Revalidate, Restore, Prune;
    match op
    case AddUncheckedOp(s) => AddKeepsInv(rules, trust, c, s, None, false);
    case SubmitOp(s, context, now, available) =>
      SubmitKeepsInv(rules, trust, c, s, context, now, available);
    case RevalidateOp(id, context, now, available) =>
      RevalidateKeepsInv(rules, trust, c, id, context, now, available);
    case RestoreOp(records) => RestoreKeepsInv(rules, trust, c, records);
    case PruneOp(id) => PruneKeepsInv(rules, trust, c, id);
  }

  /** `states` is a run from the empty chain, each state the result of one operation on the last. */
  ghost predicate IsRun(rules: Rules, trust: Trust, states: seq<Chain>, ops: seq<Op>) {
    && |states| == |ops| + 1
    && states[0] == EMPTY_CHAIN
    && forall i | 0 <= i < |ops| ::
         && OpTrusted(rules, trust, states[i], ops[i])
         && states[i + 1] == Apply(rules, states[i], ops[i])
  }

  ghost predicate Reachable(rules: Rules, trust: Trust, c: Chain) {
    exists states, ops :: IsRun(rules, trust, states, ops) && states[|ops|] == c
  }

  lemma ReachableEmpty(rules: Rules, trust: Trust)
    ensures Reachable(rules, trust, EMPTY_CHAIN)
  {
    assert IsRun(rules, trust, [EMPTY_CHAIN], []);
  }

  lemma ReachableStep(rules: Rules, trust: Trust, c: Chain, op: Op)
    requires Reachable(rules, trust, c) && OpTrusted(rules, trust, c, op)
    ensures Reachable(rules, trust, Apply(rules, c, op))
  {
    hide Apply, OpTrusted;
    var states, ops :| IsRun(rules, trust, states, ops) && states[|ops|] == c;
    assert IsRun(rules, trust, states + [Apply(rules, c, op)], ops + [op]);
  }

  lemma {:induction false} RunKeepsInv(
    rules: Rules, trust: Trust, states: seq<Chain>, ops: seq<Op>, i: nat)
    requires SoundTrust(rules, trust) && IsRun(rules, trust, states, ops) && i <= |ops|
    ensures Inv(rules, trust, states[i])
  {
    if i > 0 {
      RunKeepsInv(rules, trust, states, ops, i - 1);
      ApplyKeepsInv(rules, trust, states[i - 1], ops[i - 1]);
    }
  }

  /** The invariant holds in every state any run can reach. */
  lemma ReachableInv(rules: Rules, trust: Trust, c: Chain)
    requires SoundTrust(rules, trust) && Reachable(rules, trust, c)
    ensures Inv(rules, trust, c)
  {
    var states, ops :| IsRun(rules, trust, states, ops) && states[|ops|] == c;
    RunKeepsInv(rules, trust, states, ops, |ops|);
  }
}

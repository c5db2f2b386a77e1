/** The best tip in numbers: the most cumulative work, then the greatest height, then the least identifier. */
module Heaviest {
  import opened Shares
  import opened ShareTree
  import opened TreeInvariant
  import opened Agreement

  /** `t` is at least as heavy as share `x`, as high at equal work, and no later at equal height. */
  ghost predicate Outweighs(tree: Tree, t: ShareId, x: ShareId)
    requires t in tree && x in tree
  {
    && tree[x].work <= tree[t].work
    && (tree[x].work == tree[t].work ==> tree[x].share.height <= tree[t].share.height)
    && (tree[x].work == tree[t].work && tree[x].share.height == tree[t].share.height ==> t <= x)
  }

  /** There is a tip exactly when something is connected, and it outweighs every connected share. */
  ghost predicate TipIsHeaviest(c: Chain) {
    && (c.tip.None? <==> c.tree == map[])
    && (c.tip.Some? ==> c.tip.value in c.tree && forall x | x in c.tree :: Outweighs(c.tree, c.tip.value, x))
  }

  lemma HeaviestByInvariant(rules: Rules, trust: Trust, c: Chain)
    requires Inv(rules, trust, c)
    ensures TipIsHeaviest(c)
  {
    assert IsBestTip(c.tree, c.tip);
    TreeIds(rules, c.tree);
    hide Inv, TreeOk;
  }

  /** In every reachable chain the tip is the heaviest share. */
  lemma ReachableTipIsHeaviest(rules: Rules, c: Chain)
    requires Reachable(rules, ConsistentRecords(), c)
    ensures TipIsHeaviest(c)
  {
    TrustsAreSound(rules);
    ReachableInv(rules, ConsistentRecords(), c);
    HeaviestByInvariant(rules, ConsistentRecords(), c);
  }

  /** After any operation the tip is the heaviest share of what is then connected. */
  lemma StepTipIsHeaviest(rules: Rules, c: Chain, op: Op)
    requires Reachable(rules, ConsistentRecords(), c)
    ensures TipIsHeaviest(Apply(rules, c, op))
  {
    hide Reachable, Apply;
    AnyRestoreIsConsistent(rules, c, op);
    ReachableStep(rules, ConsistentRecords(), c, op);
    ReachableTipIsHeaviest(rules, Apply(rules, c, op));
  }

  /** After pruning, the tip is the heaviest of the shares that are not below the root. */
  lemma PrunedTipIsHeaviest(rules: Rules, trust: Trust, c: Chain, root: ShareId)
    requires Inv(rules, trust, c)
    ensures TipIsHeaviest(Prune(c, root))
    ensures forall x | x in c.tree && !Descends(c.tree, x, root) ::
      && Prune(c, root).tip.Some? && Prune(c, root).tip.value in c.tree
      && Outweighs(c.tree, Prune(c, root).tip.value, x)
  {
    var c' := Prune(c, root);
    PruneKeepsInv(rules, trust, c, root);
    HeaviestByInvariant(rules, trust, c');
    hide Inv, TipIsHeaviest;
    forall x | x in c.tree && !Descends(c.tree, x, root)
      ensures x in c'.tree && c'.tree[x] == c.tree[x]
    {
    }
    PruneShrinks(c, root);
    RestIsOutweighed(c, c');
  }

  lemma RestIsOutweighed(c: Chain, c': Chain)
    requires TipIsHeaviest(c') && forall x | x in c'.tree :: x in c.tree && c'.tree[x] == c.tree[x]
    ensures forall x | x in c'.tree ::
      && c'.tip.Some? && c'.tip.value in c.tree && Outweighs(c.tree, c'.tip.value, x)
  {
  }
}

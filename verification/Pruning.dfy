/** What pruning removes: the least set that holds the root and is closed under taking children. */
module Pruning {
  import opened Orders
  import opened Shares
  import opened ShareTree
  import opened TreeInvariant

  ghost predicate IsChild(tree: Tree, x: ShareId, p: ShareId) {
    x in tree && !IsRoot(tree[x].share) && tree[x].share.parent == p
  }

  lemma ChildDescends(rules: Rules, tree: Tree, x: ShareId, p: ShareId, root: ShareId)
    requires TreeOk(rules, tree) && IsChild(tree, x, p) && Descends(tree, p, root)
    ensures Descends(tree, x, root)
  {
    assert NodeOk(rules, tree, x);
  }

  lemma {:induction false} DescendsHeight(tree: Tree, x: ShareId, root: ShareId)
    requires Descends(tree, x, root)
    ensures root in tree && tree[root].share.height <= tree[x].share.height
    decreases tree[x].share.height
  {
    if x != root {
      DescendsHeight(tree, tree[x].share.parent, root);
    }
  }

  /** A share is not a child of anything below it. */
  lemma NotBelowItself(rules: Rules, tree: Tree, p: ShareId, root: ShareId)
    requires TreeOk(rules, tree) && root in tree && Descends(tree, p, root)
    ensures !IsChild(tree, root, p)
  {
    DescendsHeight(tree, p, root);
    assert NodeOk(rules, tree, root);
  }

  ghost predicate ClosedUnderChildren(tree: Tree, s: set<ShareId>) {
    forall x, p | p in s && IsChild(tree, x, p) :: x in s
  }

  lemma {:induction false} SubtreeIsLeast(tree: Tree, s: set<ShareId>, x: ShareId, root: ShareId)
    requires root in s && ClosedUnderChildren(tree, s) && Descends(tree, x, root)
    ensures x in s
    decreases tree[x].share.height
  {
    if x != root {
      SubtreeIsLeast(tree, s, tree[x].share.parent, root);
      assert IsChild(tree, x, tree[x].share.parent);
    }
  }

  /** The subtree holds its root, is closed under children, and is inside every such set; pruning
      leaves the rest of the tree parent-closed, the orphans alone, and the best of the rest as tip. */
  lemma PruneExact(rules: Rules, trust: Trust, c: Chain, root: ShareId)
    requires Inv(rules, trust, c) && root in c.tree
    ensures var gone := Subtree(c.tree, root);
      && root in gone && ClosedUnderChildren(c.tree, gone)
      && (forall s | root in s && ClosedUnderChildren(c.tree, s) :: gone <= s)
    ensures var c' := Prune(c, root);
      && c'.tree.Keys == c.tree.Keys - Subtree(c.tree, root)
      && (forall id | id in c'.tree :: c'.tree[id] == c.tree[id])
      && ParentClosed(c'.tree)
      && c'.orphans == c.orphans && c'.detached == c.detached
      && IsBestTip(c'.tree, c'.tip)
  {
    var gone := Subtree(c.tree, root);
    forall x, p | p in gone && IsChild(c.tree, x, p)
      ensures x in gone
    {
      ChildDescends(rules, c.tree, x, p, root);
    }
    forall s | root in s && ClosedUnderChildren(c.tree, s)
      ensures gone <= s
    {
      forall x | x in gone
        ensures x in s
      {
        SubtreeIsLeast(c.tree, s, x, root);
      }
    }
    PruneKeepsInv(rules, trust, c, root);
    TreeOkClosed(rules, Prune(c, root).tree);
  }

  // ---- The work list ---------------------------------------------------------------------------

  /** The first `done` entries have had their children appended, and everything after the root is a
      child of such an entry. */
  ghost predicate Worklist(tree: Tree, root: ShareId, list: seq<ShareId>, done: nat) {
    && done <= |list| && |list| > 0 && list[0] == root && Distinct(list)
    && (forall x | x in list :: Descends(tree, x, root))
    && ParentsBefore(tree, list, done)
    && ChildrenListed(tree, list, done)
  }

  ghost predicate ParentsBefore(tree: Tree, list: seq<ShareId>, done: nat)
    requires done <= |list|
  {
    forall k | 0 < k < |list| :: HasParentBefore(tree, list, list[k], done)
  }

  ghost predicate ChildrenListed(tree: Tree, list: seq<ShareId>, done: nat)
    requires done <= |list|
  {
    forall x, j | 0 <= j < done && IsChild(tree, x, list[j]) :: x in list
  }

  ghost predicate HasParentBefore(tree: Tree, list: seq<ShareId>, x: ShareId, done: nat)
    requires done <= |list|
  {
    exists j | 0 <= j < done :: IsChild(tree, x, list[j])
  }

  lemma NewChildrenAreNew(
    rules: Rules, tree: Tree, root: ShareId, list: seq<ShareId>, done: nat, x: ShareId)
    requires TreeOk(rules, tree) && Worklist(tree, root, list, done) && done < |list|
    requires IsChild(tree, x, list[done])
    ensures x !in list && Descends(tree, x, root)
  {
    assert list[done] in list && list[0] in list;
    NotBelowItself(rules, tree, list[done], root);
    ChildDescends(rules, tree, x, list[done], root);
    forall k | 0 <= k < |list|
      ensures list[k] != x
    {
      if k > 0 {
        assert HasParentBefore(tree, list, list[k], done);
      }
    }
  }

  lemma ParentsBeforeGrows(tree: Tree, list: seq<ShareId>, done: nat, more: seq<ShareId>)
    requires done < |list| && ParentsBefore(tree, list, done)
    requires forall x | x in more :: IsChild(tree, x, list[done])
    ensures ParentsBefore(tree, list + more, done + 1)
  {
    var longer := list + more;
    forall k | 0 < k < |longer|
      ensures HasParentBefore(tree, longer, longer[k], done + 1)
    {
      if k < |list| {
        assert HasParentBefore(tree, list, list[k], done);
        var j :| 0 <= j < done && IsChild(tree, list[k], list[j]);
        assert longer[j] == list[j];
      } else {
        assert longer[k] in more && longer[done] == list[done];
      }
    }
  }

  lemma ChildrenListedGrows(tree: Tree, list: seq<ShareId>, done: nat, more: seq<ShareId>)
    requires done < |list| && ChildrenListed(tree, list, done)
    requires forall x | IsChild(tree, x, list[done]) :: x in more
    ensures ChildrenListed(tree, list + more, done + 1)
  {
    forall x, j | 0 <= j < done + 1 && IsChild(tree, x, (list + more)[j])
      ensures x in list + more
    {
      assert (list + more)[j] == list[j];
    }
  }

  lemma WorklistGrows(
    rules: Rules, tree: Tree, root: ShareId, list: seq<ShareId>, done: nat, more: seq<ShareId>)
    requires TreeOk(rules, tree) && Worklist(tree, root, list, done) && done < |list|
    requires Distinct(more) && forall x :: x in more <==> IsChild(tree, x, list[done])
    ensures Worklist(tree, root, list + more, done + 1)
  {
    hide TreeOk, Descends, ParentsBefore, ChildrenListed, IsChild;
    forall x | x in more
      ensures x !in list && Descends(tree, x, root)
    {
      NewChildrenAreNew(rules, tree, root, list, done, x);
    }
    DistinctConcat(list, more);
    hide Distinct;
    ParentsBeforeGrows(tree, list, done, more);
    ChildrenListedGrows(tree, list, done, more);
  }

  lemma WorklistBounded(tree: Tree, root: ShareId, list: seq<ShareId>, done: nat)
    requires Worklist(tree, root, list, done)
    ensures |list| <= |tree|
  {
    DistinctSize(list);
    assert Elements(list) <= tree.Keys;
    SubsetSize(Elements(list), tree.Keys);
  }

  lemma SubsetSize(a: set<ShareId>, b: set<ShareId>)
    requires a <= b
    ensures |a| <= |b|
  {
    assert b == a + (b - a);
  }

  lemma WorklistDistinct(tree: Tree, root: ShareId, list: seq<ShareId>, done: nat)
    requires Worklist(tree, root, list, done)
    ensures Distinct(list)
  {
  }

  /** When every entry has been processed the list is the subtree. */
  lemma WorklistComplete(tree: Tree, root: ShareId, list: seq<ShareId>)
    requires Worklist(tree, root, list, |list|)
    ensures forall x :: x in list <==> x in Subtree(tree, root)
  {
    var s := Elements(list);
    assert list[0] in list;
    forall x, p | p in s && IsChild(tree, x, p)
      ensures x in s
    {
      var j :| 0 <= j < |list| && list[j] == p;
      assert IsChild(tree, x, list[j]);
    }
    forall x | x in Subtree(tree, root)
      ensures x in list
    {
      SubtreeIsLeast(tree, s, x, root);
    }
  }

  // ---- Pruning several subtrees ----------------------------------------------------------------

  ghost function PruneAll(c: Chain, roots: seq<ShareId>): Chain {
    if roots == [] then c else Prune(PruneAll(c, roots[..|roots| - 1]), roots[|roots| - 1])
  }

  /** The shares that are one of the roots or have one as an ancestor. */
  ghost predicate Below(tree: Tree, x: ShareId, roots: seq<ShareId>) {
    exists r :: r in roots && Descends(tree, x, r)
  }

  /** `part` is what is left of `tree` after removing whole subtrees. */
  ghost predicate Pruned(tree: Tree, part: Tree) {
    && (forall x | x in part :: x in tree && part[x] == tree[x])
    && ParentClosed(part)
  }

  /** In what is left, descent is what it was. */
  lemma {:induction false} DescendsKept(tree: Tree, part: Tree, x: ShareId, r: ShareId)
    requires Pruned(tree, part) && x in part
    ensures Descends(part, x, r) <==> Descends(tree, x, r)
    decreases tree[x].share.height
  {
    var s := tree[x].share;
    if x != r && !IsRoot(s) && tree[s.parent].share.height < s.height {
      DescendsKept(tree, part, s.parent, r);
    }
  }

  /** Pruning one root after another, in any order and with repeats, removes exactly the shares below
      any of them. */
  lemma {:induction false} PruneAllExact(rules: Rules, trust: Trust, c: Chain, roots: seq<ShareId>)
    requires Inv(rules, trust, c)
    ensures var c' := PruneAll(c, roots);
      && Inv(rules, trust, c') && c' == c.(tree := c'.tree, tip := c'.tip)
      && Pruned(c.tree, c'.tree)
      && (forall x | x in c.tree :: x in c'.tree <==> !Below(c.tree, x, roots))
  {
    if roots == [] {
      TreeOkClosed(rules, c.tree);
    } else {
      var front, r := roots[..|roots| - 1], roots[|roots| - 1];
      PruneAllExact(rules, trust, c, front);
      hide Inv, Descends, Pruned, Below;
      var b := PruneAll(c, front);
      PruneOne(rules, trust, c, b, r);
      assert roots == front + [r];
      forall x | x in c.tree
        ensures x in Prune(b, r).tree <==> !Below(c.tree, x, roots)
      {
        BelowOneMore(c.tree, x, front, r);
      }
    }
  }

  lemma BelowOneMore(tree: Tree, x: ShareId, front: seq<ShareId>, r: ShareId)
    ensures Below(tree, x, front + [r]) <==> Below(tree, x, front) || Descends(tree, x, r)
  {
    hide Descends;
    if Below(tree, x, front) {
      var q :| q in front && Descends(tree, x, q);
      assert q in front + [r];
    }
    if Descends(tree, x, r) {
      assert r in front + [r];
    }
  }

  lemma PruneOne(rules: Rules, trust: Trust, c: Chain, b: Chain, r: ShareId)
    requires Inv(rules, trust, b) && b == c.(tree := b.tree, tip := b.tip) && Pruned(c.tree, b.tree)
    ensures var c' := Prune(b, r);
      && Inv(rules, trust, c') && c' == c.(tree := c'.tree, tip := c'.tip) && Pruned(c.tree, c'.tree)
      && (forall x | x in b.tree :: x in c'.tree <==> !Descends(c.tree, x, r))
      && (forall x | x in c'.tree :: x in b.tree)
  {
    PruneKeepsInv(rules, trust, b, r);
    var c' := Prune(b, r);
    TreeOkClosed(rules, c'.tree);
    hide Inv;
    forall x | x in b.tree
      ensures x in c'.tree <==> !Descends(c.tree, x, r)
    {
      DescendsKept(c.tree, b.tree, x, r);
      if r !in b.tree && Descends(b.tree, x, r) {
        DescendsHeight(b.tree, x, r);
      }
    }
  }

  // ---- Counting removals -----------------------------------------------------------------------

  /** The removed shares are counted, so the count says whether anything was removed. */
  ghost predicate CountsRemovals(before: Tree, after: Tree, pruned: nat) {
    && after.Keys <= before.Keys && pruned == |before.Keys - after.Keys|
  }

  lemma SizesAdd(big: set<ShareId>, middle: set<ShareId>, small: set<ShareId>)
    requires small <= middle <= big
    ensures |big - small| == |big - middle| + |middle - small|
  {
    assert big - small == (big - middle) + (middle - small);
  }

  lemma RemovalsAdd(before: Tree, middle: Tree, after: Tree, pruned: nat, removed: seq<ShareId>)
    requires CountsRemovals(before, middle, pruned) && after.Keys <= middle.Keys
    requires Distinct(removed) && Elements(removed) == middle.Keys - after.Keys
    ensures CountsRemovals(before, after, pruned + |removed|)
  {
    hide Distinct, Elements;
    DistinctSize(removed);
    SizesAdd(before.Keys, middle.Keys, after.Keys);
  }

  lemma PrunedIds(c: Chain, root: ShareId, removed: seq<ShareId>)
    requires root in c.tree && removed == Keys(Subtree(c.tree, root))
    ensures Distinct(removed) && Elements(removed) == c.tree.Keys - Prune(c, root).tree.Keys
    ensures Prune(c, root).tree.Keys <= c.tree.Keys
  {
    assert forall x :: x in removed <==> x in Subtree(c.tree, root);
  }
}

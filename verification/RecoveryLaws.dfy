/** Restart recovery in terms of the archive and the daemon's answers: which shares it validates, which it
    removes, and what its counters count. */
module RecoveryLaws {
  import opened Basics
  import opened Orders
  import opened Shares
  import opened ShareTree
  import opened TreeInvariant
  import opened Pruning
  import opened Admission
  import opened TrustLaws
  import opened Recovery
  import opened RestartRecovery

  // ---- One turn --------------------------------------------------------------------------------

  ghost predicate Configured(rules: Rules, parameters: Hash256) {
    rules.policy.Some? && rules.policy.value.parameters == parameters
  }

  /** A proposal for exactly this work is in the archive. */
  ghost predicate Archived(s: Share, e: Evidence) {
    WorkContext(s.zanoHeight, s.header, s.networkDifficulty) in e.index
  }

  ghost predicate TrustedParent(tree: Tree, s: Share) {
    s.parent == 0 || (s.parent in tree && tree[s.parent].validated)
  }

  /** Revalidation in the share's own work context, its parent being trusted. */
  lemma ChecksTable(rules: Rules, trust: Trust, c: Chain, id: ShareId, e: Evidence)
    requires Inv(rules, trust, c) && id in c.tree && !c.tree[id].validated
    requires rules.policy.Some? && TrustedParent(c.tree, c.tree[id].share)
    ensures var s := c.tree[id].share;
      var r := RevalidateVerdict(rules, c.tree, id, ContextOf(s), e.now, e.powAvailable);
      if s.timestamp > e.now + 60 then r.Value? && r.value.status == Rejected
      else if DemandThrows(rules, c.tree, s) then r.Thrown?
      else if !AsDemanded(rules, c.tree, s) then r.Value? && r.value.status == Rejected
      else if !e.powAvailable then r.Value? && r.value.status == Rejected
      else if PowHash(rules, s) * s.difficulty >= TWO_256 then r.Value? && r.value.status == Rejected
      else r.Value? && r.value.status == Validated
  {
    var s := c.tree[id].share;
    RevalidateTable(rules, trust, c, id, ContextOf(s), e.now, e.powAvailable);
    ContextTable(s, ContextOf(s));
    hide Inv, RevalidateVerdict, ContextReason, AsDemanded, DemandThrows, PowHash;
  }

  /** Every finding about a share, in the order of the checks. */
  lemma VerdictTable(rules: Rules, trust: Trust, c: Chain, id: ShareId, e: Evidence, a: Answers)
    requires Inv(rules, trust, c) && id in c.tree
    ensures var v, s := Judge(rules, c.tree, id, e, a), c.tree[id].share;
      if c.tree[id].validated then v == WasValidated
      else if !Archived(s, e) then v == MissingWork
      else if !Configured(rules, e.parameters) then v == ParametersDiffer
      else if !a.readable then v == Aborts
      else if !TrustedParent(c.tree, s) then v == ParentNotValidated
      else if a.initial == AuditAborts then v == Aborts
      else if a.initial == ParentMismatch then v == MismatchRoot
      else if a.initial == OtherwiseRejected then v == Refused
      else if a.final == AuditAborts then v == Aborts
      else if a.final == ParentMismatch || a.final == OtherwiseRejected then v == Refused
      else if s.timestamp > e.now + 60 then v == Refused
      else if DemandThrows(rules, c.tree, s) then v == Aborts
      else if !AsDemanded(rules, c.tree, s) then v == Refused
      else if !e.powAvailable then v == Refused
      else if PowHash(rules, s) * s.difficulty >= TWO_256 then v == Refused
      else v == Revalidated
  {
    hide Inv, RevalidateVerdict, AsDemanded, DemandThrows, PowHash;
    var s := c.tree[id].share;
    if !c.tree[id].validated && rules.policy.Some? && TrustedParent(c.tree, s) {
      ChecksTable(rules, trust, c, id, e);
    }
  }

  /** The chain's own checks of a share. */
  ghost predicate PassesChecks(rules: Rules, tree: Tree, s: Share, e: Evidence) {
    && s.timestamp <= e.now + 60 && AsDemanded(rules, tree, s)
    && e.powAvailable && PowHash(rules, s) * s.difficulty < TWO_256
  }

  /** Share `j` of the pass can be judged by the daemon. */
  ghost predicate Auditable(p: Pass, tree: Tree, j: nat)
    requires j < |p.ids| && j < |p.answers| && p.ids[j] in tree
  {
    var s := tree[p.ids[j]].share;
    && Configured(p.rules, p.evidence.parameters) && Archived(s, p.evidence)
    && p.answers[j].readable && TrustedParent(tree, s)
  }

  /** The daemon contradicts the work of share `j`, which is not validated while its parent is. */
  ghost predicate Contradicted(p: Pass, tree: Tree, j: nat)
    requires j < |p.ids| && j < |p.answers| && p.ids[j] in tree
  {
    !tree[p.ids[j]].validated && Auditable(p, tree, j) && p.answers[j].initial == ParentMismatch
  }

  /** The daemon confirms the work of share `j` twice, and the chain's own checks pass. */
  ghost predicate Confirmed(p: Pass, tree: Tree, j: nat)
    requires j < |p.ids| && j < |p.answers| && p.ids[j] in tree
  {
    && Auditable(p, tree, j) && p.answers[j].initial == Matched && p.answers[j].final == Matched
    && PassesChecks(p.rules, tree, tree[p.ids[j]].share, p.evidence)
  }

  lemma DemandedIsDecided(rules: Rules, tree: Tree, s: Share)
    ensures AsDemanded(rules, tree, s) ==> !DemandThrows(rules, tree, s)
  {
    hide Expected;
  }

  /** The three findings the results below need. */
  lemma FindingIs(p: Pass, trust: Trust, c: Chain, j: nat)
    requires Inv(p.rules, trust, c) && j < |p.ids| && j < |p.answers| && p.ids[j] in c.tree
    ensures var v := Finding(p, c, j);
      && (v == WasValidated <==> c.tree[p.ids[j]].validated)
      && (v == MismatchRoot <==> Contradicted(p, c.tree, j))
      && (v == Revalidated <==> !c.tree[p.ids[j]].validated && Confirmed(p, c.tree, j))
  {
    VerdictTable(p.rules, trust, c, p.ids[j], p.evidence, p.answers[j]);
    hide Inv, Judge, PowHash;
    DemandedIsDecided(p.rules, c.tree, c.tree[p.ids[j]].share);
    hide AsDemanded, DemandThrows;
  }

  // ---- The pass --------------------------------------------------------------------------------

  lemma Listed(p: Pass, trust: Trust, n: nat, j: nat)
    requires Ready(p, trust) && n <= |p.ids| && j < |p.ids|
    ensures j < |p.answers| && p.ids[j] in p.start.tree && p.ids[j] in After(p, n).tree
    ensures Visited(p, trust, After(p, n)) && Inv(p.rules, trust, After(p, n))
    ensures After(p, n).tree[p.ids[j]].share == p.start.tree[p.ids[j]].share
  {
    AfterVisited(p, trust, n);
    assert p.ids[j] in p.ids;
    hide Inv;
  }

  /** The roots are exactly the shares the daemon contradicts, as the pass leaves them. */
  lemma RootsExact(p: Pass, trust: Trust, j: nat)
    requires Ready(p, trust) && j < |p.ids|
    ensures j < |p.answers| && p.ids[j] in Final(p).tree
    ensures p.ids[j] in Roots(p) <==> Contradicted(p, Final(p).tree, j)
  {
    hide Ready, After, Visited, Inv, Finding, Contradicted, Roots;
    Listed(p, trust, |p.ids|, j);
    FinalFinding(p, trust, j);
    FindingIs(p, trust, Final(p), j);
  }

  /** A share of the pass that the daemon contradicts lies at or above `x`. */
  ghost predicate Tainted(p: Pass, tree: Tree, x: ShareId) {
    exists j: nat | j < |p.ids| && j < |p.answers| && p.ids[j] in tree ::
      Contradicted(p, tree, j) && Descends(tree, x, p.ids[j])
  }

  lemma RootsAreListed(p: Pass, r: ShareId) returns (j: nat)
    requires r in Roots(p)
    ensures j < |p.ids| && p.ids[j] == r
  {
    RootsMembers(p, |p.ids|, r);
    j :| j < |p.ids| && p.ids[j] == r;
  }

  lemma TaintedIsBelow(p: Pass, trust: Trust, x: ShareId)
    requires Ready(p, trust)
    ensures Tainted(p, Final(p).tree, x) <==> Below(Final(p).tree, x, Roots(p))
  {
    hide Ready, Contradicted, Roots, Final, Descends;
    var tree := Final(p).tree;
    if Below(tree, x, Roots(p)) {
      var r :| r in Roots(p) && Descends(tree, x, r);
      var j := RootsAreListed(p, r);
      RootsExact(p, trust, j);
    }
    if Tainted(p, tree, x) {
      var j: nat :| j < |p.ids| && j < |p.answers| && p.ids[j] in tree
        && Contradicted(p, tree, j) && Descends(tree, x, p.ids[j]);
      RootsExact(p, trust, j);
    }
  }

  /** Recovery removes exactly the shares with a contradicted one at or above them; the rest it leaves as
      the pass left them. */
  lemma RecoveredExact(p: Pass, trust: Trust, x: ShareId)
    requires Ready(p, trust)
    ensures Final(p).tree.Keys == p.start.tree.Keys
    ensures x in Recovered(p).tree <==> x in p.start.tree && !Tainted(p, Final(p).tree, x)
    ensures x in Recovered(p).tree ==> Recovered(p).tree[x] == Final(p).tree[x]
    ensures Recovered(p).orphans == p.start.orphans
  {
    FinalTrust(p, trust);
    AfterVisited(p, trust, |p.ids|);
    PruneAllExact(p.rules, trust, Final(p), Roots(p));
    TaintedIsBelow(p, trust, x);
    hide Ready, Inv, TrustOk, Tainted, Roots, After, Below;
  }

  // ---- What becomes validated ------------------------------------------------------------------

  ghost predicate Trusts(c: Chain, x: ShareId) { x in c.tree && c.tree[x].validated }

  lemma FlagStays(p: Pass, trust: Trust, n: nat, x: ShareId)
    requires Ready(p, trust) && n < |p.ids|
    ensures Trusts(After(p, n), x) ==> Trusts(After(p, n + 1), x)
    ensures x != p.ids[n] ==> (Trusts(After(p, n), x) <==> Trusts(After(p, n + 1), x))
  {
    hide Ready, After, Visited, Inv, Finding, OnlyFlag, Trusts;
    AfterVisited(p, trust, n);
    TurnMarks(p, trust, n);
    OneFlag(After(p, n), After(p, n + 1), p.ids[n], x);
  }

  lemma OneFlag(b: Chain, b': Chain, id: ShareId, x: ShareId)
    requires OnlyFlag(b, b', id) && (b' == b || (id in b'.tree && b'.tree[id].validated))
    ensures Trusts(b, x) ==> Trusts(b', x)
    ensures x != id ==> (Trusts(b, x) <==> Trusts(b', x))
  {
  }

  /** A flag changes in the share's own turn only. */
  lemma {:induction false} FlagBefore(p: Pass, trust: Trust, j: nat, n: nat)
    requires Ready(p, trust) && j < |p.ids| && n <= |p.ids|
    ensures n <= j ==> (Trusts(After(p, n), p.ids[j]) <==> Trusts(p.start, p.ids[j]))
    ensures n > j ==> (Trusts(After(p, n), p.ids[j]) <==> Trusts(After(p, j + 1), p.ids[j]))
  {
    hide Ready, After, Trusts;
    FirstStep(p);
    if n > 0 && n != j + 1 {
      FlagBefore(p, trust, j, n - 1);
      FlagStays(p, trust, n - 1, p.ids[j]);
      ReadyDistinct(p, trust);
    }
  }

  lemma {:induction false} FlagsGrow(p: Pass, trust: Trust, j: nat, n: nat, x: ShareId)
    requires Ready(p, trust) && j <= n <= |p.ids| && Trusts(After(p, j), x)
    ensures Trusts(After(p, n), x)
    decreases n - j
  {
    hide Ready, After, Trusts;
    if j < n {
      FlagStays(p, trust, j, x);
      FlagsGrow(p, trust, j + 1, n, x);
    }
  }

  lemma DemandIsLocal(rules: Rules, small: Tree, big: Tree, s: Share)
    requires ParentClosed(small) && SameShares(small, big) && (s.parent == 0 || s.parent in small)
    ensures AsDemanded(rules, small, s) <==> AsDemanded(rules, big, s)
  {
    ExpectedStable(rules, small, big, s.parent, s.networkDifficulty);
    hide Expected;
  }

  lemma SameTrees(p: Pass, trust: Trust, a: Chain, b: Chain)
    requires Visited(p, trust, a) && Visited(p, trust, b)
    ensures ParentClosed(a.tree) && SameShares(a.tree, b.tree)
  {
    TreeOkClosed(p.rules, a.tree);
    hide TreeOk;
  }

  /** What confirms a share in its turn still does when the pass is over. */
  lemma ConfirmedLater(p: Pass, trust: Trust, j: nat)
    requires Ready(p, trust) && j < |p.ids| && j < |p.answers|
    requires p.ids[j] in After(p, j).tree && p.ids[j] in Final(p).tree && Confirmed(p, After(p, j).tree, j)
    ensures Confirmed(p, Final(p).tree, j)
  {
    hide Ready, After, Visited, Inv, Expected, AsDemanded, PowHash;
    var x := p.ids[j];
    Listed(p, trust, j, j);
    Listed(p, trust, |p.ids|, j);
    var a, b := After(p, j), Final(p);
    var s := a.tree[x].share;
    SameTrees(p, trust, a, b);
    if s.parent != 0 {
      FlagsGrow(p, trust, j, |p.ids|, s.parent);
    }
    DemandIsLocal(p.rules, a.tree, b.tree, s);
  }

  lemma MarkedInTurn(p: Pass, trust: Trust, j: nat)
    requires Ready(p, trust) && j < |p.ids| && !p.start.tree[p.ids[j]].validated
    requires p.ids[j] in p.start.tree && p.ids[j] in Final(p).tree && Final(p).tree[p.ids[j]].validated
    ensures Finding(p, After(p, j), j) == Revalidated
  {
    hide Ready, After, Visited, Inv, Finding;
    FlagBefore(p, trust, j, |p.ids|);
    FlagBefore(p, trust, j, j);
    AfterVisited(p, trust, j);
    TurnMarks(p, trust, j);
  }

  /** When the pass is over a share is validated exactly when it was before, or the daemon confirmed its
      work, its parent is validated and the chain's own checks pass. */
  lemma ValidatedExact(p: Pass, trust: Trust, j: nat)
    requires Ready(p, trust) && j < |p.ids|
    ensures j < |p.answers| && p.ids[j] in p.start.tree && p.ids[j] in Final(p).tree
    ensures Final(p).tree[p.ids[j]].validated <==>
      p.start.tree[p.ids[j]].validated || Confirmed(p, Final(p).tree, j)
  {
    hide Ready, After, Visited, Inv, Finding, Confirmed;
    var x := p.ids[j];
    FirstStep(p);
    Listed(p, trust, 0, j);
    Listed(p, trust, j, j);
    Listed(p, trust, |p.ids|, j);
    FinalFinding(p, trust, j);
    FindingIs(p, trust, Final(p), j);
    if p.start.tree[x].validated {
      FlagsGrow(p, trust, 0, |p.ids|, x);
    } else if Final(p).tree[x].validated {
      MarkedInTurn(p, trust, j);
      FindingIs(p, trust, After(p, j), j);
      ConfirmedLater(p, trust, j);
    }
  }

  // ---- The counters ----------------------------------------------------------------------------

  /** The shares listed at some positions. */
  ghost function At(ids: seq<ShareId>, js: set<nat>): set<ShareId> {
    set j | j in js && j < |ids| :: ids[j]
  }

  lemma {:induction false} AtSize(ids: seq<ShareId>, js: set<nat>)
    requires (forall i, j | 0 <= i < j < |ids| :: ids[i] != ids[j]) && (forall j | j in js :: j < |ids|)
    ensures |At(ids, js)| == |js|
    decreases |js|
  {
    if js == {} {
      assert At(ids, js) == {};
    } else {
      var j :| j in js;
      AtSize(ids, js - {j});
      assert At(ids, js) == At(ids, js - {j}) + {ids[j]};
    }
  }

  /** A set of shares is what the turns with verdict `v` are about. */
  lemma TallyIs(p: Pass, trust: Trust, v: Verdict, s: set<ShareId>)
    requires Ready(p, trust)
    requires forall x | x in s :: x in p.ids
    requires forall j: nat | j < |p.ids| :: p.ids[j] in s <==> Finding(p, After(p, j), j) == v
    ensures Tally(p, |p.ids|, v) == |s|
  {
    hide Ready, After, Finding;
    ReadyDistinct(p, trust);
    var js := Turns(p, |p.ids|, v);
    AtSize(p.ids, js);
    assert At(p.ids, js) == s;
  }

  ghost function Before(start: Tree): set<ShareId> { set x | x in start && start[x].validated }

  ghost function Gained(start: Tree, final: Tree): set<ShareId> {
    set x | x in start && !start[x].validated && x in final && final[x].validated
  }

  ghost function Unarchived(final: Tree, e: Evidence): set<ShareId> {
    set x | x in final && !final[x].validated && !Archived(final[x].share, e)
  }

  ghost function Waiting(final: Tree, e: Evidence): set<ShareId> {
    set x | x in final && !final[x].validated && Archived(final[x].share, e) && !TrustedParent(final, final[x].share)
  }

  /** The findings that do not depend on the daemon's answers. */
  lemma FinalFindingIs(p: Pass, trust: Trust, c: Chain, j: nat)
    requires Inv(p.rules, trust, c) && j < |p.ids| && j < |p.answers| && p.ids[j] in c.tree
    requires Configured(p.rules, p.evidence.parameters) && Finding(p, c, j) != Aborts
    ensures Finding(p, c, j) == MissingWork <==> p.ids[j] in Unarchived(c.tree, p.evidence)
    ensures Finding(p, c, j) == ParentNotValidated <==> p.ids[j] in Waiting(c.tree, p.evidence)
  {
    VerdictTable(p.rules, trust, c, p.ids[j], p.evidence, p.answers[j]);
    hide Inv, Judge, PowHash, AsDemanded, DemandThrows, Archived, TrustedParent;
  }

  /** What a turn found, read off the trees before and after the pass. */
  lemma TurnFound(p: Pass, trust: Trust, j: nat)
    requires Ready(p, trust) && j < |p.ids| && NeverAborts(p) && Configured(p.rules, p.evidence.parameters)
    ensures var v, x := Finding(p, After(p, j), j), p.ids[j];
      && (v == WasValidated <==> x in Before(p.start.tree))
      && (v == Revalidated <==> x in Gained(p.start.tree, Final(p).tree))
      && (v == MissingWork <==> x in Unarchived(Final(p).tree, p.evidence))
      && (v == ParentNotValidated <==> x in Waiting(Final(p).tree, p.evidence))
  {
    hide Ready, After, Visited, Inv, Finding, Unarchived, Waiting, Confirmed, Contradicted, Configured;
    assert Finding(p, After(p, j), j) != Aborts;
    Listed(p, trust, j, j);
    Listed(p, trust, |p.ids|, j);
    FinalFinding(p, trust, j);
    FindingIs(p, trust, Final(p), j);
    FinalFindingIs(p, trust, Final(p), j);
    FindingIs(p, trust, After(p, j), j);
    FlagBefore(p, trust, j, j);
  }

  lemma AllListed(p: Pass, trust: Trust)
    requires Ready(p, trust)
    ensures Final(p).tree.Keys == p.start.tree.Keys && |p.start.tree| == |p.ids|
    ensures forall x :: x in p.start.tree <==> x in p.ids
  {
    AfterVisited(p, trust, |p.ids|);
    ListedOnce(p.start, p.ids);
    hide Inv, SoundTrust, After, HeightOrdered;
  }

  lemma ListedOnce(c: Chain, ids: seq<ShareId>)
    requires HeightOrdered(c, ids)
    ensures |c.tree| == |ids| && forall x :: x in c.tree <==> x in ids
  {
    DistinctSize(ids);
    assert c.tree.Keys == Elements(ids);
    assert |c.tree| == |c.tree.Keys|;
  }

  /** What each counter of a completed run counts: the shares that were validated before, those validated
      now, those whose work is not archived, those whose parent is not validated, and those removed. */
  lemma CountersExact(p: Pass, trust: Trust, after: Chain, r: Outcome<Counts>, reached: nat)
    requires Ready(p, trust) && Configured(p.rules, p.evidence.parameters)
    requires RunsPass(p, after, r, reached) && r.Value?
    ensures r.value.considered == |p.start.tree|
    ensures r.value.alreadyValidated == |Before(p.start.tree)|
    ensures r.value.revalidated == |Gained(p.start.tree, Final(p).tree)|
    ensures r.value.missingLocalWork == |Unarchived(Final(p).tree, p.evidence)|
    ensures r.value.parentUnvalidated == |Waiting(Final(p).tree, p.evidence)|
    ensures r.value.considered == r.value.alreadyValidated + r.value.revalidated + r.value.missingLocalWork
                                  + r.value.parentUnvalidated + r.value.rejected
    ensures r.value.pruned == |p.start.tree.Keys - after.tree.Keys|
  {
    hide Ready, After, Finding, Configured, Tally, NeverAborts;
    AllListed(p, trust);
    forall j: nat | j < |p.ids|
      ensures var v, x := Finding(p, After(p, j), j), p.ids[j];
        && (v == WasValidated <==> x in Before(p.start.tree))
        && (v == Revalidated <==> x in Gained(p.start.tree, Final(p).tree))
        && (v == MissingWork <==> x in Unarchived(Final(p).tree, p.evidence))
        && (v == ParentNotValidated <==> x in Waiting(Final(p).tree, p.evidence))
    {
      TurnFound(p, trust, j);
    }
    TallyIs(p, trust, WasValidated, Before(p.start.tree));
    TallyIs(p, trust, Revalidated, Gained(p.start.tree, Final(p).tree));
    TallyIs(p, trust, MissingWork, Unarchived(Final(p).tree, p.evidence));
    TallyIs(p, trust, ParentNotValidated, Waiting(Final(p).tree, p.evidence));
  }
}

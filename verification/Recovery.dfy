/** Restart recovery: one parent-first pass that re-crosses trust for replayed shares, then prunes what
    the local daemon contradicts. */
module Recovery {
  import opened Basics
  import opened Orders
  import opened Shares
  import opened ShareTree
  import opened TreeInvariant
  import opened Restart
  import opened Agreement
  import opened Pruning

  type ProposalId = Hash256

  /** The answer of the local daemon about an archived proposal. */
  datatype Anchor = Matched | ParentMismatch | OtherwiseRejected | AuditAborts

  function ContextOf(s: Share): WorkContext {
    WorkContext(s.zanoHeight, s.header, s.networkDifficulty)
  }

  /** The parameters of this run, the local archive by work context, and the other conditions. */
  datatype Evidence = Evidence(parameters: Hash256, index: map<WorkContext, ProposalId>, now: U64, powAvailable: bool)

  /** What a share's turn finds: whether the archived proposal can be read again, and what the daemon says
      about it before and after. */
  datatype Answers = Answers(readable: bool, initial: Anchor, final: Anchor)

  datatype Verdict =
    | Revalidated
    | WasValidated
    | MissingWork
    | ParametersDiffer
    | ShareMissing
    | ParentNotValidated
    | MismatchRoot
    | Refused
    | Aborts

  // ---- One share -------------------------------------------------------------------------------

  ghost predicate ParentValidated(tree: Tree, s: Share) {
    IsRoot(s) || (s.parent in tree && tree[s.parent].validated)
  }

  /** `revalidate_recovered_share`, for an archived proposal that has the share's own work context. */
  ghost function Cross(rules: Rules, tree: Tree, id: ShareId, e: Evidence, a: Answers): Verdict {
    if !Matches(rules, e.parameters) then ParametersDiffer
    else if id !in tree then ShareMissing
    else if tree[id].validated then WasValidated
    else if !a.readable then Aborts
    else if !ParentValidated(tree, tree[id].share) then ParentNotValidated
    else if a.initial == AuditAborts then Aborts
    else if a.initial == ParentMismatch then MismatchRoot
    else if a.initial != Matched then Refused
    else if a.final == AuditAborts then Aborts
    else if a.final != Matched then Refused
    else
      var verdict := RevalidateVerdict(rules, tree, id, ContextOf(tree[id].share), e.now, e.powAvailable);
      if verdict.Thrown? then Aborts
      else match verdict.value.status
           case Validated => Revalidated
           case AlreadyValidated => WasValidated
           case NotConnected => ShareMissing
           case ParentUnvalidated => ParentNotValidated
           case Rejected => Refused
  }

  /** What recovery finds about one connected share. */
  ghost function Judge(rules: Rules, tree: Tree, id: ShareId, e: Evidence, a: Answers): Verdict
    requires id in tree
  {
    if tree[id].validated then WasValidated
    else if ContextOf(tree[id].share) !in e.index then MissingWork
    else Cross(rules, tree, id, e, a)
  }

  ghost function Visit(rules: Rules, c: Chain, id: ShareId, e: Evidence, a: Answers): Chain
    requires id in c.tree
  {
    if Judge(rules, c.tree, id, e, a) == Revalidated
    then Revalidate(rules, c, id, ContextOf(c.tree[id].share), e.now, e.powAvailable).chain
    else c
  }

  /** A judgement looks at the share, its own flag, its parent's flag, and its ancestors' shares. */
  lemma JudgeIsLocal(rules: Rules, small: Tree, big: Tree, id: ShareId, e: Evidence, a: Answers)
    requires ParentClosed(small) && SameShares(small, big) && id in small
    requires small[id].validated == big[id].validated
    requires !IsRoot(small[id].share) ==> small[small[id].share.parent].validated == big[small[id].share.parent].validated
    ensures Judge(rules, small, id, e, a) == Judge(rules, big, id, e, a)
  {
    var s := small[id].share;
    ExpectedStable(rules, small, big, s.parent, s.networkDifficulty);
    hide ValidateCandidate, Expected, StructuralReason, ParentReason, FutureReason;
  }

  lemma StatusIsVerdict(rules: Rules, tree: Tree, id: ShareId, context: WorkContext, now: U64, powAvailable: bool)
    ensures var verdict := RevalidateVerdict(rules, tree, id, context, now, powAvailable);
      verdict.Value? && verdict.value.status == Validated ==> verdict == Value(RevalidateResult(Validated, Accepted))
  {
  }

  /** Only the record and the flag of one share differ. */
  ghost predicate OnlyFlag(before: Chain, after: Chain, id: ShareId) {
    && after == before.(tree := after.tree) && after.tree.Keys == before.tree.Keys
    && (forall x | x in before.tree && x != id :: after.tree[x] == before.tree[x])
    && (id in before.tree ==>
          after.tree[id].share == before.tree[id].share && after.tree[id].work == before.tree[id].work)
  }

  lemma OnlyFlagSame(before: Chain, after: Chain, id: ShareId)
    requires OnlyFlag(before, after, id)
    ensures SameShares(before.tree, after.tree) && SameShares(after.tree, before.tree)
  {
  }

  lemma MarkIsFlag(c: Chain, id: ShareId, v: Validation)
    requires id in c.tree
    ensures OnlyFlag(c, MarkValidated(c, id, v), id) && MarkValidated(c, id, v).tree[id].validated
  {
  }

  /** A share that revalidates is marked and nothing else changes. */
  lemma VisitMarks(rules: Rules, trust: Trust, c: Chain, id: ShareId, e: Evidence, a: Answers)
    requires SoundTrust(rules, trust) && Inv(rules, trust, c) && id in c.tree
    ensures var c' := Visit(rules, c, id, e, a);
      && Inv(rules, trust, c') && OnlyFlag(c, c', id)
      && if Judge(rules, c.tree, id, e, a) == Revalidated then c'.tree[id].validated else c' == c
  {
    hide Inv, SoundTrust, RevalidateVerdict, MarkValidated, OnlyFlag, ValidateCandidate;
    var context := ContextOf(c.tree[id].share);
    SameIsFlag(c, id);
    if Judge(rules, c.tree, id, e, a) == Revalidated {
      StatusIsVerdict(rules, c.tree, id, context, e.now, e.powAvailable);
      ValidatedIsConnected(rules, c.tree, id, context, e.now, e.powAvailable);
      RevalidateKeepsInv(rules, trust, c, id, context, e.now, e.powAvailable);
      MarkIsFlag(c, id, LocalValidation(rules, c.tree[id].share));
    }
  }

  lemma SameIsFlag(c: Chain, id: ShareId)
    ensures OnlyFlag(c, c, id)
  {
  }

  // ---- The pass --------------------------------------------------------------------------------

  /** A list of all connected shares, lowest first. */
  ghost predicate HeightOrdered(c: Chain, ids: seq<ShareId>) {
    && Distinct(ids) && (forall id :: id in ids <==> id in c.tree)
    && (forall i, j | 0 <= i < j < |ids| && ids[i] in c.tree && ids[j] in c.tree ::
          c.tree[ids[i]].share.height <= c.tree[ids[j]].share.height)
  }

  lemma SortedIds(c: Chain)
    ensures HeightOrdered(c, InHeightOrder(c, Keys(c.tree.Keys)))
  {
    InHeightOrderCorrect(c, Keys(c.tree.Keys));
  }

  /** One recovery pass: where it starts, the shares in order, and what the daemon answers at each turn. */
  datatype Pass = Pass(rules: Rules, start: Chain, ids: seq<ShareId>, evidence: Evidence, answers: seq<Answers>)

  ghost predicate Ready(p: Pass, trust: Trust) {
    && SoundTrust(p.rules, trust) && Inv(p.rules, trust, p.start)
    && HeightOrdered(p.start, p.ids) && |p.ids| == |p.answers|
  }

  /** The chain after the first `n` turns. */
  ghost function After(p: Pass, n: nat): Chain {
    if n == 0 || n > |p.ids| || n > |p.answers| then p.start
    else
      var before := After(p, n - 1);
      if p.ids[n - 1] in before.tree then Visit(p.rules, before, p.ids[n - 1], p.evidence, p.answers[n - 1])
      else before
  }

  /** What would be found about share `j` in chain `c`. */
  ghost function Finding(p: Pass, c: Chain, j: nat): Verdict {
    if j < |p.ids| && j < |p.answers| && p.ids[j] in c.tree
    then Judge(p.rules, c.tree, p.ids[j], p.evidence, p.answers[j]) else Refused
  }

  /** The facts every prefix of the pass keeps. */
  ghost predicate Visited(p: Pass, trust: Trust, c: Chain) {
    && Inv(p.rules, trust, c) && c == p.start.(tree := c.tree) && c.tree.Keys == p.start.tree.Keys
    && SameShares(p.start.tree, c.tree) && SameShares(c.tree, p.start.tree)
    && (forall x | x in c.tree && p.start.tree[x].validated :: c.tree[x].validated)
  }

  lemma VisitedNext(p: Pass, trust: Trust, b: Chain, b': Chain, id: ShareId)
    requires Visited(p, trust, b) && OnlyFlag(b, b', id) && Inv(p.rules, trust, b')
    requires b' == b || (id in b'.tree && b'.tree[id].validated)
    ensures Visited(p, trust, b')
  {
    hide Inv;
  }

  lemma VisitedStart(p: Pass, trust: Trust)
    requires Ready(p, trust)
    ensures Visited(p, trust, After(p, 0))
  {
  }

  /** The share whose turn it is. */
  lemma NextShare(p: Pass, trust: Trust, c: Chain, n: nat)
    requires Ready(p, trust) && Visited(p, trust, c) && n < |p.ids|
    ensures n < |p.answers| && p.ids[n] in c.tree
    ensures SoundTrust(p.rules, trust) && Inv(p.rules, trust, c)
  {
    assert p.ids[n] in p.ids;
  }

  lemma AfterUnfold(p: Pass, n: nat)
    requires n < |p.ids| && n < |p.answers| && p.ids[n] in After(p, n).tree
    ensures After(p, n + 1) == Visit(p.rules, After(p, n), p.ids[n], p.evidence, p.answers[n])
  {
    hide Visit;
  }

  /** One turn. */
  lemma TurnMarks(p: Pass, trust: Trust, n: nat)
    requires Ready(p, trust) && Visited(p, trust, After(p, n)) && n < |p.ids|
    ensures var b, b' := After(p, n), After(p, n + 1);
      && n < |p.answers| && p.ids[n] in b.tree && p.ids[n] in b'.tree && OnlyFlag(b, b', p.ids[n])
      && Inv(p.rules, trust, b')
      && if Finding(p, b, n) == Revalidated then b'.tree[p.ids[n]].validated else b' == b
  {
    hide Ready, Visited, After, Inv, SoundTrust, Visit, Judge;
    NextShare(p, trust, After(p, n), n);
    AfterUnfold(p, n);
    VisitMarks(p.rules, trust, After(p, n), p.ids[n], p.evidence, p.answers[n]);
  }

  lemma {:induction false} AfterVisited(p: Pass, trust: Trust, n: nat)
    requires Ready(p, trust) && n <= |p.ids|
    ensures Visited(p, trust, After(p, n))
  {
    hide Ready, Visited, After, Finding, OnlyFlag, Inv;
    if n == 0 {
      VisitedStart(p, trust);
    } else {
      AfterVisited(p, trust, n - 1);
      TurnMarks(p, trust, n - 1);
      VisitedNext(p, trust, After(p, n - 1), After(p, n), p.ids[n - 1]);
    }
  }

  function Settled(v: Verdict): Verdict { if v == Revalidated then WasValidated else v }

  lemma NotItsParent(rules: Rules, c: Chain, ids: seq<ShareId>, j: nat, n: nat)
    requires TreeOk(rules, c.tree) && HeightOrdered(c, ids) && j < n < |ids|
    ensures ids[j] in c.tree && ids[n] in c.tree && ids[j] != ids[n]
    ensures IsRoot(c.tree[ids[j]].share) || c.tree[ids[j]].share.parent != ids[n]
  {
    assert ids[j] in ids && ids[n] in ids;
    assert NodeOk(rules, c.tree, ids[j]);
  }

  /** A later turn does not change what is found about an earlier share: it is not its parent. */
  lemma LaterTurn(p: Pass, trust: Trust, b: Chain, b': Chain, j: nat, n: nat)
    requires Ready(p, trust) && Visited(p, trust, b) && j < n < |p.ids| && OnlyFlag(b, b', p.ids[n])
    ensures Finding(p, b', j) == Finding(p, b, j)
  {
    NotItsParent(p.rules, p.start, p.ids, j, n);
    OnlyFlagSame(b, b', p.ids[n]);
    TreeOkClosed(p.rules, b.tree);
    hide Inv, HeightOrdered, Judge, SoundTrust;
    JudgeIsLocal(p.rules, b.tree, b'.tree, p.ids[j], p.evidence, p.answers[j]);
  }

  lemma OwnTurn(p: Pass, b: Chain, b': Chain, n: nat)
    requires n < |p.ids| && n < |p.answers| && p.ids[n] in b.tree && p.ids[n] in b'.tree
    requires if Finding(p, b, n) == Revalidated then b'.tree[p.ids[n]].validated else b' == b
    ensures Finding(p, b', n) == Settled(Finding(p, b, n))
  {
  }

  /** Once a share has had its turn, nothing later in the pass changes what would be found about it. */
  lemma {:induction false} StaysSettled(p: Pass, trust: Trust, j: nat, n: nat)
    requires Ready(p, trust) && j < n <= |p.ids|
    ensures Finding(p, After(p, n), j) == Settled(Finding(p, After(p, j), j))
    decreases n
  {
    hide Ready, Visited, After, Finding, OnlyFlag, Inv;
    AfterVisited(p, trust, n - 1);
    TurnMarks(p, trust, n - 1);
    if j == n - 1 {
      OwnTurn(p, After(p, j), After(p, n), j);
    } else {
      StaysSettled(p, trust, j, n - 1);
      LaterTurn(p, trust, After(p, n - 1), After(p, n), j, n - 1);
    }
  }

  // ---- The mismatch roots ----------------------------------------------------------------------

  /** The shares among the first `n` whose work the daemon contradicts, in order. */
  ghost function RootsUpTo(p: Pass, n: nat): seq<ShareId> {
    if n == 0 || n > |p.ids| then []
    else RootsUpTo(p, n - 1) + if Finding(p, After(p, n - 1), n - 1) == MismatchRoot then [p.ids[n - 1]] else []
  }

  ghost function Final(p: Pass): Chain { After(p, |p.ids|) }
  ghost function Roots(p: Pass): seq<ShareId> { RootsUpTo(p, |p.ids|) }

  /** None of the first `n` turns ends in an exception. */
  ghost predicate NoAbortUpTo(p: Pass, n: nat) {
    forall j: nat | j < n && j < |p.ids| :: Finding(p, After(p, j), j) != Aborts
  }

  ghost predicate NeverAborts(p: Pass) { NoAbortUpTo(p, |p.ids|) }

  /** The chain a completed recovery leaves behind. */
  ghost function Recovered(p: Pass): Chain { PruneAll(Final(p), Roots(p)) }

  lemma {:induction false} RootsMembers(p: Pass, n: nat, x: ShareId)
    requires n <= |p.ids|
    ensures x in RootsUpTo(p, n) <==>
      exists j: nat :: j < n && p.ids[j] == x && Finding(p, After(p, j), j) == MismatchRoot
  {
    hide Finding, After;
    if n > 0 {
      RootsMembers(p, n - 1, x);
    }
  }

  /** After the pass, every share is settled: none would revalidate, and the roots are exactly the shares
      found to be mismatched. */
  lemma FinalFinding(p: Pass, trust: Trust, j: nat)
    requires Ready(p, trust) && j < |p.ids|
    ensures Finding(p, Final(p), j) == Settled(Finding(p, After(p, j), j)) != Revalidated
    ensures p.ids[j] in Roots(p) <==> Finding(p, Final(p), j) == MismatchRoot
  {
    StaysSettled(p, trust, j, |p.ids|);
    RootsMembers(p, |p.ids|, p.ids[j]);
    ReadyDistinct(p, trust);
    hide Ready, Finding, After;
    if p.ids[j] in Roots(p) {
      var k: nat :| k < |p.ids| && p.ids[k] == p.ids[j] && Finding(p, After(p, k), k) == MismatchRoot;
      assert k == j;
    }
  }

  lemma ReadyDistinct(p: Pass, trust: Trust)
    requires Ready(p, trust)
    ensures forall i, j | 0 <= i < j < |p.ids| :: p.ids[i] != p.ids[j]
  {
  }

  lemma {:induction false} ValidatedAncestors(rules: Rules, trust: Trust, tree: Tree, x: ShareId, r: ShareId)
    requires TrustOk(rules, trust, tree) && Descends(tree, x, r) && tree[x].validated
    ensures r in tree && tree[r].validated
    decreases tree[x].share.height
  {
    assert NodeTrusted(rules, trust, tree, x);
    if x != r {
      ValidatedAncestors(rules, trust, tree, tree[x].share.parent, r);
    }
  }

  lemma MismatchMeans(p: Pass, c: Chain, j: nat)
    requires Finding(p, c, j) == MismatchRoot
    ensures j < |p.ids| && p.ids[j] in c.tree && !c.tree[p.ids[j]].validated
    ensures ParentValidated(c.tree, c.tree[p.ids[j]].share)
  {
    hide RevalidateVerdict;
  }

  lemma RootFacts(p: Pass, trust: Trust, r: ShareId)
    requires Ready(p, trust) && r in Roots(p)
    ensures r in Final(p).tree && !Final(p).tree[r].validated
    ensures ParentValidated(Final(p).tree, Final(p).tree[r].share)
  {
    hide Ready, Finding, After, ParentValidated;
    RootsMembers(p, |p.ids|, r);
    var j: nat :| j < |p.ids| && p.ids[j] == r && Finding(p, After(p, j), j) == MismatchRoot;
    FinalFinding(p, trust, j);
    MismatchMeans(p, Final(p), j);
  }

  lemma FinalTrust(p: Pass, trust: Trust)
    requires Ready(p, trust)
    ensures Inv(p.rules, trust, Final(p)) && TrustOk(p.rules, trust, Final(p).tree)
  {
    AfterVisited(p, trust, |p.ids|);
  }

  /** Mismatch roots are never ancestors of one another, whatever the daemon answers. */
  lemma RootsNotNested(p: Pass, trust: Trust, r: ShareId, q: ShareId)
    requires Ready(p, trust) && r in Roots(p) && q in Roots(p) && r != q
    ensures !Descends(Final(p).tree, q, r)
  {
    RootFacts(p, trust, r);
    RootFacts(p, trust, q);
    FinalTrust(p, trust);
    hide Ready, Roots, Final, Inv, TrustOk;
    if Descends(Final(p).tree, q, r) {
      var parent := Final(p).tree[q].share.parent;
      ValidatedAncestors(p.rules, trust, Final(p).tree, parent, r);
    }
  }

  /** Recovery's pruning never removes a validated share. */
  lemma PruningSparesValidated(p: Pass, trust: Trust, x: ShareId)
    requires Ready(p, trust) && x in Final(p).tree && Final(p).tree[x].validated
    ensures x in Recovered(p).tree && Recovered(p).tree[x] == Final(p).tree[x]
  {
    FinalTrust(p, trust);
    PruneAllExact(p.rules, trust, Final(p), Roots(p));
    if Below(Final(p).tree, x, Roots(p)) {
      var r :| r in Roots(p) && Descends(Final(p).tree, x, r);
      RootFacts(p, trust, r);
      hide Ready, Roots, Final, Inv, TrustOk;
      ValidatedAncestors(p.rules, trust, Final(p).tree, x, r);
    }
  }

  // ---- One pass is enough ----------------------------------------------------------------------

  /** The archive and the daemon answer the same for the same proposal. */
  ghost predicate Consistently(p: Pass, audit: ProposalId -> Answers) {
    forall j | 0 <= j < |p.ids| && j < |p.answers| && p.ids[j] in p.start.tree ::
      var context := ContextOf(p.start.tree[p.ids[j]].share);
      context in p.evidence.index ==> p.answers[j] == audit(p.evidence.index[context])
  }

  lemma AnswersOnlyIfIndexed(rules: Rules, tree: Tree, id: ShareId, e: Evidence, a: Answers, b: Answers)
    requires id in tree && (ContextOf(tree[id].share) in e.index ==> a == b)
    ensures Judge(rules, tree, id, e, a) == Judge(rules, tree, id, e, b)
  {
    hide RevalidateVerdict;
  }

  /** The second pass runs on what the first one left, under the same conditions. */
  ghost predicate Repeats(p: Pass, again: Pass, trust: Trust, audit: ProposalId -> Answers) {
    && Ready(p, trust) && Consistently(p, audit)
    && again.rules == p.rules && again.evidence == p.evidence && again.start == Recovered(p)
    && HeightOrdered(again.start, again.ids) && |again.ids| == |again.answers|
    && Consistently(again, audit)
  }

  lemma AgainReady(p: Pass, again: Pass, trust: Trust, audit: ProposalId -> Answers)
    requires Repeats(p, again, trust, audit)
    ensures Ready(again, trust)
    ensures Pruned(Final(p).tree, again.start.tree)
    ensures forall x | x in again.start.tree :: x !in Roots(p)
  {
    FinalTrust(p, trust);
    PruneAllExact(p.rules, trust, Final(p), Roots(p));
    forall x | x in again.start.tree
      ensures x !in Roots(p)
    {
      assert x in Final(p).tree;
      assert x in Roots(p) ==> Below(Final(p).tree, x, Roots(p));
    }
  }

  lemma WasListed(p: Pass, trust: Trust, x: ShareId) returns (j: nat)
    requires Ready(p, trust) && x in Final(p).tree
    ensures j < |p.ids| && p.ids[j] == x && p.ids[j] in p.start.tree
    ensures Final(p).tree[x].share == p.start.tree[x].share
  {
    AfterVisited(p, trust, |p.ids|);
    assert x in p.ids;
    j :| 0 <= j < |p.ids| && p.ids[j] == x;
  }

  /** What the second pass finds about a share is what the first one settled on. */
  lemma FoundAgain(p: Pass, again: Pass, trust: Trust, audit: ProposalId -> Answers, k: nat)
    requires Repeats(p, again, trust, audit) && k < |again.ids|
    ensures Finding(again, again.start, k) != Revalidated && Finding(again, again.start, k) != MismatchRoot
    ensures NeverAborts(p) ==> Finding(again, again.start, k) != Aborts
  {
    AgainReady(p, again, trust, audit);
    var x := again.ids[k];
    assert x in again.ids && x in again.start.tree && x in Final(p).tree;
    var j := WasListed(p, trust, x);
    FinalFinding(p, trust, j);
    var small, big := again.start.tree, Final(p).tree;
    PrunedSame(big, small);
    hide Final, Roots, Recovered, Judge, Ready, HeightOrdered;
    JudgeIsLocal(p.rules, small, big, x, p.evidence, again.answers[k]);
    AnswersOnlyIfIndexed(p.rules, big, x, p.evidence, again.answers[k], p.answers[j]);
  }

  lemma PrunedSame(tree: Tree, part: Tree)
    requires Pruned(tree, part)
    ensures ParentClosed(part) && SameShares(part, tree)
  {
  }

  lemma FirstStep(p: Pass)
    ensures After(p, 0) == p.start && RootsUpTo(p, 0) == []
  {
  }

  lemma RootsUnfold(p: Pass, n: nat)
    requires n < |p.ids|
    ensures RootsUpTo(p, n + 1) ==
      RootsUpTo(p, n) + if Finding(p, After(p, n), n) == MismatchRoot then [p.ids[n]] else []
  {
    hide Finding, After;
  }

  lemma {:induction false} SecondPassStays(p: Pass, again: Pass, trust: Trust, audit: ProposalId -> Answers, n: nat)
    requires Repeats(p, again, trust, audit) && n <= |again.ids|
    ensures After(again, n) == again.start && RootsUpTo(again, n) == []
  {
    hide Repeats, Finding, Inv, After, RootsUpTo, Ready, Visited, OnlyFlag;
    if n == 0 {
      FirstStep(again);
    } else {
      SecondPassStays(p, again, trust, audit, n - 1);
      FoundAgain(p, again, trust, audit, n - 1);
      AgainReady(p, again, trust, audit);
      AfterVisited(again, trust, n - 1);
      TurnMarks(again, trust, n - 1);
      RootsUnfold(again, n - 1);
    }
  }

  /** One height-ordered pass reaches the fixpoint: a second run over the same archive, with the same
      daemon answers and time, revalidates nothing, prunes nothing, and ends in an exception only if the
      first one did. */
  lemma OnePassIsEnough(p: Pass, again: Pass, trust: Trust, audit: ProposalId -> Answers)
    requires Repeats(p, again, trust, audit)
    ensures Final(again) == Recovered(p) && Roots(again) == [] && Recovered(again) == Recovered(p)
    ensures forall j: nat | j < |again.ids| :: Finding(again, After(again, j), j) != Revalidated
    ensures NeverAborts(p) ==> NeverAborts(again)
  {
    SecondPassStays(p, again, trust, audit, |again.ids|);
    hide Finding, After, Recovered, Repeats;
    forall j: nat | j < |again.ids|
      ensures Finding(again, After(again, j), j) != Revalidated
      ensures NeverAborts(p) ==> Finding(again, After(again, j), j) != Aborts
    {
      SecondPassStays(p, again, trust, audit, j);
      FoundAgain(p, again, trust, audit, j);
    }
  }
}

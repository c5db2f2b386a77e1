/** `recover_replayed_history`: the recovery pass run on a share chain. */
module RestartRecovery {
  import opened Basics
  import opened Orders
  import opened Shares
  import opened ShareTree
  import opened TreeInvariant
  import opened Restart
  import opened Agreement
  import opened Pruning
  import opened ShareChains
  import opened Recovery

  // ---- The work index --------------------------------------------------------------------------

  datatype Proposal = Proposal(id: ProposalId, context: WorkContext)

  /** For every archived work context, the smallest proposal that has it. */
  ghost predicate IsWorkIndex(proposals: seq<Proposal>, index: map<WorkContext, ProposalId>) {
    && (forall context | context in index :: Proposal(index[context], context) in proposals)
    && (forall p | p in proposals :: p.context in index && index[p.context] <= p.id)
  }

  method BuildWorkIndex(proposals: seq<Proposal>) returns (index: map<WorkContext, ProposalId>)
    ensures IsWorkIndex(proposals, index)
  {
    index := map[];
    for i := 0 to |proposals|
      invariant IsWorkIndex(proposals[..i], index)
    {
      var p := proposals[i];
      assert proposals[..i + 1] == proposals[..i] + [p];
      if p.context !in index || p.id < index[p.context] {
        index := index[p.context := p.id];
      }
    }
    assert proposals[..|proposals|] == proposals;
  }

  /** The index does not depend on the order in which the archive is listed. */
  lemma WorkIndexUnique(a: seq<Proposal>, b: seq<Proposal>, x: map<WorkContext, ProposalId>, y: map<WorkContext, ProposalId>)
    requires IsWorkIndex(a, x) && IsWorkIndex(b, y) && forall p :: p in a <==> p in b
    ensures x == y
  {
    forall context | context in x
      ensures context in y && x[context] == y[context]
    {
      var p := Proposal(x[context], context);
      assert p in a && p in b && context in y;
      var q := Proposal(y[context], context);
      assert q in b && q in a;
    }
    forall context | context in y
      ensures context in x
    {
      assert Proposal(y[context], context) in b;
    }
  }

  // ---- One share -------------------------------------------------------------------------------

  /** Revalidation that does not succeed leaves the chain alone. */
  lemma RevalidateOrNot(rules: Rules, c: Chain, id: ShareId, e: Evidence, a: Answers)
    requires MayCross(rules, c.tree, id, e) && Agreeing(a) && Cross(rules, c.tree, id, e, a) != Revalidated
    ensures Revalidate(rules, c, id, ContextOf(c.tree[id].share), e.now, e.powAvailable).chain == c
  {
    hide RevalidateVerdict;
  }

  /** Everything but the daemon and the chain's own checks allows the share to be revalidated. */
  ghost predicate MayCross(rules: Rules, tree: Tree, id: ShareId, e: Evidence) {
    && Matches(rules, e.parameters)
    && id in tree && !tree[id].validated && ParentValidated(tree, tree[id].share)
  }

  predicate Agreeing(a: Answers) { a.readable && a.initial == Matched && a.final == Matched }

  lemma StatusOfVerdict(
    rules: Rules, tree: Tree, id: ShareId, e: Evidence, a: Answers, r: Outcome<RevalidateResult>)
    requires MayCross(rules, tree, id, e) && Agreeing(a)
    requires r == RevalidateVerdict(rules, tree, id, ContextOf(tree[id].share), e.now, e.powAvailable)
    ensures Cross(rules, tree, id, e, a) ==
      if r.Thrown? then Aborts
      else match r.value.status
           case Validated => Revalidated
           case AlreadyValidated => WasValidated
           case NotConnected => ShareMissing
           case ParentUnvalidated => ParentNotValidated
           case Rejected => Refused
  {
    hide RevalidateVerdict;
  }

  /** The state after crossing one share. */
  ghost function Crossed(rules: Rules, c: Chain, id: ShareId, e: Evidence, a: Answers): Chain {
    if Cross(rules, c.tree, id, e, a) == Revalidated
    then Revalidate(rules, c, id, ContextOf(c.tree[id].share), e.now, e.powAvailable).chain else c
  }

  /** `revalidate_recovered_share`. */
  method RevalidateRecoveredShare(chain: ShareChain, id: ShareId, e: Evidence, a: Answers) returns (verdict: Verdict)
    requires chain.Valid()
    modifies chain`connected
    ensures chain.Valid()
    ensures verdict == Cross(chain.rules, old(chain.Model()).tree, id, e, a)
    ensures chain.Model() == Crossed(chain.rules, old(chain.Model()), id, e, a)
  {
    ghost var before := chain.Model();
    SameConnected(chain);
    hide Inv, IndexOk, Unindexed, TreeOf, Revalidate, RevalidateVerdict;
    if !Matches(chain.rules, e.parameters) {
      return ParametersDiffer;
    }
    if id !in chain.connected {
      return ShareMissing;
    }
    if chain.connected[id].validated {
      return WasValidated;
    }
    if !a.readable {
      return Aborts;
    }
    var share := chain.connected[id].share;
    if !IsRoot(share) && (share.parent !in chain.connected || !chain.connected[share.parent].validated) {
      return ParentNotValidated;
    }
    if a.initial == AuditAborts {
      return Aborts;
    }
    if a.initial != Matched {
      return if a.initial == ParentMismatch then MismatchRoot else Refused;
    }
    if a.final == AuditAborts {
      return Aborts;
    }
    if a.final != Matched {
      return Refused;
    }
    verdict := CrossTrust(chain, id, e, a);
  }

  lemma SameConnected(chain: ShareChain)
    ensures forall p :: p in chain.Model().tree <==> p in chain.connected
    ensures forall p | p in chain.connected ::
      && chain.Model().tree[p].validated == chain.connected[p].validated
      && chain.Model().tree[p].share == chain.connected[p].share
  {
  }

  /** The last step: rerun the chain's own checks in the archived context. */
  method CrossTrust(chain: ShareChain, id: ShareId, e: Evidence, ghost a: Answers) returns (verdict: Verdict)
    requires chain.Valid() && id in chain.connected
    requires MayCross(chain.rules, chain.Model().tree, id, e) && Agreeing(a)
    requires chain.Model().tree[id].share == chain.connected[id].share
    modifies chain`connected
    ensures chain.Valid()
    ensures verdict == Cross(chain.rules, old(chain.Model()).tree, id, e, a)
    ensures chain.Model() == Crossed(chain.rules, old(chain.Model()), id, e, a)
  {
    ghost var before := chain.Model();
    hide Inv, IndexOk, Unindexed, TreeOf, RevalidateVerdict, Cross, MarkValidated;
    var context := ContextOf(chain.connected[id].share);
    var r := chain.RevalidateConnectedShare(id, context, e.now, e.powAvailable);
    StatusOfVerdict(chain.rules, before.tree, id, e, a, r);
    if Cross(chain.rules, before.tree, id, e, a) != Revalidated {
      RevalidateOrNot(chain.rules, before, id, e, a);
    }
    if r.Thrown? {
      return Aborts;
    }
    match r.value.status
    case Validated => verdict := Revalidated;
    case AlreadyValidated => verdict := WasValidated;
    case NotConnected => verdict := ShareMissing;
    case ParentUnvalidated => verdict := ParentNotValidated;
    case Rejected => verdict := Refused;
  }

  /** The loop body for one share: look up its work, then revalidate it. */
  method RecoverShare(chain: ShareChain, id: ShareId, e: Evidence, a: Answers) returns (verdict: Verdict)
    requires chain.Valid() && id in chain.connected
    modifies chain`connected
    ensures chain.Valid()
    ensures id in old(chain.Model()).tree
    ensures verdict == Judge(chain.rules, old(chain.Model()).tree, id, e, a)
    ensures chain.Model() == Visit(chain.rules, old(chain.Model()), id, e, a)
  {
    SameConnected(chain);
    hide Inv, IndexOk, Unindexed, TreeOf, Revalidate, Cross;
    if chain.connected[id].validated {
      return WasValidated;
    }
    if ContextOf(chain.connected[id].share) !in e.index {
      return MissingWork;
    }
    verdict := RevalidateRecoveredShare(chain, id, e, a);
  }

  // ---- The whole run ---------------------------------------------------------------------------

  datatype Counts = Counts(
    considered: nat,
    revalidated: nat,
    alreadyValidated: nat,
    missingLocalWork: nat,
    parentUnvalidated: nat,
    rejected: nat,
    pruned: nat)

  const NO_COUNTS := Counts(0, 0, 0, 0, 0, 0, 0)

  function Counted(k: Counts, v: Verdict): Counts {
    var k := k.(considered := k.considered + 1);
    match v
    case Revalidated => k.(revalidated := k.revalidated + 1)
    case WasValidated => k.(alreadyValidated := k.alreadyValidated + 1)
    case MissingWork => k.(missingLocalWork := k.missingLocalWork + 1)
    case ParentNotValidated => k.(parentUnvalidated := k.parentUnvalidated + 1)
    case ParametersDiffer => k.(rejected := k.rejected + 1)
    case ShareMissing => k.(rejected := k.rejected + 1)
    case MismatchRoot => k.(rejected := k.rejected + 1)
    case Refused => k.(rejected := k.rejected + 1)
    case Aborts => k
  }

  /** Every share considered is counted once. */
  predicate AddsUp(k: Counts) {
    k.considered == k.revalidated + k.alreadyValidated + k.missingLocalWork + k.parentUnvalidated + k.rejected
  }

  /** The turns among the first `n` that end with verdict `v`. */
  ghost function Turns(p: Pass, n: nat, v: Verdict): set<nat> {
    set j: nat | j < n && Finding(p, After(p, j), j) == v
  }

  ghost function Tally(p: Pass, n: nat, v: Verdict): nat { |Turns(p, n, v)| }

  lemma TallyNext(p: Pass, n: nat, v: Verdict)
    ensures Tally(p, n + 1, v) == Tally(p, n, v) + if Finding(p, After(p, n), n) == v then 1 else 0
  {
    hide Finding, After;
    if Finding(p, After(p, n), n) == v {
      assert Turns(p, n + 1, v) == Turns(p, n, v) + {n};
    } else {
      assert Turns(p, n + 1, v) == Turns(p, n, v);
    }
  }

  lemma TallyNone(p: Pass, v: Verdict)
    ensures Tally(p, 0, v) == 0
  {
    hide Finding, After;
    assert Turns(p, 0, v) == {};
  }

  /** Each counter holds the number of turns with its verdict. */
  ghost predicate CountsTurns(p: Pass, n: nat, k: Counts) {
    && k.considered == n
    && k.revalidated == Tally(p, n, Revalidated) && k.alreadyValidated == Tally(p, n, WasValidated)
    && k.missingLocalWork == Tally(p, n, MissingWork) && k.parentUnvalidated == Tally(p, n, ParentNotValidated)
    && k.rejected == Tally(p, n, MismatchRoot) + Tally(p, n, Refused) + Tally(p, n, ParametersDiffer)
                     + Tally(p, n, ShareMissing)
  }

  lemma CountsNext(p: Pass, n: nat, k: Counts, v: Verdict)
    requires CountsTurns(p, n, k) && v == Finding(p, After(p, n), n) && v != Aborts
    ensures CountsTurns(p, n + 1, Counted(k, v))
  {
    hide Finding, After, Tally;
    forall w: Verdict
      ensures Tally(p, n + 1, w) == Tally(p, n, w) + if v == w then 1 else 0
    {
      TallyNext(p, n, w);
    }
  }

  /** The pass this call performs. */
  ghost function PassOf(chain: ShareChain, e: Evidence, answers: seq<Answers>): Pass
    reads chain
  {
    Pass(chain.rules, chain.Model(), InHeightOrder(chain.Model(), Keys(chain.Model().tree.Keys)), e, answers)
  }

  lemma PassReady(chain: ShareChain, e: Evidence, answers: seq<Answers>)
    requires chain.Valid() && |answers| == |chain.connected|
    ensures Ready(PassOf(chain, e, answers), ConsistentRecords())
  {
    var c := chain.Model();
    TrustsAreSound(chain.rules);
    SortedIds(c);
    InHeightOrderCorrect(c, Keys(c.tree.Keys));
    assert c.tree.Keys == chain.connected.Keys;
    hide Inv, SoundTrust, HeightOrdered, InHeightOrder, Keys;
    SameMembers(InHeightOrder(c, Keys(c.tree.Keys)), Keys(c.tree.Keys));
  }

  /** The daemon's answer or the chain's own check throws at turn `n`. */
  ghost predicate AbortsAt(p: Pass, n: nat) {
    n < |p.ids| && Finding(p, After(p, n), n) == Aborts
  }

  /** What a run of the pass leaves and reports: the recovered chain and the counters, or the state at the
      turn that threw. */
  ghost predicate RunsPass(p: Pass, after: Chain, r: Outcome<Counts>, reached: nat) {
    if r.Value?
    then
      && NeverAborts(p) && after == Recovered(p)
      && AddsUp(r.value) && CountsTurns(p, |p.ids|, r.value)
      && CountsRemovals(Final(p).tree, after.tree, r.value.pruned)
    else AbortsAt(p, reached) && after == After(p, reached)
  }

  /** A run after a completed one, with the same parameters, archive, answers and time, completes too: it
      revalidates nothing, prunes nothing and leaves the chain as it is. */
  lemma SecondRunIsIdle(
    p: Pass, again: Pass, trust: Trust, audit: ProposalId -> Answers, after: Chain, first: Outcome<Counts>,
    second: Outcome<Counts>, reached: nat)
    requires Repeats(p, again, trust, audit) && first.Value? && RunsPass(p, again.start, first, 0)
    requires RunsPass(again, after, second, reached)
    ensures second.Value? && second.value.revalidated == 0 && second.value.pruned == 0 && after == again.start
  {
    OnePassIsEnough(p, again, trust, audit);
    hide Finding, After, Final, Roots, Repeats, AddsUp;
    assert second.Value?;
    NothingRemoved(Recovered(p).tree, second.value.pruned);
    NoneTallied(again, |again.ids|, Revalidated);
  }

  lemma NothingRemoved(tree: Tree, pruned: nat)
    requires CountsRemovals(tree, tree, pruned)
    ensures pruned == 0
  {
    assert tree.Keys - tree.Keys == {};
  }

  lemma NoneTallied(p: Pass, n: nat, v: Verdict)
    requires forall j: nat | j < n :: Finding(p, After(p, j), j) != v
    ensures Tally(p, n, v) == 0
  {
    hide Finding, After;
    assert Turns(p, n, v) == {};
  }

  /** The turn of share `i`. */
  method TakeTurn(chain: ShareChain, id: ShareId, e: Evidence, a: Answers, ghost p: Pass, ghost i: nat)
    returns (verdict: Verdict)
    requires chain.Valid() && chain.rules == p.rules && chain.Model() == After(p, i)
    requires Ready(p, ConsistentRecords()) && i < |p.ids| && id == p.ids[i] && e == p.evidence
    requires i < |p.answers| && a == p.answers[i]
    modifies chain`connected
    ensures chain.Valid() && verdict == Finding(p, After(p, i), i)
    ensures chain.Model() == After(p, i + 1) && (verdict == Aborts ==> chain.Model() == After(p, i))
  {
    hide Ready, After, Visit, Finding, Inv, IndexOk, Unindexed, TreeOf, Visited;
    AfterVisited(p, ConsistentRecords(), i);
    NextShare(p, ConsistentRecords(), After(p, i), i);
    StillThere(chain, id);
    FindingIs(p, After(p, i), i);
    AfterUnfold(p, i);
    verdict := RecoverShare(chain, id, e, a);
    if verdict == Aborts {
      VisitUnlessRevalidated(p.rules, After(p, i), id, e, a);
    }
  }

  /** The recovery pass over the shares, lowest first. */
  method VisitAll(chain: ShareChain, ids: seq<ShareId>, e: Evidence, answers: seq<Answers>, ghost p: Pass)
    returns (ok: bool, roots: seq<ShareId>, counts: Counts, ghost reached: nat)
    requires chain.Valid() && chain.rules == p.rules && chain.Model() == p.start
    requires ids == p.ids && e == p.evidence && answers == p.answers && Ready(p, ConsistentRecords())
    modifies chain`connected
    ensures chain.Valid() && AddsUp(counts)
    ensures ok ==> chain.Model() == Final(p) && roots == Roots(p) && CountsTurns(p, |ids|, counts) && NeverAborts(p)
    ensures !ok ==> AbortsAt(p, reached) && chain.Model() == After(p, reached)
  {
    hide Ready, After, Finding, RootsUpTo, Inv, IndexOk, Unindexed, TreeOf, AddsUp, Counted, CountsTurns;
    ok, roots, counts, reached := true, [], NO_COUNTS, 0;
    NothingAdds();
    NothingCounted(p);
    FirstStep(p);
    ReadyLengths(p, ConsistentRecords());
    for i := 0 to |ids|
      invariant chain.Valid() && chain.Model() == After(p, i)
      invariant roots == RootsUpTo(p, i) && CountsTurns(p, i, counts) && AddsUp(counts) && NoAbortUpTo(p, i)
    {
      RootsUnfold(p, i);
      var verdict := TakeTurn(chain, ids[i], e, answers[i], p, i);
      if verdict == Aborts {
        ok, reached := false, i;
        return;
      }
      if verdict == MismatchRoot {
        roots := roots + [ids[i]];
      }
      CountedAdds(counts, verdict);
      CountsNext(p, i, counts, verdict);
      counts := Counted(counts, verdict);
    }
  }

  lemma NothingAdds()
    ensures AddsUp(NO_COUNTS)
  {
  }

  lemma NothingCounted(p: Pass)
    ensures CountsTurns(p, 0, NO_COUNTS)
  {
    hide Finding, After, Tally;
    forall v: Verdict
      ensures Tally(p, 0, v) == 0
    {
      TallyNone(p, v);
    }
  }

  lemma CountedAdds(k: Counts, v: Verdict)
    requires AddsUp(k) && v != Aborts
    ensures AddsUp(Counted(k, v))
  {
  }

  lemma ReadyLengths(p: Pass, trust: Trust)
    requires Ready(p, trust)
    ensures |p.answers| == |p.ids|
  {
  }

  lemma StillThere(chain: ShareChain, id: ShareId)
    requires id in chain.Model().tree
    ensures id in chain.connected
  {
  }

  lemma FindingIs(p: Pass, c: Chain, i: nat)
    requires i < |p.ids| && i < |p.answers| && p.ids[i] in c.tree
    ensures Finding(p, c, i) == Judge(p.rules, c.tree, p.ids[i], p.evidence, p.answers[i])
  {
  }

  lemma VisitUnlessRevalidated(rules: Rules, c: Chain, id: ShareId, e: Evidence, a: Answers)
    requires id in c.tree && Judge(rules, c.tree, id, e, a) != Revalidated
    ensures Visit(rules, c, id, e, a) == c
  {
  }

  method PruneRoots(chain: ShareChain, roots: seq<ShareId>) returns (pruned: nat)
    requires chain.Valid()
    modifies chain`connected, chain`bestTip
    ensures chain.Valid() && chain.Model() == PruneAll(old(chain.Model()), roots)
    ensures CountsRemovals(old(chain.Model()).tree, chain.Model().tree, pruned)
  {
    pruned := 0;
    ghost var before := chain.Model();
    hide Inv, IndexOk, Unindexed, TreeOf, Prune, CountsRemovals;
    PruneNone(before, roots);
    for i := 0 to |roots|
      invariant chain.Valid() && chain.Model() == PruneAll(before, roots[..i])
      invariant CountsRemovals(before.tree, chain.Model().tree, pruned)
    {
      PruneNext(before, roots, i);
      pruned := PruneOneRoot(chain, roots[i], before.tree, pruned);
    }
    assert roots[..|roots|] == roots;
  }

  method PruneOneRoot(chain: ShareChain, root: ShareId, ghost before: Tree, pruned: nat) returns (total: nat)
    requires chain.Valid() && CountsRemovals(before, chain.Model().tree, pruned)
    modifies chain`connected, chain`bestTip
    ensures chain.Valid() && chain.Model() == Prune(old(chain.Model()), root)
    ensures CountsRemovals(before, chain.Model().tree, total)
  {
    ghost var c := chain.Model();
    assert root in chain.connected <==> root in c.tree;
    PruneMissing(c, root);
    hide Inv, IndexOk, Unindexed, TreeOf, Prune, CountsRemovals, Keys;
    var removed := chain.PruneConnectedSubtreeIds(root);
    if root in c.tree {
      PrunedIds(c, root, removed);
      RemovalsAdd(before, c.tree, chain.Model().tree, pruned, removed);
    }
    total := pruned + |removed|;
  }

  lemma PruneMissing(c: Chain, root: ShareId)
    ensures root !in c.tree ==> Prune(c, root) == c
  {
  }

  lemma PruneNone(c: Chain, roots: seq<ShareId>)
    ensures PruneAll(c, roots[..0]) == c && CountsRemovals(c.tree, c.tree, 0)
  {
    assert c.tree.Keys - c.tree.Keys == {};
  }

  lemma PruneNext(c: Chain, roots: seq<ShareId>, i: nat)
    requires i < |roots|
    ensures PruneAll(c, roots[..i + 1]) == Prune(PruneAll(c, roots[..i]), roots[i])
  {
    hide Prune;
    assert roots[..i + 1][..i] == roots[..i];
  }

  /** The program: check the parameters, read and index the whole archive, visit every connected share
      parent-first, then prune the mismatch roots.  If the parameters differ or the archive cannot be
      read, nothing changes.  If anything throws later, the shares revalidated so far stay so and nothing
      is pruned. */
  method RecoverReplayedHistory(
    chain: ShareChain, parameters: Hash256, archive: Outcome<seq<Proposal>>, now: U64, powAvailable: bool,
    answers: seq<Answers>)
    returns (r: Outcome<Counts>, ghost e: Evidence, ghost reached: nat)
    requires chain.Valid() && |answers| == |chain.connected|
    modifies chain`connected, chain`bestTip
    ensures chain.Valid()
    ensures !Matches(chain.rules, parameters) || archive.Thrown? ==> r.Thrown? && chain.Model() == old(chain.Model())
    ensures Matches(chain.rules, parameters) && archive.Value? ==>
      && e == Evidence(parameters, e.index, now, powAvailable) && IsWorkIndex(archive.value, e.index)
      && RunsPass(old(PassOf(chain, e, answers)), chain.Model(), r, reached)
  {
    r, e, reached := Thrown, Evidence(parameters, map[], now, powAvailable), 0;
    if !Matches(chain.rules, parameters) || archive.Thrown? {
      return;
    }
    var index := BuildWorkIndex(archive.value);
    hide IsWorkIndex;
    var evidence := Evidence(parameters, index, now, powAvailable);
    r, reached := RecoverAll(chain, evidence, answers);
    e := evidence;
  }

  /** The pass and the pruning. */
  method RecoverAll(chain: ShareChain, e: Evidence, answers: seq<Answers>)
    returns (r: Outcome<Counts>, ghost reached: nat)
    requires chain.Valid() && |answers| == |chain.connected|
    modifies chain`connected, chain`bestTip
    ensures chain.Valid()
    ensures RunsPass(old(PassOf(chain, e, answers)), chain.Model(), r, reached)
  {
    reached := 0;
    ghost var p := PassOf(chain, e, answers);
    PassReady(chain, e, answers);
    var ids := chain.SortByHeight(Keys(chain.connected.Keys));
    IdsOfPass(chain, e, answers);
    hide Inv, IndexOk, Unindexed, TreeOf, Ready, After, RootsUpTo, PruneAll, InHeightOrder, Keys;
    var ok, roots, counts, at := VisitAll(chain, ids, e, answers, p);
    if !ok {
      return Thrown, at;
    }
    hide CountsRemovals, AddsUp, Final, CountsTurns, NoAbortUpTo;
    var pruned := PruneRoots(chain, roots);
    AddsUpStill(p, |ids|, counts, pruned);
    return Value(counts.(pruned := pruned)), 0;
  }

  lemma AddsUpStill(p: Pass, n: nat, k: Counts, pruned: nat)
    requires AddsUp(k) && CountsTurns(p, n, k)
    ensures AddsUp(k.(pruned := pruned)) && CountsTurns(p, n, k.(pruned := pruned))
  {
    hide Tally;
  }

  lemma IdsOfPass(chain: ShareChain, e: Evidence, answers: seq<Answers>)
    ensures InHeightOrder(chain.Model(), Keys(chain.connected.Keys)) == PassOf(chain, e, answers).ids
    ensures |PassOf(chain, e, answers).ids| == |chain.connected|
  {
    assert chain.Model().tree.Keys == chain.connected.Keys;
  }
}

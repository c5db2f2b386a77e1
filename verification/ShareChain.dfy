/** `ShareChain` itself: maps, an index of orphans by parent, and 256-bit work in byte arrays.  Each
    method is proved to do to the abstract value exactly what module ShareTree says. */
module ShareChains {
  import opened Basics
  import opened Bytes
  import opened Orders
  import opened Shares
  import opened Retarget
  import opened Records
  import opened ShareTree
  import opened TreeInvariant
  import opened Restart
  import opened Agreement
  import opened Pruning

  datatype ConnectedShare = ConnectedShare(
    share: Share,
    id: ShareId,
    cumulativeWork: ChainWork,
    pow: Option<Validation>,
    validated: bool)

  ghost function NodeOf(s: ConnectedShare): Node {
    Node(s.share, s.id, BigEndian(s.cumulativeWork), s.pow, s.validated)
  }

  ghost function TreeOf(connected: map<ShareId, ConnectedShare>): Tree {
    map id | id in connected :: NodeOf(connected[id])
  }

  type OrphanIndex = map<ShareId, seq<ShareId>>

  ghost predicate InIndex(index: OrphanIndex, p: ShareId, o: ShareId) {
    p in index && o in index[p]
  }

  ghost function Unindexed(orphans: map<ShareId, Orphan>, index: OrphanIndex): set<ShareId> {
    set o | o in orphans && !InIndex(index, orphans[o].share.parent, o)
  }

  /** Every list in the index holds orphans of that parent, none twice. */
  ghost predicate IndexOk(orphans: map<ShareId, Orphan>, index: OrphanIndex) {
    forall p | p in index ::
      Distinct(index[p]) && forall o | o in index[p] :: o in orphans && orphans[o].share.parent == p
  }

  /** `share_work`: the 16 difficulty bytes, right-aligned in 32. */
  function ShareWork(difficulty: Difficulty): (w: ChainWork)
    ensures BigEndian(w) == difficulty
  {
    Pow256Of32();
    EncodeRoundTrip(difficulty, 32);
    Encode(difficulty, 32)
  }

  /** `better_tip` on the stored byte arrays. */
  predicate BetterStored(a: ConnectedShare, b: ConnectedShare)
    ensures BetterStored(a, b) <==> BetterTip(NodeOf(a), NodeOf(b))
  {
    LexLessIsNumeric(b.cumulativeWork, a.cumulativeWork);
    BigEndianSame(a.cumulativeWork, b.cumulativeWork);
    if a.cumulativeWork != b.cumulativeWork then LexLess(b.cumulativeWork, a.cumulativeWork)
    else if a.share.height != b.share.height then a.share.height > b.share.height
    else a.id < b.id
  }

  lemma BigEndianSame(a: ChainWork, b: ChainWork)
    ensures BigEndian(a) == BigEndian(b) <==> a == b
  {
    if BigEndian(a) == BigEndian(b) {
      BigEndianInjective(a, b);
    }
  }

  class ShareChain {
    const rules: Rules
    var connected: map<ShareId, ConnectedShare>
    var orphans: map<ShareId, Orphan>
    var orphansByParent: OrphanIndex
    var bestTip: Option<ShareId>

    /** The value this object represents. */
    ghost function Model(): Chain
      reads this
    {
      Chain(TreeOf(connected), orphans, Unindexed(orphans, orphansByParent), bestTip)
    }

    /** The tree is sound; orphans may be in any state of promotion. */
    ghost predicate TreeValid()
      reads this
    {
      && TreeOk(rules, TreeOf(connected))
      && IsBestTip(TreeOf(connected), bestTip)
    }

    ghost predicate Valid()
      reads this
    {
      && IndexOk(orphans, orphansByParent)
      && Inv(rules, ConsistentRecords(), Model())
    }

    constructor (rules: Rules)
      ensures Valid() && this.rules == rules && Model() == EMPTY_CHAIN
    {
      this.rules := rules;
      connected, orphans, orphansByParent, bestTip := map[], map[], map[], None;
    }

    // ---- Difficulty of a child -----------------------------------------------------------------

    method CollectHistory(parent: ShareId, window: nat) returns (history: seq<Sample>)
      requires ParentClosed(TreeOf(connected)) && (parent == NO_SHARE || parent in connected)
      ensures history == History(TreeOf(connected), parent, window)
    {
      history := [];
      var current := parent;
      ghost var tree := TreeOf(connected);
      while current != NO_SHARE && |history| < window
        invariant |history| <= window
        invariant current == NO_SHARE || current in connected
        invariant history + History(tree, current, window - |history|) == History(tree, parent, window)
        decreases window - |history|
      {
        hide BigEndian;
        var node := connected[current];
        var sample := Sample(node.share.timestamp, BigEndian(node.cumulativeWork));
        ghost var rest := History(tree, node.share.parent, window - |history| - 1);
        assert tree[current] == NodeOf(node);
        assert history + ([sample] + rest) == (history + [sample]) + rest;
        history := history + [sample];
        current := node.share.parent;
      }
      assert history + [] == history;
    }

    method ExpectedChildShareDifficulty(parent: ShareId, network: Difficulty)
      returns (r: Outcome<Difficulty>)
      requires TreeValid()
      ensures r == Expected(rules, TreeOf(connected), parent, network)
    {
      if rules.policy.None? {
        return Thrown;
      }
      if parent != NO_SHARE && parent !in connected {
        return Thrown;
      }
      TreeOkClosed(rules, TreeOf(connected));
      hide TreeValid, NextDifficulty, History, TreeOk;
      var rule := rules.policy.value.rule;
      var history := CollectHistory(parent, rule.window);
      r := CalculateNextDifficulty(history, rule, network);
    }

    method ExpectedDifficultyReason(s: Share) returns (r: Outcome<Reason>)
      requires TreeValid()
      ensures r == DifficultyReason(rules, TreeOf(connected), s)
    {
      if rules.policy.None? || (!IsRoot(s) && s.parent !in connected) {
        return Value(Accepted);
      }
      var expected := ExpectedChildShareDifficulty(s.parent, s.networkDifficulty);
      if expected.Thrown? {
        return Thrown;
      }
      return Value(if expected.value == s.difficulty then Accepted else UnexpectedDifficulty);
    }

    // ---- Connecting and promoting --------------------------------------------------------------

    /** The cumulative work of a share under its connected parent, or none on overflow. */
    method CumulativeWork(share: Share) returns (work: Option<ChainWork>)
      requires IsRoot(share) || share.parent in connected
      ensures var total := share.difficulty +
          if IsRoot(share) then 0 else BigEndian(connected[share.parent].cumulativeWork);
        if IsRoot(share) || total < TWO_256 then work.Some? && BigEndian(work.value) == total
        else work.None?
    {
      var own := ShareWork(share.difficulty);
      if IsRoot(share) {
        return Some(own);
      }
      var ok, summed := AddChainWorkChecked(connected[share.parent].cumulativeWork, own);
      return if ok then Some(summed) else None;
    }

    method InsertNode(node: ConnectedShare)
      requires node.id !in connected
      requires bestTip.Some? ==> bestTip.value in connected
      modifies `connected, `bestTip
      ensures Model() == Link(old(Model()), NodeOf(node))
    {
      ghost var tree := TreeOf(connected);
      connected := connected[node.id := node];
      assert TreeOf(connected) == tree[node.id := NodeOf(node)];
      if bestTip.None? || BetterStored(node, connected[bestTip.value]) {
        bestTip := Some(node.id);
      }
    }

    method ConnectShare(share: Share, id: ShareId, pow: Option<Validation>, enforce: bool)
      returns (reason: Outcome<Reason>)
      requires TreeValid() && id !in connected
      requires IsRoot(share) || share.parent in connected
      modifies `connected, `bestTip
      ensures reason == ConnectReason(rules, old(Model()).tree, share, enforce)
      ensures reason != Value(Accepted) ==> Model() == old(Model())
      ensures reason == Value(Accepted) ==>
        Model() == Link(old(Model()), NewNode(old(Model()).tree, share, id, pow, enforce))
    {
      ghost var tree := TreeOf(connected);
      assert bestTip.Some? ==> bestTip.value in connected;
      hide TreeValid, DifficultyReason, BigEndian, Unindexed, ParentReason, Link;
      if !IsRoot(share) {
        var parentReason := ParentReason(share, connected[share.parent].share);
        if parentReason != Accepted {
          return Value(parentReason);
        }
      }
      if enforce {
        reason := ExpectedDifficultyReason(share);
        if reason != Value(Accepted) {
          return;
        }
      }
      var work := CumulativeWork(share);
      if work.None? {
        return Value(WorkOverflow);
      }
      var validated := enforce && pow.Some? && pow.value.meetsShare &&
                       (IsRoot(share) || connected[share.parent].validated);
      var node := ConnectedShare(share, id, work.value, pow, validated);
      NewNodeIs(share, node, enforce);
      hide NewNode, NodeOf, TreeOf;
      InsertNode(node);
      return Value(Accepted);
    }

    lemma NewNodeIs(share: Share, node: ConnectedShare, enforce: bool)
      requires IsRoot(share) || share.parent in connected
      requires node.share == share
      requires BigEndian(node.cumulativeWork) ==
        share.difficulty + if IsRoot(share) then 0 else BigEndian(connected[share.parent].cumulativeWork)
      requires node.validated == (enforce && node.pow.Some? && node.pow.value.meetsShare &&
                                  (IsRoot(share) || connected[share.parent].validated))
      ensures IsRoot(share) || share.parent in TreeOf(connected)
      ensures NodeOf(node) == NewNode(TreeOf(connected), share, node.id, node.pow, enforce)
    {
    }

    /** Taking a parent's list out of the index unlists exactly the orphans waiting for it. */
    lemma ListIsListedUnder(p: ShareId)
      requires IndexOk(orphans, orphansByParent)
      ensures p !in orphansByParent ==> ListedUnder(Model(), p) == {}
      ensures p in orphansByParent ==>
        && (forall o :: o in orphansByParent[p] <==> o in ListedUnder(Model(), p))
        && IndexOk(orphans, orphansByParent - {p})
        && Unindexed(orphans, orphansByParent - {p}) == Model().detached + ListedUnder(Model(), p)
    {
      var index' := orphansByParent - {p};
      if p in orphansByParent {
        forall o | o in orphans
          ensures InIndex(index', orphans[o].share.parent, o) <==>
            InIndex(orphansByParent, orphans[o].share.parent, o) && orphans[o].share.parent != p
        {
        }
      }
    }

    /** `orphans_.erase`, for an orphan that is off the list. */
    method DropFromBuffer(child: ShareId)
      requires IndexOk(orphans, orphansByParent) && child in Model().detached
      modifies `orphans
      ensures IndexOk(orphans, orphansByParent) && Model() == DropOrphan(old(Model()), child)
      ensures |orphans| < |old(orphans)|
    {
      assert (orphans - {child}).Keys == orphans.Keys - {child};
      orphans := orphans - {child};
    }

    lemma OrphanFacts(child: ShareId)
      requires Valid() && child in orphans
      ensures TreeValid() && child !in connected && OrphanOk(rules, ConsistentRecords(), Model(), child)
    {
      assert OrphanOk(rules, ConsistentRecords(), Model(), child);
    }

    /** Try to connect an orphan that is off the list, and take it out of the buffer. */
    method TakeOrphan(child: ShareId) returns (reason: Outcome<Reason>)
      requires Valid() && child in Model().detached && orphans[child].share.parent in connected
      modifies `connected, `orphans, `bestTip
      ensures IndexOk(orphans, orphansByParent)
      ensures reason.Thrown? ==> Model() == old(Model())
      ensures reason.Value? ==> |orphans| < |old(orphans)|
      ensures var o := old(orphans[child]);
        && reason == ConnectReason(rules, old(Model()).tree, o.share, o.enforce)
        && (reason.Value? && reason.value != Accepted ==> Model() == DropOrphan(old(Model()), child))
        && (reason == Value(Accepted) ==>
              Model() == DropOrphan(Link(old(Model()), NewNode(old(Model()).tree, o.share, child, o.pow, o.enforce)), child))
    {
      assert child in orphans;
      hide Inv, TreeValid, ConnectReason, OrphanOk, IndexOk, Unindexed, TipWith, DropOrphan, NewNode, Link;
      OrphanFacts(child);
      var orphan := orphans[child];
      reason := ConnectShare(orphan.share, child, orphan.pow, orphan.enforce);
      if reason.Value? {
        DropFromBuffer(child);
      }
    }

    /** Take one orphan, and when it connects promote the orphans waiting for it. */
    method PromoteOne(child: ShareId, ghost base: set<ShareId>, ghost rest: seq<ShareId>)
      returns (promoted: nat, threw: bool)
      requires Valid() && Pending(Model(), base, [child] + rest)
      modifies `connected, `orphans, `orphansByParent, `bestTip
      ensures Valid() && |orphans| <= |old(orphans)|
      ensures !threw ==> Pending(Model(), base, rest)
      ensures Promotion(Model(), promoted, threw) == Drain(rules, old(Model()), [child])
      decreases |orphans|, 0
    {
      ghost var before, trust := Model(), ConsistentRecords();
      hide Inv, Pending, Drain, IndexOk, Unindexed, ListedUnder, Keys, ConnectReason, DropOrphan, Link, OrphanOk;
      FirstPending(rules, trust, before, base, [child] + rest);
      DrainSingle(rules, before, child);
      DrainKeepsRest(rules, trust, before, base, [child], rest);
      TurnKeepsInv(rules, trust, before, base, [child] + rest);
      promoted, threw := 0, false;
      var reason := TakeOrphan(child);
      TurnOutcome(rules, before, child);
      if reason.Thrown? {
        threw := true;
      } else if reason.value == Accepted {
        promoted, threw := PromoteChildren(child);
        promoted := promoted + 1;
      } else {
        DrainNothing(rules, Model());
      }
    }

    method UnlistChildren(p: ShareId) returns (children: seq<ShareId>)
      requires IndexOk(orphans, orphansByParent)
      modifies `orphansByParent
      ensures IndexOk(orphans, orphansByParent)
      ensures Model() == Unlist(old(Model()), ListedUnder(old(Model()), p))
      ensures children == Keys(ListedUnder(old(Model()), p))
    {
      ListIsListedUnder(p);
      if p !in orphansByParent {
        return [];
      }
      children := SortBy(orphansByParent[p], NatLess);
      SortIsKeys(orphansByParent[p], ListedUnder(Model(), p));
      orphansByParent := orphansByParent - {p};
    }

    /** The promotion loop over a list taken out of the index. */
    method PromoteList(children: seq<ShareId>, ghost base: set<ShareId>)
      returns (promoted: nat, threw: bool)
      requires Valid() && Pending(Model(), base, children)
      modifies `connected, `orphans, `orphansByParent, `bestTip
      ensures Valid() && |orphans| <= |old(orphans)|
      ensures Promotion(Model(), promoted, threw) == Drain(rules, old(Model()), children)
      decreases |orphans|, 1
    {
      hide Inv, Pending, Drain, IndexOk, Model;
      promoted, threw := 0, false;
      var i := 0;
      assert children[0..] == children;
      while i < |children|
        invariant 0 <= i <= |children|
        invariant Valid() && Pending(Model(), base, children[i..])
        invariant Resume(rules, Promotion(Model(), promoted, false), children[i..])
               == Drain(rules, old(Model()), children)
        invariant |orphans| <= |old(orphans)|
      {
        ghost var rest := children[i + 1..];
        var child := children[i];
        assert children[i..] == [child] + rest;
        DrainConcat(rules, Model(), [child], rest);
        var more, failed := PromoteOne(child, base, rest);
        promoted := promoted + more;
        if failed {
          threw := true;
          return;
        }
        i := i + 1;
      }
      assert children[i..] == [];
      DrainNothing(rules, Model());
    }

    /** Add every orphan waiting for `p`, which has just been connected, and theirs in turn. */
    method PromoteChildren(p: ShareId) returns (promoted: nat, threw: bool)
      requires IndexOk(orphans, orphansByParent) && p in connected
      requires Inv(rules, ConsistentRecords(), Unlist(Model(), ListedUnder(Model(), p)))
      modifies `connected, `orphans, `orphansByParent, `bestTip
      ensures Valid() && |orphans| <= |old(orphans)|
      ensures Promotion(Model(), promoted, threw) ==
        Drain(rules, Unlist(old(Model()), ListedUnder(old(Model()), p)),
              Keys(ListedUnder(old(Model()), p)))
      decreases |orphans|, 2
    {
      ghost var before := Model();
      assert p in before.tree;
      hide Inv, Pending, Drain, IndexOk, Unindexed, ListedUnder, Keys, Unlist, Model;
      UnlistPending(rules, ConsistentRecords(), before, p);
      var children := UnlistChildren(p);
      promoted, threw := PromoteList(children, before.detached);
    }

    // ---- Adding --------------------------------------------------------------------------------

    method BufferOrphan(orphan: Orphan)
      requires IndexOk(orphans, orphansByParent) && orphan.id !in orphans
      modifies `orphans, `orphansByParent
      ensures IndexOk(orphans, orphansByParent)
      ensures Model() == old(Model()).(orphans := old(orphans)[orphan.id := orphan])
    {
      var p := orphan.share.parent;
      var siblings := if p in orphansByParent then orphansByParent[p] else [];
      ghost var before := Unindexed(orphans, orphansByParent);
      assert orphan.id !in siblings;
      orphans := orphans[orphan.id := orphan];
      orphansByParent := orphansByParent[p := siblings + [orphan.id]];
      assert Unindexed(orphans, orphansByParent) == before;
    }

    /** Connect a share whose parent is present, then promote what was waiting for it. */
    method ConnectNew(share: Share, id: ShareId, pow: Option<Validation>, enforce: bool)
      returns (r: Outcome<AddResult>)
      requires Valid() && ShareOk(rules, share, id) && !Known(Model(), id)
      requires IsRoot(share) || share.parent in connected
      requires pow.Some? ==> Consistent(pow.value)
      requires enforce ==> rules.policy.Some?
      modifies `connected, `orphans, `orphansByParent, `bestTip
      ensures Valid()
      ensures var reason := ConnectReason(rules, old(Model()).tree, share, enforce);
        Step(Model(), r) ==
        if reason.Thrown? then Step(old(Model()), Thrown)
        else if reason.value != Accepted then Refuse(old(Model()), WasRejected, reason.value, id)
        else ConnectAndPromote(rules, old(Model()), share, id, pow, enforce)
    {
      ghost var before, trust := Model(), ConsistentRecords();
      assert id !in connected;
      hide Inv, TreeValid, ConnectReason, IndexOk, Unindexed, TipWith, NewNode, Link, ShareOk, Drain, ListedUnder;
      ValidTree();
      var oldTip := bestTip;
      var reason := ConnectShare(share, id, pow, enforce);
      if reason.Thrown? {
        return Thrown;
      }
      if reason.value != Accepted {
        return Value(AddResult(WasRejected, reason.value, id, 0, false));
      }
      AttachKeepsInv(rules, trust, before, share, id, pow, enforce);
      LinkIsAttach(before, NewNode(before.tree, share, id, pow, enforce));
      var promoted, threw := PromoteChildren(id);
      if threw {
        return Thrown;
      }
      return Value(AddResult(WasConnected, Accepted, id, promoted, bestTip != oldTip));
    }

    method AddPrevalidatedShare(share: Share, pow: Option<Validation>, enforce: bool)
      returns (r: Outcome<AddResult>)
      requires Valid()
      requires pow.Some? ==> Consistent(pow.value)
      requires enforce ==> rules.policy.Some?
      modifies `connected, `orphans, `orphansByParent, `bestTip
      ensures Valid()
      ensures Step(Model(), r) == AddPrevalidated(rules, old(Model()), share, pow, enforce)
    {
      if !Encodable(share, rules.minerOf) {
        return Thrown;
      }
      var id := rules.idOf(share);
      if id in connected || id in orphans {
        return Value(AddResult(WasDuplicate, Accepted, id, 0, false));
      }
      var reason := StructuralReason(rules, share);
      if reason != Accepted {
        return Value(AddResult(WasRejected, reason, id, 0, false));
      }
      AddKeepsInv(rules, ConsistentRecords(), Model(), share, pow, enforce);
      hide Inv, IndexOk, Unindexed, ConnectAndPromote, ConnectReason;
      if !IsRoot(share) && share.parent !in connected {
        BufferOrphan(Orphan(share, id, pow, enforce));
        return Value(AddResult(WasOrphaned, Accepted, id, 0, false));
      }
      r := ConnectNew(share, id, pow, enforce);
    }

    method AddShareUnchecked(share: Share) returns (r: Outcome<AddResult>)
      requires Valid()
      modifies `connected, `orphans, `orphansByParent, `bestTip
      ensures Valid() && Step(Model(), r) == AddUnchecked(rules, old(Model()), share)
    {
      r := AddPrevalidatedShare(share, None, false);
    }

    method SubmitShare(share: Share, context: WorkContext, now: U64, powAvailable: bool)
      returns (r: Outcome<AddResult>)
      requires Valid()
      modifies `connected, `orphans, `orphansByParent, `bestTip
      ensures Valid()
      ensures Step(Model(), r) == Submit(rules, old(Model()), share, context, now, powAvailable)
    {
      hide Inv, TreeValid, IndexOk, Unindexed, AddPrevalidated, DifficultyReason, ValidateCandidate;
      ValidTree();
      if !Encodable(share, rules.minerOf) {
        return Thrown;
      }
      var id := rules.idOf(share);
      if id in connected || id in orphans {
        return Value(AddResult(WasDuplicate, Accepted, id, 0, false));
      }
      var reason := StructuralReason(rules, share);
      if reason == Accepted {
        reason := ContextReason(share, context);
      }
      if reason == Accepted {
        reason := FutureReason(share, now);
      }
      if reason == Accepted && !IsRoot(share) && share.parent in connected {
        reason := ParentReason(share, connected[share.parent].share);
      }
      if reason != Accepted {
        return Value(AddResult(WasRejected, reason, id, 0, false));
      }
      var difficulty := ExpectedDifficultyReason(share);
      if difficulty.Thrown? {
        return Thrown;
      }
      if difficulty.value != Accepted {
        return Value(AddResult(WasRejected, difficulty.value, id, 0, false));
      }
      if !powAvailable {
        return Value(AddResult(WasRejected, PowUnavailable, id, 0, false));
      }
      var validation := LocalValidation(rules, share);
      if !PassesPow(validation) {
        return Value(AddResult(WasRejected, InvalidPow, id, 0, false));
      }
      AdmissionIsConsistency(rules.progpow(share.zanoHeight, share.header, share.nonce),
                             share.difficulty, share.networkDifficulty);
      r := AddPrevalidatedShare(share, Some(validation), rules.policy.Some?);
    }

    // ---- Revalidating --------------------------------------------------------------------------

    /** Re-run the admission checks on a connected share, changing nothing. */
    method CheckAgain(id: ShareId, context: WorkContext, now: U64, powAvailable: bool)
      returns (r: Outcome<RevalidateResult>)
      requires TreeValid()
      ensures r == RevalidateVerdict(rules, TreeOf(connected), id, context, now, powAvailable)
    {
      hide TreeValid, DifficultyReason, ValidateCandidate;
      if id !in connected {
        return Value(RevalidateResult(NotConnected, Accepted));
      }
      if connected[id].validated {
        return Value(RevalidateResult(AlreadyValidated, Accepted));
      }
      if rules.policy.None? {
        return Reject(UnexpectedDifficulty);
      }
      var share := connected[id].share;
      var reason := StructuralReason(rules, share);
      if reason == Accepted {
        reason := ContextReason(share, context);
      }
      if reason == Accepted {
        reason := FutureReason(share, now);
      }
      if reason != Accepted {
        return Reject(reason);
      }
      if !IsRoot(share) {
        if share.parent !in connected {
          return Reject(ParentHeightMismatch);
        }
        if !connected[share.parent].validated {
          return Value(RevalidateResult(ParentUnvalidated, Accepted));
        }
        reason := ParentReason(share, connected[share.parent].share);
        if reason != Accepted {
          return Reject(reason);
        }
      }
      var difficulty := ExpectedDifficultyReason(share);
      if difficulty.Thrown? {
        return Thrown;
      }
      if difficulty.value != Accepted {
        return Reject(difficulty.value);
      }
      if !powAvailable {
        return Reject(PowUnavailable);
      }
      if !PassesPow(LocalValidation(rules, share)) {
        return Reject(InvalidPow);
      }
      return Value(RevalidateResult(Validated, Accepted));
    }

    method RevalidateConnectedShare(id: ShareId, context: WorkContext, now: U64, powAvailable: bool)
      returns (r: Outcome<RevalidateResult>)
      requires Valid()
      modifies `connected
      ensures Valid()
      ensures Step(Model(), r) == Revalidate(rules, old(Model()), id, context, now, powAvailable)
    {
      hide Inv, TreeValid, IndexOk, Unindexed, SoundTrust, ValidateCandidate, RevalidateVerdict, MarkValidated;
      ValidTree();
      TrustsAreSound(rules);
      RevalidateKeepsInv(rules, ConsistentRecords(), Model(), id, context, now, powAvailable);
      r := CheckAgain(id, context, now, powAvailable);
      if r == Value(RevalidateResult(Validated, Accepted)) {
        ValidatedIsConnected(rules, Model().tree, id, context, now, powAvailable);
        InstallValidation(id, LocalValidation(rules, connected[id].share));
      }
    }

    method InstallValidation(id: ShareId, validation: Validation)
      requires id in connected
      modifies `connected
      ensures Model() == MarkValidated(old(Model()), id, validation)
      ensures connected.Keys == old(connected).Keys
    {
      ghost var tree := TreeOf(connected);
      connected := connected[id := connected[id].(pow := Some(validation), validated := true)];
      assert TreeOf(connected) == tree[id := tree[id].(pow := Some(validation), validated := true)];
    }

    // ---- Pruning -------------------------------------------------------------------------------

    /** Index connected shares by parent. */
    method ChildrenByParent() returns (children: OrphanIndex)
      ensures IndexesChildren(TreeOf(connected), children)
    {
      children := map[];
      var ids := Keys(connected.Keys);
      ghost var tree := TreeOf(connected);
      hide Keys, BigEndian, ChildrenSoFar;
      ChildrenStart(tree);
      for i := 0 to |ids|
        invariant ChildrenSoFar(tree, children, ids[..i])
      {
        assert ids[i] in ids && ids[..i + 1] == ids[..i] + [ids[i]];
        var share := connected[ids[i]].share;
        var siblings := if share.parent in children then children[share.parent] else [];
        ChildrenNext(tree, children, ids[..i], ids[i], siblings);
        if !IsRoot(share) {
          children := children[share.parent := siblings + [ids[i]]];
        }
      }
      assert ids[..|ids|] == ids;
      ChildrenDone(tree, children, ids);
    }

    /** The growing work list that collects a subtree. */
    method CollectSubtree(children: OrphanIndex, root: ShareId) returns (removed: seq<ShareId>)
      requires TreeValid() && root in connected && IndexesChildren(TreeOf(connected), children)
      ensures Distinct(removed)
      ensures forall x :: x in removed <==> x in Subtree(TreeOf(connected), root)
    {
      ghost var tree := TreeOf(connected);
      removed := [root];
      var index := 0;
      SameKeys();
      WorklistStart(tree, root);
      assert TreeOk(rules, tree);
      hide TreeValid, TreeOk, TreeOf, Worklist, Subtree, IndexesChildren, IsChild, ShareChain.Model;
      while index < |removed|
        invariant 0 <= index <= |removed|
        invariant Worklist(tree, root, removed, index)
        decreases |connected| - index
      {
        WorklistBounded(tree, root, removed, index);
        var more := if removed[index] in children then children[removed[index]] else [];
        ChildrenOf(tree, children, removed[index], more);
        WorklistGrows(rules, tree, root, removed, index, more);
        removed := removed + more;
        index := index + 1;
      }
      WorklistDistinct(tree, root, removed, index);
      WorklistComplete(tree, root, removed);
    }

    /** Scan the connected shares for the best tip. */
    method SelectTip() returns (tip: Option<ShareId>)
      requires forall id | id in connected :: connected[id].id == id
      ensures IsBestTip(TreeOf(connected), tip)
    {
      var ids := Keys(connected.Keys);
      ghost var tree := TreeOf(connected);
      tip := None;
      hide Keys, BigEndian, BestAmong, BetterTip;
      for i := 0 to |ids|
        invariant tip.None? <==> i == 0
        invariant tip.Some? ==> tip.value in connected && BestAmong(tree, ids[..i], tip.value)
      {
        assert ids[i] in ids && ids[..i + 1] == ids[..i] + [ids[i]];
        BestAmongExtends(tree, ids[..i], tip, ids[i]);
        if tip.None? || BetterStored(connected[ids[i]], connected[tip.value]) {
          tip := Some(ids[i]);
        }
      }
      assert ids[..|ids|] == ids;
      BestAmongAll(tree, ids, tip);
    }

    /** The identifiers of a subtree, in order. */
    method SubtreeIds(root: ShareId) returns (removed: seq<ShareId>)
      requires TreeValid() && root in connected
      ensures removed == Keys(Subtree(TreeOf(connected), root))
    {
      hide TreeValid, Subtree, Keys, SortBy, IsChild, InIndex;
      var children := ChildrenByParent();
      removed := CollectSubtree(children, root);
      SortIsKeys(removed, Subtree(TreeOf(connected), root));
      removed := SortBy(removed, NatLess);
    }

    method EraseAll(removed: seq<ShareId>)
      modifies `connected
      ensures TreeOf(connected) == old(TreeOf(connected)) - Elements(removed)
      ensures forall id | id in connected :: id in old(connected) && connected[id] == old(connected)[id]
    {
      var gone := set id | id in removed;
      connected := connected - gone;
      assert gone == Elements(removed);
    }

    /** Erase a subtree and pick the best of what remains. */
    method RemoveSubtree(root: ShareId) returns (removed: seq<ShareId>)
      requires TreeValid() && root in connected
      modifies `connected, `bestTip
      ensures Model() == Prune(old(Model()), root)
      ensures removed == Keys(Subtree(old(Model()).tree, root))
    {
      ghost var before := Model();
      hide TreeValid, Unindexed, Subtree, Keys, IsBestTip, NodeOf, Prune;
      ConnectedIds();
      removed := SubtreeIds(root);
      assert Elements(removed) == Subtree(before.tree, root);
      EraseAll(removed);
      var tip := SelectTip();
      PruneOutcome(before, root, tip);
      bestTip := tip;
    }

    method PruneConnectedSubtreeIds(root: ShareId) returns (removed: seq<ShareId>)
      requires Valid()
      modifies `connected, `bestTip
      ensures Valid() && Model() == Prune(old(Model()), root)
      ensures removed == if root in old(connected) then Keys(Subtree(old(Model()).tree, root)) else []
    {
      if root !in connected {
        return [];
      }
      hide Inv, TreeValid, IndexOk, Unindexed, Subtree, Keys, Prune;
      ValidTree();
      PruneKeepsInv(rules, ConsistentRecords(), Model(), root);
      removed := RemoveSubtree(root);
    }

    lemma ConnectedIds()
      requires TreeValid()
      ensures forall id | id in connected :: connected[id].id == id
      ensures forall id | id in TreeOf(connected) :: TreeOf(connected)[id].id == id
    {
      TreeIds(rules, TreeOf(connected));
      forall id | id in connected
        ensures connected[id].id == id
      {
        assert id in TreeOf(connected);
      }
    }

    // ---- Snapshots -----------------------------------------------------------------------------

    /** `std::sort` by height and then identifier. */
    method SortByHeight(ids: seq<ShareId>) returns (sorted: seq<ShareId>)
      ensures sorted == InHeightOrder(Model(), ids)
    {
      var stored := map id | id in connected.Keys + orphans.Keys ::
        if id in connected then connected[id].share.height else orphans[id].share.height;
      var before := (a: ShareId, b: ShareId) => HeightBefore(stored, a, b);
      sorted := SortBy(ids, before);
      ghost var c := Model();
      assert forall id :: StoredHeight(c, id) == if id in stored then stored[id] else 0;
      SortByAgrees(ids, before, (a, b) => ByHeight(c, a, b));
    }

    method SharesInOrder(ids: seq<ShareId>) returns (shares: seq<Share>)
      requires forall id | id in ids :: Known(Model(), id)
      ensures shares == SharesOf(Model(), ids)
    {
      ghost var c := Model();
      shares := [];
      assert ids[0..] == ids;
      for i := 0 to |ids|
        invariant shares + SharesOf(c, ids[i..]) == SharesOf(c, ids)
      {
        assert Known(c, ids[i]) && ids[i..] == [ids[i]] + ids[i + 1..];
        ghost var rest := SharesOf(c, ids[i + 1..]);
        StoredShareIs(ids[i]);
        hide StoredShare, Unindexed, NodeOf;
        var share := if ids[i] in connected then connected[ids[i]].share else orphans[ids[i]].share;
        assert shares + ([share] + rest) == (shares + [share]) + rest;
        shares := shares + [share];
      }
    }

    method PersistenceSnapshot() returns (shares: seq<Share>)
      requires connected.Keys !! orphans.Keys
      ensures shares == Persisted(Model())
    {
      var records := Keys(connected.Keys) + Keys(orphans.Keys);
      PersistOrder(records);
      hide Unindexed, TreeOf, SharesOf, Keys, InHeightOrder, Known, PersistedIds;
      var ids := SortByHeight(records);
      shares := SharesInOrder(ids);
      PersistedIs(Model());
    }

    lemma PersistOrder(records: seq<ShareId>)
      requires connected.Keys !! orphans.Keys && records == Keys(connected.Keys) + Keys(orphans.Keys)
      ensures InHeightOrder(Model(), records) == PersistedIds(Model())
      ensures forall id | id in PersistedIds(Model()) :: Known(Model(), id)
    {
      var c, all := Model(), Keys(connected.Keys + orphans.Keys);
      assert c.tree.Keys == connected.Keys;
      hide Unindexed, TreeOf, Keys, InHeightOrder;
      KeysOfUnion(connected.Keys, orphans.Keys);
      HeightOrderPermutation(c, records, all);
      InHeightOrderCorrect(c, all);
    }

    lemma StoredShareIs(id: ShareId)
      requires id in connected || id in orphans
      ensures StoredShare(Model(), id) == if id in connected then connected[id].share else orphans[id].share
    {
    }

    /** The consistency test both snapshot and restore apply to a validated share. */
    method CheckValidatedShare(id: ShareId) returns (ok: bool)
      requires id in connected
      ensures ok <==> ValidatedNodeOk(rules, TreeOf(connected), id)
    {
      var node := connected[id];
      if node.pow.None? || !Consistent(node.pow.value) {
        return false;
      }
      if rules.idOf(node.share) != id {
        return false;
      }
      return IsRoot(node.share) ||
             (node.share.parent in connected && connected[node.share.parent].validated);
    }

    /** The identifiers of validated shares in ascending order, unless one of them is inconsistent. */
    method CollectValidated() returns (ids: Outcome<seq<ShareId>>)
      ensures ids.Thrown? <==> !AllValidatedOk(rules, TreeOf(connected))
      ensures ids.Value? ==> ids.value == Keys(ValidatedIds(TreeOf(connected)))
    {
      var all := Keys(connected.Keys);
      ghost var tree := TreeOf(connected);
      var chosen: seq<ShareId> := [];
      hide ValidatedNodeOk, NodeOf, Keys, ValidatedSoFar;
      ValidatedStart(rules, tree, all);
      for i := 0 to |all|
        invariant ValidatedSoFar(rules, tree, all, i, chosen)
      {
        assert all[i] in all;
        ValidatedSame(all[i]);
        ValidatedNext(rules, tree, all, i, chosen);
        if connected[all[i]].validated {
          var ok := CheckValidatedShare(all[i]);
          if !ok {
            return Thrown;
          }
          chosen := chosen + [all[i]];
        }
      }
      ValidatedDone(rules, tree, all, chosen);
      return Value(chosen);
    }

    lemma ValidatedSame(id: ShareId)
      requires id in connected
      ensures TreeOf(connected)[id].validated == connected[id].validated
    {
    }

    method RecordsInOrder(ids: seq<ShareId>) returns (records: seq<Record>)
      requires forall id | id in ids :: id in connected && connected[id].pow.Some?
      ensures forall id | id in ids :: id in TreeOf(connected) && TreeOf(connected)[id].pow.Some?
      ensures records == RecordsFor(TreeOf(connected), ids)
    {
      ghost var tree := TreeOf(connected);
      assert forall id | id in ids :: id in tree && tree[id].pow == connected[id].pow;
      hide NodeOf, TreeOf;
      records := [];
      for i := 0 to |ids|
        invariant |records| == i
        invariant forall j | 0 <= j < i ::
          records[j].id == ids[j] && ids[j] in tree && tree[ids[j]].pow == Some(records[j].validation)
      {
        assert ids[i] in ids;
        records := records + [Record(ids[i], connected[ids[i]].pow.value)];
      }
      SameRecords(tree, ids, records, RecordsFor(tree, ids));
    }

    method ReplayValidationSnapshot() returns (r: Outcome<seq<Record>>)
      ensures r == Export(rules, Model())
    {
      if rules.policy.None? {
        return Thrown;
      }
      var validated := CollectValidated();
      if validated.Thrown? {
        return Thrown;
      }
      ghost var c := Model();
      InHeightOrderCorrect(c, Keys(ValidatedIds(c.tree)));
      hide InHeightOrder, Keys, Unindexed, RecordsFor;
      var ids := SortByHeight(validated.value);
      assert forall id | id in ids :: id in connected && ValidatedNodeOk(rules, c.tree, id);
      hide ValidatedNodeOk, AllValidatedOk;
      var records := RecordsInOrder(ids);
      return Value(records);
    }

    // ---- Restoring validation ------------------------------------------------------------------

    /** Resolve every record to a connected share: identifiers non-zero, distinct, known and genuine. */
    method ResolveRecords(records: seq<Record>) returns (found: Outcome<map<ShareId, Validation>>)
      ensures found.Value? <==>
        DistinctIds(records) && forall rec | rec in records :: Resolvable(rules, TreeOf(connected), rec)
      ensures found.Value? ==> Lookup(records, found.value)
    {
      ghost var tree := TreeOf(connected);
      var seen: map<ShareId, Validation> := map[];
      for i := 0 to |records|
        invariant Lookup(records[..i], seen) && DistinctIds(records[..i])
        invariant forall rec | rec in records[..i] :: Resolvable(rules, tree, rec)
      {
        var rec := records[i];
        assert records[..i + 1] == records[..i] + [rec] && rec in records;
        hide BigEndian, Consistent;
        if rec.id in seen {
          RepeatedId(records, i, seen);
          return Thrown;
        }
        if rec.id == NO_SHARE || !Consistent(rec.validation) || rec.id !in connected
           || rules.idOf(connected[rec.id].share) != rec.id {
          assert !Resolvable(rules, tree, rec);
          return Thrown;
        }
        LookupExtends(records[..i], seen, rec);
        seen := seen[rec.id := rec.validation];
      }
      assert records[..|records|] == records;
      return Value(seen);
    }

    /** One record of the preflight pass, given the shares validated so far or about to be. */
    method PreflightRecord(id: ShareId, validation: Validation, prospective: set<ShareId>)
      returns (ok: bool)
      requires TreeValid() && id in connected
      ensures ok <==> PreflightOk(rules, TreeOf(connected), id, validation, prospective)
    {
      hide TreeValid, DifficultyReason, BigEndian;
      var node := connected[id];
      if node.validated {
        return node.pow == Some(validation);
      }
      var share := node.share;
      if StructuralReason(rules, share) != Accepted {
        return false;
      }
      if !IsRoot(share) {
        if share.parent !in connected || share.parent !in prospective {
          return false;
        }
        if ParentReason(share, connected[share.parent].share) != Accepted {
          return false;
        }
      }
      var reason := ExpectedDifficultyReason(share);
      return reason == Value(Accepted);
    }

    /** The preflight pass, lowest shares first. */
    method Preflight(ordered: seq<ShareId>, validations: map<ShareId, Validation>) returns (ok: bool)
      requires TreeValid() && AllResolvable(rules, TreeOf(connected), ordered, validations)
      requires LowestFirst(TreeOf(connected), ordered)
      ensures ok <==> RecordsPass(rules, TreeOf(connected), ordered, ordered, validations)
    {
      hide TreeValid, PreflightOk, Resolvable, TreeOf, LowestFirst, RecordsPass, RecordOk, AllResolvable, ValidatedIds,
           Elements, ShareChain.Model;
      ghost var tree := TreeOf(connected);
      SameKeys();
      var prospective := ValidatedSet();
      NoElements(ordered);
      RecordsPassNone(rules, tree, ordered, validations);
      for i := 0 to |ordered|
        invariant prospective == ValidatedIds(tree) + Elements(ordered[..i])
        invariant RecordsPass(rules, tree, ordered, ordered[..i], validations)
      {
        assert ordered[i] in ordered;
        PreflightStep(rules, tree, ordered, i, validations);
        var passed := PreflightRecord(ordered[i], validations[ordered[i]], prospective);
        if !passed {
          return false;
        }
        prospective := prospective + {ordered[i]};
      }
      assert ordered[..|ordered|] == ordered;
      return true;
    }

    method ValidatedSet() returns (ids: set<ShareId>)
      ensures ids == ValidatedIds(TreeOf(connected))
    {
      ids := set id | id in connected && connected[id].validated;
    }

    lemma SameKeys()
      ensures TreeOf(connected).Keys == connected.Keys && |TreeOf(connected)| == |connected|
    {
    }

    lemma StillConnected(id: ShareId)
      requires id in connected
      ensures id in TreeOf(connected) && TreeOf(connected)[id].validated == connected[id].validated
    {
    }

    /** Apply preflighted records. */
    method InstallAll(ordered: seq<ShareId>, validations: map<ShareId, Validation>) returns (restored: nat)
      requires Elements(ordered) == validations.Keys && Distinct(ordered)
      requires forall id | id in ordered :: id in connected
      modifies `connected
      ensures Model() == old(Model()).(tree := Installed(old(Model()).tree, validations, validations.Keys))
      ensures restored == |Fresh(old(Model()).tree, validations.Keys)|
    {
      ghost var before := Model();
      assert before.tree.Keys == connected.Keys;
      restored := 0;
      NothingInstalled(before.tree, validations);
      assert Elements(ordered[..0]) == {};
      hide Unindexed, TreeOf, Installed, Fresh;
      for i := 0 to |ordered|
        invariant Model() == before.(tree := Installed(before.tree, validations, Elements(ordered[..i])))
        invariant connected.Keys == before.tree.Keys
        invariant restored == |Fresh(before.tree, Elements(ordered[..i]))|
      {
        var id := ordered[i];
        assert id in ordered;
        ElementsNext(ordered, i);
        InstalledNext(before.tree, validations, Elements(ordered[..i]), id);
        StillConnected(id);
        if !connected[id].validated {
          InstallValidation(id, validations[id]);
          restored := restored + 1;
        }
      }
      assert ordered[..|ordered|] == ordered;
    }

    /** Everything a restore checks before it writes: the order to install, and what. */
    method PrepareRestore(records: seq<Record>)
      returns (allowed: bool, ordered: seq<ShareId>, validations: map<ShareId, Validation>)
      requires TreeValid() && rules.policy.Some?
      ensures allowed <==> RestoreAllowed(rules, TreeOf(connected), records)
      ensures allowed ==>
        && Lookup(records, validations)
        && Elements(ordered) == validations.Keys && Distinct(ordered)
        && validations.Keys <= connected.Keys
    {
      ghost var tree := TreeOf(connected);
      assert Model().tree == tree && tree.Keys == connected.Keys;
      hide TreeValid, RestoreAllowed, RecordOk, Resolvable, Lookup, AllValidatedOk, Model, TreeOf, Distinct;
      RecordsResolvable(rules, tree, records);
      allowed, ordered, validations := false, [], map[];
      var existing := CollectValidated();
      if existing.Thrown? {
        return;
      }
      var found := ResolveRecords(records);
      if found.Thrown? {
        return;
      }
      validations := found.value;
      ordered := SortByHeight(Keys(validations.Keys));
      HeightOrderFacts(Model(), validations.Keys);
      hide InHeightOrder, Keys, LowestFirst, AllResolvable, RecordsPass;
      LookupFacts(rules, tree, records, validations, ordered);
      allowed := Preflight(ordered, validations);
    }

    method RestoreReplayValidation(records: seq<Record>) returns (r: Outcome<nat>)
      requires Valid()
      modifies `connected
      ensures Valid() && Step(Model(), r) == Restore(rules, old(Model()), records)
    {
      if records == [] {
        return Value(0);
      }
      if rules.policy.None? {
        return Thrown;
      }
      ghost var before := Model();
      hide Inv, TreeValid, IndexOk, Unindexed, RestoreAllowed, Lookup;
      ValidTree();
      ConnectedIds();
      var allowed, ordered, validations := PrepareRestore(records);
      if !allowed {
        return Thrown;
      }
      AllowedKeepsInv(rules, before, records);
      RestoredIsInstalled(rules, before.tree, records, validations);
      hide NodeOf, Installed, Fresh, RestoredTree, NewlyValidated;
      assert forall id | id in ordered :: id in Elements(ordered);
      var restored := InstallAll(ordered, validations);
      return Value(restored);
    }

    lemma ValidTree()
      requires Valid()
      ensures TreeValid()
    {
    }
  }

  /** `tip` is listed and beats every other listed share. */
  ghost predicate BestAmong(tree: Tree, ids: seq<ShareId>, tip: ShareId) {
    && tip in ids && tip in tree
    && forall x | x in ids && x != tip :: x in tree && BetterTip(tree[tip], tree[x])
  }

  lemma BestAmongExtends(tree: Tree, ids: seq<ShareId>, tip: Option<ShareId>, x: ShareId)
    requires tip.None? ==> ids == []
    requires tip.Some? ==> BestAmong(tree, ids, tip.value)
    requires x in tree && x !in ids && tree[x].id == x && (tip.Some? ==> tree[tip.value].id == tip.value)
    ensures tip.None? || BetterTip(tree[x], tree[tip.value]) ==> BestAmong(tree, ids + [x], x)
    ensures tip.Some? && !BetterTip(tree[x], tree[tip.value]) ==> BestAmong(tree, ids + [x], tip.value)
  {
    assert forall y :: y in ids + [x] <==> y in ids || y == x;
  }

  lemma BestAmongAll(tree: Tree, ids: seq<ShareId>, tip: Option<ShareId>)
    requires forall x :: x in ids <==> x in tree
    requires tip.None? ==> ids == []
    requires tip.Some? ==> BestAmong(tree, ids, tip.value)
    ensures IsBestTip(tree, tip)
  {
    if tip.None? {
      assert tree == map[];
    }
  }

  lemma PersistedIs(c: Chain)
    requires forall id | id in PersistedIds(c) :: Known(c, id)
    ensures Persisted(c) == SharesOf(c, PersistedIds(c))
  {
  }

  lemma SameRecords(tree: Tree, ids: seq<ShareId>, a: seq<Record>, b: seq<Record>)
    requires |a| == |b| == |ids|
    requires forall j | 0 <= j < |ids| ::
      a[j].id == ids[j] && ids[j] in tree && tree[ids[j]].pow == Some(a[j].validation)
    requires forall j | 0 <= j < |ids| ::
      b[j].id == ids[j] && ids[j] in tree && tree[ids[j]].pow == Some(b[j].validation)
    ensures a == b
  {
    forall j | 0 <= j < |a|
      ensures a[j] == b[j]
    {
      assert a[j].id == ids[j] && b[j].id == ids[j];
    }
  }

  /** `chosen` lists the validated shares among the first `n`, and all of them are consistent. */
  ghost predicate ValidatedSoFar(rules: Rules, tree: Tree, all: seq<ShareId>, n: nat, chosen: seq<ShareId>) {
    && n <= |all| && Ascending(all) && (forall x :: x in all <==> x in tree)
    && Ascending(chosen)
    && (forall x :: x in chosen <==> x in all[..n] && x in tree && tree[x].validated)
    && (forall x | x in chosen :: x in tree && ValidatedNodeOk(rules, tree, x))
  }

  lemma ValidatedStart(rules: Rules, tree: Tree, all: seq<ShareId>)
    requires Ascending(all) && (forall x :: x in all <==> x in tree)
    ensures ValidatedSoFar(rules, tree, all, 0, [])
  {
  }

  lemma ValidatedNext(rules: Rules, tree: Tree, all: seq<ShareId>, n: nat, chosen: seq<ShareId>)
    requires ValidatedSoFar(rules, tree, all, n, chosen) && n < |all|
    ensures all[n] in tree
    ensures !tree[all[n]].validated ==> ValidatedSoFar(rules, tree, all, n + 1, chosen)
    ensures tree[all[n]].validated ==>
      if ValidatedNodeOk(rules, tree, all[n]) then ValidatedSoFar(rules, tree, all, n + 1, chosen + [all[n]])
      else !AllValidatedOk(rules, tree)
  {
    hide ValidatedNodeOk;
    assert all[n] in all && all[..n + 1] == all[..n] + [all[n]];
    assert forall x | x in all[..n] :: x < all[n];
    forall i | 0 <= i < |chosen|
      ensures chosen[i] < all[n]
    {
      assert chosen[i] in chosen;
      assert chosen[i] in all[..n];
    }
    assert forall x :: x in chosen + [all[n]] <==> x in chosen || x == all[n];
  }

  lemma ValidatedDone(rules: Rules, tree: Tree, all: seq<ShareId>, chosen: seq<ShareId>)
    requires ValidatedSoFar(rules, tree, all, |all|, chosen)
    ensures AllValidatedOk(rules, tree) && chosen == Keys(ValidatedIds(tree))
  {
    hide ValidatedNodeOk;
    assert all[..|all|] == all;
    AscendingUnique(chosen, Keys(ValidatedIds(tree)));
  }

  lemma KeysOfUnion(a: set<ShareId>, b: set<ShareId>)
    requires a !! b
    ensures multiset(Keys(a) + Keys(b)) == multiset(Keys(a + b))
  {
    var s, t := Keys(a) + Keys(b), Keys(a + b);
    hide Keys;
    assert forall x :: x in s <==> x in t;
    DistinctConcat(Keys(a), Keys(b));
    DistinctSameMultiset(s, t);
  }

  /** The checks on a record that do not depend on the other records. */
  ghost predicate Resolvable(rules: Rules, tree: Tree, rec: Record) {
    && rec.id != NO_SHARE && Consistent(rec.validation)
    && rec.id in tree && rules.idOf(tree[rec.id].share) == rec.id
  }

  /** The map holds exactly the records. */
  ghost predicate Lookup(records: seq<Record>, validations: map<ShareId, Validation>) {
    && validations.Keys == Ids(records)
    && forall rec | rec in records :: rec.id in validations && validations[rec.id] == rec.validation
  }

  lemma RepeatedId(records: seq<Record>, i: nat, seen: map<ShareId, Validation>)
    requires i < |records| && Lookup(records[..i], seen) && records[i].id in seen
    ensures !DistinctIds(records)
  {
    var rec :| rec in records[..i] && rec.id == records[i].id;
    var j :| 0 <= j < i && records[j] == rec;
    assert records[j].id == records[i].id;
  }

  lemma LookupExtends(records: seq<Record>, seen: map<ShareId, Validation>, rec: Record)
    requires Lookup(records, seen) && DistinctIds(records) && rec.id !in seen
    ensures Lookup(records + [rec], seen[rec.id := rec.validation]) && DistinctIds(records + [rec])
  {
    forall i | 0 <= i < |records|
      ensures records[i].id != rec.id
    {
      assert records[i] in records;
    }
    assert Ids(records + [rec]) == Ids(records) + {rec.id};
  }

  ghost predicate PreflightOk(
    rules: Rules, tree: Tree, id: ShareId, validation: Validation, prospective: set<ShareId>)
    requires id in tree
  {
    var node := tree[id];
    if node.validated then node.pow == Some(validation)
    else
      && StructuralReason(rules, node.share) == Accepted
      && (IsRoot(node.share) ||
          (&& node.share.parent in tree && node.share.parent in prospective
           && ParentReason(node.share, tree[node.share.parent].share) == Accepted))
      && DifficultyReason(rules, tree, node.share) == Value(Accepted)
  }

  ghost predicate LowestFirst(tree: Tree, ids: seq<ShareId>) {
    forall i, j | 0 <= i < j < |ids| && ids[i] in tree && ids[j] in tree ::
      tree[ids[i]].share.height <= tree[ids[j]].share.height
  }

  /** A parent that is restored in the same call is lower, so it has been seen already. */
  lemma PreflightIsRecordOk(
    rules: Rules, tree: Tree, ordered: seq<ShareId>, i: nat, validation: Validation)
    requires i < |ordered| && LowestFirst(tree, ordered) && ordered[i] in tree
    requires Resolvable(rules, tree, Record(ordered[i], validation))
    ensures PreflightOk(rules, tree, ordered[i], validation, ValidatedIds(tree) + Elements(ordered[..i]))
       <==> RecordOk(rules, tree, Elements(ordered), Record(ordered[i], validation))
  {
    hide DifficultyReason;
    var s := tree[ordered[i]].share;
    var p := s.parent;
    if p in tree && ParentReason(s, tree[p].share) == Accepted && p in ordered {
      var j :| 0 <= j < |ordered| && ordered[j] == p;
      assert j < i;
      assert p in ordered[..i];
    }
    assert forall x | x in ordered[..i] :: x in ordered;
  }

  /** The tree with the records of `done` installed where they were missing. */
  ghost function Installed(tree: Tree, validations: map<ShareId, Validation>, done: set<ShareId>): Tree {
    map id | id in tree ::
      if id in done && id in validations && !tree[id].validated
      then tree[id].(pow := Some(validations[id]), validated := true) else tree[id]
  }

  ghost function Fresh(tree: Tree, done: set<ShareId>): set<ShareId> {
    set id | id in tree && id in done && !tree[id].validated
  }

  lemma InstalledNext(tree: Tree, validations: map<ShareId, Validation>, done: set<ShareId>, id: ShareId)
    requires id in tree && id in validations && id !in done
    ensures Installed(tree, validations, done)[id] == tree[id]
    ensures tree[id].validated ==>
      && Installed(tree, validations, done + {id}) == Installed(tree, validations, done)
      && Fresh(tree, done + {id}) == Fresh(tree, done)
    ensures !tree[id].validated ==>
      && Installed(tree, validations, done + {id}) ==
         Installed(tree, validations, done)[id := tree[id].(pow := Some(validations[id]), validated := true)]
      && |Fresh(tree, done + {id})| == |Fresh(tree, done)| + 1
  {
    if !tree[id].validated {
      assert Fresh(tree, done + {id}) == Fresh(tree, done) + {id};
    }
  }

  lemma RecordsResolvable(rules: Rules, tree: Tree, records: seq<Record>)
    ensures RestoreAllowed(rules, tree, records) ==>
      && AllValidatedOk(rules, tree)
      && DistinctIds(records) && forall rec | rec in records :: Resolvable(rules, tree, rec)
  {
    hide DifficultyReason, AllValidatedOk;
    if RestoreAllowed(rules, tree, records) {
      forall rec | rec in records
        ensures Resolvable(rules, tree, rec)
      {
        assert RecordOk(rules, tree, Ids(records), rec);
      }
    }
  }

  /** Once every record is resolved, only the preflight pass is left to decide. */
  lemma LookupFacts(
    rules: Rules, tree: Tree, records: seq<Record>, validations: map<ShareId, Validation>, ordered: seq<ShareId>)
    requires rules.policy.Some? && AllValidatedOk(rules, tree) && DistinctIds(records)
    requires Lookup(records, validations) && forall rec | rec in records :: Resolvable(rules, tree, rec)
    requires Elements(ordered) == validations.Keys
    ensures AllResolvable(rules, tree, ordered, validations)
    ensures validations.Keys <= tree.Keys
    ensures RestoreAllowed(rules, tree, records) <==> RecordsPass(rules, tree, ordered, ordered, validations)
  {
    hide RecordOk, AllValidatedOk;
    forall id | id in validations
      ensures id in ordered && Record(id, validations[id]) in records
    {
      assert id in Elements(ordered);
      var rec :| rec in records && rec.id == id;
      assert rec == Record(id, validations[id]);
    }
    forall id | id in ordered
      ensures id in validations
    {
      assert id in Elements(ordered);
    }
    forall rec | rec in records
      ensures rec == Record(rec.id, validations[rec.id])
    {
    }
  }

  lemma HeightOrderFacts(c: Chain, ids: set<ShareId>)
    ensures var ordered := InHeightOrder(c, Keys(ids));
      Elements(ordered) == ids && Distinct(ordered) && LowestFirst(c.tree, ordered)
  {
    InHeightOrderCorrect(c, Keys(ids));
  }

  lemma ElementsNext(s: seq<ShareId>, i: nat)
    requires i < |s|
    ensures Elements(s[..i + 1]) == Elements(s[..i]) + {s[i]}
    ensures Distinct(s) ==> s[i] !in Elements(s[..i])
  {
    assert s[..i + 1] == s[..i] + [s[i]];
  }

  ghost predicate AllResolvable(
    rules: Rules, tree: Tree, ids: seq<ShareId>, validations: map<ShareId, Validation>)
  {
    forall id | id in ids ::
      id in tree && id in validations && Resolvable(rules, tree, Record(id, validations[id]))
  }

  /** The records of `ids` may be restored together with those of `all`. */
  ghost predicate RecordsPass(
    rules: Rules, tree: Tree, all: seq<ShareId>, ids: seq<ShareId>, validations: map<ShareId, Validation>)
  {
    forall id | id in ids :: id in validations && RecordOk(rules, tree, Elements(all), Record(id, validations[id]))
  }

  lemma NoElements(ids: seq<ShareId>)
    ensures Elements(ids[..0]) == {}
  {
  }

  lemma RecordsPassNone(rules: Rules, tree: Tree, all: seq<ShareId>, validations: map<ShareId, Validation>)
    ensures RecordsPass(rules, tree, all, all[..0], validations)
  {
  }

  lemma PreflightStep(
    rules: Rules, tree: Tree, ordered: seq<ShareId>, i: nat, validations: map<ShareId, Validation>)
    requires i < |ordered| && LowestFirst(tree, ordered) && AllResolvable(rules, tree, ordered, validations)
    requires RecordsPass(rules, tree, ordered, ordered[..i], validations)
    ensures ordered[i] in tree && ordered[i] in validations
    ensures Elements(ordered[..i + 1]) == Elements(ordered[..i]) + {ordered[i]}
    ensures if PreflightOk(rules, tree, ordered[i], validations[ordered[i]],
                           ValidatedIds(tree) + Elements(ordered[..i]))
      then RecordsPass(rules, tree, ordered, ordered[..i + 1], validations)
      else !RecordsPass(rules, tree, ordered, ordered, validations)
  {
    assert ordered[i] in ordered && ordered[..i + 1] == ordered[..i] + [ordered[i]];
    ElementsNext(ordered, i);
    PreflightIsRecordOk(rules, tree, ordered, i, validations[ordered[i]]);
    hide RecordOk, PreflightOk, Resolvable;
  }

  lemma NothingInstalled(tree: Tree, validations: map<ShareId, Validation>)
    ensures Installed(tree, validations, {}) == tree && Fresh(tree, {}) == {}
  {
  }


  lemma AllowedKeepsInv(rules: Rules, c: Chain, records: seq<Record>)
    requires Inv(rules, ConsistentRecords(), c)
    ensures Inv(rules, ConsistentRecords(), Restore(rules, c, records).chain)
  {
    hide Inv;
    AnyRestoreIsConsistent(rules, c, RestoreOp(records));
    RestoreKeepsInv(rules, ConsistentRecords(), c, records);
  }

  lemma RestoredIsInstalled(
    rules: Rules, tree: Tree, records: seq<Record>, validations: map<ShareId, Validation>)
    requires Lookup(records, validations) && forall id | id in tree :: tree[id].id == id
    ensures RestoredTree(tree, records) == Installed(tree, validations, validations.Keys)
    ensures NewlyValidated(tree, records) == Fresh(tree, validations.Keys)
  {
    forall id | id in tree
      ensures RestoredNode(records, tree[id]) == Installed(tree, validations, validations.Keys)[id]
    {
      if id in Ids(records) {
        var _ := ValidationOfRecord(records, id);
      }
    }
  }

  predicate HeightBefore(heights: map<ShareId, U64>, a: ShareId, b: ShareId) {
    var x, y := if a in heights then heights[a] else 0, if b in heights then heights[b] else 0;
    x < y || (x == y && a < b)
  }

  lemma HeightOrderPermutation(c: Chain, a: seq<ShareId>, b: seq<ShareId>)
    requires multiset(a) == multiset(b)
    ensures InHeightOrder(c, a) == InHeightOrder(c, b)
  {
    var less := (x: ShareId, y: ShareId) => ByHeight(c, x, y);
    assert TotalOrder(less);
    SortByPermutation(a, b, less);
  }

  lemma AscendingUnique(a: seq<ShareId>, b: seq<ShareId>)
    requires Ascending(a) && Ascending(b) && forall x :: x in a <==> x in b
    ensures a == b
  {
    DistinctSameMultiset(a, b);
    SortedUnique(a, b, NatLess);
  }

  /** The index lists, under each parent and without repetition, its children among `ids`. */
  ghost predicate ChildrenSoFar(tree: Tree, children: OrphanIndex, ids: seq<ShareId>) {
    && (forall p, x :: InIndex(children, p, x) <==> IsChild(tree, x, p) && x in ids)
    && (forall p | p in children :: Distinct(children[p]))
  }

  lemma ChildrenStart(tree: Tree)
    ensures ChildrenSoFar(tree, map[], [])
  {
  }

  lemma ChildrenNext(
    tree: Tree, children: OrphanIndex, ids: seq<ShareId>, id: ShareId, siblings: seq<ShareId>)
    requires ChildrenSoFar(tree, children, ids) && id in tree && id !in ids
    requires var p := tree[id].share.parent;
      siblings == if p in children then children[p] else []
    ensures IsRoot(tree[id].share) ==> ChildrenSoFar(tree, children, ids + [id])
    ensures !IsRoot(tree[id].share) ==>
      ChildrenSoFar(tree, children[tree[id].share.parent := siblings + [id]], ids + [id])
  {
    var p := tree[id].share.parent;
    assert id !in siblings by {
      assert id in siblings ==> InIndex(children, p, id);
    }
    assert forall x :: x in ids + [id] <==> x in ids || x == id;
    var children' := children[p := siblings + [id]];
    forall q, x
      ensures InIndex(children', q, x) <==> InIndex(children, q, x) || (q == p && x == id)
    {
    }
  }

  /** The index lists exactly the children of every share, none twice. */
  ghost predicate IndexesChildren(tree: Tree, children: OrphanIndex) {
    && (forall p, x :: InIndex(children, p, x) <==> IsChild(tree, x, p))
    && (forall p | p in children :: Distinct(children[p]))
  }

  lemma ChildrenDone(tree: Tree, children: OrphanIndex, ids: seq<ShareId>)
    requires ChildrenSoFar(tree, children, ids) && forall x :: x in ids <==> x in tree
    ensures IndexesChildren(tree, children)
  {
  }

  lemma ChildrenOf(tree: Tree, children: OrphanIndex, p: ShareId, list: seq<ShareId>)
    requires IndexesChildren(tree, children) && list == if p in children then children[p] else []
    ensures Distinct(list) && forall x :: x in list <==> IsChild(tree, x, p)
  {
    assert forall x :: x in list <==> InIndex(children, p, x);
  }

  lemma WorklistStart(tree: Tree, root: ShareId)
    requires root in tree
    ensures Worklist(tree, root, [root], 0)
  {
  }

  lemma PruneOutcome(c: Chain, root: ShareId, tip: Option<ShareId>)
    requires root in c.tree && (forall id | id in c.tree :: c.tree[id].id == id)
    requires IsBestTip(c.tree - Subtree(c.tree, root), tip)
    ensures Prune(c, root) == c.(tree := c.tree - Subtree(c.tree, root), tip := tip)
  {
    var kept := c.tree - Subtree(c.tree, root);
    BestTipUnique(kept, tip, BestTip(kept));
  }

  lemma DrainSingle(rules: Rules, c: Chain, id: ShareId)
    requires id in c.orphans
    ensures var turn := TakeTurn(rules, c, id);
      Drain(rules, c, [id]) ==
      if turn.Throws? then Promotion(c, 0, true)
      else
        var run := Drain(rules, turn.chain, turn.next);
        Promotion(run.chain, turn.promoted + run.promoted, run.threw)
  {
    hide Drain, TakeTurn;
    DrainUnfold(rules, c, id, []);
    var turn := TakeTurn(rules, c, id);
    assert [id] + [] == [id];
    assert turn.Done? ==> turn.next + [] == turn.next;
  }

  lemma TurnOutcome(rules: Rules, c: Chain, id: ShareId)
    requires id in c.orphans && (IsRoot(c.orphans[id].share) || c.orphans[id].share.parent in c.tree)
    ensures var o := c.orphans[id];
      var reason := ConnectReason(rules, c.tree, o.share, o.enforce);
      if reason.Thrown? then TakeTurn(rules, c, id) == Throws
      else if reason.value != Accepted then TakeTurn(rules, c, id) == Done(DropOrphan(c, id), 0, [])
      else
        var d := DropOrphan(Link(c, NewNode(c.tree, o.share, id, o.pow, o.enforce)), id);
        && id in d.tree
        && TakeTurn(rules, c, id) == Done(Unlist(d, ListedUnder(d, id)), 1, Keys(ListedUnder(d, id)))
  {
    var o := c.orphans[id];
    hide ConnectReason;
    LinkThenDrop(c, NewNode(c.tree, o.share, id, o.pow, o.enforce));
  }

  lemma LinkIsAttach(c: Chain, node: Node)
    ensures ListedUnder(Link(c, node), node.id) == ListedUnder(c, node.id)
    ensures Unlist(Link(c, node), ListedUnder(Link(c, node), node.id)) == Attach(c, node)
    ensures node.id in Link(c, node).tree
  {
  }

  lemma LinkThenDrop(c: Chain, node: Node)
    ensures var d := DropOrphan(Link(c, node), node.id);
      && Unlist(d, ListedUnder(d, node.id)) == Attach(DropOrphan(c, node.id), node)
      && ListedUnder(d, node.id) == ListedUnder(DropOrphan(c, node.id), node.id)
  {
  }

  /** Taking a parent's waiting orphans off the list makes them the work to do. */
  lemma UnlistPending(rules: Rules, trust: Trust, c: Chain, p: ShareId)
    requires p in c.tree && Inv(rules, trust, Unlist(c, ListedUnder(c, p)))
    ensures Pending(Unlist(c, ListedUnder(c, p)), c.detached, Keys(ListedUnder(c, p)))
  {
  }
}

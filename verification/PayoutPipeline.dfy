/** From a share in the tree to a verified coinbase: the window below it, the plan for the next block, and
    the verifier. */
module PayoutPipeline {
  import opened Basics
  import opened Orders
  import opened Shares
  import opened ShareTree
  import opened TreeInvariant
  import opened Agreement
  import opened Windows
  import opened Pplns
  import opened Allocation
  import opened AllocationLaws
  import opened Coinbase
  import PayoutPolicy

  function WindowParamsOf(params: Parameters): WindowParams {
    WindowParams(params.windowShares, params.multiplier)
  }

  // ---- The rows of a window --------------------------------------------------------------------

  /** The shares a window credits: each of them for something. */
  ghost predicate Credited(shares: seq<Share>, requested: nat) {
    && shares != [] && TotalWork(shares[..|shares| - 1]) < requested
    && forall s | s in shares :: s.difficulty > 0
  }

  lemma {:induction false} EveryMinerEarns(shares: seq<Share>, requested: nat, m: MinerId)
    requires Credited(shares, requested) && m in MinersOf(shares)
    ensures CreditedTo(shares, requested, m) > 0
  {
    var last := |shares| - 1;
    assert shares[last] in shares;
    if shares[last].miner != m {
      var s :| s in shares && s.miner == m;
      var front := shares[..last];
      assert shares == front + [shares[last]];
      assert s in front && m in MinersOf(front);
      TotalWorkMonotone(shares, last - 1, last);
      assert front[..last - 1] == shares[..last - 1];
      EveryMinerEarns(front, requested, m);
    }
  }

  ghost function RowsOf(shares: seq<Share>, requested: nat): seq<MinerWork> {
    RowsFor(shares, requested, Keys(MinersOf(shares)))
  }

  lemma {:induction false} WorkOfRows(shares: seq<Share>, requested: nat, ids: seq<MinerId>, m: MinerId)
    requires Distinct(ids)
    ensures WorkOf(RowsFor(shares, requested, ids), m) == if m in ids then CreditedTo(shares, requested, m) else 0
  {
    if ids != [] {
      var last := |ids| - 1;
      var front := ids[..last];
      WorkOfRows(shares, requested, front, m);
      assert RowsFor(shares, requested, ids)[..last] == RowsFor(shares, requested, front);
      assert ids == front + [ids[last]];
    }
  }

  lemma {:induction false} WorkBelowSum(rows: seq<MinerWork>, m: MinerId)
    ensures WorkOf(rows, m) <= SumRows(rows)
  {
    if rows != [] {
      WorkBelowSum(rows[..|rows| - 1], m);
    }
  }

  lemma AscendingDistinct(ids: seq<MinerId>)
    requires Ascending(ids)
    ensures Distinct(ids)
  {
  }

  /** Every row counts, one per miner, with that miner's credit and keys. */
  lemma RowsAre(shares: seq<Share>, requested: nat)
    requires Credited(shares, requested)
    ensures var rows := RowsOf(shares, requested);
      && Miners(rows) == MinersOf(shares)
      && (forall m | m in MinersOf(shares) :: WorkOf(rows, m) == CreditedTo(shares, requested, m))
      && (forall m, keys :: Shows(rows, m, keys) <==> m in MinersOf(shares) && PayoutFor(shares, m) == Some(keys))
  {
    var ids, rows := Keys(MinersOf(shares)), RowsOf(shares, requested);
    AscendingDistinct(ids);
    forall m | m in MinersOf(shares)
      ensures WorkOf(rows, m) == CreditedTo(shares, requested, m) && RowCounts(shares, requested, m)
    {
      WorkOfRows(shares, requested, ids, m);
      EveryMinerEarns(shares, requested, m);
      var i :| 0 <= i < |ids| && ids[i] == m;
      assert rows[i] == RowFor(shares, requested, m);
    }
    hide CreditedTo, PayoutFor, MinersOf, Keys, WorkOf;
    assert forall row | row in rows :: row.miner in MinersOf(shares) && row == RowFor(shares, requested, row.miner);
    forall m, keys
      ensures Shows(rows, m, keys) <==> m in MinersOf(shares) && PayoutFor(shares, m) == Some(keys)
    {
      if m in MinersOf(shares) {
        assert RowCounts(shares, requested, m);
      }
    }
    forall m
      ensures m in Miners(rows) <==> m in MinersOf(shares)
    {
      if m in MinersOf(shares) {
        assert RowCounts(shares, requested, m);
      }
    }
  }

  ghost predicate RowCounts(shares: seq<Share>, requested: nat, m: MinerId) {
    Counts(RowsOf(shares, requested), RowFor(shares, requested, m))
  }

  lemma {:induction false} FewMiners(shares: seq<Share>)
    ensures |MinersOf(shares)| <= |shares|
  {
    if shares != [] {
      var front, s := shares[..|shares| - 1], shares[|shares| - 1];
      FewMiners(front);
      assert shares == front + [s];
      AppendShare(front, s, 0, s.miner);
    }
  }

  /** The payouts are for the miners of the shares, with the keys they have shown. */
  ghost predicate PaysAll(shares: seq<Share>, payouts: seq<Payout>) {
    && payouts != [] && |payouts| <= |shares| && PaidMiners(payouts) == Keys(MinersOf(shares))
    && forall p | p in payouts :: p.keys == PayoutFor(shares, p.miner) && p.miner in MinersOf(shares)
  }

  /** The allocation of such a window never throws, pays everybody in it, and knows their keys. */
  lemma WindowAllocates(minerOf: PayoutKeys -> MinerId, shares: seq<Share>, requested: nat, reward: nat)
    requires Credited(shares, requested) && PayoutsAgree(minerOf, shares)
    requires SumRows(RowsOf(shares, requested)) < TWO_256
    ensures Allocate(minerOf, RowsOf(shares, requested), reward).Value?
    ensures PaysAll(shares, Allocate(minerOf, RowsOf(shares, requested), reward).value)
  {
    hide RowsOf, PayoutFor, CreditedTo, PayoutsAgree, RowsAgree, Allocate, WorkOf, IsApportionment, KeysOf, SumRows, Shows;
    var rows := RowsOf(shares, requested);
    AgreeingRows(minerOf, shares, requested);
    RowsAre(shares, requested);
    forall m | m in Miners(rows)
      ensures WorkOf(rows, m) < TWO_256
    {
      WorkBelowSum(rows, m);
    }
    assert shares[0] in shares && shares[0].miner in MinersOf(shares);
    AllocationIsFair(minerOf, rows, reward);
    var payouts := Allocate(minerOf, rows, reward).value;
    PaidInOrder(rows, reward, payouts);
    hide Credited, Miners, MinersOf;
    FewMiners(shares);
    forall m
      ensures KeysOf(rows, m) == if m in MinersOf(shares) then PayoutFor(shares, m) else None
    {
      KeysAre(minerOf, shares, rows, m);
    }
  }

  lemma KeysAre(minerOf: PayoutKeys -> MinerId, shares: seq<Share>, rows: seq<MinerWork>, m: MinerId)
    requires RowsAgree(minerOf, rows)
    requires forall m, keys :: Shows(rows, m, keys) <==> m in MinersOf(shares) && PayoutFor(shares, m) == Some(keys)
    ensures KeysOf(rows, m) == if m in MinersOf(shares) then PayoutFor(shares, m) else None
  {
    hide MinersOf, PayoutFor;
    KeysOfNone(rows, m);
    if m in MinersOf(shares) && PayoutFor(shares, m).Some? {
      KeysOfShown(minerOf, rows, m, PayoutFor(shares, m).value);
    }
  }

  lemma AgreeingRows(minerOf: PayoutKeys -> MinerId, shares: seq<Share>, requested: nat)
    requires Credited(shares, requested) && PayoutsAgree(minerOf, shares)
    ensures RowsAgree(minerOf, RowsOf(shares, requested))
  {
    RowsAre(shares, requested);
    hide RowsOf, CreditedTo;
    forall m, keys | Shows(RowsOf(shares, requested), m, keys)
      ensures minerOf(keys) == m
    {
      PayoutForMember(shares, m);
    }
  }

  lemma PaidInOrder(rows: seq<MinerWork>, reward: nat, payouts: seq<Payout>)
    requires IsApportionment(rows, reward, payouts)
    ensures PaidMiners(payouts) == Keys(Miners(rows)) && |payouts| == |Miners(rows)|
    ensures forall p | p in payouts :: p.keys == KeysOf(rows, p.miner) && p.miner in Miners(rows)
  {
    hide WorkOf, KeysOf, SumAmounts, SumRows, Miners;
    assert |PaidMiners(payouts)| == |payouts|;
    forall p | p in payouts
      ensures p.keys == KeysOf(rows, p.miner) && p.miner in Miners(rows)
    {
      var i :| 0 <= i < |payouts| && payouts[i] == p;
      assert FairShare(rows, reward, SumRows(rows), payouts[i]);
      assert PaidMiners(payouts)[i] in PaidMiners(payouts);
    }
  }

  // ---- The plan for a reachable chain ----------------------------------------------------------

  /** Every miner among the shares shows payout keys in one of them. */
  ghost predicate EveryMinerShows(shares: seq<Share>) {
    forall m | m in MinersOf(shares) :: PayoutFor(shares, m).Some?
  }

  /** Keys are shown exactly when some share of the miner carries them. */
  lemma ShownBySomeShare(shares: seq<Share>)
    ensures EveryMinerShows(shares) <==>
      forall s | s in shares :: exists t :: t in shares && t.miner == s.miner && t.payout.Some?
  {
    forall m | m in MinersOf(shares)
      ensures PayoutFor(shares, m).Some? <==> exists t :: t in shares && t.miner == m && t.payout.Some?
    {
      PayoutForMember(shares, m);
    }
    hide PayoutFor;
    forall s | s in shares
      ensures s.miner in MinersOf(shares)
    {
    }
  }

  ghost predicate EveryAmountPositive(payouts: seq<Payout>) {
    forall p | p in payouts :: p.amount > 0
  }

  lemma {:induction false} ProblemIff(minerOf: PayoutKeys -> MinerId, payouts: seq<Payout>)
    ensures FirstProblem(minerOf, payouts).None? <==> forall p | p in payouts :: Problem(minerOf, p).None?
    ensures FirstProblem(minerOf, payouts).Some? ==>
      exists p :: p in payouts && Problem(minerOf, p) == FirstProblem(minerOf, payouts)
  {
    if payouts != [] {
      ProblemIff(minerOf, payouts[1..]);
      assert payouts == [payouts[0]] + payouts[1..];
    }
  }

  /** The shares the sidechain window of `p` credits. */
  ghost function CreditedShares(tree: Tree, p: ShareId, params: Parameters, network: Difficulty): seq<Share> {
    var branch := Branch(tree, p);
    Covering(branch, PolicyWork(branch, WindowParamsOf(params), network))
  }

  /** What a window built on a reachable chain passes on. */
  ghost predicate PayableWindow(minerOf: PayoutKeys -> MinerId, shares: seq<Share>, params: Parameters, w: Window) {
    && w.complete && w.miners == RowsOf(shares, w.requested) && SumRows(w.miners) < TWO_256
    && Credited(shares, w.requested) && PayoutsAgree(minerOf, shares) && |shares| <= params.windowShares
  }

  lemma CoveringIsCredited(rules: Rules, tree: Tree, p: ShareId, requested: nat)
    requires TreeOk(rules, tree) && p in tree && p != NO_SHARE && requested > 0
    ensures Credited(Covering(Branch(tree, p), requested), requested)
    ensures PayoutsAgree(rules.minerOf, Covering(Branch(tree, p), requested))
       <==> !PayoutsConflict(Covering(Branch(tree, p), requested))
  {
    var branch := Branch(tree, p);
    BranchWork(rules, tree, p);
    BranchPositive(rules, tree, p);
    CoveringExact(branch, requested);
    BranchPayoutsAgree(rules, tree, p, |Covering(branch, requested)|);
    hide TreeOk, Branch, PayoutsConflict, PayoutsAgree, TotalWork;
    assert branch != [];
    assert forall s | s in Covering(branch, requested) :: s in branch;
  }

  lemma WindowFacts(rules: Rules, c: Chain, p: ShareId, params: Parameters, network: Difficulty)
    requires Reachable(rules, ConsistentRecords(), c) && p in c.tree && p != NO_SHARE
    requires ParametersValid(params) && network > 0
    requires SidechainWindow(rules, c.tree, p, WindowParamsOf(params), network).Value?
    ensures PayableWindow(rules.minerOf, CreditedShares(c.tree, p, params, network), params,
                    SidechainWindow(rules, c.tree, p, WindowParamsOf(params), network).value)
  {
    hide Reachable, Inv, TreeOk, TrustOk, Branch, SidechainWindow, PayoutsConflict, TotalWork, PayoutsAgree, Covering,
         Credited, RowsFor, Newest, PolicyWork;
    var params', branch := WindowParamsOf(params), Branch(c.tree, p);
    InvOf(rules, c);
    SidechainWindowExact(rules, c, p, params', network);
    WorkIsBranchSum(rules, c, p);
    var requested := PolicyWork(branch, params', network);
    PolicyBelowWork(rules, c.tree, p, params', network);
    CoveringIsCredited(rules, c.tree, p, requested);
  }

  lemma PolicyBelowWork(rules: Rules, tree: Tree, p: ShareId, params: WindowParams, network: Difficulty)
    requires TreeOk(rules, tree) && p in tree && p != NO_SHARE
    ensures PolicyWork(Branch(tree, p), params, network) <= tree[p].work
  {
    NewestWork(rules, tree, p, params.windowShares);
    hide TreeOk, Branch, TotalWork, Newest;
  }

  lemma {:induction false} BranchPositive(rules: Rules, tree: Tree, p: ShareId)
    requires TreeOk(rules, tree) && p in tree && p != NO_SHARE
    ensures forall s | s in Branch(tree, p) :: s.difficulty > 0
    decreases tree[p].share.height
  {
    assert NodeOk(rules, tree, p);
    BranchUnfold(rules, tree, p);
    if !IsRoot(tree[p].share) {
      BranchPositive(rules, tree, tree[p].share.parent);
    }
  }

  /** The plan for a window of a reachable chain: it is never refused for an empty or incomplete window or
      for too many recipients, no exception escapes, and it is ready exactly when there is a reward, every
      credited miner has shown payout keys and nobody's share of the reward rounds to nothing. */
  lemma PlanOnReachableChain(
    rules: Rules, c: Chain, p: ShareId, params: Parameters, network: Difficulty, reward: U64, r: Outcome<Plan>)
    requires Reachable(rules, ConsistentRecords(), c) && p in c.tree && p != NO_SHARE
    requires ParametersValid(params) && network > 0
    requires SidechainWindow(rules, c.tree, p, WindowParamsOf(params), network).Value?
    requires IsPlan(rules.minerOf, SidechainWindow(rules, c.tree, p, WindowParamsOf(params), network).value,
                    reward, params, r)
    ensures Fee(reward, params) <= reward
    ensures var w := SidechainWindow(rules, c.tree, p, WindowParamsOf(params), network).value;
      var payouts := MinerPayouts(rules.minerOf, w, reward, params);
      && r.Value? && payouts.Value?
      && (r.value.status == Ready || r.value.status == MissingPayoutIdentity || r.value.status == ZeroPayout)
      && (EveryMinerShows(CreditedShares(c.tree, p, params, network)) ==> r.value.status != MissingPayoutIdentity)
      && (r.value.status == Ready <==>
            && reward > 0 && EveryMinerShows(CreditedShares(c.tree, p, params, network))
            && EveryAmountPositive(payouts.value))
  {
    hide Reachable, SidechainWindow, CreditedShares, PayableWindow, MinerPayouts, IsPlan, Fee, ParametersValid, EveryMinerShows,
         EveryAmountPositive;
    WindowFacts(rules, c, p, params, network);
    PlanForWindow(rules.minerOf, CreditedShares(c.tree, p, params, network), params,
                  SidechainWindow(rules, c.tree, p, WindowParamsOf(params), network).value, reward, r);
  }

  lemma PlanForWindow(
    minerOf: PayoutKeys -> MinerId, shares: seq<Share>, params: Parameters, w: Window, reward: U64, r: Outcome<Plan>)
    requires PayableWindow(minerOf, shares, params, w) && ParametersValid(params)
    requires IsPlan(minerOf, w, reward, params, r)
    ensures Fee(reward, params) <= reward
    ensures var payouts := MinerPayouts(minerOf, w, reward, params);
      && r.Value? && payouts.Value?
      && (r.value.status == Ready || r.value.status == MissingPayoutIdentity || r.value.status == ZeroPayout)
      && (EveryMinerShows(shares) ==> r.value.status != MissingPayoutIdentity)
      && (r.value.status == Ready <==>
            reward > 0 && EveryMinerShows(shares) && EveryAmountPositive(payouts.value))
  {
    hide RowsOf, Allocate, Fee, Credited, PayoutsAgree, ParametersValid, IsPlan, PaysAll, PayoutStatus, EveryMinerShows,
         EveryAmountPositive, SumRows;
    FeeIs(reward, params);
    WindowAllocates(minerOf, shares, w.requested, reward - Fee(reward, params));
    CreditedSome(shares, w.requested);
    RowsNotEmpty(shares, w.requested);
    PlanStatusIs(minerOf, shares, MinerPayouts(minerOf, w, reward, params).value, params);
    PlanHasStatus(minerOf, w, reward, params, r);
  }

  lemma CreditedSome(shares: seq<Share>, requested: nat)
    requires Credited(shares, requested)
    ensures shares != []
  {
  }

  lemma PlanHasStatus(minerOf: PayoutKeys -> MinerId, w: Window, reward: U64, params: Parameters, r: Outcome<Plan>)
    requires ParametersValid(params) && w.miners != [] && w.complete && Fee(reward, params) <= reward
    requires IsPlan(minerOf, w, reward, params, r) && MinerPayouts(minerOf, w, reward, params).Value?
    ensures r.Value? && r.value.status ==
      if reward == 0 then ZeroPayout
      else PayoutStatus(minerOf, MinerPayouts(minerOf, w, reward, params).value, params)
  {
    hide Allocate, Fee, PayoutStatus, WithFee, DestinationsOf;
    FeeIs(reward, params);
  }

  lemma RowsNotEmpty(shares: seq<Share>, requested: nat)
    requires shares != []
    ensures RowsOf(shares, requested) != []
  {
    assert shares[0] in shares && shares[0].miner in MinersOf(shares);
  }

  lemma PlanStatusIs(minerOf: PayoutKeys -> MinerId, shares: seq<Share>, payouts: seq<Payout>, params: Parameters)
    requires ParametersValid(params) && PayoutsAgree(minerOf, shares) && |shares| <= params.windowShares
    requires PaysAll(shares, payouts)
    ensures var status := PayoutStatus(minerOf, payouts, params);
      && (status == Ready || status == MissingPayoutIdentity || status == ZeroPayout)
      && (EveryMinerShows(shares) ==> status != MissingPayoutIdentity)
      && (status == Ready <==> EveryMinerShows(shares) && EveryAmountPositive(payouts))
  {
    ProblemIff(minerOf, payouts);
    forall p | p in payouts
      ensures Problem(minerOf, p).None? <==> PayoutFor(shares, p.miner).Some? && p.amount > 0
      ensures Problem(minerOf, p) == Some(MissingPayoutIdentity) <==> PayoutFor(shares, p.miner).None?
      ensures Problem(minerOf, p).Some? ==>
        Problem(minerOf, p).value == MissingPayoutIdentity || Problem(minerOf, p).value == ZeroPayout
    {
      PayoutForMember(shares, p.miner);
    }
    forall m | m in MinersOf(shares)
      ensures exists p :: p in payouts && p.miner == m
    {
      var i :| 0 <= i < |PaidMiners(payouts)| && PaidMiners(payouts)[i] == m;
      assert payouts[i] in payouts;
    }
    hide FirstProblem, PayoutFor, MinersOf, Keys, Problem, PayoutsAgree;
  }

  // ---- Readiness in terms of work and reward ---------------------------------------------------

  /** Everybody's exact quota of the reward is at least one unit. */
  ghost predicate QuotasReachOne(shares: seq<Share>, w: Window, reward: nat) {
    forall m | m in MinersOf(shares) :: reward * CreditedTo(shares, w.requested, m) >= w.covered
  }

  lemma FloorReachesOne(x: nat, total: nat)
    requires total > 0 && x >= total
    ensures x / total >= 1
  {
    QuotientAtLeast(x, total, 1);
  }

  lemma {:induction false} SumAtLeastCount(payouts: seq<Payout>)
    requires EveryAmountPositive(payouts)
    ensures SumAmounts(payouts) >= |payouts|
  {
    if payouts != [] {
      var front := payouts[..|payouts| - 1];
      assert forall p | p in front :: p in payouts;
      SumAtLeastCount(front);
      assert payouts[|payouts| - 1] in payouts;
    }
  }

  /** A quota of a unit or more pays something. */
  lemma QuotaPays(rows: seq<MinerWork>, reward: nat, payouts: seq<Payout>, p: Payout)
    requires IsApportionment(rows, reward, payouts) && p in payouts
    requires reward * WorkOf(rows, p.miner) >= SumRows(rows)
    ensures p.amount > 0
  {
    hide WorkOf, KeysOf, SumAmounts, SumRows, Miners;
    var i :| 0 <= i < |payouts| && payouts[i] == p;
    assert FairShare(rows, reward, SumRows(rows), payouts[i]);
    FloorReachesOne(reward * p.work, SumRows(rows));
  }

  /** Paying everybody takes a unit each. */
  lemma UnitEach(rows: seq<MinerWork>, reward: nat, payouts: seq<Payout>)
    requires IsApportionment(rows, reward, payouts) && EveryAmountPositive(payouts)
    ensures reward >= |Miners(rows)|
  {
    hide WorkOf, KeysOf, SumAmounts, SumRows, Miners, FairShare;
    PaidInOrder(rows, reward, payouts);
    SumAtLeastCount(payouts);
  }

  /** Quotas of a unit or more pay everybody something, and paying everybody takes a unit each. */
  lemma PositiveAmounts(minerOf: PayoutKeys -> MinerId, shares: seq<Share>, w: Window, reward: nat)
    requires Credited(shares, w.requested) && w.miners == RowsOf(shares, w.requested) && w.covered == SumRows(w.miners)
    requires Allocate(minerOf, w.miners, reward).Value?
    ensures var payouts := Allocate(minerOf, w.miners, reward).value;
      && (QuotasReachOne(shares, w, reward) ==> EveryAmountPositive(payouts))
      && (EveryAmountPositive(payouts) ==> reward >= |MinersOf(shares)|)
  {
    hide RowsOf, CreditedTo, Allocate, WorkOf, KeysOf, Shows, SumRows, Miners, IsApportionment;
    var payouts := Allocate(minerOf, w.miners, reward).value;
    RowsAre(shares, w.requested);
    assert shares[0] in shares && shares[0].miner in MinersOf(shares);
    AllocationIsFair(minerOf, w.miners, reward);
    hide Credited, MinersOf;
    PaidInOrder(w.miners, reward, payouts);
    if EveryAmountPositive(payouts) {
      UnitEach(w.miners, reward, payouts);
    }
    if QuotasReachOne(shares, w, reward) {
      forall p | p in payouts
        ensures p.amount > 0
      {
        QuotaPays(w.miners, reward, payouts, p);
      }
    }
  }

  lemma {:induction false} BranchVersions(rules: Rules, tree: Tree, p: ShareId)
    requires TreeOk(rules, tree) && p in tree && p != NO_SHARE && rules.policy.Some?
    ensures forall s | s in Branch(tree, p) :: s.version >= rules.policy.value.minVersion
    decreases tree[p].share.height
  {
    assert NodeOk(rules, tree, p);
    BranchUnfold(rules, tree, p);
    if !IsRoot(tree[p].share) {
      BranchVersions(rules, tree, tree[p].share.parent);
    }
  }

  /** On a chain that admits only version 2, every credited miner has shown payout keys. */
  lemma VersionTwoShows(rules: Rules, c: Chain, p: ShareId, params: Parameters, network: Difficulty)
    requires Reachable(rules, ConsistentRecords(), c) && p in c.tree && p != NO_SHARE
    requires rules.policy.Some? && rules.policy.value.minVersion >= 2
    ensures EveryMinerShows(CreditedShares(c.tree, p, params, network))
  {
    InvOf(rules, c);
    BranchVersions(rules, c.tree, p);
    BranchEncodable(rules, c.tree, p);
    hide Reachable, Inv, TreeOk, Branch, PolicyWork;
    var branch, shares := Branch(c.tree, p), CreditedShares(c.tree, p, params, network);
    CoveringExact(branch, PolicyWork(branch, WindowParamsOf(params), network));
    forall s | s in shares
      ensures s.payout.Some?
    {
      assert s in branch;
    }
    hide CreditedShares, Covering;
    forall m | m in MinersOf(shares)
      ensures PayoutFor(shares, m).Some?
    {
      PayoutForMember(shares, m);
    }
  }

  /** So the plan of a version 2 chain is refused only for rounding: it is ready whenever everybody's quota
      of the reward after the fee is a unit or more, and only if there is a unit for everybody. */
  lemma VersionTwoPlan(
    rules: Rules, c: Chain, p: ShareId, params: Parameters, network: Difficulty, reward: U64, r: Outcome<Plan>)
    requires Reachable(rules, ConsistentRecords(), c) && p in c.tree && p != NO_SHARE
    requires rules.policy.Some? && rules.policy.value.minVersion >= 2 && ParametersValid(params) && network > 0
    requires SidechainWindow(rules, c.tree, p, WindowParamsOf(params), network).Value?
    requires IsPlan(rules.minerOf, SidechainWindow(rules, c.tree, p, WindowParamsOf(params), network).value,
                    reward, params, r)
    ensures Fee(reward, params) <= reward && r.Value?
    ensures r.value.status == Ready || r.value.status == ZeroPayout
    ensures var w := SidechainWindow(rules, c.tree, p, WindowParamsOf(params), network).value;
      var shares, rest := CreditedShares(c.tree, p, params, network), reward - Fee(reward, params);
      && (reward > 0 && QuotasReachOne(shares, w, rest) ==> r.value.status == Ready)
      && (r.value.status == Ready ==> rest >= |MinersOf(shares)|)
  {
    hide Reachable, SidechainWindow, CreditedShares, IsPlan, Fee, ParametersValid, EveryMinerShows, EveryAmountPositive,
         QuotasReachOne, Allocate, MinersOf;
    var w, shares := SidechainWindow(rules, c.tree, p, WindowParamsOf(params), network).value,
      CreditedShares(c.tree, p, params, network);
    VersionTwoShows(rules, c, p, params, network);
    PlanOnReachableChain(rules, c, p, params, network, reward, r);
    WindowFacts(rules, c, p, params, network);
    CoveredIsSum(rules, c, p, params, network);
    PositiveAmounts(rules.minerOf, shares, w, reward - Fee(reward, params));
  }

  lemma CoveredIsSum(rules: Rules, c: Chain, p: ShareId, params: Parameters, network: Difficulty)
    requires Reachable(rules, ConsistentRecords(), c) && p in c.tree && p != NO_SHARE
    requires ParametersValid(params) && network > 0
    requires SidechainWindow(rules, c.tree, p, WindowParamsOf(params), network).Value?
    ensures var w := SidechainWindow(rules, c.tree, p, WindowParamsOf(params), network).value;
      w.covered == SumRows(w.miners)
  {
    hide Reachable, SidechainWindow, WindowExists;
    SidechainWindowExact(rules, c, p, WindowParamsOf(params), network);
  }

  /** The transaction is what an honest builder discloses for the plan. */
  ghost predicate Honest(
    curve: PayoutPolicy.Curve, plan: Plan, outputs: seq<PayoutPolicy.Output>, tgc: PayoutPolicy.Tgc)
  {
    var payouts := PayoutPolicy.PhysicalPayouts(plan.destinations);
    payouts.Some? && PayoutPolicy.HonestTransaction(curve, payouts.value, outputs, tgc)
  }

  /** And the coinbase an honest peer builds from a ready plan is verified exactly when one-time addresses
      tell its destinations apart.  It can be built unless the whole reward is a single unit. */
  lemma HonestBlockVerifies(
    rules: Rules, c: Chain, p: ShareId, params: Parameters, network: Difficulty, reward: U64, plan: Plan,
    curve: PayoutPolicy.Curve, outputs: seq<PayoutPolicy.Output>, tgc: PayoutPolicy.Tgc)
    requires SidechainWindow(rules, c.tree, p, WindowParamsOf(params), network).Value?
    requires IsPlan(rules.minerOf, SidechainWindow(rules, c.tree, p, WindowParamsOf(params), network).value,
                    reward, params, Value(plan))
    requires plan.status == Ready
    ensures PayoutPolicy.PhysicalPayouts(plan.destinations).None? <==> reward == 1
    ensures reward > 1 && Honest(curve, plan, outputs, tgc) ==>
      (PayoutPolicy.Verdict(rules.minerOf, curve, plan, PayoutPolicy.HonestEvidence(reward, outputs, tgc))
         == PayoutPolicy.Verified
       <==> PayoutPolicy.TellsApart(curve, plan.destinations, |outputs|))
  {
    hide SidechainWindow, IsPlan, IsApportionment, MinerPayouts, Fee;
    var w := SidechainWindow(rules, c.tree, p, WindowParamsOf(params), network).value;
    ReadyIsPayable(rules.minerOf, w, reward, params, plan);
    TotalAtLeast(plan.destinations);
    hide PayoutPolicy.HonestTransaction, PayoutPolicy.Verdict, PayoutPolicy.TellsApart, TotalPaid;
    if reward > 1 && Honest(curve, plan, outputs, tgc) {
      PayoutPolicy.HonestCoinbaseVerifies(rules.minerOf, curve, plan, outputs, tgc);
    }
  }

  /** A list of nonzero destinations pays at least one unit each, and a single one pays everything. */
  lemma {:induction false} TotalAtLeast(ds: seq<Destination>)
    requires forall i | 0 <= i < |ds| :: ds[i].amount > 0
    ensures TotalPaid(ds) >= |ds|
    ensures |ds| == 1 ==> TotalPaid(ds) == ds[0].amount
  {
    if ds != [] {
      TotalAtLeast(ds[..|ds| - 1]);
      assert |ds| == 1 ==> ds[..0] == [];
    }
  }
}

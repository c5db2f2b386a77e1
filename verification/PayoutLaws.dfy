/** From shares to outputs: what a ready plan on a reachable chain pays to the miner of each share. */
module PayoutLaws {
  import opened Basics
  import opened Shares
  import opened ShareTree
  import opened TreeInvariant
  import opened Agreement
  import opened Windows
  import opened Pplns
  import opened WindowLaws
  import opened Allocation
  import opened Coinbase
  import opened PayoutPipeline
  import opened PlanLaws

  /** What a miner's own shares are worth in the window: their difficulties, less what the oldest included share
      has beyond the request. */
  ghost function Worth(shares: seq<Share>, covered: nat, m: MinerId): int
    requires shares != []
  {
    OwnWork(shares, m) - if shares[|shares| - 1].miner == m then TotalWork(shares) - covered else 0
  }

  /** The destination belongs to miner `m`, under keys one of its shares shows, and receives the part of `rest`
      that its own shares are of all the covered work, rounded down or up, besides the fee if it is the
      operator's. */
  ghost predicate PaysOwnShares(
    shares: seq<Share>, covered: nat, rest: nat, operator: PayoutKeys, fee: nat, d: Destination, m: MinerId)
    requires shares != []
  {
    && d.miner == m && (exists t :: t in shares && t.miner == m && t.payout == Some(d.payout))
    && covered > 0 && Worth(shares, covered, m) > 0
    && var quota := rest * Worth(shares, covered, m) / covered;
       d.amount == FeePart(d, operator, fee) + quota || d.amount == FeePart(d, operator, fee) + quota + 1
  }

  lemma RowIsWorth(minerOf: PayoutKeys -> MinerId, shares: seq<Share>, params: Parameters, w: Window, m: MinerId)
    requires PayableWindow(minerOf, shares, params, w) && w.covered == Min(w.requested, TotalWork(shares))
    ensures shares != []
    ensures m in Miners(w.miners) <==> m in MinersOf(shares)
    ensures m in MinersOf(shares) ==> WorkOf(w.miners, m) == Worth(shares, w.covered, m) > 0
    ensures KeysOf(w.miners, m) == if m in MinersOf(shares) then PayoutFor(shares, m) else None
  {
    RowsAre(shares, w.requested);
    AgreeingRows(minerOf, shares, w.requested);
    CreditIsOwnWork(shares, w.requested, m);
    if m in MinersOf(shares) {
      EveryMinerEarns(shares, w.requested, m);
    }
    hide RowsOf, CreditedTo, PayoutFor, OwnWork, WorkOf, KeysOf, Shows, RowsAgree, PayoutsAgree;
    KeysAre(minerOf, shares, w.miners, m);
  }

  lemma MinerPaidForShares(
    minerOf: PayoutKeys -> MinerId, shares: seq<Share>, params: Parameters, w: Window, rest: nat, fee: nat,
    d: Destination, m: MinerId)
    requires PayableWindow(minerOf, shares, params, w) && w.covered == Min(w.requested, TotalWork(shares))
    requires SumRows(w.miners) == w.covered && PaysMiner(w.miners, rest, params.operator, fee, d, m)
    ensures shares != [] && PaysOwnShares(shares, w.covered, rest, params.operator, fee, d, m)
  {
    RowIsWorth(minerOf, shares, params, w, m);
    PayoutForMember(shares, m);
    hide PayableWindow, Worth, WorkOf, KeysOf, SumRows, PayoutFor, MinersOf, Miners, TotalWork;
  }

  /** The shares the sidechain window includes. */
  ghost function Included(tree: Tree, p: ShareId, w: Window): seq<Share>
    requires w.included <= |Branch(tree, p)|
  {
    Branch(tree, p)[..w.included]
  }

  lemma IncludedFacts(rules: Rules, c: Chain, p: ShareId, params: Parameters, network: Difficulty)
    requires Reachable(rules, ConsistentRecords(), c) && p in c.tree && p != NO_SHARE
    requires ParametersValid(params) && network > 0
    requires SidechainWindow(rules, c.tree, p, WindowParamsOf(params), network).Value?
    ensures var w := SidechainWindow(rules, c.tree, p, WindowParamsOf(params), network).value;
      && w.included <= |Branch(c.tree, p)|
      && PayableWindow(rules.minerOf, Included(c.tree, p, w), params, w)
      && w.covered == Min(w.requested, TotalWork(Included(c.tree, p, w))) == SumRows(w.miners)
  {
    hide Reachable, SidechainWindow, Branch, TotalWork, PayableWindow, RowsFor, Covering, WindowExists, SumRows;
    WindowFacts(rules, c, p, params, network);
    SidechainWindowExact(rules, c, p, WindowParamsOf(params), network);
    var branch, w := Branch(c.tree, p), SidechainWindow(rules, c.tree, p, WindowParamsOf(params), network).value;
    CoveringExact(branch, w.requested);
  }

  /** On every reachable chain, a ready plan pays the miner of every included share for exactly its own shares, at
      one destination, and pays nobody else but the operator its fee. */
  lemma BlockPaysShares(
    rules: Rules, c: Chain, p: ShareId, params: Parameters, network: Difficulty, reward: U64, plan: Plan)
    requires Reachable(rules, ConsistentRecords(), c) && p in c.tree && p != NO_SHARE
    requires ParametersValid(params) && network > 0
    requires SidechainWindow(rules, c.tree, p, WindowParamsOf(params), network).Value?
    requires IsPlan(rules.minerOf, SidechainWindow(rules, c.tree, p, WindowParamsOf(params), network).value,
                    reward, params, Value(plan))
    requires plan.status == Ready
    ensures var w, fee := SidechainWindow(rules, c.tree, p, WindowParamsOf(params), network).value, FeeInNumbers(reward, params);
      && fee <= reward && 0 < w.included <= |Branch(c.tree, p)|
      && var shares := Included(c.tree, p, w);
         && (forall s | s in shares ::
               exists j :: 0 <= j < |plan.destinations|
                 && PaysOwnShares(shares, w.covered, reward - fee, params.operator, fee, plan.destinations[j], s.miner))
         && (forall j | 0 <= j < |plan.destinations| ::
               || PaysOwnShares(shares, w.covered, reward - fee, params.operator, fee, plan.destinations[j],
                                plan.destinations[j].miner)
               || (fee > 0 && plan.destinations[j] == Destination(rules.minerOf(params.operator), params.operator, fee)))
         && (forall i, j | 0 <= i < j < |plan.destinations| :: plan.destinations[i].payout != plan.destinations[j].payout)
  {
    hide Reachable, SidechainWindow, Branch, IsPlan, FeeInNumbers, ParametersValid, PayableWindow, PaysMiner, PaysOwnShares,
         Miners, MinersOf, TotalWork, SumRows;
    var w := SidechainWindow(rules, c.tree, p, WindowParamsOf(params), network).value;
    ReadyPaysEveryone(rules.minerOf, w, reward, params, plan);
    IncludedFacts(rules, c, p, params, network);
    PaidForShares(rules.minerOf, Included(c.tree, p, w), params, w, reward - FeeInNumbers(reward, params),
                  FeeInNumbers(reward, params), plan.destinations);
  }

  lemma PaidForShares(
    minerOf: PayoutKeys -> MinerId, shares: seq<Share>, params: Parameters, w: Window, rest: nat, fee: nat,
    ds: seq<Destination>)
    requires PayableWindow(minerOf, shares, params, w) && w.covered == Min(w.requested, TotalWork(shares))
    requires SumRows(w.miners) == w.covered && PaysEveryone(minerOf, w.miners, rest, params.operator, fee, ds)
    ensures shares != []
    ensures forall s | s in shares ::
      exists j :: 0 <= j < |ds| && PaysOwnShares(shares, w.covered, rest, params.operator, fee, ds[j], s.miner)
    ensures forall j | 0 <= j < |ds| ::
      || PaysOwnShares(shares, w.covered, rest, params.operator, fee, ds[j], ds[j].miner)
      || (fee > 0 && ds[j] == Destination(minerOf(params.operator), params.operator, fee))
  {
    hide PayableWindow, PaysMiner, PaysOwnShares, Miners, TotalWork, SumRows;
    RowIsWorth(minerOf, shares, params, w, 0);
    forall s | s in shares
      ensures exists j :: 0 <= j < |ds| && PaysOwnShares(shares, w.covered, rest, params.operator, fee, ds[j], s.miner)
    {
      assert s.miner in MinersOf(shares);
      RowIsWorth(minerOf, shares, params, w, s.miner);
      var j :| 0 <= j < |ds| && PaysMiner(w.miners, rest, params.operator, fee, ds[j], s.miner);
      MinerPaidForShares(minerOf, shares, params, w, rest, fee, ds[j], s.miner);
    }
    forall j | 0 <= j < |ds| && PaysMiner(w.miners, rest, params.operator, fee, ds[j], ds[j].miner)
      ensures PaysOwnShares(shares, w.covered, rest, params.operator, fee, ds[j], ds[j].miner)
    {
      MinerPaidForShares(minerOf, shares, params, w, rest, fee, ds[j], ds[j].miner);
    }
  }
}

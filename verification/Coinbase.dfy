/** The coinbase plan: operator fee, miner payouts, and how they become destinations. */
module Coinbase {
  import opened Basics
  import opened Orders
  import opened Shares
  import opened Windows
  import opened Allocation
  import opened AllocationLaws

  const FEE_DENOMINATOR: nat := 10000
  const MAX_OUTPUTS: nat := 32

  datatype Network = Testnet | Mainnet

  datatype Parameters = Parameters(
    parameterVersion: U8,
    network: Network,
    minVersion: U8,
    maxVersion: U8,
    targetSeconds: U64,
    minDifficulty: U64,
    difficultyWindow: U64,
    windowShares: U64,
    multiplier: U64,
    feeBasisPoints: U64,
    operator: PayoutKeys)

  /** The validation that precedes every use of the parameters. */
  predicate ParametersValid(p: Parameters) {
    && p.parameterVersion == 4
    && p.minVersion != 0 && p.maxVersion >= p.minVersion
    && p.targetSeconds != 0 && p.minDifficulty != 0 && p.difficultyWindow >= 2
    && 0 < p.windowShares <= MAX_WINDOW_SHARES && p.multiplier != 0
    && 0 < p.feeBasisPoints < FEE_DENOMINATOR
    && p.operator.spend != 0 && p.operator.view != 0
  }

  // ---- The fee ---------------------------------------------------------------------------------

  /** Basis points of an amount in 64-bit steps, refusing whatever might overflow. */
  function BasisPointShare(amount: U64, basisPoints: U64): Option<nat> {
    if basisPoints >= FEE_DENOMINATOR then None
    else
      var whole, rest := amount / FEE_DENOMINATOR, amount % FEE_DENOMINATOR;
      if basisPoints != 0 && whole > U64_MAX / basisPoints then None
      else
        var wholeFee := whole * basisPoints;
        var restFee := rest * basisPoints / FEE_DENOMINATOR;
        if restFee > U64_MAX - wholeFee then None else Some(wholeFee + restFee)
  }

  /** The stepwise computation is the exact floor, and its overflow checks never fire. */
  lemma FeeIsFloor(amount: U64, basisPoints: U64)
    requires basisPoints < FEE_DENOMINATOR
    ensures BasisPointShare(amount, basisPoints) == Some(amount * basisPoints / FEE_DENOMINATOR)
    ensures amount > 0 ==> amount * basisPoints / FEE_DENOMINATOR < amount
    ensures amount * basisPoints / FEE_DENOMINATOR <= amount
  {
    var whole, rest := amount / FEE_DENOMINATOR, amount % FEE_DENOMINATOR;
    assert amount == FEE_DENOMINATOR * whole + rest;
    SplitProduct(whole, rest, basisPoints);
    ProductBelow(whole, basisPoints);
    ProductBelow(rest, basisPoints);
    ProductBelow(amount, basisPoints);
    if basisPoints != 0 {
      WholeFits(whole, basisPoints);
    }
  }

  lemma SplitProduct(whole: nat, rest: nat, b: nat)
    ensures (FEE_DENOMINATOR * whole + rest) * b == FEE_DENOMINATOR * (whole * b) + rest * b
    ensures (FEE_DENOMINATOR * whole + rest) * b / FEE_DENOMINATOR == whole * b + rest * b / FEE_DENOMINATOR
  {
    assert (FEE_DENOMINATOR * whole + rest) * b == (FEE_DENOMINATOR * whole) * b + rest * b;
    assert (FEE_DENOMINATOR * whole) * b == FEE_DENOMINATOR * (whole * b);
  }

  lemma ProductBelow(a: nat, b: nat)
    requires b < FEE_DENOMINATOR
    ensures a * b <= a * (FEE_DENOMINATOR - 1) == FEE_DENOMINATOR * a - a
    ensures a > 0 ==> a * b < FEE_DENOMINATOR * a
  {
    assert a * (FEE_DENOMINATOR - 1) == FEE_DENOMINATOR * a - a;
    Monotone(a, b, FEE_DENOMINATOR - 1);
  }

  lemma Monotone(a: nat, b: nat, c: nat)
    requires b <= c
    ensures a * b <= a * c
  {
  }

  lemma WholeFits(whole: nat, b: nat)
    requires 0 < b < FEE_DENOMINATOR && FEE_DENOMINATOR * whole <= U64_MAX
    ensures whole <= U64_MAX / b
  {
    ProductBelow(whole, b);
    QuotientAtLeast(U64_MAX, b, whole);
  }

  // ---- Destinations ----------------------------------------------------------------------------

  datatype Destination = Destination(miner: MinerId, payout: PayoutKeys, amount: nat)

  datatype PlanStatus =
    | Ready
    | EmptyWindow
    | IncompleteWindow
    | MissingPayoutIdentity
    | TooManyRecipients
    | ZeroPayout

  datatype Plan = Plan(status: PlanStatus, reward: nat, destinations: seq<Destination>)

  ghost function TotalPaid(destinations: seq<Destination>): nat {
    if destinations == [] then 0
    else TotalPaid(destinations[..|destinations| - 1]) + destinations[|destinations| - 1].amount
  }

  /** Why a miner's payout cannot become a destination. */
  function Problem(minerOf: PayoutKeys -> MinerId, p: Payout): Option<PlanStatus> {
    if p.keys.None? || p.miner != minerOf(p.keys.value) then Some(MissingPayoutIdentity)
    else if p.amount == 0 then Some(ZeroPayout)
    else None
  }

  ghost function FirstProblem(minerOf: PayoutKeys -> MinerId, payouts: seq<Payout>): Option<PlanStatus> {
    if payouts == [] then None
    else if Problem(minerOf, payouts[0]).Some? then Problem(minerOf, payouts[0])
    else FirstProblem(minerOf, payouts[1..])
  }

  function DestinationOf(p: Payout): Destination
    requires p.keys.Some?
  {
    Destination(p.miner, p.keys.value, p.amount)
  }

  ghost function DestinationsOf(payouts: seq<Payout>): seq<Destination>
    requires forall p | p in payouts :: p.keys.Some?
  {
    seq(|payouts|, i requires 0 <= i < |payouts| => assert payouts[i] in payouts; DestinationOf(payouts[i]))
  }

  ghost predicate Holds(destinations: seq<Destination>, i: nat, keys: PayoutKeys) {
    i < |destinations| && destinations[i].payout == keys && forall j | 0 <= j < i :: destinations[j].payout != keys
  }

  ghost predicate HoldsNowhere(destinations: seq<Destination>, keys: PayoutKeys) {
    forall j | 0 <= j < |destinations| :: destinations[j].payout != keys
  }

  /** The fee joins the operator's own payout if there is one, and is a destination of its own if not. */
  ghost predicate WithFee(
    minerOf: PayoutKeys -> MinerId, before: seq<Destination>, operator: PayoutKeys, fee: nat,
    after: seq<Destination>)
  {
    if fee == 0 then after == before
    else if HoldsNowhere(before, operator) then after == before + [Destination(minerOf(operator), operator, fee)]
    else exists i: nat :: Holds(before, i, operator) &&
                          after == before[i := before[i].(amount := before[i].amount + fee)]
  }

  /** What a plan must satisfy to be paid: the verifier's gate. */
  ghost predicate WellFormed(minerOf: PayoutKeys -> MinerId, destinations: seq<Destination>) {
    && (forall i | 0 <= i < |destinations| ::
          destinations[i].amount > 0 && destinations[i].miner == minerOf(destinations[i].payout))
    && (forall i, j | 0 <= i < j < |destinations| :: destinations[i].payout != destinations[j].payout)
  }

  // ---- The plan --------------------------------------------------------------------------------

  ghost function Fee(reward: nat, params: Parameters): nat {
    reward * params.feeBasisPoints / FEE_DENOMINATOR
  }

  ghost function MinerPayouts(
    minerOf: PayoutKeys -> MinerId, window: Window, reward: nat, params: Parameters): Outcome<seq<Payout>>
    requires Fee(reward, params) <= reward
  {
    Allocate(minerOf, window.miners, reward - Fee(reward, params))
  }

  ghost function PayoutStatus(minerOf: PayoutKeys -> MinerId, payouts: seq<Payout>, params: Parameters): PlanStatus {
    if payouts == [] then EmptyWindow
    else if |payouts| > MAX_OUTPUTS - 1 || |payouts| > params.windowShares then TooManyRecipients
    else
      var problem := FirstProblem(minerOf, payouts);
      if problem.Some? then problem.value else Ready
  }

  lemma {:induction false} NoProblem(minerOf: PayoutKeys -> MinerId, payouts: seq<Payout>)
    requires FirstProblem(minerOf, payouts).None?
    ensures forall p | p in payouts :: p.keys.Some? && p.miner == minerOf(p.keys.value) && p.amount > 0
  {
    if payouts != [] {
      NoProblem(minerOf, payouts[1..]);
      assert payouts == [payouts[0]] + payouts[1..];
    }
  }

  /** Turn the payouts into destinations, stopping at the first that has a problem. */
  method CollectDestinations(minerOf: PayoutKeys -> MinerId, payouts: seq<Payout>)
    returns (problem: Option<PlanStatus>, destinations: seq<Destination>, total: nat)
    requires SumAmounts(payouts) <= U64_MAX
    ensures problem == FirstProblem(minerOf, payouts)
    ensures problem.None? ==>
      && (forall p | p in payouts :: p.keys.Some?)
      && destinations == DestinationsOf(payouts) && total == SumAmounts(payouts)
  {
    problem, destinations, total := None, [], 0;
    assert payouts[0..] == payouts;
    hide FirstProblem, SumAmounts;
    for i := 0 to |payouts|
      invariant FirstProblem(minerOf, payouts[i..]) == FirstProblem(minerOf, payouts)
      invariant forall j | 0 <= j < i :: payouts[j].keys.Some?
      invariant |destinations| == i
      invariant forall j | 0 <= j < i :: destinations[j] == DestinationOf(payouts[j])
      invariant total == SumAmounts(payouts[..i])
    {
      var payout := payouts[i];
      ProblemStep(minerOf, payouts, i);
      if payout.keys.None? || payout.miner != minerOf(payout.keys.value) {
        return Some(MissingPayoutIdentity), [], 0;
      }
      if payout.amount == 0 {
        return Some(ZeroPayout), [], 0;
      }
      AmountStep(payouts, i);
      assert payout.amount <= U64_MAX - total;
      total := total + payout.amount;
      destinations := destinations + [DestinationOf(payout)];
    }
    EndOfPayouts(minerOf, payouts);
  }

  lemma ProblemStep(minerOf: PayoutKeys -> MinerId, payouts: seq<Payout>, i: nat)
    requires i < |payouts|
    ensures FirstProblem(minerOf, payouts[i..]) ==
      if Problem(minerOf, payouts[i]).Some? then Problem(minerOf, payouts[i])
      else FirstProblem(minerOf, payouts[i + 1..])
  {
    assert payouts[i..][1..] == payouts[i + 1..];
  }

  lemma {:induction false} AmountStep(payouts: seq<Payout>, i: nat)
    requires i < |payouts|
    ensures SumAmounts(payouts[..i + 1]) == SumAmounts(payouts[..i]) + payouts[i].amount <= SumAmounts(payouts)
    decreases |payouts| - i
  {
    assert payouts[..i + 1][..i] == payouts[..i];
    if i + 1 < |payouts| {
      AmountStep(payouts, i + 1);
    } else {
      assert payouts[..i + 1] == payouts;
    }
  }

  lemma EndOfPayouts(minerOf: PayoutKeys -> MinerId, payouts: seq<Payout>)
    ensures FirstProblem(minerOf, payouts[|payouts|..]) == None && SumAmounts(payouts[..0]) == 0
    ensures payouts[..|payouts|] == payouts
  {
  }

  /** `std::find_if` for the operator's own destination. */
  method FindPayout(destinations: seq<Destination>, keys: PayoutKeys) returns (index: nat)
    ensures index <= |destinations|
    ensures index < |destinations| ==> Holds(destinations, index, keys)
    ensures index == |destinations| ==> HoldsNowhere(destinations, keys)
  {
    index := 0;
    while index < |destinations| && destinations[index].payout != keys
      invariant index <= |destinations|
      invariant forall j | 0 <= j < index :: destinations[j].payout != keys
    {
      index := index + 1;
    }
  }

  method AddFee(minerOf: PayoutKeys -> MinerId, before: seq<Destination>, operator: PayoutKeys, fee: nat)
    returns (after: seq<Destination>)
    ensures WithFee(minerOf, before, operator, fee, after)
  {
    if fee == 0 {
      return before;
    }
    var index := FindPayout(before, operator);
    if index < |before| {
      after := before[index := before[index].(amount := before[index].amount + fee)];
    } else {
      after := before + [Destination(minerOf(operator), operator, fee)];
    }
  }

  /** A plan that can be paid: at least one and at most 32 destinations, none empty, each bound to its
      miner, no payout keys twice, adding up to the block reward. */
  ghost predicate Payable(minerOf: PayoutKeys -> MinerId, plan: Plan) {
    && plan.status == Ready
    && 1 <= |plan.destinations| <= MAX_OUTPUTS
    && WellFormed(minerOf, plan.destinations)
    && TotalPaid(plan.destinations) == plan.reward
  }

  /** The plan that pays `payouts` and the fee. */
  ghost predicate PaysOut(
    minerOf: PayoutKeys -> MinerId, payouts: seq<Payout>, reward: nat, fee: nat, params: Parameters, plan: Plan)
  {
    && plan.reward == reward
    && plan.status == PayoutStatus(minerOf, payouts, params)
    && if plan.status != Ready then plan.destinations == []
       else
         && (forall p | p in payouts :: p.keys.Some?)
         && WithFee(minerOf, DestinationsOf(payouts), params.operator, fee, plan.destinations)
  }

  /** The plan for a window: what becomes of it in every case. */
  ghost predicate IsPlan(
    minerOf: PayoutKeys -> MinerId, window: Window, reward: nat, params: Parameters, r: Outcome<Plan>)
  {
    if !ParametersValid(params) then r.Thrown?
    else if window.miners == [] then r == Value(Plan(EmptyWindow, reward, []))
    else if !window.complete then r == Value(Plan(IncompleteWindow, reward, []))
    else if Fee(reward, params) >= reward then r == Value(Plan(ZeroPayout, reward, []))
    else
      var payouts := MinerPayouts(minerOf, window, reward, params);
      if payouts.Thrown? then r.Thrown?
      else r.Value? && PaysOut(minerOf, payouts.value, reward, Fee(reward, params), params, r.value)
  }

  lemma FeeIs(reward: U64, params: Parameters)
    requires ParametersValid(params)
    ensures BasisPointShare(reward, params.feeBasisPoints) == Some(Fee(reward, params))
    ensures Fee(reward, params) <= reward
    ensures Fee(reward, params) >= reward <==> reward == 0
  {
    FeeIsFloor(reward, params.feeBasisPoints);
  }

  /** The program's checks that amounts do not overflow and add up (status RewardSumMismatch) are
      assertions here and in `CollectDestinations`: they cannot fail. */
  method PlanPayouts(minerOf: PayoutKeys -> MinerId, payouts: seq<Payout>, reward: U64, fee: nat, params: Parameters)
    returns (plan: Plan)
    requires payouts != [] ==> SumAmounts(payouts) + fee == reward
    ensures PaysOut(minerOf, payouts, reward, fee, params, plan)
  {
    if payouts == [] {
      return Plan(EmptyWindow, reward, []);
    }
    if |payouts| > MAX_OUTPUTS - 1 || |payouts| > params.windowShares {
      return Plan(TooManyRecipients, reward, []);
    }
    hide WithFee, FirstProblem, SumAmounts;
    var problem, destinations, total := CollectDestinations(minerOf, payouts);
    if problem.Some? {
      ProblemNotReady(minerOf, payouts);
      return Plan(problem.value, reward, []);
    }
    assert total == reward - fee && fee <= U64_MAX - total && |destinations| < MAX_OUTPUTS;
    var withFee := AddFee(minerOf, destinations, params.operator, fee);
    return Plan(Ready, reward, withFee);
  }

  lemma {:induction false} ProblemNotReady(minerOf: PayoutKeys -> MinerId, payouts: seq<Payout>)
    ensures FirstProblem(minerOf, payouts) != Some(Ready)
  {
    if payouts != [] {
      ProblemNotReady(minerOf, payouts[1..]);
    }
  }

  method MakePplnsCoinbasePlan(
    minerOf: PayoutKeys -> MinerId, window: Window, reward: U64, params: Parameters)
    returns (r: Outcome<Plan>)
    ensures IsPlan(minerOf, window, reward, params, r)
  {
    hide Allocate, Fee, BasisPointShare, PaysOut, ParametersValid, IsApportionment, SumAmounts;
    if !ParametersValid(params) {
      return Thrown;
    }
    if window.miners == [] {
      return Value(Plan(EmptyWindow, reward, []));
    }
    if !window.complete {
      return Value(Plan(IncompleteWindow, reward, []));
    }
    FeeIs(reward, params);
    var fee := BasisPointShare(reward, params.feeBasisPoints);
    if fee.value >= reward {
      return Value(Plan(ZeroPayout, reward, []));
    }
    var payouts := AllocatePplnsReward(minerOf, window.miners, reward - fee.value);
    if payouts.Thrown? {
      return Thrown;
    }
    if payouts.value != [] {
      AllocationTotal(minerOf, window.miners, reward - fee.value);
    }
    var plan := PlanPayouts(minerOf, payouts.value, reward, fee.value, params);
    return Value(plan);
  }

  lemma AllocationTotal(minerOf: PayoutKeys -> MinerId, rows: seq<MinerWork>, reward: nat)
    requires Allocate(minerOf, rows, reward).Value? && Allocate(minerOf, rows, reward).value != []
    ensures var payouts := Allocate(minerOf, rows, reward).value;
      IsApportionment(rows, reward, payouts) && SumAmounts(payouts) == reward
  {
    assert Miners(rows) == {} ==> Aggregated(rows) == map[];
    AllocationIsFair(minerOf, rows, reward);
  }

  // ---- Every ready plan can be paid ------------------------------------------------------------

  lemma DestinationsWellFormed(minerOf: PayoutKeys -> MinerId, payouts: seq<Payout>)
    requires FirstProblem(minerOf, payouts).None? && Ascending(PaidMiners(payouts))
    requires forall p | p in payouts :: p.keys.Some?
    ensures WellFormed(minerOf, DestinationsOf(payouts))
  {
    NoProblem(minerOf, payouts);
    var ds, ids := DestinationsOf(payouts), PaidMiners(payouts);
    forall i | 0 <= i < |ds|
      ensures ds[i].amount > 0 && ds[i].miner == minerOf(ds[i].payout)
    {
      assert payouts[i] in payouts;
    }
    forall i, j | 0 <= i < j < |ds|
      ensures ds[i].payout != ds[j].payout
    {
      assert ids[i] < ids[j];
    }
  }

  lemma {:induction false} DestinationsTotal(payouts: seq<Payout>)
    requires forall p | p in payouts :: p.keys.Some?
    ensures TotalPaid(DestinationsOf(payouts)) == SumAmounts(payouts)
  {
    if payouts != [] {
      var front := payouts[..|payouts| - 1];
      DestinationsTotal(front);
      assert payouts[|payouts| - 1] in payouts;
      assert DestinationsOf(payouts)[..|payouts| - 1] == DestinationsOf(front);
    }
  }

  lemma {:induction false} RaiseOne(ds: seq<Destination>, i: nat, fee: nat)
    requires i < |ds|
    ensures TotalPaid(ds[i := ds[i].(amount := ds[i].amount + fee)]) == TotalPaid(ds) + fee
  {
    var after, last := ds[i := ds[i].(amount := ds[i].amount + fee)], |ds| - 1;
    if i == last {
      assert after[..last] == ds[..last];
    } else {
      RaiseOne(ds[..last], i, fee);
      assert after[..last] == ds[..last][i := ds[i].(amount := ds[i].amount + fee)];
    }
  }

  lemma FeeKeepsWellFormed(
    minerOf: PayoutKeys -> MinerId, before: seq<Destination>, operator: PayoutKeys, fee: nat, after: seq<Destination>)
    requires WellFormed(minerOf, before) && WithFee(minerOf, before, operator, fee, after)
    ensures WellFormed(minerOf, after)
    ensures TotalPaid(after) == TotalPaid(before) + fee
    ensures |before| <= |after| <= |before| + 1
  {
    if fee > 0 && HoldsNowhere(before, operator) {
      assert after[..|before|] == before;
    } else if fee > 0 {
      var i: nat :| Holds(before, i, operator) && after == before[i := before[i].(amount := before[i].amount + fee)];
      RaiseOne(before, i, fee);
      SamePayouts(minerOf, before, after);
    }
  }

  lemma SamePayouts(minerOf: PayoutKeys -> MinerId, before: seq<Destination>, after: seq<Destination>)
    requires WellFormed(minerOf, before) && |after| == |before|
    requires forall i | 0 <= i < |before| ::
      after[i].miner == before[i].miner && after[i].payout == before[i].payout && after[i].amount >= before[i].amount
    ensures WellFormed(minerOf, after)
  {
  }

  /** A plan is ready only if it can be paid: the miners' shares of the reward and the operator's fee, in
      1 to 32 nonzero, distinct, correctly bound destinations that add up to the reward. */
  lemma ReadyIsPayable(
    minerOf: PayoutKeys -> MinerId, window: Window, reward: U64, params: Parameters, plan: Plan)
    requires IsPlan(minerOf, window, reward, params, Value(plan)) && plan.status == Ready
    ensures Payable(minerOf, plan) && plan.reward == reward
    ensures reward > 0 && window.complete && Fee(reward, params) < reward
    ensures IsApportionment(window.miners, reward - Fee(reward, params),
                            MinerPayouts(minerOf, window, reward, params).value)
  {
    hide Allocate, Fee, ParametersValid, WithFee, FirstProblem, WellFormed;
    FeeIs(reward, params);
    var payouts := MinerPayouts(minerOf, window, reward, params).value;
    AllocationTotal(minerOf, window.miners, reward - Fee(reward, params));
    ProblemNotReady(minerOf, payouts);
    PaidAscending(window.miners, reward - Fee(reward, params), payouts);
    hide IsApportionment, SumAmounts, TotalPaid, Ascending;
    DestinationsWellFormed(minerOf, payouts);
    DestinationsTotal(payouts);
    FeeKeepsWellFormed(minerOf, DestinationsOf(payouts), params.operator, Fee(reward, params), plan.destinations);
  }

  lemma PaidAscending(rows: seq<MinerWork>, reward: nat, payouts: seq<Payout>)
    requires IsApportionment(rows, reward, payouts)
    ensures Ascending(PaidMiners(payouts)) && SumAmounts(payouts) == reward
  {
  }
}

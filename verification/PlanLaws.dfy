/** Who is paid what by a ready plan, in terms of the window's work, the reward and the fee, and when a plan
    is refused. */
module PlanLaws {
  import opened Basics
  import opened Orders
  import opened Shares
  import opened Windows
  import opened Allocation
  import opened AllocationLaws
  import opened Coinbase
  import Apportion
  import PayoutPolicy

  /** The operator's part of what a destination receives. */
  function FeePart(d: Destination, operator: PayoutKeys, fee: nat): nat { if d.payout == operator then fee else 0 }

  /** The destination belongs to miner `m`, under the keys it has shown, and receives its share of `rest` in
      proportion to its work, rounded down or up, besides the fee if it is the operator's. */
  ghost predicate PaysMiner(
    rows: seq<MinerWork>, rest: nat, operator: PayoutKeys, fee: nat, d: Destination, m: MinerId)
  {
    && m in Miners(rows) && d.miner == m && KeysOf(rows, m) == Some(d.payout)
    && SumRows(rows) > 0
    && var quota := rest * WorkOf(rows, m) / SumRows(rows);
       d.amount == FeePart(d, operator, fee) + quota || d.amount == FeePart(d, operator, fee) + quota + 1
  }

  ghost predicate PaysOperator(
    minerOf: PayoutKeys -> MinerId, rows: seq<MinerWork>, operator: PayoutKeys, fee: nat, d: Destination)
  {
    && fee > 0 && d == Destination(minerOf(operator), operator, fee)
    && forall m | m in Miners(rows) :: KeysOf(rows, m) != Some(operator)
  }

  /** Every miner of the window has exactly one destination; the only other one is the operator's. */
  ghost predicate PaysEveryone(
    minerOf: PayoutKeys -> MinerId, rows: seq<MinerWork>, rest: nat, operator: PayoutKeys, fee: nat,
    ds: seq<Destination>)
  {
    && (forall m | m in Miners(rows) ::
          exists i :: 0 <= i < |ds| && PaysMiner(rows, rest, operator, fee, ds[i], m))
    && (forall i | 0 <= i < |ds| ::
          || PaysMiner(rows, rest, operator, fee, ds[i], ds[i].miner)
          || PaysOperator(minerOf, rows, operator, fee, ds[i]))
    && (forall i, j | 0 <= i < j < |ds| :: ds[i].payout != ds[j].payout)
  }

  // ---- Before the fee --------------------------------------------------------------------------

  /** The destination belongs to `m` and receives its rounded quota, nothing else. */
  ghost predicate PaysQuota(rows: seq<MinerWork>, rest: nat, d: Destination, m: MinerId) {
    && m in Miners(rows) && d.miner == m && KeysOf(rows, m) == Some(d.payout) && SumRows(rows) > 0
    && var quota := rest * WorkOf(rows, m) / SumRows(rows); d.amount == quota || d.amount == quota + 1
  }

  lemma PayoutPaysQuota(rows: seq<MinerWork>, rest: nat, payouts: seq<Payout>, i: nat)
    requires IsApportionment(rows, rest, payouts) && i < |payouts| && payouts[i].keys.Some?
    ensures PaysQuota(rows, rest, DestinationOf(payouts[i]), payouts[i].miner)
  {
    hide WorkOf, KeysOf, SumAmounts, SumRows, Miners;
    assert PaidMiners(payouts)[i] in PaidMiners(payouts);
    assert FairShare(rows, rest, SumRows(rows), payouts[i]);
  }

  lemma QuotasPaid(rows: seq<MinerWork>, rest: nat, payouts: seq<Payout>)
    requires IsApportionment(rows, rest, payouts) && forall p | p in payouts :: p.keys.Some?
    ensures var ds := DestinationsOf(payouts);
      && |ds| == |payouts|
      && (forall i | 0 <= i < |ds| :: PaysQuota(rows, rest, ds[i], ds[i].miner))
      && (forall m | m in Miners(rows) :: exists i :: 0 <= i < |ds| && ds[i].miner == m)
  {
    var ds := DestinationsOf(payouts);
    forall i | 0 <= i < |ds|
      ensures PaysQuota(rows, rest, ds[i], ds[i].miner)
    {
      assert payouts[i] in payouts;
      PayoutPaysQuota(rows, rest, payouts, i);
    }
    hide WorkOf, KeysOf, SumAmounts, SumRows, Miners, FairShare, PaysQuota, MoreWorkNoLess;
    forall m | m in Miners(rows)
      ensures exists i :: 0 <= i < |ds| && ds[i].miner == m
    {
      assert m in Keys(Miners(rows));
      var i :| 0 <= i < |PaidMiners(payouts)| && PaidMiners(payouts)[i] == m;
      assert payouts[i] in payouts && ds[i].miner == m;
    }
  }

  // ---- With the fee ----------------------------------------------------------------------------

  lemma QuotaBesides(rows: seq<MinerWork>, rest: nat, operator: PayoutKeys, fee: nat, d: Destination, d': Destination)
    requires PaysQuota(rows, rest, d, d.miner) && d'.miner == d.miner && d'.payout == d.payout
    requires d'.amount == d.amount + FeePart(d, operator, fee)
    ensures PaysMiner(rows, rest, operator, fee, d', d'.miner)
  {
    hide WorkOf, KeysOf, SumRows, Miners;
  }

  /** `after` raises the operator's destination by the fee and leaves the others. */
  ghost predicate Raises(before: seq<Destination>, after: seq<Destination>, operator: PayoutKeys, fee: nat) {
    && |before| <= |after|
    && forall i | 0 <= i < |before| ::
         after[i] == before[i].(amount := before[i].amount + FeePart(before[i], operator, fee))
  }

  lemma FeeRaises(
    minerOf: PayoutKeys -> MinerId, before: seq<Destination>, operator: PayoutKeys, fee: nat, after: seq<Destination>)
    requires WithFee(minerOf, before, operator, fee, after) && WellFormed(minerOf, before)
    ensures Raises(before, after, operator, fee) && |after| <= |before| + 1
    ensures |after| == |before| + 1 ==>
      && fee > 0 && after[|before|] == Destination(minerOf(operator), operator, fee)
      && forall i | 0 <= i < |before| :: before[i].payout != operator
  {
    if fee > 0 && !HoldsNowhere(before, operator) {
      var k: nat :| Holds(before, k, operator) && after == before[k := before[k].(amount := before[k].amount + fee)];
      assert forall i | 0 <= i < |before| && i != k :: before[i].payout != operator;
    }
  }

  lemma EveryonePaid(
    minerOf: PayoutKeys -> MinerId, rows: seq<MinerWork>, rest: nat, payouts: seq<Payout>, operator: PayoutKeys,
    fee: nat, after: seq<Destination>)
    requires IsApportionment(rows, rest, payouts) && forall p | p in payouts :: p.keys.Some?
    requires WellFormed(minerOf, DestinationsOf(payouts)) && WellFormed(minerOf, after)
    requires WithFee(minerOf, DestinationsOf(payouts), operator, fee, after)
    ensures PaysEveryone(minerOf, rows, rest, operator, fee, after)
  {
    hide IsApportionment, DestinationsOf, WithFee, PaysQuota, PaysMiner, PaysOperator, Miners, KeysOf, SumRows, WellFormed,
         PaysEveryone, Raises;
    var before := DestinationsOf(payouts);
    QuotasPaid(rows, rest, payouts);
    FeeRaises(minerOf, before, operator, fee, after);
    RaisedPaysMiners(rows, rest, operator, fee, before, after);
    if |after| == |before| + 1 {
      OperatorAlone(minerOf, rows, rest, operator, fee, before, after[|before|]);
    }
    Gather(minerOf, rows, rest, operator, fee, before, after);
  }

  lemma RaisedPaysMiners(
    rows: seq<MinerWork>, rest: nat, operator: PayoutKeys, fee: nat, before: seq<Destination>, after: seq<Destination>)
    requires Raises(before, after, operator, fee)
    requires forall i | 0 <= i < |before| :: PaysQuota(rows, rest, before[i], before[i].miner)
    ensures |before| <= |after|
    ensures forall i | 0 <= i < |before| ::
      after[i].miner == before[i].miner && PaysMiner(rows, rest, operator, fee, after[i], after[i].miner)
  {
    hide PaysQuota, PaysMiner;
    forall i | 0 <= i < |before|
      ensures after[i].miner == before[i].miner && PaysMiner(rows, rest, operator, fee, after[i], after[i].miner)
    {
      QuotaBesides(rows, rest, operator, fee, before[i], after[i]);
    }
  }

  lemma Gather(
    minerOf: PayoutKeys -> MinerId, rows: seq<MinerWork>, rest: nat, operator: PayoutKeys, fee: nat,
    before: seq<Destination>, after: seq<Destination>)
    requires |before| <= |after| <= |before| + 1 && WellFormed(minerOf, after)
    requires forall i | 0 <= i < |before| ::
      after[i].miner == before[i].miner && PaysMiner(rows, rest, operator, fee, after[i], after[i].miner)
    requires forall m | m in Miners(rows) :: exists i :: 0 <= i < |before| && before[i].miner == m
    requires |after| == |before| + 1 ==> PaysOperator(minerOf, rows, operator, fee, after[|before|])
    ensures PaysEveryone(minerOf, rows, rest, operator, fee, after)
  {
    hide PaysMiner, PaysOperator, Miners;
    forall m | m in Miners(rows)
      ensures exists i :: 0 <= i < |after| && PaysMiner(rows, rest, operator, fee, after[i], m)
    {
      var i :| 0 <= i < |before| && before[i].miner == m;
      assert PaysMiner(rows, rest, operator, fee, after[i], m);
    }
  }

  lemma OperatorAlone(
    minerOf: PayoutKeys -> MinerId, rows: seq<MinerWork>, rest: nat, operator: PayoutKeys, fee: nat,
    before: seq<Destination>, d: Destination)
    requires fee > 0 && d == Destination(minerOf(operator), operator, fee)
    requires forall i | 0 <= i < |before| :: before[i].payout != operator && PaysQuota(rows, rest, before[i], before[i].miner)
    requires forall m | m in Miners(rows) :: exists i :: 0 <= i < |before| && before[i].miner == m
    ensures PaysOperator(minerOf, rows, operator, fee, d)
  {
    hide KeysOf, WorkOf, SumRows, Miners;
  }

  // ---- Every ready plan ------------------------------------------------------------------------

  /** The operator's fee: so many ten-thousandths, rounded down. */
  ghost function FeeInNumbers(reward: nat, params: Parameters): nat { reward * params.feeBasisPoints / 10000 }

  /** A ready plan pays the fee and divides the rest among the miners of the window, each under its own keys
      and in proportion to its own work. */
  lemma ReadyPaysEveryone(
    minerOf: PayoutKeys -> MinerId, window: Window, reward: U64, params: Parameters, plan: Plan)
    requires IsPlan(minerOf, window, reward, params, Value(plan)) && plan.status == Ready
    ensures FeeInNumbers(reward, params) <= reward && plan.reward == reward
    ensures PaysEveryone(minerOf, window.miners, reward - FeeInNumbers(reward, params), params.operator,
                         FeeInNumbers(reward, params), plan.destinations)
  {
    hide Allocate, Fee, FeeInNumbers, ParametersValid, WithFee, WellFormed, IsApportionment, PaysEveryone, IsPlan,
         DestinationsOf;
    SameFee(reward, params);
    ReadyIsPayable(minerOf, window, reward, params, plan);
    ReadyFacts(minerOf, window, reward, params, plan);
    EveryonePaid(minerOf, window.miners, reward - Fee(reward, params), MinerPayouts(minerOf, window, reward, params).value,
                 params.operator, Fee(reward, params), plan.destinations);
  }

  lemma SameFee(reward: nat, params: Parameters)
    ensures FeeInNumbers(reward, params) == Fee(reward, params)
  {
  }

  lemma ReadyFacts(minerOf: PayoutKeys -> MinerId, window: Window, reward: U64, params: Parameters, plan: Plan)
    requires IsPlan(minerOf, window, reward, params, Value(plan)) && plan.status == Ready
    ensures Fee(reward, params) <= reward && MinerPayouts(minerOf, window, reward, params).Value?
    ensures var payouts := MinerPayouts(minerOf, window, reward, params).value;
      && (forall p | p in payouts :: p.keys.Some?) && WellFormed(minerOf, DestinationsOf(payouts))
      && WithFee(minerOf, DestinationsOf(payouts), params.operator, Fee(reward, params), plan.destinations)
  {
    hide Allocate, Fee, ParametersValid, WithFee, FirstProblem, WellFormed;
    FeeIs(reward, params);
    var payouts := MinerPayouts(minerOf, window, reward, params).value;
    AllocationTotal(minerOf, window.miners, reward - Fee(reward, params));
    ProblemNotReady(minerOf, payouts);
    PaidAscending(window.miners, reward - Fee(reward, params), payouts);
    hide IsApportionment, SumAmounts, Ascending;
    DestinationsWellFormed(minerOf, payouts);
  }

  /** And a verified transaction pays each miner of the window exactly that, from outputs that are its alone. */
  lemma VerifiedPaysEveryone(
    minerOf: PayoutKeys -> MinerId, window: Window, reward: U64, params: Parameters, plan: Plan,
    curve: PayoutPolicy.Curve, e: PayoutPolicy.Evidence, m: MinerId)
    returns (j: nat)
    requires IsPlan(minerOf, window, reward, params, Value(plan)) && plan.status == Ready
    requires PayoutPolicy.Verdict(minerOf, curve, plan, e) == PayoutPolicy.Verified && m in Miners(window.miners)
    ensures FeeInNumbers(reward, params) <= reward && e.outputs.Some? && e.tgc.Some?
    ensures PayoutPolicy.SameCounts(e.outputs.value, e.tgc.value) && j < |plan.destinations|
    ensures PaysMiner(window.miners, reward - FeeInNumbers(reward, params), params.operator,
                      FeeInNumbers(reward, params), plan.destinations[j], m)
    ensures PayoutPolicy.CreditedTo(curve, plan.destinations, e.outputs.value, e.tgc.value.amounts,
                                    |e.outputs.value|, j) == plan.destinations[j].amount
  {
    ReadyPaysEveryone(minerOf, window, reward, params, plan);
    PayoutPolicy.VerifiedMeansPaid(minerOf, curve, plan, e);
    hide PaysMiner, PaysOperator, FeeInNumbers, Miners, IsPlan, PayoutPolicy.CreditedTo, PayoutPolicy.OutputOk,
         PayoutPolicy.Verdict;
    j :| 0 <= j < |plan.destinations|
      && PaysMiner(window.miners, reward - FeeInNumbers(reward, params), params.operator,
                   FeeInNumbers(reward, params), plan.destinations[j], m);
  }

  // ---- When a plan is refused ------------------------------------------------------------------

  ghost predicate Refused(r: Outcome<Plan>, status: PlanStatus, reward: nat) {
    r == Value(Plan(status, reward, []))
  }

  /** The rows contradict each other about payout keys, or a total does not fit 32 bytes. */
  ghost predicate RowsUnpayable(minerOf: PayoutKeys -> MinerId, rows: seq<MinerWork>) {
    !RowsAgree(minerOf, rows) || exists m :: m in Miners(rows) && WorkOf(rows, m) >= TWO_256
  }

  lemma NoMinersAllocate(minerOf: PayoutKeys -> MinerId, rows: seq<MinerWork>, reward: nat)
    requires Miners(rows) == {}
    ensures Allocate(minerOf, rows, reward) == Value([]) && !RowsUnpayable(minerOf, rows)
  {
    forall row
      ensures !Counts(rows, row)
    {
      assert Counts(rows, row) ==> row.miner in Miners(rows);
    }
    assert Aggregated(rows) == map[];
  }

  lemma AllocatedCount(minerOf: PayoutKeys -> MinerId, rows: seq<MinerWork>, reward: nat)
    requires Miners(rows) != {} && !RowsUnpayable(minerOf, rows)
    ensures Allocate(minerOf, rows, reward).Value?
    ensures |Allocate(minerOf, rows, reward).value| == |Miners(rows)|
  {
    AllocationIsFair(minerOf, rows, reward);
    hide Allocate, SumAmounts, SumRows, WorkOf, KeysOf, Miners, RowsAgree;
    var payouts := Allocate(minerOf, rows, reward).value;
    assert |PaidMiners(payouts)| == |payouts|;
  }

  /** Every refusal, in the order of the checks. */
  lemma PlanTable(minerOf: PayoutKeys -> MinerId, window: Window, reward: U64, params: Parameters, r: Outcome<Plan>)
    requires IsPlan(minerOf, window, reward, params, r)
    ensures if !ParametersValid(params) then r.Thrown?
      else if window.miners == [] then Refused(r, EmptyWindow, reward)
      else if !window.complete then Refused(r, IncompleteWindow, reward)
      else if reward == 0 then Refused(r, ZeroPayout, reward)
      else if RowsUnpayable(minerOf, window.miners) then r.Thrown?
      else if Miners(window.miners) == {} then Refused(r, EmptyWindow, reward)
      else if |Miners(window.miners)| > 31 || |Miners(window.miners)| > params.windowShares then
        Refused(r, TooManyRecipients, reward)
      else
        && r.Value? && r.value.reward == reward
        && (r.value.status != Ready ==>
              r == Value(Plan(MissingPayoutIdentity, reward, [])) || r == Value(Plan(ZeroPayout, reward, [])))
  {
    hide Fee, Allocate, RowsUnpayable, Miners, ParametersValid, FirstProblem, WithFee, DestinationsOf;
    if ParametersValid(params) {
      FeeIs(reward, params);
      AllocationTable(minerOf, window.miners, reward - Fee(reward, params));
    }
  }

  /** When the allocation throws, how many it pays, and what can be wrong with a payout. */
  lemma AllocationTable(minerOf: PayoutKeys -> MinerId, rows: seq<MinerWork>, rest: nat)
    ensures var r := Allocate(minerOf, rows, rest);
      && (r.Thrown? <==> RowsUnpayable(minerOf, rows))
      && (Miners(rows) == {} ==> r == Value([]))
      && (r.Value? ==>
            var p := FirstProblem(minerOf, r.value);
            |r.value| == |Miners(rows)| && (p.Some? ==> p.value == MissingPayoutIdentity || p.value == ZeroPayout))
  {
    hide Allocate, Miners, IsApportionment, FirstProblem;
    if Miners(rows) == {} {
      NoMinersAllocate(minerOf, rows, rest);
      ProblemKinds(minerOf, []);
    } else {
      AllocationIsFair(minerOf, rows, rest);
      if !RowsUnpayable(minerOf, rows) {
        AllocatedCount(minerOf, rows, rest);
        ProblemKinds(minerOf, Allocate(minerOf, rows, rest).value);
      }
    }
  }

  lemma {:induction false} ProblemKinds(minerOf: PayoutKeys -> MinerId, payouts: seq<Payout>)
    ensures var p := FirstProblem(minerOf, payouts);
      p.Some? ==> p.value == MissingPayoutIdentity || p.value == ZeroPayout
  {
    if payouts != [] {
      ProblemKinds(minerOf, payouts[1..]);
    }
  }

  /** The reported problem is that of the first miner, in identifier order, that has one: no keys, or keys of
      another miner, or nothing to receive. */
  lemma {:induction false} FirstProblemIs(minerOf: PayoutKeys -> MinerId, payouts: seq<Payout>)
    ensures FirstProblem(minerOf, payouts).None? <==>
      forall i | 0 <= i < |payouts| ::
        payouts[i].keys.Some? && minerOf(payouts[i].keys.value) == payouts[i].miner && payouts[i].amount > 0
    ensures FirstProblem(minerOf, payouts).Some? ==>
      exists i :: 0 <= i < |payouts| && IsProblemAt(minerOf, payouts, i, FirstProblem(minerOf, payouts).value)
  {
    if payouts != [] {
      FirstProblemIs(minerOf, payouts[1..]);
      if Problem(minerOf, payouts[0]).Some? {
        assert IsProblemAt(minerOf, payouts, 0, FirstProblem(minerOf, payouts).value);
      } else if FirstProblem(minerOf, payouts).Some? {
        var i :| 0 <= i < |payouts[1..]| && IsProblemAt(minerOf, payouts[1..], i, FirstProblem(minerOf, payouts[1..]).value);
        assert IsProblemAt(minerOf, payouts, i + 1, FirstProblem(minerOf, payouts).value);
      }
    }
  }

  ghost predicate Unbound(minerOf: PayoutKeys -> MinerId, p: Payout) {
    p.keys.None? || minerOf(p.keys.value) != p.miner
  }

  ghost predicate IsProblemAt(minerOf: PayoutKeys -> MinerId, payouts: seq<Payout>, i: nat, status: PlanStatus)
    requires i < |payouts|
  {
    && (forall j | 0 <= j < i :: !Unbound(minerOf, payouts[j]) && payouts[j].amount > 0)
    && (if Unbound(minerOf, payouts[i]) then status == MissingPayoutIdentity
        else payouts[i].amount == 0 && status == ZeroPayout)
  }

  // ---- When a transaction is refused -----------------------------------------------------------

  /** The local checks before any output is looked at, in order. */
  lemma VerifierTable(minerOf: PayoutKeys -> MinerId, curve: PayoutPolicy.Curve, plan: Plan, e: PayoutPolicy.Evidence)
    ensures var v := PayoutPolicy.Verdict(minerOf, curve, plan, e);
      if e.binding == PayoutPolicy.BindingFailed then v == PayoutPolicy.KeyBindingFailed
      else if e.binding == PayoutPolicy.BindingUnavailable || !e.backendAvailable then v == PayoutPolicy.BackendUnavailable
      else if e.rewardWithoutFee == 0 || e.blockReward != e.rewardWithoutFee then v == PayoutPolicy.RewardMetadataMismatch
      else if plan.reward != e.blockReward || !Payable(minerOf, plan) then v == PayoutPolicy.PayoutPlanMismatch
      else if e.outputs.None? then v == PayoutPolicy.MalformedMinerTxPrefix
      else if |e.outputs.value| < 2 || |e.outputs.value| > 32 then v == PayoutPolicy.InvalidOutputCount
      else if e.tgc.None? then v == PayoutPolicy.MalformedTgc
      else
        var n, tgc := |e.outputs.value|, e.tgc.value;
        |tgc.amounts| != n || |tgc.amountMasks| != n || |tgc.assetMasks| != n ==>
          v == PayoutPolicy.TgcOutputCountMismatch
  {
    hide Payable, PayoutPolicy.OutputsVerdict;
  }

  /** Output `i` has a fault of this kind: another asset, no destination or two, a commitment that does not open
      to the disclosed amount, or a running sum beyond 64 bits. */
  ghost predicate Faulty(
    curve: PayoutPolicy.Curve, ds: seq<Destination>, outputs: seq<PayoutPolicy.Output>, tgc: PayoutPolicy.Tgc, i: nat,
    status: PayoutPolicy.Status)
    requires PayoutPolicy.SameCounts(outputs, tgc) && i < |outputs|
  {
    if outputs[i].asset != curve.native || tgc.assetMasks[i] != 0 then status == PayoutPolicy.NonNativeAsset
    else if PayoutPolicy.MatchOf(curve, ds, i, outputs[i].stealth).None? then
      status == PayoutPolicy.PayoutPlanMismatch || status == PayoutPolicy.DestinationMismatch
    else if !curve.commits(tgc.amounts[i], tgc.amountMasks[i], outputs[i].asset, outputs[i].commitment) then
      status == PayoutPolicy.AmountCommitmentMismatch
    else Apportion.Sum(tgc.amounts[..i]) + tgc.amounts[i] > U64_MAX && status == PayoutPolicy.RewardSumMismatch
  }

  /** A complaint about the outputs is about the first faulty one. */
  lemma {:induction false} ComplaintIsFirst(
    curve: PayoutPolicy.Curve, ds: seq<Destination>, outputs: seq<PayoutPolicy.Output>, tgc: PayoutPolicy.Tgc, n: nat)
    requires PayoutPolicy.SameCounts(outputs, tgc) && n <= |outputs|
    requires PayoutPolicy.FirstComplaint(curve, ds, outputs, tgc, n) != PayoutPolicy.Verified
    ensures exists i | 0 <= i < n ::
      && PayoutPolicy.FirstComplaint(curve, ds, outputs, tgc, i) == PayoutPolicy.Verified
      && Faulty(curve, ds, outputs, tgc, i, PayoutPolicy.FirstComplaint(curve, ds, outputs, tgc, n))
  {
    hide PayoutPolicy.MatchOf, Apportion.Sum;
    if PayoutPolicy.FirstComplaint(curve, ds, outputs, tgc, n - 1) != PayoutPolicy.Verified {
      ComplaintIsFirst(curve, ds, outputs, tgc, n - 1);
    } else {
      assert Faulty(curve, ds, outputs, tgc, n - 1, PayoutPolicy.FirstComplaint(curve, ds, outputs, tgc, n));
    }
  }
}

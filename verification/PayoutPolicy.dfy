/** The payout verifier: a disclosed coinbase transaction must pay exactly the expected plan.

    Curve arithmetic is a parameter: `derive` gives the one-time address of a payout at an output index
    under the disclosed transaction key, and `commits` checks an amount commitment. */
module PayoutPolicy {
  import opened Basics
  import opened Shares
  import opened Apportion
  import opened Coinbase

  const MIN_OUTPUTS: nat := 2

  datatype Binding = BindingVerified | BindingUnavailable | BindingFailed

  datatype Status =
    | Verified
    | KeyBindingFailed
    | BackendUnavailable
    | RewardMetadataMismatch
    | PayoutPlanMismatch
    | MalformedMinerTxPrefix
    | InvalidOutputCount
    | MalformedTgc
    | TgcOutputCountMismatch
    | NonNativeAsset
    | DestinationMismatch
    | AmountCommitmentMismatch
    | RewardSumMismatch

  datatype Output = Output(stealth: Hash256, asset: Hash256, commitment: Hash256)

  /** The disclosed secrets, one entry per output. */
  datatype Tgc = Tgc(amounts: seq<U64>, amountMasks: seq<Hash256>, assetMasks: seq<Hash256>)

  datatype Curve = Curve(
    native: Hash256,
    derive: (PayoutKeys, nat) -> Option<Hash256>,
    commits: (nat, Hash256, Hash256, Hash256) -> bool)

  // ---- The plan gate ---------------------------------------------------------------------------

  lemma {:induction false} PaidPrefix(ds: seq<Destination>, i: nat)
    requires i < |ds|
    ensures TotalPaid(ds[..i + 1]) == TotalPaid(ds[..i]) + ds[i].amount <= TotalPaid(ds)
    decreases |ds| - i
  {
    assert ds[..i + 1][..i] == ds[..i];
    if i + 1 < |ds| {
      PaidPrefix(ds, i + 1);
    } else {
      assert ds[..i + 1] == ds;
    }
  }

  /** No earlier destination has the same payout keys. */
  method SeenBefore(ds: seq<Destination>, i: nat) returns (seen: bool)
    requires i < |ds|
    ensures seen <==> exists j :: 0 <= j < i && ds[j].payout == ds[i].payout
  {
    for j := 0 to i
      invariant forall k | 0 <= k < j :: ds[k].payout != ds[i].payout
    {
      if ds[j].payout == ds[i].payout {
        return true;
      }
    }
    return false;
  }

  /** The gate accepts exactly the payable plans for this block reward. */
  method PassesPlanGate(minerOf: PayoutKeys -> MinerId, plan: Plan, blockReward: U64) returns (ok: bool)
    ensures ok <==> Payable(minerOf, plan) && plan.reward == blockReward
  {
    var ds := plan.destinations;
    if plan.status != Ready || plan.reward != blockReward || ds == [] || |ds| > MAX_OUTPUTS {
      return false;
    }
    var sum: nat := 0;
    hide TotalPaid;
    PaidNothing(ds);
    for i := 0 to |ds|
      invariant sum == TotalPaid(ds[..i]) <= U64_MAX
      invariant WellFormed(minerOf, ds[..i])
    {
      PaidPrefix(ds, i);
      WellFormedStep(minerOf, ds, i);
      if ds[i].amount == 0 || minerOf(ds[i].payout) != ds[i].miner || ds[i].amount > U64_MAX - sum {
        return false;
      }
      var seen := SeenBefore(ds, i);
      if seen {
        return false;
      }
      sum := sum + ds[i].amount;
    }
    return sum == plan.reward;
  }

  lemma PaidNothing(ds: seq<Destination>)
    ensures TotalPaid(ds[..0]) == 0 && ds[..|ds|] == ds
  {
  }

  ghost predicate NextOk(minerOf: PayoutKeys -> MinerId, ds: seq<Destination>, i: nat)
    requires i < |ds|
  {
    && ds[i].amount > 0 && ds[i].miner == minerOf(ds[i].payout)
    && !(exists j :: 0 <= j < i && ds[j].payout == ds[i].payout)
  }

  lemma WellFormedStep(minerOf: PayoutKeys -> MinerId, ds: seq<Destination>, i: nat)
    requires i < |ds| && WellFormed(minerOf, ds[..i])
    ensures NextOk(minerOf, ds, i) ==> WellFormed(minerOf, ds[..i + 1])
    ensures WellFormed(minerOf, ds) ==> NextOk(minerOf, ds, i)
  {
  }

  // ---- Crediting outputs -----------------------------------------------------------------------

  /** Destination `j` is the only one whose one-time address at output `i` is `stealth`. */
  ghost predicate OnlyMatch(curve: Curve, ds: seq<Destination>, i: nat, stealth: Hash256, j: nat) {
    && j < |ds|
    && forall k | 0 <= k < |ds| ::
         curve.derive(ds[k].payout, i).Some? && (curve.derive(ds[k].payout, i) == Some(stealth) <==> k == j)
  }

  ghost function MatchOf(curve: Curve, ds: seq<Destination>, i: nat, stealth: Hash256): Option<nat> {
    if j: nat :| OnlyMatch(curve, ds, i, stealth, j) then Some(j) else None
  }

  lemma MatchIs(curve: Curve, ds: seq<Destination>, i: nat, stealth: Hash256, j: nat)
    ensures MatchOf(curve, ds, i, stealth) == Some(j) <==> OnlyMatch(curve, ds, i, stealth, j)
  {
    if OnlyMatch(curve, ds, i, stealth, j) {
      assert curve.derive(ds[j].payout, i) == Some(stealth);
      var other := MatchOf(curve, ds, i, stealth).value;
      assert OnlyMatch(curve, ds, i, stealth, other);
    }
  }

  lemma TwoMatches(curve: Curve, ds: seq<Destination>, i: nat, stealth: Hash256, a: nat, b: nat)
    requires a < b < |ds|
    requires curve.derive(ds[a].payout, i) == curve.derive(ds[b].payout, i) == Some(stealth)
    ensures MatchOf(curve, ds, i, stealth) == None
  {
    MatchNone(curve, ds, i, stealth);
    forall j: nat
      ensures !OnlyMatch(curve, ds, i, stealth, j)
    {
    }
  }

  lemma MatchNone(curve: Curve, ds: seq<Destination>, i: nat, stealth: Hash256)
    ensures MatchOf(curve, ds, i, stealth) == None <==> forall j: nat :: !OnlyMatch(curve, ds, i, stealth, j)
  {
  }

  lemma NoMatch(curve: Curve, ds: seq<Destination>, i: nat, stealth: Hash256)
    requires forall k | 0 <= k < |ds| :: curve.derive(ds[k].payout, i) != Some(stealth)
    ensures MatchOf(curve, ds, i, stealth) == None
  {
    MatchNone(curve, ds, i, stealth);
    forall j: nat
      ensures !OnlyMatch(curve, ds, i, stealth, j)
    {
      if j < |ds| {
        assert curve.derive(ds[j].payout, i) != Some(stealth);
      }
    }
  }

  /** Destination `b` is the second to match, and every address up to there could be derived. */
  ghost predicate MatchedTwice(curve: Curve, ds: seq<Destination>, i: nat, stealth: Hash256, a: nat, b: nat) {
    && a < b < |ds|
    && curve.derive(ds[a].payout, i) == curve.derive(ds[b].payout, i) == Some(stealth)
    && forall k | 0 <= k <= b :: curve.derive(ds[k].payout, i).Some?
  }

  ghost function MatchStatus(curve: Curve, ds: seq<Destination>, i: nat, stealth: Hash256): Status {
    if MatchOf(curve, ds, i, stealth).Some? then Verified
    else if exists a: nat, b: nat :: MatchedTwice(curve, ds, i, stealth, a, b) then PayoutPlanMismatch
    else DestinationMismatch
  }

  /** Search the destinations for the one an output belongs to. */
  method MatchDestination(curve: Curve, ds: seq<Destination>, i: nat, stealth: Hash256)
    returns (status: Status, matched: nat)
    ensures status == MatchStatus(curve, ds, i, stealth)
    ensures status == Verified ==> matched < |ds| && MatchOf(curve, ds, i, stealth) == Some(matched)
  {
    matched := |ds|;
    MatchNone(curve, ds, i, stealth);
    hide MatchOf;
    for j := 0 to |ds|
      invariant matched == |ds| || matched < j
      invariant forall k | 0 <= k < j ::
        && curve.derive(ds[k].payout, i).Some?
        && (curve.derive(ds[k].payout, i) == Some(stealth) <==> k == matched)
    {
      var expected := curve.derive(ds[j].payout, i);
      if expected.None? {
        return DestinationMismatch, matched;
      }
      if expected.value == stealth {
        if matched != |ds| {
          TwoMatches(curve, ds, i, stealth, matched, j);
          assert MatchedTwice(curve, ds, i, stealth, matched, j);
          return PayoutPlanMismatch, matched;
        }
        matched := j;
      }
    }
    if matched == |ds| {
      NoMatch(curve, ds, i, stealth);
      return DestinationMismatch, matched;
    }
    MatchIs(curve, ds, i, stealth, matched);
    return Verified, matched;
  }

  /** What the first `n` outputs pay to destination `j`. */
  ghost function CreditedTo(
    curve: Curve, ds: seq<Destination>, outputs: seq<Output>, amounts: seq<nat>, n: nat, j: nat): nat
    requires n <= |outputs| && n <= |amounts|
  {
    if n == 0 then 0
    else
      CreditedTo(curve, ds, outputs, amounts, n - 1, j) +
      if MatchOf(curve, ds, n - 1, outputs[n - 1].stealth) == Some(j) then amounts[n - 1] else 0
  }

  ghost predicate OutputOk(curve: Curve, ds: seq<Destination>, output: Output, tgc: Tgc, i: nat)
    requires i < |tgc.amounts| && i < |tgc.amountMasks| && i < |tgc.assetMasks|
  {
    && output.asset == curve.native && tgc.assetMasks[i] == 0
    && MatchOf(curve, ds, i, output.stealth).Some?
    && curve.commits(tgc.amounts[i], tgc.amountMasks[i], output.asset, output.commitment)
  }

  /** What the crediting loop reports about output `i` after `before` has been paid. */
  ghost function OutputStatus(
    curve: Curve, ds: seq<Destination>, output: Output, tgc: Tgc, i: nat, before: nat): Status
    requires i < |tgc.amounts| && i < |tgc.amountMasks| && i < |tgc.assetMasks|
  {
    if output.asset != curve.native || tgc.assetMasks[i] != 0 then NonNativeAsset
    else if MatchStatus(curve, ds, i, output.stealth) != Verified then MatchStatus(curve, ds, i, output.stealth)
    else if !curve.commits(tgc.amounts[i], tgc.amountMasks[i], output.asset, output.commitment)
    then AmountCommitmentMismatch
    else if before + tgc.amounts[i] > U64_MAX then RewardSumMismatch
    else Verified
  }

  /** The first complaint about the first `n` outputs. */
  ghost function FirstComplaint(curve: Curve, ds: seq<Destination>, outputs: seq<Output>, tgc: Tgc, n: nat): Status
    requires SameCounts(outputs, tgc) && n <= |outputs|
  {
    if n == 0 then Verified
    else
      var earlier := FirstComplaint(curve, ds, outputs, tgc, n - 1);
      if earlier != Verified then earlier
      else OutputStatus(curve, ds, outputs[n - 1], tgc, n - 1, Sum(tgc.amounts[..n - 1]))
  }

  lemma {:induction false} FirstComplaintStays(
    curve: Curve, ds: seq<Destination>, outputs: seq<Output>, tgc: Tgc, n: nat, m: nat)
    requires SameCounts(outputs, tgc) && n <= m <= |outputs|
    requires FirstComplaint(curve, ds, outputs, tgc, n) != Verified
    ensures FirstComplaint(curve, ds, outputs, tgc, m) == FirstComplaint(curve, ds, outputs, tgc, n)
    decreases m
  {
    if n < m {
      FirstComplaintStays(curve, ds, outputs, tgc, n, m - 1);
    }
  }

  /** No complaint means every output is in order and the amounts add up within 64 bits. */
  lemma {:induction false} NoComplaint(
    curve: Curve, ds: seq<Destination>, outputs: seq<Output>, tgc: Tgc, n: nat)
    requires SameCounts(outputs, tgc) && n <= |outputs|
    ensures FirstComplaint(curve, ds, outputs, tgc, n) == Verified <==>
      Sum(tgc.amounts[..n]) <= U64_MAX && forall i | 0 <= i < n :: OutputOk(curve, ds, outputs[i], tgc, i)
  {
    if n > 0 {
      hide MatchOf;
      NoComplaint(curve, ds, outputs, tgc, n - 1);
      SumStep(tgc.amounts, n - 1);
    }
  }

  ghost predicate SameCounts(outputs: seq<Output>, tgc: Tgc) {
    |tgc.amounts| == |tgc.amountMasks| == |tgc.assetMasks| == |outputs|
  }

  /** Every output is native, belongs to exactly one destination and commits to its amount, and each
      destination receives exactly what the plan says. */
  ghost predicate PaidAsPlanned(curve: Curve, plan: Plan, outputs: seq<Output>, tgc: Tgc) {
    && MIN_OUTPUTS <= |outputs| <= MAX_OUTPUTS && SameCounts(outputs, tgc)
    && (forall i | 0 <= i < |outputs| :: OutputOk(curve, plan.destinations, outputs[i], tgc, i))
    && Sum(tgc.amounts) == plan.reward
    && (forall j | 0 <= j < |plan.destinations| ::
          CreditedTo(curve, plan.destinations, outputs, tgc.amounts, |outputs|, j) == plan.destinations[j].amount)
  }

  lemma {:induction false} CreditedBelowSum(
    curve: Curve, ds: seq<Destination>, outputs: seq<Output>, amounts: seq<nat>, n: nat, j: nat)
    requires n <= |outputs| && n <= |amounts|
    ensures CreditedTo(curve, ds, outputs, amounts, n, j) <= Sum(amounts[..n])
  {
    if n > 0 {
      CreditedBelowSum(curve, ds, outputs, amounts, n - 1, j);
      assert amounts[..n][..n - 1] == amounts[..n - 1];
    }
  }

  lemma SumStep(amounts: seq<nat>, n: nat)
    requires n < |amounts|
    ensures Sum(amounts[..n + 1]) == Sum(amounts[..n]) + amounts[n] <= Sum(amounts)
  {
    assert amounts[..n + 1][..n] == amounts[..n];
    SumPrefix(amounts, n + 1);
  }

  /** The running credits match the outputs seen so far. */
  ghost predicate CreditsSoFar(
    curve: Curve, ds: seq<Destination>, outputs: seq<Output>, amounts: seq<nat>, n: nat, credited: seq<nat>)
  {
    && n <= |outputs| && n <= |amounts| && |credited| == |ds|
    && forall j | 0 <= j < |ds| :: credited[j] == CreditedTo(curve, ds, outputs, amounts, n, j)
  }

  lemma CreditNext(
    curve: Curve, ds: seq<Destination>, outputs: seq<Output>, amounts: seq<nat>, n: nat, credited: seq<nat>, m: nat)
    requires n < |outputs| && n < |amounts| && m < |ds|
    requires CreditsSoFar(curve, ds, outputs, amounts, n, credited)
    requires MatchOf(curve, ds, n, outputs[n].stealth) == Some(m)
    ensures CreditsSoFar(curve, ds, outputs, amounts, n + 1, credited[m := credited[m] + amounts[n]])
    ensures credited[m] <= Sum(amounts[..n])
  {
    hide MatchOf;
    CreditedBelowSum(curve, ds, outputs, amounts, n, m);
  }

  /** The crediting loop over the outputs. */
  method CreditOutputs(curve: Curve, ds: seq<Destination>, outputs: seq<Output>, tgc: Tgc)
    returns (status: Status, credited: seq<nat>, sum: nat)
    requires SameCounts(outputs, tgc)
    ensures status == FirstComplaint(curve, ds, outputs, tgc, |outputs|)
    ensures status == Verified ==>
      sum == Sum(tgc.amounts) && CreditsSoFar(curve, ds, outputs, tgc.amounts, |outputs|, credited)
  {
    credited, sum := seq(|ds|, _ => 0), 0;
    assert tgc.amounts[..0] == [] && tgc.amounts[..|outputs|] == tgc.amounts;
    assert CreditsSoFar(curve, ds, outputs, tgc.amounts, 0, credited);
    hide MatchOf, CreditsSoFar;
    for i := 0 to |outputs|
      invariant sum == Sum(tgc.amounts[..i]) <= U64_MAX
      invariant CreditsSoFar(curve, ds, outputs, tgc.amounts, i, credited)
      invariant FirstComplaint(curve, ds, outputs, tgc, i) == Verified
    {
      hide Sum;
      var output := outputs[i];
      SumStep(tgc.amounts, i);
      ghost var complaint := FirstComplaint(curve, ds, outputs, tgc, i + 1);
      if complaint != Verified {
        FirstComplaintStays(curve, ds, outputs, tgc, i + 1, |outputs|);
      }
      if output.asset != curve.native || tgc.assetMasks[i] != 0 {
        return NonNativeAsset, credited, sum;
      }
      var matching, matched := MatchDestination(curve, ds, i, output.stealth);
      if matching != Verified {
        return matching, credited, sum;
      }
      if !curve.commits(tgc.amounts[i], tgc.amountMasks[i], output.asset, output.commitment) {
        return AmountCommitmentMismatch, credited, sum;
      }
      CreditNext(curve, ds, outputs, tgc.amounts, i, credited, matched);
      CreditsLength(curve, ds, outputs, tgc.amounts, i, credited);
      if tgc.amounts[i] > U64_MAX - sum || tgc.amounts[i] > U64_MAX - credited[matched] {
        return RewardSumMismatch, credited, sum;
      }
      sum := sum + tgc.amounts[i];
      credited := credited[matched := credited[matched] + tgc.amounts[i]];
    }
    status := Verified;
  }

  lemma CreditsLength(
    curve: Curve, ds: seq<Destination>, outputs: seq<Output>, amounts: seq<nat>, n: nat, credited: seq<nat>)
    requires CreditsSoFar(curve, ds, outputs, amounts, n, credited)
    ensures |credited| == |ds|
  {
  }

  // ---- The verdict -----------------------------------------------------------------------------

  /** What the verifier is given besides the plan.  `outputs` and `tgc` are absent when they do not parse. */
  datatype Evidence = Evidence(
    binding: Binding,
    backendAvailable: bool,
    rewardWithoutFee: U64,
    blockReward: U64,
    outputs: Option<seq<Output>>,
    tgc: Option<Tgc>)

  ghost predicate Acceptable(minerOf: PayoutKeys -> MinerId, curve: Curve, plan: Plan, e: Evidence) {
    && e.binding == BindingVerified && e.backendAvailable
    && e.rewardWithoutFee != 0 && e.blockReward == e.rewardWithoutFee
    && Payable(minerOf, plan) && plan.reward == e.blockReward
    && e.outputs.Some? && e.tgc.Some?
    && PaidAsPlanned(curve, plan, e.outputs.value, e.tgc.value)
  }

  method SameCredits(ds: seq<Destination>, credited: seq<nat>) returns (same: bool)
    requires |credited| == |ds|
    ensures same <==> forall j | 0 <= j < |ds| :: credited[j] == ds[j].amount
  {
    for j := 0 to |ds|
      invariant forall k | 0 <= k < j :: credited[k] == ds[k].amount
    {
      if credited[j] != ds[j].amount {
        return false;
      }
    }
    return true;
  }

  /** What is reported about the disclosed outputs. */
  ghost function OutputsVerdict(curve: Curve, plan: Plan, outputs: seq<Output>, tgc: Tgc): Status
    requires SameCounts(outputs, tgc)
  {
    var ds := plan.destinations;
    if FirstComplaint(curve, ds, outputs, tgc, |outputs|) != Verified
    then FirstComplaint(curve, ds, outputs, tgc, |outputs|)
    else if Sum(tgc.amounts) != plan.reward then RewardSumMismatch
    else if forall j | 0 <= j < |ds| :: CreditedTo(curve, ds, outputs, tgc.amounts, |outputs|, j) == ds[j].amount
    then Verified else PayoutPlanMismatch
  }

  /** Check the disclosed outputs against the plan. */
  method VerifyOutputs(curve: Curve, plan: Plan, outputs: seq<Output>, tgc: Tgc) returns (status: Status)
    requires SameCounts(outputs, tgc)
    ensures status == OutputsVerdict(curve, plan, outputs, tgc)
  {
    var ds := plan.destinations;
    hide FirstComplaint, Sum, CreditedTo;
    var crediting, credited, sum := CreditOutputs(curve, ds, outputs, tgc);
    if crediting != Verified {
      return crediting;
    }
    if sum != plan.reward {
      return RewardSumMismatch;
    }
    var same := SameCredits(ds, credited);
    return if same then Verified else PayoutPlanMismatch;
  }

  lemma OutputsVerified(curve: Curve, plan: Plan, outputs: seq<Output>, tgc: Tgc)
    requires MIN_OUTPUTS <= |outputs| <= MAX_OUTPUTS && SameCounts(outputs, tgc) && plan.reward <= U64_MAX
    ensures OutputsVerdict(curve, plan, outputs, tgc) == Verified <==> PaidAsPlanned(curve, plan, outputs, tgc)
  {
    hide FirstComplaint, OutputOk, Sum, CreditedTo;
    NoComplaint(curve, plan.destinations, outputs, tgc, |outputs|);
    assert tgc.amounts[..|outputs|] == tgc.amounts;
  }

  /** The verdict, with the first reason to refuse in the order of the checks. */
  ghost function Verdict(minerOf: PayoutKeys -> MinerId, curve: Curve, plan: Plan, e: Evidence): Status {
    if e.binding == BindingFailed then KeyBindingFailed
    else if e.binding == BindingUnavailable || !e.backendAvailable then BackendUnavailable
    else if e.rewardWithoutFee == 0 || e.blockReward != e.rewardWithoutFee then RewardMetadataMismatch
    else if !(Payable(minerOf, plan) && plan.reward == e.blockReward) then PayoutPlanMismatch
    else if e.outputs.None? then MalformedMinerTxPrefix
    else if !(MIN_OUTPUTS <= |e.outputs.value| <= MAX_OUTPUTS) then InvalidOutputCount
    else if e.tgc.None? then MalformedTgc
    else if !SameCounts(e.outputs.value, e.tgc.value) then TgcOutputCountMismatch
    else OutputsVerdict(curve, plan, e.outputs.value, e.tgc.value)
  }

  /** Verified means exactly this: the plan can be paid, the rewards agree, and every destination
      receives exactly its planned amount from outputs that match it alone. */
  lemma VerifiedMeansPaid(minerOf: PayoutKeys -> MinerId, curve: Curve, plan: Plan, e: Evidence)
    ensures Verdict(minerOf, curve, plan, e) == Verified <==> Acceptable(minerOf, curve, plan, e)
  {
    hide PaidAsPlanned, Payable, OutputsVerdict;
    if e.outputs.Some? && e.tgc.Some? {
      CountsNeeded(curve, plan, e);
      if MIN_OUTPUTS <= |e.outputs.value| <= MAX_OUTPUTS && SameCounts(e.outputs.value, e.tgc.value)
         && plan.reward <= U64_MAX {
        OutputsVerified(curve, plan, e.outputs.value, e.tgc.value);
      }
    }
  }

  method VerifyMinerTxPayoutPolicy(minerOf: PayoutKeys -> MinerId, curve: Curve, plan: Plan, e: Evidence)
    returns (status: Status)
    ensures status == Verdict(minerOf, curve, plan, e)
    ensures status == Verified <==> Acceptable(minerOf, curve, plan, e)
  {
    VerifiedMeansPaid(minerOf, curve, plan, e);
    hide Acceptable, Payable, OutputsVerdict;
    if e.binding != BindingVerified {
      return if e.binding == BindingUnavailable then BackendUnavailable else KeyBindingFailed;
    }
    if !e.backendAvailable {
      return BackendUnavailable;
    }
    if e.rewardWithoutFee == 0 || e.blockReward != e.rewardWithoutFee {
      return RewardMetadataMismatch;
    }
    var gate := PassesPlanGate(minerOf, plan, e.blockReward);
    if !gate {
      return PayoutPlanMismatch;
    }
    if e.outputs.None? {
      return MalformedMinerTxPrefix;
    }
    var outputs := e.outputs.value;
    if |outputs| < MIN_OUTPUTS || |outputs| > MAX_OUTPUTS {
      return InvalidOutputCount;
    }
    if e.tgc.None? {
      return MalformedTgc;
    }
    var tgc := e.tgc.value;
    if |tgc.amounts| != |outputs| || |tgc.amountMasks| != |outputs| || |tgc.assetMasks| != |outputs| {
      return TgcOutputCountMismatch;
    }
    status := VerifyOutputs(curve, plan, outputs, tgc);
  }

  lemma CountsNeeded(curve: Curve, plan: Plan, e: Evidence)
    requires e.outputs.Some?
    ensures e.tgc.Some? && PaidAsPlanned(curve, plan, e.outputs.value, e.tgc.value) ==>
      MIN_OUTPUTS <= |e.outputs.value| <= MAX_OUTPUTS && SameCounts(e.outputs.value, e.tgc.value)
  {
  }

  // ---- Construction and verification agree -----------------------------------------------------

  /** The physical outputs of a plan.  A single destination is split in two, which needs two units. */
  function PhysicalPayouts(ds: seq<Destination>): Option<seq<(PayoutKeys, nat)>> {
    if |ds| == 1 then
      var total := ds[0].amount;
      if total < MIN_OUTPUTS then None
      else Some([(ds[0].payout, total / 2), (ds[0].payout, total - total / 2)])
    else Some(seq(|ds|, i requires 0 <= i < |ds| => (ds[i].payout, ds[i].amount)))
  }

  /** The transaction an honest builder discloses for these payouts. */
  ghost predicate HonestTransaction(
    curve: Curve, payouts: seq<(PayoutKeys, nat)>, outputs: seq<Output>, tgc: Tgc)
  {
    && |outputs| == |payouts| && SameCounts(outputs, tgc)
    && forall i | 0 <= i < |payouts| ::
         && curve.derive(payouts[i].0, i) == Some(outputs[i].stealth)
         && outputs[i].asset == curve.native && tgc.assetMasks[i] == 0
         && tgc.amounts[i] == payouts[i].1
         && curve.commits(tgc.amounts[i], tgc.amountMasks[i], outputs[i].asset, outputs[i].commitment)
  }

  /** The destination that output `i` of an honest transaction pays. */
  function Owner(ds: seq<Destination>, i: nat): nat { if |ds| == 1 then 0 else i }

  /** At every output in use, one-time addresses exist and that of the owner is nobody else's. */
  ghost predicate TellsApart(curve: Curve, ds: seq<Destination>, outputs: nat) {
    forall i, j | 0 <= i < outputs && 0 <= j < |ds| && Owner(ds, i) < |ds| ::
      && curve.derive(ds[j].payout, i).Some?
      && (j != Owner(ds, i) ==> curve.derive(ds[j].payout, i) != curve.derive(ds[Owner(ds, i)].payout, i))
  }

  ghost predicate OwnersMatch(curve: Curve, ds: seq<Destination>, outputs: seq<Output>) {
    forall i | 0 <= i < |outputs| :: MatchOf(curve, ds, i, outputs[i].stealth) == Some(Owner(ds, i))
  }

  /** Every output of an honest transaction is matched to its owner exactly when addresses tell the
      destinations apart; otherwise some output is matched to nobody. */
  lemma HonestMatches(curve: Curve, ds: seq<Destination>, outputs: seq<Output>, tgc: Tgc)
    requires ds != [] && PhysicalPayouts(ds).Some?
    requires HonestTransaction(curve, PhysicalPayouts(ds).value, outputs, tgc)
    ensures OwnersMatch(curve, ds, outputs) <==> TellsApart(curve, ds, |outputs|)
    ensures OwnersMatch(curve, ds, outputs) <==>
      forall i | 0 <= i < |outputs| :: MatchOf(curve, ds, i, outputs[i].stealth).Some?
  {
    forall i | 0 <= i < |outputs|
      ensures Owner(ds, i) < |ds| && curve.derive(ds[Owner(ds, i)].payout, i) == Some(outputs[i].stealth)
      ensures MatchOf(curve, ds, i, outputs[i].stealth) == Some(Owner(ds, i)) <==> ApartAt(curve, ds, i)
      ensures MatchOf(curve, ds, i, outputs[i].stealth).Some? ==>
        MatchOf(curve, ds, i, outputs[i].stealth) == Some(Owner(ds, i))
    {
      MatchIs(curve, ds, i, outputs[i].stealth, Owner(ds, i));
      OnlyOwner(curve, ds, i, outputs[i].stealth);
    }
    hide MatchOf, HonestTransaction, PhysicalPayouts;
    if forall i | 0 <= i < |outputs| :: ApartAt(curve, ds, i) {
      assert TellsApart(curve, ds, |outputs|);
    }
    if TellsApart(curve, ds, |outputs|) {
      assert forall i | 0 <= i < |outputs| :: ApartAt(curve, ds, i);
    }
  }

  ghost predicate ApartAt(curve: Curve, ds: seq<Destination>, i: nat) {
    forall j | 0 <= j < |ds| && Owner(ds, i) < |ds| ::
      && curve.derive(ds[j].payout, i).Some?
      && (j != Owner(ds, i) ==> curve.derive(ds[j].payout, i) != curve.derive(ds[Owner(ds, i)].payout, i))
  }

  lemma OnlyOwner(curve: Curve, ds: seq<Destination>, i: nat, stealth: Hash256)
    requires Owner(ds, i) < |ds| && curve.derive(ds[Owner(ds, i)].payout, i) == Some(stealth)
    ensures MatchOf(curve, ds, i, stealth).Some? ==> MatchOf(curve, ds, i, stealth) == Some(Owner(ds, i))
    ensures OnlyMatch(curve, ds, i, stealth, Owner(ds, i)) <==> ApartAt(curve, ds, i)
  {
  }

  lemma {:induction false} HonestCredits(
    curve: Curve, ds: seq<Destination>, outputs: seq<Output>, amounts: seq<nat>, n: nat, j: nat)
    requires n <= |ds| == |outputs| == |amounts| && j < |ds|
    requires forall i | 0 <= i < |ds| :: MatchOf(curve, ds, i, outputs[i].stealth) == Some(i)
    ensures CreditedTo(curve, ds, outputs, amounts, n, j) == if j < n then amounts[j] else 0
  {
    if n > 0 {
      HonestCredits(curve, ds, outputs, amounts, n - 1, j);
    }
  }

  lemma {:induction false} HonestSum(ds: seq<Destination>, amounts: seq<nat>)
    requires |amounts| == |ds| && forall i | 0 <= i < |ds| :: amounts[i] == ds[i].amount
    ensures Sum(amounts) == TotalPaid(ds)
  {
    if ds != [] {
      HonestSum(ds[..|ds| - 1], amounts[..|ds| - 1]);
    }
  }

  lemma SeveralDestinations(curve: Curve, plan: Plan, outputs: seq<Output>, tgc: Tgc)
    requires MIN_OUTPUTS <= |plan.destinations| <= MAX_OUTPUTS && TotalPaid(plan.destinations) == plan.reward
    requires PhysicalPayouts(plan.destinations).Some? && OwnersMatch(curve, plan.destinations, outputs)
    requires HonestTransaction(curve, PhysicalPayouts(plan.destinations).value, outputs, tgc)
    ensures PaidAsPlanned(curve, plan, outputs, tgc)
  {
    hide MatchOf, CreditedTo, Sum;
    var ds := plan.destinations;
    HonestSum(ds, tgc.amounts);
    forall j | 0 <= j < |ds|
      ensures CreditedTo(curve, ds, outputs, tgc.amounts, |outputs|, j) == ds[j].amount
    {
      HonestCredits(curve, ds, outputs, tgc.amounts, |ds|, j);
    }
  }

  lemma OneDestination(curve: Curve, plan: Plan, outputs: seq<Output>, tgc: Tgc)
    requires |plan.destinations| == 1 && TotalPaid(plan.destinations) == plan.reward
    requires PhysicalPayouts(plan.destinations).Some? && OwnersMatch(curve, plan.destinations, outputs)
    requires HonestTransaction(curve, PhysicalPayouts(plan.destinations).value, outputs, tgc)
    ensures PaidAsPlanned(curve, plan, outputs, tgc)
  {
    hide MatchOf;
    var ds := plan.destinations;
    var amounts: seq<nat> := tgc.amounts;
    assert amounts[..1][..0] == [] && amounts[..1] == [amounts[0]];
    assert Sum(amounts[..1]) == amounts[0];
    assert Sum(amounts) == amounts[0] + amounts[1];
    assert ds[..0] == [];
    assert CreditedTo(curve, ds, outputs, amounts, 1, 0) == amounts[0];
    assert CreditedTo(curve, ds, outputs, amounts, 2, 0) == amounts[0] + amounts[1];
  }

  lemma HonestIsPaid(minerOf: PayoutKeys -> MinerId, curve: Curve, plan: Plan, outputs: seq<Output>, tgc: Tgc)
    requires Payable(minerOf, plan) && PhysicalPayouts(plan.destinations).Some?
    requires HonestTransaction(curve, PhysicalPayouts(plan.destinations).value, outputs, tgc)
    ensures PaidAsPlanned(curve, plan, outputs, tgc) <==> TellsApart(curve, plan.destinations, |outputs|)
  {
    HonestMatches(curve, plan.destinations, outputs, tgc);
    if PaidAsPlanned(curve, plan, outputs, tgc) {
      assert forall i | 0 <= i < |outputs| :: OutputOk(curve, plan.destinations, outputs[i], tgc, i);
    }
    hide HonestTransaction, TellsApart, OwnersMatch, MatchOf;
    if OwnersMatch(curve, plan.destinations, outputs) {
      if |plan.destinations| == 1 {
        OneDestination(curve, plan, outputs, tgc);
      } else {
        SeveralDestinations(curve, plan, outputs, tgc);
      }
    }
  }

  /** What an honest peer discloses for a block of this reward. */
  function HonestEvidence(reward: U64, outputs: seq<Output>, tgc: Tgc): Evidence {
    Evidence(BindingVerified, true, reward, reward, Some(outputs), Some(tgc))
  }

  /** An honestly built coinbase of a payable plan, also one split in two, is verified exactly when
      one-time addresses tell its destinations apart at the outputs in use. */
  lemma HonestCoinbaseVerifies(
    minerOf: PayoutKeys -> MinerId, curve: Curve, plan: Plan, outputs: seq<Output>, tgc: Tgc)
    requires Payable(minerOf, plan) && plan.reward <= U64_MAX && PhysicalPayouts(plan.destinations).Some?
    requires HonestTransaction(curve, PhysicalPayouts(plan.destinations).value, outputs, tgc)
    ensures Verdict(minerOf, curve, plan, HonestEvidence(plan.reward, outputs, tgc)) == Verified
       <==> TellsApart(curve, plan.destinations, |outputs|)
  {
    hide PaidAsPlanned, HonestTransaction, TellsApart, Verdict, MatchOf;
    HonestIsPaid(minerOf, curve, plan, outputs, tgc);
    VerifiedMeansPaid(minerOf, curve, plan, HonestEvidence(plan.reward, outputs, tgc));
    PaidPrefix(plan.destinations, 0);
  }
}

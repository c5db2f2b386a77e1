/** What every payout allocation satisfies. */
module AllocationLaws {
  import opened Basics
  import opened Orders
  import opened Shares
  import opened Windows
  import opened Apportion
  import opened Allocation

  // ---- What every allocation satisfies ---------------------------------------------------------

  ghost function SumOver(rows: seq<MinerWork>, ids: seq<MinerId>): nat {
    if ids == [] then 0 else SumOver(rows, ids[..|ids| - 1]) + WorkOf(rows, ids[|ids| - 1])
  }

  lemma {:induction false} SumOverAppend(rows: seq<MinerWork>, row: MinerWork, ids: seq<MinerId>)
    requires Distinct(ids)
    ensures SumOver(rows + [row], ids) == SumOver(rows, ids) + if row.miner in ids then row.work else 0
  {
    if ids != [] {
      var last := |ids| - 1;
      SumOverAppend(rows, row, ids[..last]);
      AppendRow(rows, row, ids[last]);
      assert ids == ids[..last] + [ids[last]];
    }
  }

  lemma {:induction false} SumOverNone(ids: seq<MinerId>)
    ensures SumOver([], ids) == 0
  {
    if ids != [] {
      SumOverNone(ids[..|ids| - 1]);
    }
  }

  /** Aggregation loses no work. */
  lemma {:induction false} RowsPartition(rows: seq<MinerWork>, ids: seq<MinerId>)
    requires Distinct(ids) && forall row | row in rows && row.work > 0 :: row.miner in ids
    ensures SumOver(rows, ids) == SumRows(rows)
  {
    if rows == [] {
      SumOverNone(ids);
    } else {
      var front, row := rows[..|rows| - 1], rows[|rows| - 1];
      assert rows == front + [row];
      RowsPartition(front, ids);
      SumOverAppend(front, row, ids);
    }
  }

  lemma {:induction false} SumIsSumOver(rows: seq<MinerWork>, ids: seq<MinerId>, works: seq<nat>)
    requires |works| == |ids| && forall i | 0 <= i < |ids| :: works[i] == WorkOf(rows, ids[i])
    ensures Sum(works) == SumOver(rows, ids)
  {
    if ids != [] {
      SumIsSumOver(rows, ids[..|ids| - 1], works[..|ids| - 1]);
    }
  }

  lemma TotalIsSum(rows: seq<MinerWork>)
    ensures var credited := Aggregated(rows);
      Sum(Works(credited, Keys(credited.Keys))) == SumRows(rows)
  {
    var credited := Aggregated(rows);
    var ids := Keys(credited.Keys);
    forall row | row in rows && row.work > 0
      ensures row.miner in ids
    {
      assert Counts(rows, row);
    }
    RowsPartition(rows, ids);
    hide Keys;
    SumIsSumOver(rows, ids, Works(credited, ids));
  }

  ghost function SumAmounts(payouts: seq<Payout>): nat {
    if payouts == [] then 0 else SumAmounts(payouts[..|payouts| - 1]) + payouts[|payouts| - 1].amount
  }

  lemma {:induction false} SumAmountsIs(payouts: seq<Payout>, amounts: seq<nat>)
    requires |payouts| == |amounts| && forall i | 0 <= i < |amounts| :: payouts[i].amount == amounts[i]
    ensures SumAmounts(payouts) == Sum(amounts)
  {
    if payouts != [] {
      SumAmountsIs(payouts[..|payouts| - 1], amounts[..|payouts| - 1]);
    }
  }

  ghost function PaidMiners(payouts: seq<Payout>): seq<MinerId> {
    seq(|payouts|, i requires 0 <= i < |payouts| => payouts[i].miner)
  }

  /** A fair allocation of `reward` over the work in `rows`: one payout per miner with work, in
      identifier order, each within one unit of the exact quota, adding up to the reward; the units that
      the floors leave over go to the largest remainders, and among equal ones to the smaller miners. */
  ghost predicate IsApportionment(rows: seq<MinerWork>, reward: nat, payouts: seq<Payout>) {
    var total := SumRows(rows);
    && total > 0
    && SumAmounts(payouts) == reward
    && PaidMiners(payouts) == Keys(Miners(rows))
    && (forall i | 0 <= i < |payouts| :: FairShare(rows, reward, total, payouts[i]))
    && MoreWorkNoLess(payouts)
    && LargestRemaindersFirst(reward, total, payouts)
  }

  /** Who gets an extra unit comes before who does not. */
  ghost predicate LargestRemaindersFirst(reward: nat, total: nat, payouts: seq<Payout>)
    requires total > 0
  {
    forall i, j | 0 <= i < |payouts| && 0 <= j < |payouts| :: EarnedFirst(reward, total, payouts[i], payouts[j])
  }

  ghost predicate EarnedFirst(reward: nat, total: nat, p: Payout, q: Payout)
    requires total > 0
  {
    var r, s := Remainder(reward, p.work, total), Remainder(reward, q.work, total);
    ExtraUnit(reward, total, p) && !ExtraUnit(reward, total, q) ==> r > s || (r == s && p.miner < q.miner)
  }

  ghost predicate ExtraUnit(reward: nat, total: nat, payout: Payout)
    requires total > 0
  {
    payout.amount == Floor(reward, payout.work, total) + 1
  }

  ghost predicate MoreWorkNoLess(payouts: seq<Payout>) {
    forall i, j | 0 <= i < |payouts| && 0 <= j < |payouts| ::
      payouts[i].work > payouts[j].work ==> payouts[i].amount >= payouts[j].amount
  }

  ghost predicate FairShare(rows: seq<MinerWork>, reward: nat, total: nat, payout: Payout)
    requires total > 0
  {
    var floor := Floor(reward, payout.work, total);
    && payout.work == WorkOf(rows, payout.miner) && payout.keys == KeysOf(rows, payout.miner)
    && floor <= payout.amount <= floor + 1
    && (Remainder(reward, payout.work, total) == 0 ==> payout.amount == floor)
  }

  lemma PayoutFields(credited: map<MinerId, Credit>, ids: seq<MinerId>, works: seq<nat>, reward: nat, i: nat)
    requires HasClaims(credited) && ids == Keys(credited.Keys) && works == Works(credited, ids)
    ensures IsClaims(ids, works)
    ensures var payouts := PayoutsOf(credited, reward);
      && |payouts| == |ids| == |works|
      && (i < |ids| ==> payouts[i].miner == ids[i] && payouts[i].work == works[i]
                        && ids[i] in credited && payouts[i].keys == credited[ids[i]].payout
                        && payouts[i].amount == Amount(ids, works, reward, i))
  {
    hide Keys, Sum, Amount, IsClaims;
    ClaimsOf(credited);
  }

  lemma WorkAt(rows: seq<MinerWork>, i: nat)
    ensures var ids := Keys(Aggregated(rows).Keys);
      i < |ids| ==> Works(Aggregated(rows), ids)[i] == WorkOf(rows, ids[i]) && ids[i] in Aggregated(rows)
                    && Aggregated(rows)[ids[i]].payout == KeysOf(rows, ids[i])
  {
    hide Keys, WorkOf, KeysOf, Miners;
  }

  lemma PayoutsFair(rows: seq<MinerWork>, reward: nat, i: nat)
    requires Aggregated(rows) != map[] && HasClaims(Aggregated(rows))
    ensures var payouts := PayoutsOf(Aggregated(rows), reward);
      i < |payouts| ==> SumRows(rows) > 0 && FairShare(rows, reward, SumRows(rows), payouts[i])
  {
    hide Keys, Sum, Floor, Remainder, Amount, WorkOf, KeysOf, Aggregated, PayoutsOf, HasClaims, Works;
    var credited := Aggregated(rows);
    var ids := Keys(credited.Keys);
    PayoutFields(credited, ids, Works(credited, ids), reward, i);
    TotalIsSum(rows);
    if i < |ids| {
      WorkAt(rows, i);
      WithinOneUnit(ids, Works(credited, ids), reward, i);
    }
  }

  lemma PayoutsMonotone(credited: map<MinerId, Credit>, reward: nat, i: nat, j: nat)
    requires HasClaims(credited)
    ensures var payouts := PayoutsOf(credited, reward);
      i < |payouts| && j < |payouts| && payouts[i].work > payouts[j].work ==>
        payouts[i].amount >= payouts[j].amount
  {
    var ids := Keys(credited.Keys);
    ClaimsOf(credited);
    hide Keys, Sum, Amount;
    var works := Works(credited, ids);
    if i < |ids| && j < |ids| && works[i] > works[j] {
      MoreWorkPaysNoLess(ids, works, reward, i, j);
    }
  }

  lemma ExtraUnitPair(credited: map<MinerId, Credit>, reward: nat, total: nat, i: nat, j: nat)
    requires HasClaims(credited) && total == Sum(Works(credited, Keys(credited.Keys))) > 0
    requires i < |PayoutsOf(credited, reward)| && j < |PayoutsOf(credited, reward)|
    ensures EarnedFirst(reward, total, PayoutsOf(credited, reward)[i], PayoutsOf(credited, reward)[j])
  {
    hide Keys, Sum, Floor, Remainder, Amount, IsClaims, PayoutsOf, HasClaims, Works;
    var ids := Keys(credited.Keys);
    var works, payouts := Works(credited, ids), PayoutsOf(credited, reward);
    PayoutFields(credited, ids, works, reward, i);
    PayoutFields(credited, ids, works, reward, j);
    if ExtraUnit(reward, total, payouts[i]) && !ExtraUnit(reward, total, payouts[j]) {
      BonusBefore(ids, works, reward, i, j);
    }
  }

  /** The extra units go to the largest remainders. */
  lemma ExtraUnits(rows: seq<MinerWork>, reward: nat)
    requires HasClaims(Aggregated(rows))
    ensures SumRows(rows) > 0
    ensures LargestRemaindersFirst(reward, SumRows(rows), PayoutsOf(Aggregated(rows), reward))
  {
    hide PayoutsOf, Aggregated, HasClaims, EarnedFirst, Sum, Works;
    var payouts := PayoutsOf(Aggregated(rows), reward);
    WorkToShare(rows);
    TotalIsSum(rows);
    forall i, j | 0 <= i < |payouts| && 0 <= j < |payouts|
      ensures EarnedFirst(reward, SumRows(rows), payouts[i], payouts[j])
    {
      ExtraUnitPair(Aggregated(rows), reward, SumRows(rows), i, j);
    }
  }

  lemma PayoutsSum(credited: map<MinerId, Credit>, reward: nat)
    requires HasClaims(credited)
    ensures var payouts := PayoutsOf(credited, reward);
      SumAmounts(payouts) == reward && PaidMiners(payouts) == Keys(credited.Keys)
  {
    var ids := Keys(credited.Keys);
    ClaimsOf(credited);
    hide Keys, Sum, Amount, IsClaims;
    var works, payouts := Works(credited, ids), PayoutsOf(credited, reward);
    AmountsAddUp(ids, works, reward);
    SumAmountsIs(payouts, Amounts(ids, works, reward));
  }

  /** Every allocation that does not throw is a fair apportionment of the whole reward, whatever the
      rows: the program's overflow and leftover checks never fire. */
  lemma AllocationIsFair(minerOf: PayoutKeys -> MinerId, rows: seq<MinerWork>, reward: nat)
    requires Miners(rows) != {}
    ensures Allocate(minerOf, rows, reward).Thrown? <==>
      !RowsAgree(minerOf, rows) || exists m :: m in Miners(rows) && WorkOf(rows, m) >= TWO_256
    ensures Allocate(minerOf, rows, reward).Value? ==>
      IsApportionment(rows, reward, Allocate(minerOf, rows, reward).value)
  {
    var credited := Aggregated(rows);
    var m :| m in Miners(rows);
    assert m in credited;
    AggregatedClaims(rows);
    TooMuchIs(rows);
    hide RowsAgree, WorkOf, KeysOf, PayoutsOf, TooMuchWork;
    if Allocate(minerOf, rows, reward).Value? {
      FairAllocation(rows, reward);
    }
  }

  lemma TooMuchIs(rows: seq<MinerWork>)
    ensures TooMuchWork(Aggregated(rows)) <==> exists m :: m in Miners(rows) && WorkOf(rows, m) >= TWO_256
  {
    hide Miners, WorkOf, KeysOf;
    var credited := Aggregated(rows);
    if TooMuchWork(credited) {
      var m :| m in credited && credited[m].work >= TWO_256;
      assert m in Miners(rows) && WorkOf(rows, m) >= TWO_256;
    }
    if m :| m in Miners(rows) && WorkOf(rows, m) >= TWO_256 {
      assert m in credited && credited[m].work >= TWO_256;
    }
  }

  lemma PayoutsOrdered(credited: map<MinerId, Credit>, reward: nat)
    requires HasClaims(credited)
    ensures MoreWorkNoLess(PayoutsOf(credited, reward))
  {
    hide PayoutsOf;
    var payouts := PayoutsOf(credited, reward);
    forall i, j | 0 <= i < |payouts| && 0 <= j < |payouts|
      ensures payouts[i].work > payouts[j].work ==> payouts[i].amount >= payouts[j].amount
    {
      PayoutsMonotone(credited, reward, i, j);
    }
  }

  lemma WorkToShare(rows: seq<MinerWork>)
    requires HasClaims(Aggregated(rows))
    ensures SumRows(rows) > 0 && Aggregated(rows).Keys == Miners(rows)
  {
    ClaimsOf(Aggregated(rows));
    TotalIsSum(rows);
  }

  lemma FairAllocation(rows: seq<MinerWork>, reward: nat)
    requires Aggregated(rows) != map[] && HasClaims(Aggregated(rows))
    ensures IsApportionment(rows, reward, PayoutsOf(Aggregated(rows), reward))
  {
    hide Aggregated, PayoutsOf, FairShare, Miners, HasClaims, SumAmounts, SumRows, PaidMiners, Keys, MoreWorkNoLess,
         LargestRemaindersFirst;
    var credited := Aggregated(rows);
    var payouts := PayoutsOf(credited, reward);
    WorkToShare(rows);
    PayoutsSum(credited, reward);
    PayoutsOrdered(credited, reward);
    ExtraUnits(rows, reward);
    forall i | 0 <= i < |payouts|
      ensures FairShare(rows, reward, SumRows(rows), payouts[i])
    {
      PayoutsFair(rows, reward, i);
    }
  }

  // ---- Rows are only a way of writing down totals ----------------------------------------------

  /** Same miners, same work, same payout keys. */
  ghost predicate SameClaims(a: seq<MinerWork>, b: seq<MinerWork>) {
    && Miners(a) == Miners(b)
    && (forall m :: WorkOf(a, m) == WorkOf(b, m))
    && (forall m, keys :: Shows(a, m, keys) <==> Shows(b, m, keys))
  }

  lemma SameClaimsSameKeys(minerOf: PayoutKeys -> MinerId, a: seq<MinerWork>, b: seq<MinerWork>, m: MinerId)
    requires RowsAgree(minerOf, a) && RowsAgree(minerOf, b)
    requires forall m, keys :: Shows(a, m, keys) <==> Shows(b, m, keys)
    ensures KeysOf(a, m) == KeysOf(b, m)
  {
    hide Shows;
    KeysOfNone(a, m);
    KeysOfNone(b, m);
    if KeysOf(a, m).Some? {
      KeysOfShown(minerOf, a, m, KeysOf(a, m).value);
      KeysOfShown(minerOf, b, m, KeysOf(a, m).value);
    }
  }

  /** The allocation depends only on what each miner is owed, not on the rows that say so. */
  lemma AllocationDependsOnClaims(
    minerOf: PayoutKeys -> MinerId, a: seq<MinerWork>, b: seq<MinerWork>, reward: nat)
    requires SameClaims(a, b)
    ensures Allocate(minerOf, a, reward) == Allocate(minerOf, b, reward)
  {
    hide Shows;
    assert RowsAgree(minerOf, a) <==> RowsAgree(minerOf, b);
    if RowsAgree(minerOf, a) {
      forall m
        ensures KeysOf(a, m) == KeysOf(b, m)
      {
        SameClaimsSameKeys(minerOf, a, b, m);
      }
      hide KeysOf, WorkOf, Miners, RowsAgree;
      assert Aggregated(a) == Aggregated(b);
    }
  }

  lemma {:induction false} WorkConcat(a: seq<MinerWork>, b: seq<MinerWork>, m: MinerId)
    ensures WorkOf(a + b, m) == WorkOf(a, m) + WorkOf(b, m)
  {
    if b == [] {
      assert a + b == a;
    } else {
      var last := |b| - 1;
      WorkConcat(a, b[..last], m);
      assert (a + b)[..|a + b| - 1] == a + b[..last];
    }
  }

  lemma WorkWithout(front: seq<MinerWork>, row: MinerWork, back: seq<MinerWork>, m: MinerId)
    ensures WorkOf(front + [row] + back, m) ==
      WorkOf(front + back, m) + if row.miner == m then row.work else 0
  {
    WorkConcat(front + [row], back, m);
    WorkConcat(front, back, m);
    AppendRow(front, row, m);
  }

  lemma {:induction false} WorkPermutation(a: seq<MinerWork>, b: seq<MinerWork>, m: MinerId)
    requires multiset(a) == multiset(b)
    ensures WorkOf(a, m) == WorkOf(b, m)
  {
    SameMembers(a, b);
    if a != [] {
      hide WorkOf;
      var last := |a| - 1;
      assert a[last] in b;
      var i :| 0 <= i < |b| && b[i] == a[last];
      RemoveEqual(a, b, i);
      WorkPermutation(a[..last], b[..i] + b[i + 1..], m);
      WorkWithout(b[..i], b[i], b[i + 1..], m);
      WorkWithout(a[..last], a[last], [], m);
      assert b == b[..i] + [b[i]] + b[i + 1..];
      assert a == a[..last] + [a[last]] + [] && a[..last] + [] == a[..last];
    }
  }

  /** The order of the rows does not matter. */
  lemma AllocationIgnoresOrder(
    minerOf: PayoutKeys -> MinerId, a: seq<MinerWork>, b: seq<MinerWork>, reward: nat)
    requires multiset(a) == multiset(b)
    ensures Allocate(minerOf, a, reward) == Allocate(minerOf, b, reward)
  {
    SameMembers(a, b);
    assert forall row :: Counts(a, row) <==> Counts(b, row);
    forall m
      ensures WorkOf(a, m) == WorkOf(b, m)
    {
      WorkPermutation(a, b, m);
    }
    hide WorkOf, Allocate;
    assert Miners(a) == Miners(b);
    AllocationDependsOnClaims(minerOf, a, b, reward);
  }

  /** Nor does it matter how a miner's work is split over rows. */
  lemma AllocationIgnoresSplit(
    minerOf: PayoutKeys -> MinerId, front: seq<MinerWork>, back: seq<MinerWork>,
    m: MinerId, x: nat, y: nat, keys: Option<PayoutKeys>, reward: nat)
    ensures Allocate(minerOf, front + [MinerWork(m, x, keys), MinerWork(m, y, keys)] + back, reward)
         == Allocate(minerOf, front + [MinerWork(m, x + y, keys)] + back, reward)
  {
    var two, one := [MinerWork(m, x, keys), MinerWork(m, y, keys)], [MinerWork(m, x + y, keys)];
    var a, b := front + two + back, front + one + back;
    hide Allocate;
    forall who
      ensures WorkOf(a, who) == WorkOf(b, who)
    {
      WorkConcat(front + two, back, who);
      WorkConcat(front + one, back, who);
      WorkConcat(front, two, who);
      WorkConcat(front, one, who);
      SplitWork(m, x, y, keys, who);
    }
    SplitCounts(front, back, m, x, y, keys);
    hide WorkOf;
    AllocationDependsOnClaims(minerOf, a, b, reward);
  }

  lemma SplitWork(m: MinerId, x: nat, y: nat, keys: Option<PayoutKeys>, who: MinerId)
    ensures WorkOf([MinerWork(m, x, keys), MinerWork(m, y, keys)], who)
         == WorkOf([MinerWork(m, x + y, keys)], who)
  {
    AppendRow([MinerWork(m, x, keys)], MinerWork(m, y, keys), who);
    AppendRow([], MinerWork(m, x, keys), who);
    AppendRow([], MinerWork(m, x + y, keys), who);
    assert [] + [MinerWork(m, x, keys)] == [MinerWork(m, x, keys)];
    assert [] + [MinerWork(m, x + y, keys)] == [MinerWork(m, x + y, keys)];
    assert [MinerWork(m, x, keys)] + [MinerWork(m, y, keys)] == [MinerWork(m, x, keys), MinerWork(m, y, keys)];
  }

  lemma SplitCounts(
    front: seq<MinerWork>, back: seq<MinerWork>, m: MinerId, x: nat, y: nat, keys: Option<PayoutKeys>)
    ensures var a := front + [MinerWork(m, x, keys), MinerWork(m, y, keys)] + back;
      var b := front + [MinerWork(m, x + y, keys)] + back;
      Miners(a) == Miners(b) && forall who, k :: Shows(a, who, k) <==> Shows(b, who, k)
  {
    var p, q, r := MinerWork(m, x, keys), MinerWork(m, y, keys), MinerWork(m, x + y, keys);
    var a, b := front + [p, q] + back, front + [r] + back;
    assert forall row :: Counts(a, row) <==> Counts(front + back, row) || (row.work > 0 && (row == p || row == q));
    assert forall row :: Counts(b, row) <==> Counts(front + back, row) || (row.work > 0 && row == r);
    hide Counts;
    if x + y > 0 {
      assert Counts(b, r) && (Counts(a, p) || Counts(a, q));
    }
    forall who | who in Miners(a)
      ensures who in Miners(b)
    {
      var row :| Counts(a, row) && row.miner == who;
      assert Counts(b, row) || Counts(b, r);
    }
    forall who | who in Miners(b)
      ensures who in Miners(a)
    {
      var row :| Counts(b, row) && row.miner == who;
      assert Counts(a, row) || Counts(a, p) || Counts(a, q);
    }
  }
}

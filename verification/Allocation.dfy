/** Paying a window: rows are aggregated per miner, and the reward is apportioned over the totals. */
module Allocation {
  import opened Basics
  import opened Orders
  import opened Shares
  import opened Windows
  import opened Apportion

  // ---- From rows to claims ---------------------------------------------------------------------

  datatype Payout = Payout(miner: MinerId, work: nat, amount: nat, keys: Option<PayoutKeys>)

  ghost function WorkOf(rows: seq<MinerWork>, m: MinerId): nat {
    if rows == [] then 0
    else
      var last := |rows| - 1;
      WorkOf(rows[..last], m) + if rows[last].miner == m then rows[last].work else 0
  }

  /** Rows without work are skipped altogether. */
  ghost predicate Counts(rows: seq<MinerWork>, row: MinerWork) { row in rows && row.work > 0 }

  ghost function Miners(rows: seq<MinerWork>): set<MinerId> {
    set row | row in rows && Counts(rows, row) :: row.miner
  }

  ghost predicate Shows(rows: seq<MinerWork>, m: MinerId, keys: PayoutKeys) {
    exists row :: Counts(rows, row) && row.miner == m && row.payout == Some(keys)
  }

  /** The payout keys shown for a miner. */
  ghost function KeysOf(rows: seq<MinerWork>, m: MinerId): Option<PayoutKeys> {
    if keys :| Shows(rows, m, keys) then Some(keys) else None
  }

  /** Keys are bound to their miner, and no miner shows two different pairs. */
  ghost predicate RowsAgree(minerOf: PayoutKeys -> MinerId, rows: seq<MinerWork>) {
    && (forall m, keys | Shows(rows, m, keys) :: minerOf(keys) == m)
    && (forall m, a, b | Shows(rows, m, a) && Shows(rows, m, b) :: a == b)
  }

  ghost function Aggregated(rows: seq<MinerWork>): map<MinerId, Credit> {
    map m | m in Miners(rows) :: Credit(WorkOf(rows, m), KeysOf(rows, m))
  }

  lemma {:induction false} NoRowNoWork(rows: seq<MinerWork>, m: MinerId)
    requires m !in Miners(rows)
    ensures WorkOf(rows, m) == 0 && KeysOf(rows, m) == None
  {
    assert forall row | Counts(rows, row) :: row.miner in Miners(rows);
    if rows != [] {
      var last := |rows| - 1;
      assert Counts(rows, rows[last]) ==> rows[last].miner in Miners(rows);
      assert forall row | Counts(rows[..last], row) :: Counts(rows, row);
      NoRowNoWork(rows[..last], m);
    }
  }

  lemma {:induction false} WorkIsPositive(rows: seq<MinerWork>, row: MinerWork)
    requires row in rows && row.work > 0
    ensures WorkOf(rows, row.miner) > 0
  {
    var last := |rows| - 1;
    if rows[last] != row {
      assert rows == rows[..last] + [rows[last]];
      WorkIsPositive(rows[..last], row);
    }
  }

  lemma AppendRow(rows: seq<MinerWork>, row: MinerWork, m: MinerId)
    ensures WorkOf(rows + [row], m) == WorkOf(rows, m) + if row.miner == m then row.work else 0
    ensures Miners(rows + [row]) == Miners(rows) + if row.work > 0 then {row.miner} else {}
    ensures forall keys :: Shows(rows + [row], m, keys) <==>
      Shows(rows, m, keys) || (row.work > 0 && row.miner == m && row.payout == Some(keys))
  {
    var more := rows + [row];
    assert more[..|rows|] == rows;
    assert forall x :: Counts(more, x) <==> Counts(rows, x) || (x == row && row.work > 0);
    hide Counts;
    assert Miners(more) == Miners(rows) + if row.work > 0 then {row.miner} else {} by {
      forall x | x in Miners(rows)
        ensures x in Miners(more)
      {
        var y :| Counts(rows, y) && y.miner == x;
        assert Counts(more, y);
      }
    }
  }

  /** Keys that agree are found whatever the order of the rows. */
  lemma KeysOfShown(minerOf: PayoutKeys -> MinerId, rows: seq<MinerWork>, m: MinerId, keys: PayoutKeys)
    requires RowsAgree(minerOf, rows)
    ensures Shows(rows, m, keys) <==> KeysOf(rows, m) == Some(keys)
  {
  }

  lemma KeysOfNone(rows: seq<MinerWork>, m: MinerId)
    ensures KeysOf(rows, m).None? <==> forall keys :: !Shows(rows, m, keys)
  {
  }

  ghost predicate MayMerge(minerOf: PayoutKeys -> MinerId, sofar: Option<PayoutKeys>, row: MinerWork) {
    row.payout.Some? ==> row.miner == minerOf(row.payout.value) && (sofar.None? || sofar == row.payout)
  }

  lemma MergeAgrees(minerOf: PayoutKeys -> MinerId, rows: seq<MinerWork>, row: MinerWork)
    requires RowsAgree(minerOf, rows) && row.work > 0
    ensures RowsAgree(minerOf, rows + [row]) <==> MayMerge(minerOf, KeysOf(rows, row.miner), row)
  {
    forall m, keys
      ensures Shows(rows + [row], m, keys) <==>
        Shows(rows, m, keys) || (row.miner == m && row.payout == Some(keys))
    {
      AppendRow(rows, row, m);
    }
    hide Shows;
    KeysOfNone(rows, row.miner);
    if row.payout.Some? {
      var keys := row.payout.value;
      assert Shows(rows + [row], row.miner, keys);
      KeysOfShown(minerOf, rows, row.miner, keys);
      if KeysOf(rows, row.miner).Some? {
        KeysOfShown(minerOf, rows, row.miner, KeysOf(rows, row.miner).value);
        assert Shows(rows + [row], row.miner, KeysOf(rows, row.miner).value);
      }
    }
  }

  lemma MergedKeys(minerOf: PayoutKeys -> MinerId, rows: seq<MinerWork>, row: MinerWork, m: MinerId)
    requires RowsAgree(minerOf, rows) && RowsAgree(minerOf, rows + [row])
    ensures KeysOf(rows + [row], m) ==
      if row.work > 0 && row.miner == m && row.payout.Some? then row.payout else KeysOf(rows, m)
  {
    AppendRow(rows, row, m);
    hide Shows;
    var more := rows + [row];
    KeysOfNone(rows, m);
    KeysOfNone(more, m);
    if KeysOf(more, m).Some? {
      KeysOfShown(minerOf, more, m, KeysOf(more, m).value);
      KeysOfShown(minerOf, rows, m, KeysOf(more, m).value);
    }
    if row.work > 0 && row.miner == m && row.payout.Some? {
      KeysOfShown(minerOf, more, m, row.payout.value);
    }
  }

  lemma SkippedRow(minerOf: PayoutKeys -> MinerId, rows: seq<MinerWork>, row: MinerWork)
    requires RowsAgree(minerOf, rows) && row.work == 0
    ensures RowsAgree(minerOf, rows + [row]) && Aggregated(rows + [row]) == Aggregated(rows)
  {
    forall m, keys
      ensures Shows(rows + [row], m, keys) <==> Shows(rows, m, keys)
    {
      AppendRow(rows, row, m);
    }
    hide Shows;
    assert RowsAgree(minerOf, rows + [row]);
    forall m
      ensures m in Miners(rows + [row]) <==> m in Miners(rows)
      ensures WorkOf(rows + [row], m) == WorkOf(rows, m) && KeysOf(rows + [row], m) == KeysOf(rows, m)
    {
      AppendRow(rows, row, m);
      MergedKeys(minerOf, rows, row, m);
    }
    hide WorkOf, KeysOf, Miners;
  }

  lemma CreditedRow(minerOf: PayoutKeys -> MinerId, rows: seq<MinerWork>, row: MinerWork)
    requires RowsAgree(minerOf, rows) && row.work > 0
    ensures RowsAgree(minerOf, rows + [row]) <==>
      MayMerge(minerOf, RowOf(Aggregated(rows), row.miner).payout, row)
    ensures RowsAgree(minerOf, rows + [row]) ==> Aggregated(rows + [row]) == AddRow(Aggregated(rows), row)
  {
    hide Shows, WorkOf, KeysOf, Miners, RowsAgree, MayMerge;
    MergeAgrees(minerOf, rows, row);
    if row.miner !in Miners(rows) {
      NoRowNoWork(rows, row.miner);
    }
    if RowsAgree(minerOf, rows + [row]) {
      forall m
        ensures m in Miners(rows + [row]) <==> m in Miners(rows) || m == row.miner
        ensures WorkOf(rows + [row], m) == WorkOf(rows, m) + if row.miner == m then row.work else 0
        ensures KeysOf(rows + [row], m) == if row.miner == m && row.payout.Some? then row.payout else KeysOf(rows, m)
      {
        AppendRow(rows, row, m);
        MergedKeys(minerOf, rows, row, m);
      }
    }
  }

  lemma PrefixAgrees(minerOf: PayoutKeys -> MinerId, rows: seq<MinerWork>, n: nat)
    requires n <= |rows| && RowsAgree(minerOf, rows)
    ensures RowsAgree(minerOf, rows[..n])
  {
    forall m, keys | Shows(rows[..n], m, keys)
      ensures Shows(rows, m, keys)
    {
      var row :| Counts(rows[..n], row) && row.miner == m && row.payout == Some(keys);
      assert Counts(rows, row);
    }
  }

  function AddRow(credited: map<MinerId, Credit>, row: MinerWork): map<MinerId, Credit> {
    var sofar := RowOf(credited, row.miner);
    credited[row.miner := Credit(sofar.work + row.work, if row.payout.Some? then row.payout else sofar.payout)]
  }

  /** Add one row to its miner's aggregate, unless the payout keys are wrong. */
  method MergeRow(minerOf: PayoutKeys -> MinerId, credited: map<MinerId, Credit>, row: MinerWork)
    returns (r: Option<map<MinerId, Credit>>)
    ensures r == if MayMerge(minerOf, RowOf(credited, row.miner).payout, row)
      then Some(AddRow(credited, row)) else None
  {
    var aggregate := RowOf(credited, row.miner);
    aggregate := aggregate.(work := aggregate.work + row.work);
    if row.payout.Some? {
      if row.miner != minerOf(row.payout.value) {
        return None;
      }
      if aggregate.payout.Some? && aggregate.payout != row.payout {
        return None;
      }
      aggregate := aggregate.(payout := row.payout);
    }
    return Some(credited[row.miner := aggregate]);
  }

  /** The first pass: one row per miner. */
  method AggregateRows(minerOf: PayoutKeys -> MinerId, rows: seq<MinerWork>)
    returns (r: Outcome<map<MinerId, Credit>>)
    ensures r == if RowsAgree(minerOf, rows) then Value(Aggregated(rows)) else Thrown
  {
    var credited: map<MinerId, Credit> := map[];
    assert Aggregated(rows[..0]) == map[];
    assert RowsAgree(minerOf, rows[..0]);
    hide RowsAgree, Aggregated, AddRow, MayMerge, RowOf, KeysOf;
    for i := 0 to |rows|
      invariant RowsAgree(minerOf, rows[..i]) && credited == Aggregated(rows[..i])
    {
      assert rows[..i + 1] == rows[..i] + [rows[i]];
      if rows[i].work == 0 {
        SkippedRow(minerOf, rows[..i], rows[i]);
      } else {
        CreditedRow(minerOf, rows[..i], rows[i]);
        var merged := MergeRow(minerOf, credited, rows[i]);
        if merged.None? {
          RestDisagrees(minerOf, rows, i + 1);
          return Thrown;
        }
        credited := merged.value;
      }
    }
    assert rows[..|rows|] == rows;
    return Value(credited);
  }

  lemma RestDisagrees(minerOf: PayoutKeys -> MinerId, rows: seq<MinerWork>, n: nat)
    requires n <= |rows| && !RowsAgree(minerOf, rows[..n])
    ensures !RowsAgree(minerOf, rows)
  {
    if RowsAgree(minerOf, rows) {
      PrefixAgrees(minerOf, rows, n);
    }
  }

  // ---- The whole allocation --------------------------------------------------------------------

  ghost function Works(credited: map<MinerId, Credit>, ids: seq<MinerId>): (works: seq<nat>)
    requires forall m | m in ids :: m in credited
    ensures |works| == |ids|
    ensures forall i | 0 <= i < |ids| :: ids[i] in credited && works[i] == credited[ids[i]].work
  {
    seq(|ids|, i requires 0 <= i < |ids| => assert ids[i] in ids; credited[ids[i]].work)
  }

  ghost predicate HasClaims(credited: map<MinerId, Credit>) {
    credited != map[] && forall m | m in credited :: credited[m].work > 0
  }

  lemma ClaimsOf(credited: map<MinerId, Credit>)
    requires HasClaims(credited)
    ensures var ids := Keys(credited.Keys); IsClaims(ids, Works(credited, ids))
  {
    var ids := Keys(credited.Keys);
    var m :| m in credited;
    assert m in ids;
    SumPrefix(Works(credited, ids), 1);
  }

  ghost function PayoutsFor(credited: map<MinerId, Credit>, ids: seq<MinerId>, works: seq<nat>, reward: nat)
    : (payouts: seq<Payout>)
    requires IsClaims(ids, works) && forall m | m in ids :: m in credited
    ensures |payouts| == |ids|
    ensures forall i | 0 <= i < |ids| ::
      && ids[i] in ids
      && payouts[i] == Payout(ids[i], works[i], Amount(ids, works, reward, i), credited[ids[i]].payout)
  {
    seq(|ids|, i requires 0 <= i < |ids| => assert ids[i] in ids;
      Payout(ids[i], works[i], Amount(ids, works, reward, i), credited[ids[i]].payout))
  }

  ghost function PayoutsOf(credited: map<MinerId, Credit>, reward: nat): seq<Payout>
    requires HasClaims(credited)
  {
    ClaimsOf(credited);
    var ids := Keys(credited.Keys);
    PayoutsFor(credited, ids, Works(credited, ids), reward)
  }

  lemma AggregatedClaims(rows: seq<MinerWork>)
    requires Aggregated(rows) != map[]
    ensures HasClaims(Aggregated(rows))
  {
    forall m | m in Aggregated(rows)
      ensures Aggregated(rows)[m].work > 0
    {
      var row :| row in rows && row.work > 0 && row.miner == m;
      WorkIsPositive(rows, row);
    }
  }

  /** A total does not fit the 32 bytes it is stored in. */
  ghost predicate TooMuchWork(credited: map<MinerId, Credit>) {
    exists m | m in credited :: credited[m].work >= TWO_256
  }

  ghost function Allocate(minerOf: PayoutKeys -> MinerId, rows: seq<MinerWork>, reward: nat)
    : Outcome<seq<Payout>>
  {
    var credited := Aggregated(rows);
    if !RowsAgree(minerOf, rows) then Thrown
    else if credited == map[] then Value([])
    else if TooMuchWork(credited) then Thrown
    else AggregatedClaims(rows); Value(PayoutsOf(credited, reward))
  }

  /** The rows before the leftover units are handed out. */
  ghost predicate FloorsSoFar(
    credited: map<MinerId, Credit>, ids: seq<MinerId>, works: seq<nat>, reward: nat, n: nat,
    payouts: seq<Payout>, fractions: seq<Fraction>)
    requires IsClaims(ids, works) && n <= |ids| && forall m | m in ids :: m in credited
  {
    && |payouts| == n && |fractions| == n
    && (forall i | 0 <= i < n :: ids[i] in ids &&
          payouts[i] == Payout(ids[i], works[i], Floor(reward, works[i], Sum(works)), credited[ids[i]].payout))
    && (forall i | 0 <= i < n :: fractions[i] == Fraction(ids[i], Remainder(reward, works[i], Sum(works)), i))
  }

  /** The sum of all claims, in identifier order. */
  method TotalOf(credited: map<MinerId, Credit>, ids: seq<MinerId>) returns (total: nat)
    requires forall m | m in ids :: m in credited
    ensures total == Sum(Works(credited, ids))
  {
    total := 0;
    ghost var works := Works(credited, ids);
    for i := 0 to |ids|
      invariant total == Sum(works[..i])
    {
      assert ids[i] in ids && works[..i + 1][..i] == works[..i];
      total := total + credited[ids[i]].work;
    }
    assert works[..|ids|] == works;
  }

  ghost predicate WorkFits(credited: map<MinerId, Credit>, ids: seq<MinerId>) {
    forall m | m in ids && m in credited :: credited[m].work < TWO_256
  }

  lemma FloorsNext(
    credited: map<MinerId, Credit>, ids: seq<MinerId>, works: seq<nat>, reward: nat, n: nat,
    payouts: seq<Payout>, fractions: seq<Fraction>)
    requires IsClaims(ids, works) && n < |ids| && forall m | m in ids :: m in credited
    requires works[n] == credited[ids[n]].work && FloorsSoFar(credited, ids, works, reward, n, payouts, fractions)
    ensures var row, total := credited[ids[n]], Sum(works);
      var floor := Floor(reward, row.work, total);
      && FloorsSoFar(credited, ids, works, reward, n + 1,
                     payouts + [Payout(ids[n], row.work, floor, row.payout)],
                     fractions + [Fraction(ids[n], Remainder(reward, row.work, total), n)])
      && FloorSum(works[..n + 1], reward, total) == FloorSum(works[..n], reward, total) + floor <= reward
  {
    hide Floor, Remainder;
    assert works[..n + 1][..n] == works[..n];
    FloorsFit(works, reward, n + 1);
  }

  /** Floors and remainders of every claim.  The running total never passes the reward. */
  method FloorRows(credited: map<MinerId, Credit>, ids: seq<MinerId>, total: nat, reward: nat)
    returns (ok: bool, payouts: seq<Payout>, fractions: seq<Fraction>, paid: nat)
    requires forall m | m in ids :: m in credited
    requires IsClaims(ids, Works(credited, ids)) && total == Sum(Works(credited, ids))
    ensures ok <==> WorkFits(credited, ids)
    ensures ok ==>
      var works := Works(credited, ids);
      && FloorsSoFar(credited, ids, works, reward, |ids|, payouts, fractions)
      && paid == FloorSum(works, reward, total) <= reward
  {
    ok, payouts, fractions, paid := true, [], [], 0;
    ghost var works := Works(credited, ids);
    assert FloorsSoFar(credited, ids, works, reward, 0, payouts, fractions);
    assert FloorSum(works[..0], reward, total) == 0 && WorkFits(credited, ids[..0]);
    hide Floor, Remainder, Sum, Works, FloorsSoFar, FloorSum, IsClaims;
    for i := 0 to |ids|
      invariant FloorsSoFar(credited, ids, works, reward, i, payouts, fractions)
      invariant WorkFits(credited, ids[..i])
      invariant paid == FloorSum(works[..i], reward, total) <= reward
    {
      assert ids[i] in ids && ids[..i + 1] == ids[..i] + [ids[i]];
      var row := credited[ids[i]];
      var amount := Floor(reward, row.work, total);
      FloorsNext(credited, ids, works, reward, i, payouts, fractions);
      assert amount <= reward - paid;
      if row.work >= TWO_256 {
        ok := false;
        return;
      }
      paid := paid + amount;
      payouts := payouts + [Payout(ids[i], row.work, amount, row.payout)];
      fractions := fractions + [Fraction(ids[i], Remainder(reward, row.work, total), i)];
    }
    assert works[..|ids|] == works && ids[..|ids|] == ids;
  }

  /** One unit more for the rows in `bonus`. */
  ghost function Raised(floors: seq<Payout>, bonus: set<nat>): (payouts: seq<Payout>)
    ensures |payouts| == |floors|
    ensures forall i | 0 <= i < |floors| && i !in bonus :: payouts[i] == floors[i]
    ensures forall i | 0 <= i < |floors| && i in bonus ::
      payouts[i] == floors[i].(amount := floors[i].amount + 1)
  {
    seq(|floors|, i requires 0 <= i < |floors| =>
      if i in bonus then floors[i].(amount := floors[i].amount + 1) else floors[i])
  }

  /** Each fraction names a different one of `n` rows. */
  ghost predicate Indexed(fractions: seq<Fraction>, n: nat) {
    && (forall i | 0 <= i < |fractions| :: fractions[i].index < n)
    && (forall i, j | 0 <= i < j < |fractions| :: fractions[i].index != fractions[j].index)
  }

  ghost function IndicesOf(fractions: seq<Fraction>): set<nat> {
    set f | f in fractions :: f.index
  }

  lemma RaiseNext(floors: seq<Payout>, sorted: seq<Fraction>, n: nat)
    requires n < |sorted| && Indexed(sorted, |floors|)
    ensures sorted[n].index < |floors|
    ensures var k, sofar := sorted[n].index, Raised(floors, IndicesOf(sorted[..n]));
      Raised(floors, IndicesOf(sorted[..n + 1])) == sofar[k := sofar[k].(amount := sofar[k].amount + 1)]
  {
    hide Raised, IndicesOf;
    NextIndex(sorted, |floors|, n);
    RaisedOneMore(floors, IndicesOf(sorted[..n]), sorted[n].index);
  }

  lemma NextIndex(sorted: seq<Fraction>, rows: nat, n: nat)
    requires n < |sorted| && Indexed(sorted, rows)
    ensures sorted[n].index < rows && sorted[n].index !in IndicesOf(sorted[..n])
    ensures IndicesOf(sorted[..n + 1]) == IndicesOf(sorted[..n]) + {sorted[n].index}
  {
    assert sorted[..n + 1] == sorted[..n] + [sorted[n]];
  }

  lemma RaisedOneMore(floors: seq<Payout>, bonus: set<nat>, k: nat)
    requires k < |floors| && k !in bonus
    ensures var sofar := Raised(floors, bonus);
      Raised(floors, bonus + {k}) == sofar[k := sofar[k].(amount := sofar[k].amount + 1)]
  {
  }

  /** Hand one unit each to the first `leftover` fractions. */
  method HandOut(floors: seq<Payout>, sorted: seq<Fraction>, leftover: nat) returns (payouts: seq<Payout>)
    requires leftover <= |sorted| && Indexed(sorted, |floors|)
    ensures payouts == Raised(floors, IndicesOf(sorted[..leftover]))
  {
    payouts := floors;
    assert Raised(floors, IndicesOf(sorted[..0])) == floors;
    hide IndicesOf, Indexed, Raised;
    for n := 0 to leftover
      invariant payouts == Raised(floors, IndicesOf(sorted[..n]))
    {
      RaiseNext(floors, sorted, n);
      var index := sorted[n].index;
      payouts := payouts[index := payouts[index].(amount := payouts[index].amount + 1)];
    }
  }

  lemma FractionsAre(
    credited: map<MinerId, Credit>, ids: seq<MinerId>, works: seq<nat>, reward: nat,
    payouts: seq<Payout>, fractions: seq<Fraction>)
    requires IsClaims(ids, works) && forall m | m in ids :: m in credited
    requires FloorsSoFar(credited, ids, works, reward, |ids|, payouts, fractions)
    ensures var sorted := SortFractions(fractions);
      && sorted == Sorted(ids, works, reward) && |sorted| == |ids| == |payouts|
      && Indexed(sorted, |payouts|)
  {
    hide Remainder, Sum, SortFractions, Floor;
    assert fractions == Fractions(ids, works, reward);
    SortedFacts(ids, works, reward);
  }

  lemma PayoutsAre(
    credited: map<MinerId, Credit>, ids: seq<MinerId>, works: seq<nat>, reward: nat,
    floors: seq<Payout>, fractions: seq<Fraction>, paid: nat)
    requires IsClaims(ids, works) && forall m | m in ids :: m in credited
    requires FloorsSoFar(credited, ids, works, reward, |ids|, floors, fractions)
    requires paid == FloorSum(works, reward, Sum(works)) <= reward
    ensures var sorted := Sorted(ids, works, reward);
      && reward - paid <= |sorted|
      && Raised(floors, IndicesOf(sorted[..reward - paid])) == PayoutsFor(credited, ids, works, reward)
  {
    LeftoverBound(works, reward);
    SortedFacts(ids, works, reward);
    assert reward - paid == Leftover(works, reward);
    assert IndicesOf(Sorted(ids, works, reward)[..reward - paid]) == Bonus(ids, works, reward);
    hide Sorted, Leftover, Sum, FloorSum, Fractions, Bonus, IndicesOf, FloorsSoFar, Raised, PayoutsFor;
    RaisedFloors(credited, ids, works, reward, floors, fractions);
  }

  lemma RaisedFloors(
    credited: map<MinerId, Credit>, ids: seq<MinerId>, works: seq<nat>, reward: nat,
    floors: seq<Payout>, fractions: seq<Fraction>)
    requires IsClaims(ids, works) && forall m | m in ids :: m in credited
    requires FloorsSoFar(credited, ids, works, reward, |ids|, floors, fractions)
    ensures Raised(floors, Bonus(ids, works, reward)) == PayoutsFor(credited, ids, works, reward)
  {
    hide Bonus, Floor, Sum, Remainder, FloorsSoFar, Raised, PayoutsFor, Amount;
    var a, b := Raised(floors, Bonus(ids, works, reward)), PayoutsFor(credited, ids, works, reward);
    FloorsLength(credited, ids, works, reward, floors, fractions);
    forall i | 0 <= i < |ids|
      ensures a[i] == b[i]
    {
      RaisedFloor(credited, ids, works, reward, floors, fractions, i);
    }
  }

  lemma FloorsLength(
    credited: map<MinerId, Credit>, ids: seq<MinerId>, works: seq<nat>, reward: nat,
    floors: seq<Payout>, fractions: seq<Fraction>)
    requires IsClaims(ids, works) && forall m | m in ids :: m in credited
    requires FloorsSoFar(credited, ids, works, reward, |ids|, floors, fractions)
    ensures |floors| == |ids|
  {
  }

  lemma RaisedFloor(
    credited: map<MinerId, Credit>, ids: seq<MinerId>, works: seq<nat>, reward: nat,
    floors: seq<Payout>, fractions: seq<Fraction>, i: nat)
    requires IsClaims(ids, works) && forall m | m in ids :: m in credited
    requires FloorsSoFar(credited, ids, works, reward, |ids|, floors, fractions) && i < |ids| == |floors|
    ensures Raised(floors, Bonus(ids, works, reward))[i] == PayoutsFor(credited, ids, works, reward)[i]
  {
    hide Bonus, Floor, Sum, Remainder;
  }

  lemma WorkFitsOrNot(credited: map<MinerId, Credit>, ids: seq<MinerId>)
    requires forall m :: m in ids <==> m in credited
    ensures WorkFits(credited, ids) <==> !TooMuchWork(credited)
  {
  }

  method AllocatePplnsReward(minerOf: PayoutKeys -> MinerId, rows: seq<MinerWork>, reward: U64)
    returns (r: Outcome<seq<Payout>>)
    ensures r == Allocate(minerOf, rows, reward)
  {
    var aggregated := AggregateRows(minerOf, rows);
    if aggregated.Thrown? {
      return Thrown;
    }
    var credited := aggregated.value;
    if credited == map[] {
      return Value([]);
    }
    AggregatedClaims(rows);
    ClaimsOf(credited);
    hide Keys, Works, Leftover, Floor, Sum, Sorted, Fractions, Aggregated, RowsAgree, SortFractions, PayoutsOf, IsClaims,
         FloorSum, HasClaims;
    r := ShareOut(credited, reward);
  }

  /** Sort the remainders and hand the leftover units out. */
  method Complete(
    credited: map<MinerId, Credit>, ids: seq<MinerId>, ghost works: seq<nat>, reward: nat,
    floors: seq<Payout>, fractions: seq<Fraction>, paid: nat)
    returns (payouts: seq<Payout>)
    requires IsClaims(ids, works) && forall m | m in ids :: m in credited
    requires FloorsSoFar(credited, ids, works, reward, |ids|, floors, fractions)
    requires paid == FloorSum(works, reward, Sum(works)) <= reward
    ensures payouts == PayoutsFor(credited, ids, works, reward)
  {
    hide Sum, Sorted, SortFractions, IsClaims, FloorSum, FloorsSoFar, PayoutsFor, Raised, IndicesOf, Indexed;
    FractionsAre(credited, ids, works, reward, floors, fractions);
    PayoutsAre(credited, ids, works, reward, floors, fractions, paid);
    payouts := HandOut(floors, SortFractions(fractions), reward - paid);
  }

  /** Apportion the reward over aggregated claims. */
  method ShareOut(credited: map<MinerId, Credit>, reward: U64) returns (r: Outcome<seq<Payout>>)
    requires HasClaims(credited)
    ensures r == if TooMuchWork(credited) then Thrown else Value(PayoutsOf(credited, reward))
  {
    ClaimsOf(credited);
    var ids := Keys(credited.Keys);
    ghost var works := Works(credited, ids);
    WorkFitsOrNot(credited, ids);
    hide Keys, Works, Sum, IsClaims, FloorSum, HasClaims, FloorsSoFar, TooMuchWork, PayoutsFor, WorkFits, Ascending;
    var total := TotalOf(credited, ids);
    var ok, floors, fractions, paid := FloorRows(credited, ids, total, reward);
    if !ok {
      return Thrown;
    }
    var payouts := Complete(credited, ids, works, reward, floors, fractions, paid);
    return Value(payouts);
  }
}

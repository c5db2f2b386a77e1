/** Largest-remainder apportionment: dividing a block reward among miners in proportion to work. */
module Apportion {
  import opened Orders
  import opened Shares

  // ---- Quotas ----------------------------------------------------------------------------------

  ghost function Sum(works: seq<nat>): nat {
    if works == [] then 0 else Sum(works[..|works| - 1]) + works[|works| - 1]
  }

  /** The exact quota of work `w` is `Floor + Remainder / total`. */
  function Floor(reward: nat, w: nat, total: nat): nat
    requires total > 0
  {
    reward * w / total
  }

  function Remainder(reward: nat, w: nat, total: nat): (r: nat)
    requires total > 0
    ensures r < total
  {
    reward * w % total
  }

  ghost function FloorSum(works: seq<nat>, reward: nat, total: nat): nat
    requires total > 0
  {
    if works == [] then 0
    else FloorSum(works[..|works| - 1], reward, total) + Floor(reward, works[|works| - 1], total)
  }

  ghost function RemainderSum(works: seq<nat>, reward: nat, total: nat): nat
    requires total > 0
  {
    if works == [] then 0
    else RemainderSum(works[..|works| - 1], reward, total) + Remainder(reward, works[|works| - 1], total)
  }

  /** A named product, so that the proofs below stay linear. */
  function Times(a: int, b: int): int { a * b }

  lemma TimesPlus(a: int, b: int, c: int)
    ensures Times(a, b + c) == Times(a, b) + Times(a, c)
    ensures Times(a, 0) == 0 && Times(a, 1) == a
  {
  }

  lemma TimesMonotone(k: nat, a: nat, b: nat)
    requires a <= b
    ensures Times(k, a) <= Times(k, b)
  {
  }

  lemma TimesCommutes(a: int, b: int)
    ensures Times(a, b) == Times(b, a)
  {
  }

  lemma QuotaParts(reward: nat, w: nat, total: nat)
    requires total > 0
    ensures Times(reward, w) == Times(total, Floor(reward, w, total)) + Remainder(reward, w, total)
  {
    Division(reward * w, total);
  }

  lemma Division(n: nat, d: nat)
    requires d > 0
    ensures n == d * (n / d) + n % d
  {
  }

  lemma {:induction false} QuotasAddUp(works: seq<nat>, reward: nat, total: nat)
    requires total > 0
    ensures Times(reward, Sum(works)) ==
      Times(total, FloorSum(works, reward, total)) + RemainderSum(works, reward, total)
    ensures RemainderSum(works, reward, total) <= Times(total - 1, |works|)
  {
    hide Times, Floor, Remainder;
    TimesPlus(reward, 0, 0);
    TimesPlus(total, 0, 0);
    TimesPlus(total - 1, 0, 0);
    if works != [] {
      var front, w := works[..|works| - 1], works[|works| - 1];
      QuotasAddUp(front, reward, total);
      QuotaParts(reward, w, total);
      TimesPlus(reward, Sum(front), w);
      TimesPlus(total, FloorSum(front, reward, total), Floor(reward, w, total));
      TimesPlus(total - 1, |front|, 1);
    }
  }

  lemma {:induction false} SumPrefix(works: seq<nat>, n: nat)
    requires n <= |works|
    ensures Sum(works[..n]) <= Sum(works)
    decreases |works| - n
  {
    if n == |works| {
      assert works[..n] == works;
    } else {
      SumPrefix(works, n + 1);
      assert works[..n + 1][..n] == works[..n];
    }
  }

  /** The floors of any prefix stay within the reward: the running total never overflows it. */
  lemma FloorsFit(works: seq<nat>, reward: nat, n: nat)
    requires Sum(works) > 0 && n <= |works|
    ensures FloorSum(works[..n], reward, Sum(works)) <= reward
  {
    hide Times, FloorSum, RemainderSum, Sum;
    var total, front := Sum(works), works[..n];
    var floors := FloorSum(front, reward, total);
    QuotasAddUp(front, reward, total);
    SumPrefix(works, n);
    TimesMonotone(reward, Sum(front), total);
    TimesCommutes(reward, total);
    if floors > reward {
      TimesMonotone(total, reward + 1, floors);
      TimesPlus(total, reward, 1);
    }
  }

  /** What the floors leave over is fewer units than there are miners, and is made of remainders. */
  lemma LeftoverBound(works: seq<nat>, reward: nat)
    requires Sum(works) > 0
    ensures var total := Sum(works);
      var leftover := reward - FloorSum(works, reward, total);
      && 0 <= leftover < |works|
      && Times(total, leftover) == RemainderSum(works, reward, total)
  {
    var total, n := Sum(works), |works|;
    assert n > 0 && works[..n] == works;
    hide Times, FloorSum, RemainderSum, Sum;
    var floors := FloorSum(works, reward, total);
    FloorsFit(works, reward, n);
    QuotasAddUp(works, reward, total);
    var leftover: nat := reward - floors;
    TimesPlus(total, floors, leftover);
    TimesCommutes(total, reward);
    if leftover >= n {
      TimesMonotone(total, n, leftover);
      TimesCommutes(total, n);
      TimesCommutes(total - 1, n);
      TimesPlus(n, total - 1, 1);
    }
  }

  // ---- The largest remainders ------------------------------------------------------------------

  datatype Fraction = Fraction(miner: MinerId, remainder: nat, index: nat)

  /** Larger remainder first, then the smaller miner identifier.  Rows have distinct miners in index
      order, so the last comparison never decides. */
  predicate Before(a: Fraction, b: Fraction) {
    if a.remainder != b.remainder then a.remainder > b.remainder
    else if a.miner != b.miner then a.miner < b.miner
    else a.index < b.index
  }

  function SortFractions(fractions: seq<Fraction>): (sorted: seq<Fraction>)
    ensures |sorted| == |fractions|
  {
    SortBy(fractions, Before)
  }

  ghost function Remainders(fractions: seq<Fraction>): nat {
    if fractions == [] then 0 else fractions[0].remainder + Remainders(fractions[1..])
  }

  lemma {:induction false} RemaindersConcat(a: seq<Fraction>, b: seq<Fraction>)
    ensures Remainders(a + b) == Remainders(a) + Remainders(b)
  {
    if a == [] {
      assert a + b == b;
    } else {
      RemaindersConcat(a[1..], b);
      assert (a + b)[1..] == a[1..] + b;
    }
  }

  lemma {:induction false} RemaindersInserted(x: Fraction, s: seq<Fraction>)
    ensures Remainders(InsertBy(x, s, Before)) == x.remainder + Remainders(s)
  {
    if s == [] || Before(x, s[0]) {
      assert ([x] + s)[1..] == s;
    } else {
      RemaindersInserted(x, s[1..]);
      assert InsertBy(x, s, Before)[1..] == InsertBy(x, s[1..], Before);
    }
  }

  lemma {:induction false} RemaindersSorted(s: seq<Fraction>)
    ensures Remainders(SortBy(s, Before)) == Remainders(s)
  {
    if s != [] {
      RemaindersSorted(s[1..]);
      RemaindersInserted(s[0], SortBy(s[1..], Before));
    }
  }

  lemma {:induction false} RemaindersBound(fractions: seq<Fraction>, total: nat)
    requires total > 0 && forall f | f in fractions :: f.remainder < total
    ensures Remainders(fractions) <= Times(total - 1, |fractions|)
  {
    hide Times;
    TimesPlus(total - 1, 0, 0);
    if fractions != [] {
      RemaindersBound(fractions[1..], total);
      TimesPlus(total - 1, |fractions| - 1, 1);
    }
  }

  lemma {:induction false} RemaindersZero(fractions: seq<Fraction>)
    requires forall f | f in fractions :: f.remainder == 0
    ensures Remainders(fractions) == 0
  {
    if fractions != [] {
      RemaindersZero(fractions[1..]);
    }
  }

  lemma ZeroTail(sorted: seq<Fraction>, i: nat)
    requires SortedBy(sorted, Before) && i < |sorted| && sorted[i].remainder == 0
    ensures Remainders(sorted) == Remainders(sorted[..i])
  {
    var tail := sorted[i..];
    forall f | f in tail
      ensures f.remainder == 0
    {
      var j :| 0 <= j < |tail| && tail[j] == f;
      assert tail[j] == sorted[i + j];
      assert j == 0 || !Before(sorted[i + j], sorted[i]);
    }
    assert sorted == sorted[..i] + tail;
    RemaindersConcat(sorted[..i], tail);
    RemaindersZero(tail);
  }

  /** The first `leftover` fractions all have something left over. */
  lemma BonusHasRemainder(sorted: seq<Fraction>, total: nat, leftover: nat, i: nat)
    requires SortedBy(sorted, Before) && total > 0 && (forall f | f in sorted :: f.remainder < total)
    requires Remainders(sorted) == Times(total, leftover)
    requires i < leftover && i < |sorted|
    ensures sorted[i].remainder > 0
  {
    hide Times, Remainders;
    if sorted[i].remainder == 0 {
      ZeroTail(sorted, i);
      assert forall f | f in sorted[..i] :: f in sorted;
      RemaindersBound(sorted[..i], total);
      TimesMonotone(total, i + 1, leftover);
      TimesPlus(total, i, 1);
      TimesCommutes(total, i);
      TimesCommutes(total - 1, i);
      TimesPlus(i, total - 1, 1);
    }
  }

  // ---- Who gets the extra units ----------------------------------------------------------------

  /** One claim per miner, in identifier order. */
  ghost predicate IsClaims(ids: seq<MinerId>, works: seq<nat>) {
    |ids| == |works| && Ascending(ids) && Sum(works) > 0
  }

  ghost function Fractions(ids: seq<MinerId>, works: seq<nat>, reward: nat): (fractions: seq<Fraction>)
    requires IsClaims(ids, works)
    ensures |fractions| == |ids|
    ensures forall i | 0 <= i < |ids| ::
      fractions[i] == Fraction(ids[i], Remainder(reward, works[i], Sum(works)), i)
  {
    seq(|ids|, i requires 0 <= i < |ids| => Fraction(ids[i], Remainder(reward, works[i], Sum(works)), i))
  }

  ghost function Sorted(ids: seq<MinerId>, works: seq<nat>, reward: nat): seq<Fraction>
    requires IsClaims(ids, works)
  {
    SortFractions(Fractions(ids, works, reward))
  }

  ghost function Leftover(works: seq<nat>, reward: nat): (k: nat)
    requires Sum(works) > 0
    ensures k < |works|
  {
    LeftoverBound(works, reward);
    reward - FloorSum(works, reward, Sum(works))
  }

  /** The claims that receive one unit more than their floor. */
  ghost function Bonus(ids: seq<MinerId>, works: seq<nat>, reward: nat): set<nat>
    requires IsClaims(ids, works)
  {
    set f | f in Sorted(ids, works, reward)[..Leftover(works, reward)] :: f.index
  }

  ghost function Amount(ids: seq<MinerId>, works: seq<nat>, reward: nat, i: nat): nat
    requires IsClaims(ids, works) && i < |ids|
  {
    Floor(reward, works[i], Sum(works)) + if i in Bonus(ids, works, reward) then 1 else 0
  }

  ghost function Amounts(ids: seq<MinerId>, works: seq<nat>, reward: nat): (amounts: seq<nat>)
    requires IsClaims(ids, works)
    ensures |amounts| == |ids|
    ensures forall i | 0 <= i < |ids| :: amounts[i] == Amount(ids, works, reward, i)
  {
    seq(|ids|, i requires 0 <= i < |ids| => Amount(ids, works, reward, i))
  }

  lemma BeforeIsOrder()
    ensures TotalOrder(Before)
  {
  }

  /** Sorting rearranges the claims: position and claim determine each other. */
  lemma SortedFacts(ids: seq<MinerId>, works: seq<nat>, reward: nat)
    requires IsClaims(ids, works)
    ensures var sorted := Sorted(ids, works, reward);
      && |sorted| == |ids| && SortedBy(sorted, Before) && Distinct(sorted)
      && (forall f | f in sorted :: f.index < |ids| && f == Fractions(ids, works, reward)[f.index])
      && (forall i | 0 <= i < |ids| :: Fractions(ids, works, reward)[i] in sorted)
  {
    var fractions, sorted := Fractions(ids, works, reward), Sorted(ids, works, reward);
    BeforeIsOrder();
    SortByCorrect(fractions, Before);
    SameMembers(sorted, fractions);
    assert Distinct(fractions);
    DistinctPermutation(fractions, sorted);
    hide TotalOrder, SortBy;
    forall f | f in sorted
      ensures f.index < |ids| && f == fractions[f.index]
    {
      assert f in fractions;
    }
  }

  lemma {:induction false} FractionsMatch(ids: seq<MinerId>, works: seq<nat>, reward: nat, n: nat)
    requires IsClaims(ids, works) && n <= |ids|
    ensures Remainders(Fractions(ids, works, reward)[..n]) == RemainderSum(works[..n], reward, Sum(works))
  {
    hide Remainder, Sum, Fractions;
    if n > 0 {
      var all := Fractions(ids, works, reward);
      FractionsMatch(ids, works, reward, n - 1);
      assert all[..n] == all[..n - 1] + [all[n - 1]];
      RemaindersConcat(all[..n - 1], [all[n - 1]]);
      assert works[..n][..n - 1] == works[..n - 1];
    }
  }

  lemma SortedRemainders(ids: seq<MinerId>, works: seq<nat>, reward: nat)
    requires IsClaims(ids, works)
    ensures Remainders(Sorted(ids, works, reward)) == Times(Sum(works), Leftover(works, reward))
  {
    FractionsMatch(ids, works, reward, |ids|);
    RemaindersSorted(Fractions(ids, works, reward));
    LeftoverBound(works, reward);
    hide Times, Remainders, RemainderSum, FloorSum, Sum, SortBy;
    assert Fractions(ids, works, reward)[..|ids|] == Fractions(ids, works, reward);
    assert works[..|ids|] == works;
  }

  /** Exactly `Leftover` claims receive an extra unit. */
  lemma BonusSize(ids: seq<MinerId>, works: seq<nat>, reward: nat)
    requires IsClaims(ids, works)
    ensures |Bonus(ids, works, reward)| == Leftover(works, reward)
    ensures forall i | i in Bonus(ids, works, reward) :: i < |ids|
  {
    SortedFacts(ids, works, reward);
    hide Sorted, Fractions, Leftover, SortedBy, Sum;
    IndexCount(Sorted(ids, works, reward)[..Leftover(works, reward)]);
  }

  lemma {:induction false} IndexCount(fractions: seq<Fraction>)
    requires forall i, j | 0 <= i < j < |fractions| :: fractions[i].index != fractions[j].index
    ensures |set f | f in fractions :: f.index| == |fractions|
  {
    if fractions != [] {
      var front, last := fractions[..|fractions| - 1], fractions[|fractions| - 1];
      IndexCount(front);
      assert fractions == front + [last];
      assert (set f | f in fractions :: f.index) == (set f | f in front :: f.index) + {last.index};
    }
  }

  // ---- What the amounts satisfy ----------------------------------------------------------------

  lemma {:induction false} AmountsPrefix(ids: seq<MinerId>, works: seq<nat>, reward: nat, n: nat)
    requires IsClaims(ids, works) && n <= |ids|
    ensures Sum(Amounts(ids, works, reward)[..n]) ==
      FloorSum(works[..n], reward, Sum(works)) + |set i | i in Bonus(ids, works, reward) && i < n|
  {
    hide Floor, Bonus;
    var amounts, bonus := Amounts(ids, works, reward), Bonus(ids, works, reward);
    if n == 0 {
      assert (set i | i in bonus && i < n) == {};
    } else {
      AmountsPrefix(ids, works, reward, n - 1);
      assert amounts[..n][..n - 1] == amounts[..n - 1] && works[..n][..n - 1] == works[..n - 1];
      BelowNext(bonus, n - 1);
    }
  }

  lemma BelowNext(s: set<nat>, n: nat)
    ensures |set i | i in s && i < n + 1| == |set i | i in s && i < n| + if n in s then 1 else 0
  {
    var below := set i | i in s && i < n;
    assert (set i | i in s && i < n + 1) == if n in s then below + {n} else below;
  }

  /** The amounts add up to the reward exactly. */
  lemma AmountsAddUp(ids: seq<MinerId>, works: seq<nat>, reward: nat)
    requires IsClaims(ids, works)
    ensures Sum(Amounts(ids, works, reward)) == reward
  {
    AmountsPrefix(ids, works, reward, |ids|);
    BonusSize(ids, works, reward);
    hide Sum, Bonus, FloorSum;
    var amounts, bonus := Amounts(ids, works, reward), Bonus(ids, works, reward);
    assert amounts[..|ids|] == amounts && works[..|ids|] == works;
    assert (set i | i in bonus && i < |ids|) == bonus;
    LeftoverBound(works, reward);
  }

  lemma BonusPosition(ids: seq<MinerId>, works: seq<nat>, reward: nat, i: nat) returns (k: nat)
    requires IsClaims(ids, works) && i < |ids|
    ensures var sorted := Sorted(ids, works, reward);
      && k < |sorted| == |ids| && sorted[k] == Fractions(ids, works, reward)[i]
      && (i in Bonus(ids, works, reward) <==> k < Leftover(works, reward))
  {
    SortedFacts(ids, works, reward);
    hide Sorted, SortedBy, Sum, Leftover;
    var sorted, leftover := Sorted(ids, works, reward), Leftover(works, reward);
    k :| 0 <= k < |sorted| && sorted[k] == Fractions(ids, works, reward)[i];
    assert k < leftover ==> sorted[k] in sorted[..leftover];
    if i in Bonus(ids, works, reward) {
      var f :| f in sorted[..leftover] && f.index == i;
      assert f in sorted;
      assert f == sorted[k];
    }
  }

  /** Each amount is the floor of the exact quota or one more, and exact quotas are paid exactly. */
  lemma WithinOneUnit(ids: seq<MinerId>, works: seq<nat>, reward: nat, i: nat)
    requires IsClaims(ids, works) && i < |ids|
    ensures var floor := Floor(reward, works[i], Sum(works));
      && floor <= Amount(ids, works, reward, i) <= floor + 1
      && (Remainder(reward, works[i], Sum(works)) == 0 ==> Amount(ids, works, reward, i) == floor)
  {
    if i in Bonus(ids, works, reward) {
      var k := BonusPosition(ids, works, reward, i);
      SortedFacts(ids, works, reward);
      SortedRemainders(ids, works, reward);
      hide Sorted, SortedBy, Times, Remainders, Sum, Leftover, Bonus;
      var sorted := Sorted(ids, works, reward);
      forall f | f in sorted
        ensures f.remainder < Sum(works)
      {
        assert f == Fractions(ids, works, reward)[f.index];
      }
      BonusHasRemainder(sorted, Sum(works), Leftover(works, reward), k);
    }
  }

  /** The extra units go to an initial segment of the order. */
  lemma InitialSegment(ids: seq<MinerId>, works: seq<nat>, reward: nat, i: nat, j: nat)
    requires IsClaims(ids, works) && i < |ids| && j < |ids|
    requires Before(Fractions(ids, works, reward)[i], Fractions(ids, works, reward)[j])
    requires j in Bonus(ids, works, reward)
    ensures i in Bonus(ids, works, reward)
  {
    var a := BonusPosition(ids, works, reward, i);
    var b := BonusPosition(ids, works, reward, j);
    SortedFacts(ids, works, reward);
    hide Sorted, Bonus, Leftover, Sum;
    EarlierPosition(Sorted(ids, works, reward), a, b);
  }

  /** Of two claims of which only the first gets an extra unit, the first comes before the second. */
  lemma BonusBefore(ids: seq<MinerId>, works: seq<nat>, reward: nat, i: nat, j: nat)
    requires IsClaims(ids, works) && i < |ids| && j < |ids|
    requires Amount(ids, works, reward, i) == Floor(reward, works[i], Sum(works)) + 1
    requires Amount(ids, works, reward, j) != Floor(reward, works[j], Sum(works)) + 1
    ensures var r, s := Remainder(reward, works[i], Sum(works)), Remainder(reward, works[j], Sum(works));
      r > s || (r == s && ids[i] < ids[j])
  {
    hide Remainder, Floor, Bonus, Sum;
    assert i in Bonus(ids, works, reward) && j !in Bonus(ids, works, reward) && i != j;
    if Before(Fractions(ids, works, reward)[j], Fractions(ids, works, reward)[i]) {
      InitialSegment(ids, works, reward, j, i);
    }
  }

  lemma EarlierPosition(sorted: seq<Fraction>, a: nat, b: nat)
    requires SortedBy(sorted, Before) && a < |sorted| && b < |sorted| && Before(sorted[a], sorted[b])
    ensures a < b
  {
  }

  lemma QuotaOrder(reward: nat, more: nat, less: nat, total: nat)
    requires total > 0 && more >= less
    ensures Floor(reward, more, total) >= Floor(reward, less, total)
    ensures Floor(reward, more, total) == Floor(reward, less, total) ==>
      Remainder(reward, more, total) >= Remainder(reward, less, total)
    ensures more > less && reward > 0 && Floor(reward, more, total) == Floor(reward, less, total) ==>
      Remainder(reward, more, total) > Remainder(reward, less, total)
  {
    hide Times, Floor, Remainder;
    QuotaParts(reward, more, total);
    QuotaParts(reward, less, total);
    TimesMonotone(reward, less, more);
    var f, g := Floor(reward, more, total), Floor(reward, less, total);
    if f < g {
      TimesMonotone(total, f + 1, g);
      TimesPlus(total, f, 1);
    }
    if more > less && reward > 0 {
      TimesMonotone(reward, less + 1, more);
      TimesPlus(reward, less, 1);
    }
  }

  /** More work never pays less; equal work pays the smaller identifier no less. */
  lemma MoreWorkPaysNoLess(ids: seq<MinerId>, works: seq<nat>, reward: nat, i: nat, j: nat)
    requires IsClaims(ids, works) && i < |ids| && j < |ids|
    requires works[i] > works[j] || (works[i] == works[j] && ids[i] < ids[j])
    ensures Amount(ids, works, reward, i) >= Amount(ids, works, reward, j)
  {
    hide Floor, Remainder, Bonus, Sum;
    var total := Sum(works);
    QuotaOrder(reward, works[i], works[j], total);
    if Floor(reward, works[i], total) == Floor(reward, works[j], total) && j in Bonus(ids, works, reward) {
      WithinOneUnit(ids, works, reward, j);
      NothingToDivide(works[j], total);
      InitialSegment(ids, works, reward, i, j);
    }
  }

  lemma NothingToDivide(w: nat, total: nat)
    requires total > 0
    ensures Remainder(0, w, total) == 0
  {
  }
}
